/** Where the screen goes after an answer (`_pick_next_position` in `app/bot/handlers/test_taking.py`). */
module AutoAdvance {
  import opened Common
  import opened Sections

  /** Answers to questions that are not in the list are left out. */
  function AnsweredPositions(positionOf: map<nat, int>, answers: map<nat, string>): set<int> {
    set q | q in answers && q in positionOf :: positionOf[q]
  }

  /** How many steps forward from one position to another, wrapping from 50 to 1. */
  function StepsTo(from: int, to: int): int {
    if to > from then to - from else to - from + EXPECTED_ROW_COUNT
  }

  predicate Unanswered(answered: set<int>, p: int) {
    1 <= p <= EXPECTED_ROW_COUNT && p !in answered
  }

  /** Where the next screen must be: the nearest unanswered position in cyclic order, or, with none
      left, where it was. */
  ghost predicate IsNext(answered: set<int>, just: int, current: int, next: int) {
    if exists p :: Unanswered(answered, p) then
      Unanswered(answered, next) && forall p :: Unanswered(answered, p) ==> StepsTo(just, next) <= StepsTo(just, p)
    else next == current
  }

  lemma NextUnique(answered: set<int>, just: int, current: int, a: int, b: int)
    requires IsNext(answered, just, current, a) && IsNext(answered, just, current, b)
    requires 1 <= just <= EXPECTED_ROW_COUNT
    ensures a == b
  {
  }

  /** A position of the screen that was not just tapped and holds no answered question. */
  ghost predicate Waits(positionOf: map<nat, int>, answers: map<nat, string>, just: int, p: int) {
    && 1 <= p <= EXPECTED_ROW_COUNT && p != just
    && forall q :: q in answers && q in positionOf ==> positionOf[q] != p
  }

  lemma WaitsIffUnanswered(positionOf: map<nat, int>, answers: map<nat, string>, just: int)
    ensures forall p :: Waits(positionOf, answers, just, p)
                        <==> Unanswered(AnsweredPositions(positionOf, answers) + {just}, p)
  {
    forall p ensures p in AnsweredPositions(positionOf, answers)
                     <==> exists q :: q in answers && q in positionOf && positionOf[q] == p
    {
    }
  }

  /** The tapped position is one whose answer was just stored. With positions still waiting the screen
      moves to one of them, and passes none on the way, from the tapped one up to 50 and on from 1; with
      none left it stays. */
  method PickNextPosition(positionOf: map<nat, int>, answers: map<nat, string>, currentPosition: int, justAnswered: int)
    returns (next: int)
    requires 1 <= justAnswered <= EXPECTED_ROW_COUNT
    ensures IsNext(AnsweredPositions(positionOf, answers) + {justAnswered}, justAnswered, currentPosition, next)
    ensures (exists p :: Waits(positionOf, answers, justAnswered, p)) ==> Waits(positionOf, answers, justAnswered, next)
    ensures forall p :: Waits(positionOf, answers, justAnswered, p) ==>
                          (justAnswered < next ==> p < justAnswered || next <= p)
                          && (next < justAnswered ==> next <= p < justAnswered)
    ensures (forall p :: !Waits(positionOf, answers, justAnswered, p)) ==> next == currentPosition
  {
    WaitsIffUnanswered(positionOf, answers, justAnswered);
    var answered := AnsweredPositions(positionOf, answers) + {justAnswered};
    for pos := justAnswered + 1 to 51
      invariant forall p :: justAnswered < p < pos ==> p in answered
    {
      if pos !in answered {
        assert Unanswered(answered, pos);
        return pos;
      }
    }
    for pos := 1 to justAnswered
      invariant forall p :: 1 <= p < pos ==> p in answered
    {
      if pos !in answered {
        assert Unanswered(answered, pos);
        return pos;
      }
    }
    return currentPosition;
  }

  // ---------- Following the offers ----------

  function FirstFree(answered: set<int>, lo: int, hi: int): (r: Option<int>)
    ensures r.Some? ==> lo <= r.value <= hi && r.value !in answered && forall p :: lo <= p < r.value ==> p in answered
    ensures r.None? ==> forall p :: lo <= p <= hi ==> p in answered
    decreases hi - lo + 1
  {
    if lo > hi then None
    else if lo !in answered then Some(lo)
    else FirstFree(answered, lo + 1, hi)
  }

  function Next(answered: set<int>, just: int, current: int): int {
    var after := FirstFree(answered, just + 1, EXPECTED_ROW_COUNT);
    if after.Some? then after.value
    else
      var before := FirstFree(answered, 1, just - 1);
      if before.Some? then before.value else current
  }

  lemma NextIsNext(answered: set<int>, just: int, current: int)
    requires 1 <= just <= EXPECTED_ROW_COUNT && just in answered
    ensures IsNext(answered, just, current, Next(answered, just, current))
  {
    var next := Next(answered, just, current);
    assert Unanswered(answered, next) || forall p :: !Unanswered(answered, p);
  }

  datatype Sitting = Sitting(answered: set<int>, current: int)

  function Tap(s: Sitting, position: int): Sitting {
    var answered := s.answered + {position};
    Sitting(answered, Next(answered, position, s.current))
  }

  /** Answering the offered question, n times in a row. */
  function Follow(s: Sitting, n: nat): Sitting
    decreases n
  {
    if n == 0 then s else Follow(Tap(s, s.current), n - 1)
  }

  predicate Inside(answered: set<int>) {
    forall p :: p in answered ==> 1 <= p <= EXPECTED_ROW_COUNT
  }

  predicate AllAnswered(answered: set<int>) {
    forall p :: 1 <= p <= EXPECTED_ROW_COUNT ==> p in answered
  }

  function Missing(answered: set<int>): int {
    EXPECTED_ROW_COUNT - |answered|
  }

  lemma MissingFacts(answered: set<int>)
    requires Inside(answered)
    ensures Missing(answered) >= 0
    ensures Missing(answered) == 0 <==> AllAnswered(answered)
    ensures Missing(answered) > 0 <==> exists p :: Unanswered(answered, p)
  {
    SubsetSize(answered, Range(1, EXPECTED_ROW_COUNT));
    if Missing(answered) > 0 {
      assert Range(1, EXPECTED_ROW_COUNT) - answered != {};
      var p :| p in Range(1, EXPECTED_ROW_COUNT) - answered;
      assert Unanswered(answered, p);
    }
  }

  /** An answer leads to an unanswered question while there is one. */
  lemma TapLeadsOn(s: Sitting, position: int)
    requires Inside(s.answered) && 1 <= position <= EXPECTED_ROW_COUNT
    ensures Ready(Tap(s, position))
  {
    var s' := Tap(s, position);
    NextIsNext(s'.answered, position, s.current);
    MissingFacts(s'.answered);
  }

  /** The screen shows an unanswered question while there is one. */
  predicate Ready(s: Sitting) {
    Inside(s.answered) && (Missing(s.answered) > 0 ==> Unanswered(s.answered, s.current))
  }

  lemma OfferAnswersOne(s: Sitting)
    requires Ready(s) && Missing(s.answered) > 0
    ensures var s' := Tap(s, s.current);
            Ready(s') && s.answered <= s'.answered && Missing(s'.answered) == Missing(s.answered) - 1
  {
    TapLeadsOn(s, s.current);
    AddOne(s.answered, s.current, 1, EXPECTED_ROW_COUNT);
  }

  /** Every offer answers one more question: k offers answer k, and never one twice. */
  lemma {:induction false} FollowGrows(s: Sitting, n: nat)
    requires Ready(s) && n <= Missing(s.answered)
    ensures s.answered <= Follow(s, n).answered && Inside(Follow(s, n).answered)
    ensures Missing(Follow(s, n).answered) == Missing(s.answered) - n
    decreases n
  {
    if n > 0 {
      OfferAnswersOne(s);
      FollowGrows(Tap(s, s.current), n - 1);
    }
  }

  /** From any answered set and any first tap, the whole test is answered after exactly as many
      further taps as questions were left, and no sooner. */
  lemma CoversTheTest(s: Sitting, position: int, n: nat)
    requires Inside(s.answered) && 1 <= position <= EXPECTED_ROW_COUNT
    requires n <= Missing(s.answered + {position})
    ensures var s' := Follow(Tap(s, position), n);
            AllAnswered(s'.answered) <==> n == Missing(s.answered + {position})
  {
    TapLeadsOn(s, position);
    MissingFacts(Tap(s, position).answered);
    FollowGrows(Tap(s, position), n);
    MissingFacts(Follow(Tap(s, position), n).answered);
  }

  // ---------- The same over the stored answers ----------

  /** The answers of an attempt and the position its screen shows. */
  datatype Screen = Screen(answers: map<nat, string>, current: int)

  ghost predicate HasQuestion(positionOf: map<nat, int>, p: int) {
    exists q :: q in positionOf && positionOf[q] == p
  }

  /** Fifty questions, one at each position. */
  ghost predicate FullTest(positionOf: map<nat, int>) {
    && (forall q :: q in positionOf ==> 1 <= positionOf[q] <= EXPECTED_ROW_COUNT)
    && (forall p :: 1 <= p <= EXPECTED_ROW_COUNT ==> HasQuestion(positionOf, p))
    && (forall q, r :: q in positionOf && r in positionOf && positionOf[q] == positionOf[r] ==> q == r)
  }

  /** A tap stores an answer to the question at the position, and the screen moves on. */
  ghost function TapAnswer(positionOf: map<nat, int>, s: Screen, position: int, option: string): Screen
    requires FullTest(positionOf) && 1 <= position <= EXPECTED_ROW_COUNT
  {
    assert HasQuestion(positionOf, position);
    var q :| q in positionOf && positionOf[q] == position;
    var answers := s.answers[q := option];
    Screen(answers, Next(AnsweredPositions(positionOf, answers) + {position}, position, s.current))
  }

  /** Answering the shown question as often as there are options left. */
  ghost function AnswerShown(positionOf: map<nat, int>, s: Screen, options: seq<string>): Screen
    requires FullTest(positionOf)
    decreases |options|
  {
    if options == [] || !(1 <= s.current <= EXPECTED_ROW_COUNT) then s
    else AnswerShown(positionOf, TapAnswer(positionOf, s, s.current, options[0]), options[1..])
  }

  function SittingOf(positionOf: map<nat, int>, s: Screen): Sitting {
    Sitting(AnsweredPositions(positionOf, s.answers), s.current)
  }

  lemma AnsweredInside(positionOf: map<nat, int>, answers: map<nat, string>)
    requires FullTest(positionOf)
    ensures Inside(AnsweredPositions(positionOf, answers))
  {
  }

  lemma TapAnswers(positionOf: map<nat, int>, s: Screen, position: int, option: string)
    requires FullTest(positionOf) && 1 <= position <= EXPECTED_ROW_COUNT
    ensures SittingOf(positionOf, TapAnswer(positionOf, s, position, option)) == Tap(SittingOf(positionOf, s), position)
  {
    hide Next;
    assert HasQuestion(positionOf, position);
    var q :| q in positionOf && positionOf[q] == position;
    assert TapAnswer(positionOf, s, position, option).answers == s.answers[q := option];
    var before := AnsweredPositions(positionOf, s.answers);
    var after := AnsweredPositions(positionOf, s.answers[q := option]);
    forall p ensures p in after <==> p in before + {position} {
      if p in before {
        var r :| r in s.answers && r in positionOf && positionOf[r] == p;
        assert r in s.answers[q := option];
      }
      assert q in s.answers[q := option];
    }
    assert after == before + {position} && after + {position} == after;
  }

  lemma {:induction false} AnswersFollow(positionOf: map<nat, int>, s: Screen, options: seq<string>)
    requires FullTest(positionOf) && Ready(SittingOf(positionOf, s))
    requires |options| <= Missing(AnsweredPositions(positionOf, s.answers))
    ensures SittingOf(positionOf, AnswerShown(positionOf, s, options)) == Follow(SittingOf(positionOf, s), |options|)
    decreases |options|
  {
    hide Next, TapAnswer, FullTest, Tap;
    if options != [] {
      TapAnswers(positionOf, s, s.current, options[0]);
      OfferAnswersOne(SittingOf(positionOf, s));
      AnswersFollow(positionOf, TapAnswer(positionOf, s, s.current, options[0]), options[1..]);
    }
  }

  /** The questions without an answer. */
  function Open(positionOf: map<nat, int>, answers: map<nat, string>): set<nat> {
    set q | q in positionOf && q !in answers
  }

  /** On a full test, questions and positions are the same thing. */
  lemma OpenIsMissing(positionOf: map<nat, int>, answers: map<nat, string>)
    requires FullTest(positionOf)
    ensures |Open(positionOf, answers)| == Missing(AnsweredPositions(positionOf, answers))
  {
    hide Range, Places, AnsweredPositions;
    var open, answered := Open(positionOf, answers), AnsweredPositions(positionOf, answers);
    var all := Range(1, EXPECTED_ROW_COUNT);
    SameSize(positionOf, open);
    PlacesOfOpen(positionOf, answers);
    AnsweredInside(positionOf, answers);
    SubsetSize(answered, all);
    assert answered + (all - answered) == all;
  }

  lemma PlacesOfOpen(positionOf: map<nat, int>, answers: map<nat, string>)
    requires FullTest(positionOf)
    ensures Places(positionOf, Open(positionOf, answers))
            == Range(1, EXPECTED_ROW_COUNT) - AnsweredPositions(positionOf, answers)
  {
    var open, answered := Open(positionOf, answers), AnsweredPositions(positionOf, answers);
    forall p | 1 <= p <= EXPECTED_ROW_COUNT ensures p in Places(positionOf, open) <==> p !in answered {
      assert HasQuestion(positionOf, p);
    }
  }

  function Places(positionOf: map<nat, int>, s: set<nat>): set<int>
    requires s <= positionOf.Keys
  {
    set q | q in s :: positionOf[q]
  }

  lemma {:induction false} SameSize(positionOf: map<nat, int>, s: set<nat>)
    requires s <= positionOf.Keys
    requires forall q, r :: q in s && r in s && positionOf[q] == positionOf[r] ==> q == r
    ensures |Places(positionOf, s)| == |s|
    decreases |s|
  {
    if s != {} {
      var q :| q in s;
      SameSize(positionOf, s - {q});
      assert Places(positionOf, s) == Places(positionOf, s - {q}) + {positionOf[q]};
      assert s == (s - {q}) + {q};
    }
  }

  lemma AllAnsweredIff(positionOf: map<nat, int>, answers: map<nat, string>)
    requires FullTest(positionOf)
    ensures AllAnswered(AnsweredPositions(positionOf, answers)) <==> forall q :: q in positionOf ==> q in answers
  {
    var answered := AnsweredPositions(positionOf, answers);
    if AllAnswered(answered) {
      forall q | q in positionOf ensures q in answers { assert positionOf[q] in answered; }
    }
    if forall q :: q in positionOf ==> q in answers {
      forall p | 1 <= p <= EXPECTED_ROW_COUNT ensures p in answered {
        assert HasQuestion(positionOf, p);
      }
    }
  }

  lemma TapCloses(positionOf: map<nat, int>, s: Screen, position: int, option: string)
    requires FullTest(positionOf) && 1 <= position <= EXPECTED_ROW_COUNT
    ensures Open(positionOf, TapAnswer(positionOf, s, position, option).answers)
            == set q | q in positionOf && q !in s.answers && positionOf[q] != position
  {
    hide Next;
  }

  /** From any stored answers and any first tap, answering the shown question again and again: every
      question has an answer after exactly as many further taps as were left open, and no sooner. */
  lemma CoversTheQuestions(positionOf: map<nat, int>, s: Screen, position: int, first: string, options: seq<string>)
    requires FullTest(positionOf) && 1 <= position <= EXPECTED_ROW_COUNT
    requires |options| <= |set q | q in positionOf && q !in s.answers && positionOf[q] != position|
    ensures var end := AnswerShown(positionOf, TapAnswer(positionOf, s, position, first), options);
            (forall q :: q in positionOf ==> q in end.answers)
            <==> |options| == |set q | q in positionOf && q !in s.answers && positionOf[q] != position|
  {
    hide Next, TapAnswer, FullTest, Tap, Open;
    var s1 := TapAnswer(positionOf, s, position, first);
    AnsweredInside(positionOf, s.answers);
    TapAnswers(positionOf, s, position, first);
    TapCloses(positionOf, s, position, first);
    OpenIsMissing(positionOf, s1.answers);
    TapLeadsOn(SittingOf(positionOf, s), position);
    AnswersFollow(positionOf, s1, options);
    TapAnswered(SittingOf(positionOf, s), position);
    CoversTheTest(SittingOf(positionOf, s), position, |options|);
    AllAnsweredIff(positionOf, AnswerShown(positionOf, s1, options).answers);
  }

  lemma TapAnswered(s: Sitting, position: int)
    ensures Tap(s, position).answered == s.answered + {position}
  {
    hide Next;
  }

  /** With everything answered the screen stays. */
  lemma StaysWhenDone(s: Sitting, position: int)
    requires 1 <= position <= EXPECTED_ROW_COUNT && AllAnswered(s.answered + {position})
    ensures Tap(s, position).current == s.current
  {
    NextIsNext(s.answered + {position}, position, s.current);
    assert !exists p :: Unanswered(s.answered + {position}, p);
  }

  /** Whatever was answered, the next screen shows one of the test's questions. */
  ghost predicate OffersOnly(asked: set<int>) {
    forall answered: set<int>, just, current :: answered <= asked && just in asked && current in asked ==>
                                                  Next(answered + {just}, just, current) in asked
  }

  lemma NextOrStays(answered: set<int>, just: int, current: int)
    requires 1 <= just <= EXPECTED_ROW_COUNT && 1 <= current <= EXPECTED_ROW_COUNT && just in answered
    ensures 1 <= Next(answered, just, current) <= EXPECTED_ROW_COUNT
    ensures Next(answered, just, current) in answered ==> forall p :: 1 <= p <= EXPECTED_ROW_COUNT ==> p in answered
  {
    NextIsNext(answered, just, current);
    assert forall p :: 1 <= p <= EXPECTED_ROW_COUNT && p !in answered ==> Unanswered(answered, p);
  }

  /** The search runs to 50 whatever the test holds. Only on a test with all fifty questions does it
      never offer a position that has none. */
  lemma OffersOnlyQuestionsIff(asked: set<int>, some: int)
    requires Inside(asked) && some in asked
    ensures OffersOnly(asked) <==> forall p :: 1 <= p <= EXPECTED_ROW_COUNT ==> p in asked
  {
    if forall p :: 1 <= p <= EXPECTED_ROW_COUNT ==> p in asked {
      forall answered: set<int>, just, current | answered <= asked && just in asked && current in asked
        ensures Next(answered + {just}, just, current) in asked
      {
        NextOrStays(answered + {just}, just, current);
      }
    }
    if OffersOnly(asked) {
      assert asked + {some} == asked;
      NextOrStays(asked, some, some);
      assert Next(asked + {some}, some, some) in asked;
    }
  }
}
