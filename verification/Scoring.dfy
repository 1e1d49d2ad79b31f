/** Section scores and per-question marks (`app/services/scoring_service.py`,
    `AttemptService.get_question_marks`). */
module Scoring {
  import opened Common
  import opened Sections

  datatype Question = Question(testId: nat, position: int, section: Section, correct: string)

  datatype Answer = Answer(selected: string, isCorrect: bool)

  datatype Scores = Scores(rus: nat, ped: nat, kas: nat, total: nat)

  datatype AnswerRow = AnswerRow(questionId: nat, answer: Answer)

  datatype QuestionRow = QuestionRow(id: nat, question: Question)

  // ---------- The source's counting loop ----------

  /** A dictionary built row by row: a later row replaces an earlier one with the same id. */
  function ById(rows: seq<QuestionRow>): map<nat, Question> {
    if rows == [] then map[]
    else ById(rows[..|rows| - 1])[rows[|rows| - 1].id := rows[|rows| - 1].question]
  }

  predicate Hit(questionId: nat, answer: Answer, byId: map<nat, Question>, s: Section) {
    questionId in byId && answer.selected == byId[questionId].correct && byId[questionId].section == s
  }

  function CountHits(answers: seq<AnswerRow>, byId: map<nat, Question>, s: Section): nat {
    if answers == [] then 0
    else
      var last := answers[|answers| - 1];
      CountHits(answers[..|answers| - 1], byId, s) + if Hit(last.questionId, last.answer, byId, s) then 1 else 0
  }

  method Compute(answers: seq<AnswerRow>, questions: seq<QuestionRow>) returns (r: Scores)
    ensures r.rus == CountHits(answers, ById(questions), RusTili)
    ensures r.ped == CountHits(answers, ById(questions), Pedagogik)
    ensures r.kas == CountHits(answers, ById(questions), Kasbiy)
    ensures r.total == r.rus + r.ped + r.kas
  {
    var byId: map<nat, Question> := map[];
    for i := 0 to |questions|
      invariant byId == ById(questions[..i])
    {
      assert questions[..i + 1][..i] == questions[..i];
      byId := byId[questions[i].id := questions[i].question];
    }
    assert questions[..|questions|] == questions;

    var rus, ped, kas := 0, 0, 0;
    for i := 0 to |answers|
      invariant rus == CountHits(answers[..i], byId, RusTili)
      invariant ped == CountHits(answers[..i], byId, Pedagogik)
      invariant kas == CountHits(answers[..i], byId, Kasbiy)
    {
      assert answers[..i + 1][..i] == answers[..i];
      var row := answers[i];
      if row.questionId !in byId {
        continue;
      }
      var question := byId[row.questionId];
      if row.answer.selected != question.correct {
        continue;
      }
      match question.section
      case RusTili => rus := rus + 1;
      case Pedagogik => ped := ped + 1;
      case Kasbiy => kas := kas + 1;
    }
    assert answers[..|answers|] == answers;
    return Scores(rus, ped, kas, rus + ped + kas);
  }

  // ---------- What the counts mean ----------

  /** The questions of a section that were answered with their key. */
  function HitIds(chosen: map<nat, Answer>, byId: map<nat, Question>, s: Section): set<nat> {
    set q | q in chosen && Hit(q, chosen[q], byId, s)
  }

  function ScoreOf(chosen: map<nat, Answer>, byId: map<nat, Question>): Scores {
    var r, p, k := |HitIds(chosen, byId, RusTili)|, |HitIds(chosen, byId, Pedagogik)|, |HitIds(chosen, byId, Kasbiy)|;
    Scores(r, p, k, r + p + k)
  }

  /** The rows are the answers, each once, in some order. */
  ghost predicate ListsAnswers(rows: seq<AnswerRow>, chosen: map<nat, Answer>) {
    && (forall i, j :: 0 <= i < j < |rows| ==> rows[i].questionId != rows[j].questionId)
    && (forall i :: 0 <= i < |rows| ==> rows[i].questionId in chosen && chosen[rows[i].questionId] == rows[i].answer)
    && (forall q :: q in chosen ==> exists i :: 0 <= i < |rows| && rows[i].questionId == q)
  }

  ghost predicate ListsQuestions(rows: seq<QuestionRow>, byId: map<nat, Question>) {
    && (forall i, j :: 0 <= i < j < |rows| ==> rows[i].id != rows[j].id)
    && (forall i :: 0 <= i < |rows| ==> rows[i].id in byId && byId[rows[i].id] == rows[i].question)
    && (forall q :: q in byId ==> exists i :: 0 <= i < |rows| && rows[i].id == q)
  }

  lemma {:induction false} ByIdKeys(rows: seq<QuestionRow>, byId: map<nat, Question>)
    requires forall i :: 0 <= i < |rows| ==> rows[i].id in byId && byId[rows[i].id] == rows[i].question
    ensures forall q :: q in ById(rows) <==> exists i :: 0 <= i < |rows| && rows[i].id == q
    ensures forall q :: q in ById(rows) ==> q in byId && ById(rows)[q] == byId[q]
  {
    if rows != [] {
      var n := |rows| - 1;
      var init := rows[..n];
      ByIdKeys(init, byId);
      forall q ensures q in ById(rows) <==> exists i :: 0 <= i < |rows| && rows[i].id == q {
        if q in ById(init) {
          var i :| 0 <= i < |init| && init[i].id == q;
          assert rows[i].id == q;
        }
        if i :| 0 <= i < |rows| && rows[i].id == q {
          if i < n { assert init[i].id == q; }
        }
      }
    }
  }

  lemma ByIdOfList(rows: seq<QuestionRow>, byId: map<nat, Question>)
    requires ListsQuestions(rows, byId)
    ensures ById(rows) == byId
  {
    ByIdKeys(rows, byId);
  }

  function CountedIds(rows: seq<AnswerRow>, byId: map<nat, Question>, s: Section): (ids: set<nat>)
    ensures forall q ::
             q in ids <==> exists i :: 0 <= i < |rows| && rows[i].questionId == q && Hit(q, rows[i].answer, byId, s)
  {
    if rows == [] then {}
    else
      var n := |rows| - 1;
      var init, last := rows[..n], rows[n];
      assert forall i :: 0 <= i < n ==> init[i] == rows[i];
      CountedIds(init, byId, s) + if Hit(last.questionId, last.answer, byId, s) then {last.questionId} else {}
  }

  lemma NotCountedYet(rows: seq<AnswerRow>, byId: map<nat, Question>, s: Section)
    requires rows != [] && forall i, j :: 0 <= i < j < |rows| ==> rows[i].questionId != rows[j].questionId
    ensures rows[|rows| - 1].questionId !in CountedIds(rows[..|rows| - 1], byId, s)
  {
    hide Hit;
    var n := |rows| - 1;
    forall i | 0 <= i < n ensures rows[..n][i].questionId != rows[n].questionId {}
  }

  lemma OneMoreCounted(rows: seq<AnswerRow>, byId: map<nat, Question>, s: Section)
    requires rows != []
    ensures var n := |rows| - 1;
            CountedIds(rows, byId, s) == CountedIds(rows[..n], byId, s)
                                         + if Hit(rows[n].questionId, rows[n].answer, byId, s)
                                           then {rows[n].questionId} else {}
  {
    hide Hit;
  }

  lemma {:induction false} CountHitsIsSize(rows: seq<AnswerRow>, byId: map<nat, Question>, s: Section)
    requires forall i, j :: 0 <= i < j < |rows| ==> rows[i].questionId != rows[j].questionId
    ensures CountHits(rows, byId, s) == |CountedIds(rows, byId, s)|
  {
    if rows != [] {
      hide Hit, CountedIds;
      CountHitsIsSize(rows[..|rows| - 1], byId, s);
      NotCountedYet(rows, byId, s);
      OneMoreCounted(rows, byId, s);
    }
  }

  /** Whatever order the rows come in, the loop counts the questions answered with their key. */
  lemma ComputeCountsHits(rows: seq<AnswerRow>, chosen: map<nat, Answer>, byId: map<nat, Question>, s: Section)
    requires ListsAnswers(rows, chosen)
    ensures CountHits(rows, byId, s) == |HitIds(chosen, byId, s)|
    ensures HitIds(chosen, byId, s)
            == set q | q in chosen && q in byId && chosen[q].selected == byId[q].correct && byId[q].section == s
  {
    CountHitsIsSize(rows, byId, s);
    assert CountedIds(rows, byId, s) == HitIds(chosen, byId, s);
  }

  // ---------- Marks and bounds ----------

  /** The unique index on (test, position). */
  ghost predicate UniquePositions(byId: map<nat, Question>) {
    forall p, q :: p in byId && q in byId && byId[p].position == byId[q].position ==> p == q
  }

  ghost predicate SectionsFit(byId: map<nat, Question>) {
    forall q :: q in byId ==> SectionForPosition(byId[q].position) == Some(byId[q].section)
  }

  /** Every stored answer is to one of the questions, and its flag is up to date. */
  ghost predicate AnswersFit(chosen: map<nat, Answer>, byId: map<nat, Question>) {
    forall q :: q in chosen ==> q in byId && (chosen[q].isCorrect <==> chosen[q].selected == byId[q].correct)
  }

  ghost function QuestionMarks(chosen: map<nat, Answer>, byId: map<nat, Question>): map<int, Option<bool>>
    requires UniquePositions(byId)
  {
    map q | q in byId :: byId[q].position := if q in chosen then Some(chosen[q].isCorrect) else None
  }

  /** The positions that the result screen marks as correct. */
  function TrueMarks(marks: map<int, Option<bool>>): set<int> {
    set p | p in marks && marks[p] == Some(true)
  }

  function RightIds(chosen: map<nat, Answer>): set<nat> {
    set q | q in chosen && chosen[q].isCorrect
  }

  lemma {:induction false} ImageSize(ids: set<nat>, byId: map<nat, Question>)
    requires UniquePositions(byId) && ids <= byId.Keys
    ensures |set q | q in ids :: byId[q].position| == |ids|
    decreases |ids|
  {
    var image := set q | q in ids :: byId[q].position;
    if ids == {} {
      assert image == {};
    } else {
      var q :| q in ids;
      var rest := ids - {q};
      ImageSize(rest, byId);
      var smaller := set p | p in rest :: byId[p].position;
      assert image == smaller + {byId[q].position};
      assert byId[q].position !in smaller;
    }
  }

  /** No section scores more than it has questions: 35, 10 and 5, so 50 in all. */
  lemma ScoreBounds(chosen: map<nat, Answer>, byId: map<nat, Question>)
    requires UniquePositions(byId) && SectionsFit(byId)
    ensures var s := ScoreOf(chosen, byId); s.rus <= 35 && s.ped <= 10 && s.kas <= 5 && s.total <= 50
  {
    forall s: Section ensures |HitIds(chosen, byId, s)| <= Expected(s) {
      var ids := HitIds(chosen, byId, s);
      ImageSize(ids, byId);
      var positions := set q | q in ids :: byId[q].position;
      forall p | p in positions ensures Lo(s) <= p <= Hi(s) { RangesTile(p, s); }
      AtMostExpected(positions, s);
    }
    assert |HitIds(chosen, byId, RusTili)| <= 35 && |HitIds(chosen, byId, Pedagogik)| <= 10
           && |HitIds(chosen, byId, Kasbiy)| <= 5;
  }

  /** The total is the number of questions that the result screen marks as correct. */
  lemma TotalIsTrueMarks(chosen: map<nat, Answer>, byId: map<nat, Question>)
    requires UniquePositions(byId) && AnswersFit(chosen, byId)
    ensures var marks := QuestionMarks(chosen, byId);
            ScoreOf(chosen, byId).total == |TrueMarks(marks)|
  {
    var right := RightIds(chosen);
    RightIsHits(chosen, byId);
    assert right <= byId.Keys;
    ImageSize(right, byId);
    var marks := QuestionMarks(chosen, byId);
    var positions := set q | q in right :: byId[q].position;
    forall p | p in TrueMarks(marks) ensures p in positions {
      var q :| q in byId && byId[q].position == p && q in chosen && chosen[q].isCorrect;
    }
    assert positions == TrueMarks(marks);
  }

  lemma RightIsHits(chosen: map<nat, Answer>, byId: map<nat, Question>)
    requires AnswersFit(chosen, byId)
    ensures ScoreOf(chosen, byId).total == |RightIds(chosen)|
  {
    var right := RightIds(chosen);
    var r, p, k := HitIds(chosen, byId, RusTili), HitIds(chosen, byId, Pedagogik), HitIds(chosen, byId, Kasbiy);
    assert right == r + p + k by {
      forall q | q in right ensures q in r + p + k {
        assert Hit(q, chosen[q], byId, byId[q].section);
      }
    }
    assert r !! p && (r + p) !! k;
  }
}
