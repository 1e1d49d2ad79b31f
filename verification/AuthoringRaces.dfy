/**
 Saving a draft while it is published (`replace_draft_questions` and `publish` of
 `app/services/test_service.py`).

 Both check by plain SELECTs, which see the snapshot of the first one, and write later: a save writes the
 questions without looking at the status again, a publish looks at the status again but not at the images.
 What one transaction writes is one step here, since it locks the test's row from its first write on; the
 other calls are one step each. Deleting the questions of a test fails once an answer refers to one of them.
 */
module AuthoringRaces {
  import opened Common
  import opened Authoring
  import Sections
  import Calls = AuthoringRuns

  /** A transaction that has read and not written: a save with the images it found, or a publish with the
      active test it found. */
  datatype Session =
    | Saving(t: nat, drafts: seq<NewDraft>, images: map<int, Image>)
    | Publishing(t: nat, active: Option<nat>)

  /** `answered` are the tests with an answer to one of their questions. */
  datatype State = State(db: Db, answered: set<nat>, sessions: map<nat, Session>)

  datatype Step =
    | SaveRead(sid: nat, t: nat, drafts: seq<NewDraft>)
    | SaveWrite(sid: nat)
    | PublishRead(sid: nat, t: nat)
    | PublishWrite(sid: nat, caught: bool)
    | Abort(sid: nat)
    | GetAnswer(t: nat)
    | Call(call: Calls.Step)

  // ---------- Steps ----------

  /** The tables after the delete and the inserts of a save; as they were where a constraint stops it. */
  function Saved(db: Db, answered: set<nat>, s: Session): Db
    requires s.Saving?
  {
    var rest, carried := WithoutTest(db.questions, s.t), CarryAll(s.images, s.drafts);
    if s.t in db.tests && s.t !in answered && Free(rest, s.t, carried) then
      db.(questions := rest + Rows(s.t, carried))
    else db
  }

  predicate OtherActive(db: Db, t: nat) {
    exists u :: u in db.tests && u != t && IsActive(db, u)
  }

  /** What a publish has archived by the time of its activation. */
  function ArchivedFirst(db: Db, s: Session): Db
    requires s.Publishing?
  {
    if MustArchive(s.t, s.active) && IsActive(db, s.active.value) then WithStatus(db, s.active.value, Archived) else db
  }

  /** Its guarded updates both hit a row, and the index finds no other active test. */
  predicate Activates(db: Db, s: Session)
    requires s.Publishing?
  {
    && (MustArchive(s.t, s.active) ==> IsActive(db, s.active.value))
    && IsDraft(db, s.t) && !OtherActive(ArchivedFirst(db, s), s.t)
  }

  function Published(db: Db, s: Session, caught: bool): Db
    requires s.Publishing?
  {
    if Activates(db, s) then WithStatus(ArchivedFirst(db, s), s.t, Active)
    else if caught then ArchivedFirst(db, s)
    else db
  }

  ghost predicate Enabled(st: State, step: Step) {
    match step
    case SaveRead(sid, t, _) => sid !in st.sessions && IsDraft(st.db, t)
    case SaveWrite(sid) => sid in st.sessions && st.sessions[sid].Saving?
    case PublishRead(sid, t) => sid !in st.sessions && MissingPositions(st.db.questions, t) == {}
    case PublishWrite(sid, _) => sid in st.sessions && st.sessions[sid].Publishing?
    case Abort(sid) => sid in st.sessions
    case GetAnswer(t) => Calls.Published(st.db, t)
    case Call(call) => !call.Save? && !call.MakeActive?
  }

  /** A read that finds no draft, or a missing image, raises, and its transaction ends there. */
  ghost function Do(st: State, step: Step): State {
    if !Enabled(st, step) then st
    else
      match step
      case SaveRead(sid, t, drafts) =>
        st.(sessions := st.sessions[sid := Saving(t, drafts, ImagesOf(st.db.questions, t))])
      case SaveWrite(sid) =>
        st.(db := Saved(st.db, st.answered, st.sessions[sid]), sessions := st.sessions - {sid})
      case PublishRead(sid, t) => st.(sessions := st.sessions[sid := Publishing(t, Calls.ActiveOf(st.db))])
      case PublishWrite(sid, caught) =>
        st.(db := Published(st.db, st.sessions[sid], caught), sessions := st.sessions - {sid})
      case Abort(sid) => st.(sessions := st.sessions - {sid})
      case GetAnswer(t) => st.(answered := st.answered + {t})
      case Call(call) => st.(db := Calls.After(st.db, call))
  }

  ghost function Run(st: State, steps: seq<Step>): State
    decreases |steps|
  {
    if steps == [] then st else Run(Do(st, steps[0]), steps[1..])
  }

  // ---------- Questions of published tests ----------

  ghost predicate SameQuestions(db: Db, db': Db, t: nat) {
    forall p :: Calls.SameQuestion(db, db', t, p)
  }

  /** The step changes no question of a published test. */
  ghost predicate Frozen(db: Db, db': Db) {
    forall t :: Calls.Published(db, t) ==> SameQuestions(db, db', t)
  }

  ghost predicate AlwaysFrozen(st: State, steps: seq<Step>)
    decreases |steps|
  {
    steps == [] || (Frozen(st.db, Do(st, steps[0]).db) && AlwaysFrozen(Do(st, steps[0]), steps[1..]))
  }

  /** The publish succeeds. */
  ghost predicate Succeeds(st: State, step: Step) {
    step.PublishWrite? && Enabled(st, step) && Activates(st.db, st.sessions[step.sid])
  }

  /** The open saves whose test was published after they had read it as a draft. */
  ghost function Overtaken(st: State, step: Step, late: set<nat>): set<nat> {
    if Succeeds(st, step) then
      late + set sid | sid in st.sessions && st.sessions[sid].Saving? && st.sessions[sid].t == st.sessions[step.sid].t
    else if step.SaveRead? && Enabled(st, step) then late - {step.sid}
    else late
  }

  /** An overtaken save writes other questions, and no answer stops it. */
  ghost predicate LateSave(st: State, step: Step, late: set<nat>) {
    && step.SaveWrite? && Enabled(st, step) && step.sid in late
    && !SameQuestions(st.db, Saved(st.db, st.answered, st.sessions[step.sid]), st.sessions[step.sid].t)
  }

  ghost predicate NoLateSave(st: State, steps: seq<Step>, late: set<nat>)
    decreases |steps|
  {
    steps == []
    || (!LateSave(st, steps[0], late) && NoLateSave(Do(st, steps[0]), steps[1..], Overtaken(st, steps[0], late)))
  }

  /** The overtaken saves are those whose test is published by now. */
  ghost predicate LateKnown(st: State, late: set<nat>) {
    forall sid :: sid in st.sessions && st.sessions[sid].Saving? ==> SaveKnown(st, late, sid)
  }

  predicate SaveKnown(st: State, late: set<nat>, sid: nat)
    requires sid in st.sessions && st.sessions[sid].Saving?
  {
    sid in late <==> Calls.Published(st.db, st.sessions[sid].t)
  }

  // ---------- What each step does to them ----------

  lemma {:induction false} RowsOfTest(t: nat, drafts: seq<NewDraft>)
    ensures forall k :: k in Rows(t, drafts) ==> k.0 == t
  {
    if drafts != [] { RowsOfTest(t, drafts[..|drafts| - 1]); }
  }

  lemma CallsFreeze(db: Db, call: Calls.Step)
    requires !call.Save? && !call.MakeActive?
    ensures Frozen(db, Calls.After(db, call))
    ensures forall t :: Calls.Published(Calls.After(db, call), t) <==> Calls.Published(db, t)
  {
    hide Free, Rows, ListUpTo;
    match call
    case Create(t, title, drafts) => RowsOfTest(t, drafts);
    case Copy(source, t) => RowsOfTest(t, ListUpTo(db.questions, source, Sections.EXPECTED_ROW_COUNT));
    case _ =>
  }

  lemma SavedElsewhere(db: Db, answered: set<nat>, s: Session, t: nat)
    requires s.Saving? && t != s.t
    ensures SameQuestions(db, Saved(db, answered, s), t)
  {
    RowsOfTest(s.t, CarryAll(s.images, s.drafts));
    hide Rows, Free, CarryAll;
  }

  lemma PublishedMore(db: Db, s: Session, caught: bool, t: nat)
    requires s.Publishing?
    ensures var db' := Published(db, s, caught);
            && db'.questions == db.questions
            && (Calls.Published(db', t) <==> Calls.Published(db, t) || (Activates(db, s) && t == s.t))
  {
  }

  lemma StepFreezesIff(st: State, step: Step, late: set<nat>)
    requires LateKnown(st, late)
    ensures Frozen(st.db, Do(st, step).db) <==> !LateSave(st, step, late)
  {
    if Enabled(st, step) {
      match step
      case SaveWrite(sid) => {
        var s := st.sessions[sid];
        assert SaveKnown(st, late, sid);
        forall t | t != s.t ensures SameQuestions(st.db, Saved(st.db, st.answered, s), t) {
          SavedElsewhere(st.db, st.answered, s, t);
        }
        hide Saved, SameQuestions;
      }
      case PublishWrite(sid, caught) => PublishedMore(st.db, st.sessions[sid], caught, 0);
      case Call(call) => CallsFreeze(st.db, call);
      case _ =>
    }
  }

  lemma StepKnown(st: State, step: Step, late: set<nat>)
    requires LateKnown(st, late)
    ensures LateKnown(Do(st, step), Overtaken(st, step, late))
  {
    var st', late' := Do(st, step), Overtaken(st, step, late);
    hide Saved, Published, Calls.After, Activates;
    forall sid | sid in st'.sessions && st'.sessions[sid].Saving? ensures SaveKnown(st', late', sid) {
      assert sid in st.sessions && st.sessions[sid].Saving? ==> SaveKnown(st, late, sid);
      if Enabled(st, step) {
        match step
        case PublishWrite(o, caught) => PublishedMore(st.db, st.sessions[o], caught, st'.sessions[sid].t);
        case SaveWrite(o) => SavedTests(st.db, st.answered, st.sessions[o]);
        case Call(call) => CallsFreeze(st.db, call);
        case _ =>
      }
    }
  }

  lemma SavedTests(db: Db, answered: set<nat>, s: Session)
    requires s.Saving?
    ensures Saved(db, answered, s).tests == db.tests
  {
  }

  lemma {:induction false} RunFreezesIff(st: State, steps: seq<Step>, late: set<nat>)
    requires LateKnown(st, late)
    ensures AlwaysFrozen(st, steps) <==> NoLateSave(st, steps, late)
    decreases |steps|
  {
    hide LateKnown, Frozen, LateSave, Overtaken, Do;
    if steps != [] {
      StepFreezesIff(st, steps[0], late);
      StepKnown(st, steps[0], late);
      RunFreezesIff(Do(st, steps[0]), steps[1..], Overtaken(st, steps[0], late));
    }
  }

  /** Over every run: no step changes a question of a published test if and only if no save, overtaken by
      a publish of its test between its read and its write, writes other questions. */
  lemma FrozenIff(st: State, steps: seq<Step>)
    requires st.sessions == map[]
    ensures AlwaysFrozen(st, steps) <==> NoLateSave(st, steps, {})
  {
    RunFreezesIff(st, steps, {});
  }

  // ---------- What answers refer to ----------

  /** Only published tests have been answered. */
  predicate AnsweredOk(st: State) {
    forall t :: t in st.answered ==> Calls.Published(st.db, t)
  }

  lemma StepAnswered(st: State, step: Step)
    requires AnsweredOk(st)
    ensures AnsweredOk(Do(st, step)) && st.answered <= Do(st, step).answered
    ensures forall t :: t in st.answered ==> SameQuestions(st.db, Do(st, step).db, t)
  {
    if Enabled(st, step) {
      match step
      case SaveWrite(sid) => {
        var s := st.sessions[sid];
        forall t | t in st.answered ensures SameQuestions(st.db, Saved(st.db, st.answered, s), t) {
          if t != s.t { SavedElsewhere(st.db, st.answered, s, t); }
        }
        SavedTests(st.db, st.answered, s);
      }
      case PublishWrite(sid, caught) => {
        forall t | t in st.answered ensures Calls.Published(Do(st, step).db, t) {
          PublishedMore(st.db, st.sessions[sid], caught, t);
        }
      }
      case Call(call) => CallsFreeze(st.db, call);
      case _ =>
    }
  }

  /** Over every run, overtaken saves included: once a question of a test has been answered, no question of
      the test changes any more, and the test stays published. */
  lemma {:induction false} AnsweredStays(st: State, steps: seq<Step>, t: nat)
    requires AnsweredOk(st) && t in st.answered
    ensures SameQuestions(st.db, Run(st, steps).db, t) && Calls.Published(Run(st, steps).db, t)
    decreases |steps|
  {
    if steps != [] {
      var next := Do(st, steps[0]);
      hide Do;
      StepAnswered(st, steps[0]);
      AnsweredStays(next, steps[1..], t);
      forall p ensures Calls.SameQuestion(st.db, Run(st, steps).db, t, p) {
        assert Calls.SameQuestion(st.db, next.db, t, p) && Calls.SameQuestion(next.db, Run(st, steps).db, t, p);
      }
    }
  }

  // ---------- Images of published tests ----------

  /** The open publishes to whose test a save or a creation brought questions after they had checked the
      images. */
  ghost function Touched(st: State, step: Step, touched: set<nat>): set<nat> {
    if !Enabled(st, step) then touched
    else if step.PublishRead? then touched - {step.sid}
    else touched + set sid | sid in st.sessions && st.sessions[sid].Publishing? && Brings(st, step, st.sessions[sid].t)
  }

  predicate Brings(st: State, step: Step, t: nat) {
    || (step.SaveWrite? && step.sid in st.sessions && st.sessions[step.sid].t == t)
    || (step.Call? && (step.call.Create? || step.call.Copy?) && step.call.t == t)
  }

  /** A publish misses an image that was not missing when it checked, or an overtaken save leaves one
      missing. */
  ghost predicate MissesOne(st: State, step: Step, late: set<nat>, touched: set<nat>) {
    || (Succeeds(st, step) && step.sid in touched && MissingPositions(st.db.questions, st.sessions[step.sid].t) != {})
    || (step.SaveWrite? && Enabled(st, step) && step.sid in late
        && MissingPositions(Saved(st.db, st.answered, st.sessions[step.sid]).questions, st.sessions[step.sid].t) != {})
  }

  ghost predicate NoneMissed(st: State, steps: seq<Step>, late: set<nat>, touched: set<nat>)
    decreases |steps|
  {
    steps == []
    || (!MissesOne(st, steps[0], late, touched)
        && NoneMissed(Do(st, steps[0]), steps[1..], Overtaken(st, steps[0], late), Touched(st, steps[0], touched)))
  }

  /** No published test misses an image, now or after any step. */
  ghost predicate AlwaysComplete(st: State, steps: seq<Step>)
    decreases |steps|
  {
    Calls.ImagesComplete(st.db) && (steps == [] || AlwaysComplete(Do(st, steps[0]), steps[1..]))
  }

  ghost predicate TouchedKnown(st: State, touched: set<nat>) {
    forall sid :: sid in st.sessions && st.sessions[sid].Publishing? ==> PublishKnown(st, touched, sid)
  }

  predicate PublishKnown(st: State, touched: set<nat>, sid: nat)
    requires sid in st.sessions && st.sessions[sid].Publishing?
  {
    sid !in touched ==> NoneMissing(st.db.questions, st.sessions[sid].t)
  }

  predicate NoneMissing(questions: map<(nat, int), QuestionRow>, t: nat) {
    MissingPositions(questions, t) == {}
  }

  lemma NoneMissingIff(questions: map<(nat, int), QuestionRow>, t: nat)
    ensures NoneMissing(questions, t) <==> forall p :: !MissesImage(questions, t, p)
  {
    forall p ensures MissesImage(questions, t, p) <==> p in MissingPositions(questions, t) {
      assert MissesImage(questions, t, p) ==> (t, p) in questions;
    }
  }

  lemma CallsMiss(db: Db, call: Calls.Step, t: nat)
    requires !call.Save? && !call.MakeActive? && NoneMissing(db.questions, t)
    requires !((call.Create? || call.Copy?) && call.t == t)
    ensures NoneMissing(Calls.After(db, call).questions, t)
  {
    hide Free, Rows, ListUpTo, MissingPositions;
    NoneMissingIff(db.questions, t);
    NoneMissingIff(Calls.After(db, call).questions, t);
    match call {
      case Create(u, title, drafts) => RowsOfTest(u, drafts);
      case Copy(source, u) => RowsOfTest(u, ListUpTo(db.questions, source, Sections.EXPECTED_ROW_COUNT));
      case _ =>
    }
    forall p ensures !MissesImage(Calls.After(db, call).questions, t, p) { assert !MissesImage(db.questions, t, p); }
  }

  lemma SavedMisses(db: Db, answered: set<nat>, s: Session, t: nat)
    requires s.Saving? && t != s.t
    ensures NoneMissing(Saved(db, answered, s).questions, t) <==> NoneMissing(db.questions, t)
  {
    RowsOfTest(s.t, CarryAll(s.images, s.drafts));
    NoneMissingIff(db.questions, t);
    NoneMissingIff(Saved(db, answered, s).questions, t);
    hide Rows, Free, CarryAll, MissingPositions;
  }

  lemma StepTouched(st: State, step: Step, touched: set<nat>)
    requires TouchedKnown(st, touched)
    ensures TouchedKnown(Do(st, step), Touched(st, step, touched))
  {
    var st', touched' := Do(st, step), Touched(st, step, touched);
    hide Saved, Published, Calls.After, Activates, NoneMissing;
    forall sid | sid in st'.sessions && st'.sessions[sid].Publishing? ensures PublishKnown(st', touched', sid) {
      assert sid in st.sessions && st.sessions[sid].Publishing? ==> PublishKnown(st, touched, sid);
      var t := st'.sessions[sid].t;
      if Enabled(st, step) && sid !in touched' {
        match step
        case PublishRead(o, u) => if o == sid { ReadNoneMissing(st.db.questions, u); }
        case PublishWrite(o, caught) => PublishedMore(st.db, st.sessions[o], caught, t);
        case SaveWrite(o) => SavedMisses(st.db, st.answered, st.sessions[o], t);
        case Call(call) => CallsMiss(st.db, call, t);
        case _ =>
      }
    }
  }

  lemma ReadNoneMissing(questions: map<(nat, int), QuestionRow>, t: nat)
    requires MissingPositions(questions, t) == {}
    ensures NoneMissing(questions, t)
  {
  }

  lemma CompleteIff(db: Db)
    ensures Calls.ImagesComplete(db) <==> forall t :: Calls.Published(db, t) ==> NoneMissing(db.questions, t)
  {
    forall t ensures NoneMissing(db.questions, t) <==> forall p :: !MissesImage(db.questions, t, p) {
      NoneMissingIff(db.questions, t);
    }
  }

  /** A save keeps everything but, where it is overtaken, the images. */
  lemma SavedSound(db: Db, answered: set<nat>, s: Session)
    requires Calls.Inv(db) && s.Saving?
    ensures var db' := Saved(db, answered, s); RowsSound(db'.questions) && Calls.Owned(db') && Calls.OneActive(db')
    ensures Calls.ImagesComplete(Saved(db, answered, s))
            <==> (Calls.Published(db, s.t) ==> NoneMissing(Saved(db, answered, s).questions, s.t))
  {
    var db' := Saved(db, answered, s);
    SavedTests(db, answered, s);
    SavedRows(db, answered, s);
    hide Saved, NoneMissing, RowsSound, Calls.OneActive;
    CompleteIff(db);
    CompleteIff(db');
    forall t | t != s.t ensures NoneMissing(db'.questions, t) <==> NoneMissing(db.questions, t) {
      SavedMisses(db, answered, s, t);
    }
    assert Calls.OneActive(db') by { TestsOnly(db, db'); }
  }

  lemma TestsOnly(db: Db, db': Db)
    requires Calls.OneActive(db) && db'.tests == db.tests
    ensures Calls.OneActive(db')
  {
    forall u, v | IsActive(db', u) && IsActive(db', v) ensures u == v { assert IsActive(db, u) && IsActive(db, v); }
  }

  lemma SavedRows(db: Db, answered: set<nat>, s: Session)
    requires s.Saving? && RowsSound(db.questions) && Calls.Owned(db)
    ensures var db' := Saved(db, answered, s); RowsSound(db'.questions) && Calls.Owned(db')
  {
    var carried := CarryAll(s.images, s.drafts);
    if s.t in db.tests && s.t !in answered && Free(WithoutTest(db.questions, s.t), s.t, carried) {
      Calls.WithoutKeeps(db, s.t);
      Calls.InsertedSound(s.t, carried);
      hide Rows, Free, CarryAll, WithoutTest, RowSound;
    }
  }

  lemma PublishedSound(db: Db, s: Session, caught: bool)
    requires Calls.Inv(db) && s.Publishing?
    ensures var db' := Published(db, s, caught); RowsSound(db'.questions) && Calls.Owned(db') && Calls.OneActive(db')
    ensures Calls.ImagesComplete(Published(db, s, caught)) <==> (Activates(db, s) ==> NoneMissing(db.questions, s.t))
  {
    var db' := Published(db, s, caught);
    PublishedActive(db, s, caught);
    CompleteIff(db);
    CompleteIff(db');
    hide NoneMissing, Calls.OneActive, Calls.ImagesComplete, RowsSound;
    forall t ensures Calls.Published(db', t) <==> Calls.Published(db, t) || (Activates(db, s) && t == s.t) {
      PublishedMore(db, s, caught, t);
    }
  }

  lemma PublishedActive(db: Db, s: Session, caught: bool)
    requires Calls.OneActive(db) && s.Publishing?
    ensures Calls.OneActive(Published(db, s, caught))
  {
    var mid, db' := ArchivedFirst(db, s), Published(db, s, caught);
    forall u: nat ensures IsActive(mid, u) ==> IsActive(db, u) {}
    forall u, v | IsActive(db', u) && IsActive(db', v) ensures u == v {
      assert IsActive(mid, u) && u != s.t ==> u in mid.tests;
      assert IsActive(mid, v) && v != s.t ==> v in mid.tests;
    }
  }

  lemma StepCompleteIff(st: State, step: Step, late: set<nat>, touched: set<nat>)
    requires Calls.Inv(st.db) && LateKnown(st, late) && TouchedKnown(st, touched)
    ensures Calls.ImagesComplete(Do(st, step).db) <==> !MissesOne(st, step, late, touched)
    ensures !MissesOne(st, step, late, touched) ==> Calls.Inv(Do(st, step).db)
  {
    hide Saved, Published, Calls.After, Calls.ImagesComplete, Calls.OneActive, Calls.Owned, RowsSound, Activates;
    if Enabled(st, step) {
      match step
      case SaveWrite(sid) => {
        assert SaveKnown(st, late, sid);
        SavedSound(st.db, st.answered, st.sessions[sid]);
      }
      case PublishWrite(sid, caught) => {
        assert PublishKnown(st, touched, sid);
        PublishedSound(st.db, st.sessions[sid], caught);
      }
      case Call(call) => Calls.StepKeeps(st.db, call);
      case _ =>
    }
  }

  lemma {:induction false} RunCompleteIff(st: State, steps: seq<Step>, late: set<nat>, touched: set<nat>)
    requires Calls.Inv(st.db) && LateKnown(st, late) && TouchedKnown(st, touched)
    ensures AlwaysComplete(st, steps) <==> NoneMissed(st, steps, late, touched)
    decreases |steps|
  {
    assert Calls.ImagesComplete(st.db);
    hide Calls.Inv, Calls.ImagesComplete, LateKnown, TouchedKnown, MissesOne, Overtaken, Touched, Do;
    if steps != [] {
      var step, next := steps[0], Do(st, steps[0]);
      StepCompleteIff(st, step, late, touched);
      StepKnown(st, step, late);
      StepTouched(st, step, touched);
      if MissesOne(st, step, late, touched) {
        assert !AlwaysComplete(next, steps[1..]);
      } else {
        RunCompleteIff(next, steps[1..], Overtaken(st, step, late), Touched(st, step, touched));
      }
    }
  }

  /** Over every run: no published test ever misses an image if and only if no publish succeeds over an
      image that went missing after its check, by a save or a creation in between, and no overtaken save
      leaves an image missing. */
  lemma ImagesIff(st: State, steps: seq<Step>)
    requires Calls.Inv(st.db) && st.sessions == map[]
    ensures AlwaysComplete(st, steps) <==> NoneMissed(st, steps, {}, {})
  {
    RunCompleteIff(st, steps, {}, {});
  }

  // ---------- Without overlap, and with it ----------

  lemma RunTwo(st: State, a: Step, b: Step)
    ensures Run(st, [a, b]) == Do(Do(st, a), b)
  {
    hide Do;
    assert [a, b][1..] == [b] && [b][1..] == [];
    assert Run(Do(st, a), [b]) == Run(Do(Do(st, a), b), []);
  }

  lemma SavedIsCall(db: Db, answered: set<nat>, t: nat, drafts: seq<NewDraft>)
    requires IsDraft(db, t) && t !in answered
    ensures Saved(db, answered, Saving(t, drafts, ImagesOf(db.questions, t))) == Calls.After(db, Calls.Save(t, drafts))
  {
    hide Free, CarryAll, WithoutTest, Rows, ImagesOf;
  }

  lemma PublishedIsCall(db: Db, t: nat, caught: bool)
    requires Calls.OneActive(db) && MissingPositions(db.questions, t) == {}
    ensures Published(db, Publishing(t, Calls.ActiveOf(db)), caught) == Calls.After(db, Calls.MakeActive(t, caught))
    ensures IsDraft(db, t) ==> Activates(db, Publishing(t, Calls.ActiveOf(db)))
  {
    var s := Publishing(t, Calls.ActiveOf(db));
    Calls.ActiveOfFacts(db);
    hide Calls.ActiveOf, MissingPositions, Calls.OneActive;
    forall u: nat ensures IsActive(db, u) <==> s.active == Some(u) {}
    var mid := ArchivedFirst(db, s);
    forall u | u in mid.tests && u != t ensures !IsActive(mid, u) { assert IsActive(db, u) <==> s.active == Some(u); }
  }

  /** A save that nothing overlaps is the save of the atomic calls. */
  lemma SaveAlone(st: State, sid: nat, t: nat, drafts: seq<NewDraft>)
    requires sid !in st.sessions && AnsweredOk(st)
    ensures Run(st, [SaveRead(sid, t, drafts), SaveWrite(sid)]).db == Calls.After(st.db, Calls.Save(t, drafts))
  {
    RunTwo(st, SaveRead(sid, t, drafts), SaveWrite(sid));
    hide Saved, ImagesOf, CarryAll;
    if IsDraft(st.db, t) { SavedIsCall(st.db, st.answered, t, drafts); }
  }

  /** And a publish is that of the atomic calls. */
  lemma PublishAlone(st: State, sid: nat, t: nat, caught: bool)
    requires sid !in st.sessions && Calls.OneActive(st.db)
    ensures Run(st, [PublishRead(sid, t), PublishWrite(sid, caught)]).db
            == Calls.After(st.db, Calls.MakeActive(t, caught))
  {
    RunTwo(st, PublishRead(sid, t), PublishWrite(sid, caught));
    hide Published, Calls.ActiveOf, MissingPositions;
    if MissingPositions(st.db.questions, t) == {} { PublishedIsCall(st.db, t, caught); }
  }

  /** A save that is overtaken changes the published test, if it saves other questions at all. */
  lemma OvertakenSave(st: State, t: nat, drafts: seq<NewDraft>)
    requires st.sessions == map[] && Calls.OneActive(st.db) && AnsweredOk(st)
    requires IsDraft(st.db, t) && MissingPositions(st.db.questions, t) == {}
    requires !SameQuestions(st.db, Calls.After(st.db, Calls.Save(t, drafts)), t)
    ensures var mid := Run(st, [SaveRead(1, t, drafts), PublishRead(2, t)]);
            var published := Do(mid, PublishWrite(2, false));
            && IsActive(published.db, t)
            && !SameQuestions(published.db, Do(published, SaveWrite(1)).db, t)
  {
    OvertakenTables(st.db, st.answered, t, drafts);
    hide AnsweredOk, SameQuestions, Calls.After, Calls.OneActive, Published;
    OvertakenSessions(st, t, drafts);
  }

  lemma OvertakenTables(db: Db, answered: set<nat>, t: nat, drafts: seq<NewDraft>)
    requires Calls.OneActive(db) && IsDraft(db, t) && t !in answered && MissingPositions(db.questions, t) == {}
    requires !SameQuestions(db, Calls.After(db, Calls.Save(t, drafts)), t)
    ensures var s := Saving(t, drafts, ImagesOf(db.questions, t));
            var db' := Published(db, Publishing(t, Calls.ActiveOf(db)), false);
            IsActive(db', t) && !SameQuestions(db', Saved(db', answered, s), t)
  {
    var s, o := Saving(t, drafts, ImagesOf(db.questions, t)), Publishing(t, Calls.ActiveOf(db));
    PublishedIsCall(db, t, false);
    SavedIsCall(db, answered, t, drafts);
    hide Calls.ActiveOf, MissingPositions, ImagesOf, Calls.After, Calls.OneActive, SameQuestions, Saved;
    SavesSame(db, answered, Published(db, o, false), s);
  }

  lemma OvertakenSessions(st: State, t: nat, drafts: seq<NewDraft>)
    requires st.sessions == map[] && IsDraft(st.db, t) && MissingPositions(st.db.questions, t) == {}
    ensures var s, o := Saving(t, drafts, ImagesOf(st.db.questions, t)), Publishing(t, Calls.ActiveOf(st.db));
            var mid := Run(st, [SaveRead(1, t, drafts), PublishRead(2, t)]);
            var published := Do(mid, PublishWrite(2, false));
            && published.db == Published(st.db, o, false)
            && Do(published, SaveWrite(1)).db == Saved(published.db, st.answered, s)
  {
    hide Saved, Published, Activates, Calls.ActiveOf, MissingPositions, ImagesOf;
    RunTwo(st, SaveRead(1, t, drafts), PublishRead(2, t));
    var st1 := Do(st, SaveRead(1, t, drafts));
    assert 2 !in st1.sessions;
  }

  /** A save does not look at the status of the test. */
  lemma SavesSame(db: Db, answered: set<nat>, db': Db, s: Session)
    requires s.Saving? && db'.questions == db.questions && s.t in db.tests && s.t in db'.tests
    ensures Saved(db', answered, s).questions == Saved(db, answered, s).questions
    ensures SameQuestions(db', Saved(db', answered, s), s.t) <==> SameQuestions(db, Saved(db, answered, s), s.t)
  {
    hide Free, CarryAll, WithoutTest, Rows;
    forall p ensures Calls.SameQuestion(db', Saved(db', answered, s), s.t, p)
                     <==> Calls.SameQuestion(db, Saved(db, answered, s), s.t, p) {
    }
  }
}
