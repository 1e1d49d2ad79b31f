/** What every run of authoring calls keeps, each call being one transaction. */
module AuthoringRuns {
  import opened Common
  import opened Text
  import opened Sections
  import opened Authoring

  datatype Step =
    | Create(t: nat, title: string, drafts: seq<NewDraft>)
    | Rename(t: nat, title: string)
    | Save(t: nat, drafts: seq<NewDraft>)
    | Copy(source: nat, t: nat)
    | Attach(t: nat, p: int, image: Image)
    | Cancel(t: nat)
    | MakeActive(t: nat, caught: bool)

  function Or(db: Db, r: Result<Db, Failure>): Db {
    if r.Ok? then r.value else db
  }

  /** `get_active`. */
  ghost function ActiveOf(db: Db): Option<nat> {
    if exists t :: IsActive(db, t) then
      var t :| IsActive(db, t);
      Some(t)
    else None
  }

  /** New tests get fresh ids. A call that raises changes nothing, but for a publish whose error the caller
      catches, as both publish handlers do: that commits. */
  ghost function After(db: Db, step: Step): Db {
    match step
    case Create(t, title, drafts) => if t in db.tests then db else Or(db, CreateDraft(db, t, title, drafts))
    case Rename(t, title) => Or(db, UpdateTitle(db, t, title))
    case Save(t, drafts) => Or(db, ReplaceQuestions(db, t, drafts))
    case Copy(source, t) => if t in db.tests then db else Or(db, Duplicate(db, source, t))
    case Attach(t, p, image) => AttachImage(db, t, p, image)
    case Cancel(t) => CancelDraft(db, t)
    case MakeActive(t, caught) =>
      if caught then PublishHolds(db, t, ActiveOf(db)) else Or(db, Publish(db, t, ActiveOf(db)))
  }

  /** A publish that raises after it archived the active test, and whose error is caught. */
  predicate LosesActive(db: Db, step: Step) {
    && step.MakeActive? && step.caught && MissingPositions(db.questions, step.t) == {} && !IsDraft(db, step.t)
    && exists u :: u in db.tests && u != step.t && IsActive(db, u)
  }

  ghost function Run(db: Db, steps: seq<Step>): Db
    decreases |steps|
  {
    if steps == [] then db else Run(After(db, steps[0]), steps[1..])
  }

  // ---------- Invariant ----------

  ghost predicate Owned(db: Db) {
    forall k :: k in db.questions ==> k.0 in db.tests
  }

  ghost predicate OneActive(db: Db) {
    forall t, u :: IsActive(db, t) && IsActive(db, u) ==> t == u
  }

  predicate Published(db: Db, t: nat) {
    t in db.tests && db.tests[t].status != InDraft
  }

  /** No published test shows an image question without its image. */
  ghost predicate ImagesComplete(db: Db) {
    forall t, p :: Published(db, t) ==> !MissesImage(db.questions, t, p)
  }

  ghost predicate Inv(db: Db) {
    RowsSound(db.questions) && Owned(db) && OneActive(db) && ImagesComplete(db)
  }

  /** With at most one active test, every step of a run is the service's call. */
  method Perform(store: TestStore, step: Step)
    requires OneActive(store.Tables())
    modifies store
    ensures store.Tables() == After(old(store.Tables()), step)
  {
    hide CreateDraft, UpdateTitle, ReplaceQuestions, Duplicate, AttachImage, CancelDraft, PublishHolds, ActiveOf;
    match step
    case Create(t, title, drafts) => if t !in store.tests { var _ := store.CreateDraftCall(t, title, drafts); }
    case Rename(t, title) => var _ := store.UpdateTitleCall(t, title);
    case Save(t, drafts) => var _ := store.ReplaceDraftQuestions(t, drafts);
    case Copy(source, t) => if t !in store.tests { var _ := store.DuplicateToDraft(source, t); }
    case Attach(t, p, image) => var _ := store.AttachQuestionImage(t, p, image);
    case Cancel(t) => var _ := store.CancelDraftCall(t);
    case MakeActive(t, caught) =>
      ghost var db := store.Tables();
      ghost var active;
      var r;
      r, active := store.PublishCall(t, caught);
      OnlyActive(db, active);
  }

  lemma OnlyActive(db: Db, active: Option<nat>)
    requires OneActive(db) && (active.Some? ==> IsActive(db, active.value))
    requires active.None? ==> forall u :: !IsActive(db, u)
    ensures active == ActiveOf(db)
  {
  }

  // ---------- Evolution ----------

  predicate StatusMoves(a: TestStatus, b: TestStatus) {
    a == b || a == InDraft || (a == Active && b == Archived)
  }

  predicate SameQuestion(db: Db, db': Db, t: nat, p: int) {
    && ((t, p) in db.questions <==> (t, p) in db'.questions)
    && ((t, p) in db.questions ==> db'.questions[(t, p)].content == db.questions[(t, p)].content)
  }

  /** A test only moves from draft to active to archived, and what students saw of it stays: title and
      questions of a published test are never changed, removed or added to. */
  ghost predicate Evolves(db: Db, db': Db) {
    && (forall t :: t in db.tests && t in db'.tests ==> StatusMoves(db.tests[t].status, db'.tests[t].status))
    && (forall t :: Published(db, t) ==> t in db'.tests && db'.tests[t].title == db.tests[t].title
                                         && StatusMoves(db.tests[t].status, db'.tests[t].status))
    && (forall t, p :: Published(db, t) ==> SameQuestion(db, db', t, p))
  }

  lemma PublishedStays(db: Db, db': Db, t: nat)
    requires Evolves(db, db') && Published(db, t)
    ensures Published(db', t)
  {
  }

  /** A change of questions that leaves other tests alone. */
  ghost predicate OnlyTest(questions: map<(nat, int), QuestionRow>, questions': map<(nat, int), QuestionRow>, t: nat) {
    forall u, p :: u != t ==> ((u, p) in questions <==> (u, p) in questions')
                              && ((u, p) in questions ==> questions'[(u, p)] == questions[(u, p)])
  }

  lemma {:induction false} InsertedSound(t: nat, drafts: seq<NewDraft>)
    requires forall i :: 0 <= i < |drafts| ==> Storable(drafts[i].content)
    ensures RowsSound(Rows(t, drafts)) && forall k :: k in Rows(t, drafts) ==> k.0 == t
  {
    hide Storable;
    if drafts != [] { InsertedSound(t, drafts[..|drafts| - 1]); }
  }

  /** `tests` differs from the table at most in the draft t. */
  ghost predicate DraftChanged(db: Db, tests: map<nat, Test>, t: nat) {
    && t in tests && tests[t].status == InDraft
    && (forall u :: u != t ==> (u in tests <==> u in db.tests) && (u in tests ==> tests[u] == db.tests[u]))
  }

  /** New questions of a draft, on top of the others. */
  lemma InsertKeeps(db: Db, base: map<(nat, int), QuestionRow>, t: nat, drafts: seq<NewDraft>, tests: map<nat, Test>)
    requires Inv(db) && Free(base, t, drafts) && !Published(db, t)
    requires RowsSound(base) && OnlyTest(db.questions, base, t) && (forall k :: k in base ==> k.0 in tests)
    requires DraftChanged(db, tests, t)
    ensures var db' := Db(tests, base + Rows(t, drafts)); Inv(db') && Evolves(db, db')
  {
    hide Storable, RowSound;
    var db' := Db(tests, base + Rows(t, drafts));
    InsertedSound(t, drafts);
    InsertEvolves(db, base, t, Rows(t, drafts), tests);
    forall u, p | Published(db', u) ensures !MissesImage(db'.questions, u, p) {
      assert Published(db, u) && !MissesImage(db.questions, u, p);
    }
    forall u, v | IsActive(db', u) && IsActive(db', v) ensures u == v { assert IsActive(db, u) && IsActive(db, v); }
  }

  lemma InsertEvolves(db: Db, base: map<(nat, int), QuestionRow>, t: nat, rows: map<(nat, int), QuestionRow>,
                      tests: map<nat, Test>)
    requires !Published(db, t) && OnlyTest(db.questions, base, t) && DraftChanged(db, tests, t)
    requires forall k :: k in rows ==> k.0 == t
    ensures Evolves(db, Db(tests, base + rows))
  {
  }

  lemma CreateKeeps(db: Db, t: nat, title: string, drafts: seq<NewDraft>)
    requires Inv(db) && t !in db.tests && CreateDraft(db, t, title, drafts).Ok?
    ensures var db' := CreateDraft(db, t, title, drafts).value; Inv(db') && Evolves(db, db')
  {
    hide Free, RowsSound;
    InsertKeeps(db, db.questions, t, drafts, db.tests[t := Test(title, InDraft)]);
  }

  lemma SaveKeeps(db: Db, t: nat, drafts: seq<NewDraft>)
    requires Inv(db) && ReplaceQuestions(db, t, drafts).Ok?
    ensures var db' := ReplaceQuestions(db, t, drafts).value; Inv(db') && Evolves(db, db')
  {
    hide Free, WithoutTest, CarryAll, ImagesOf, Rows, Evolves, OnlyTest, RowsSound, OneActive, ImagesComplete;
    WithoutKeeps(db, t);
    InsertKeeps(db, WithoutTest(db.questions, t), t, CarryAll(ImagesOf(db.questions, t), drafts), db.tests);
  }

  lemma WithoutKeeps(db: Db, t: nat)
    requires RowsSound(db.questions) && Owned(db)
    ensures var base := WithoutTest(db.questions, t);
            RowsSound(base) && OnlyTest(db.questions, base, t) && forall k :: k in base ==> k.0 in db.tests
  {
    hide RowSound;
  }

  lemma RenameKeeps(db: Db, t: nat, title: string)
    requires Inv(db) && UpdateTitle(db, t, title).Ok?
    ensures var db' := UpdateTitle(db, t, title).value; Inv(db') && Evolves(db, db')
  {
    hide Strip, RowsSound;
    var db' := UpdateTitle(db, t, title).value;
    forall u, p | Published(db', u) ensures !MissesImage(db'.questions, u, p) { assert Published(db, u); }
    forall u, v | IsActive(db', u) && IsActive(db', v) ensures u == v { assert IsActive(db, u) && IsActive(db, v); }
  }

  lemma AttachKeeps(db: Db, t: nat, p: int, image: Image)
    requires Inv(db)
    ensures var db' := AttachImage(db, t, p, image); Inv(db') && Evolves(db, db')
  {
    hide Storable;
    var db' := AttachImage(db, t, p, image);
    forall u, q | Published(db', u) ensures !MissesImage(db'.questions, u, q) {
      assert !MissesImage(db.questions, u, q);
    }
    forall u, v | IsActive(db', u) && IsActive(db', v) ensures u == v { assert IsActive(db, u) && IsActive(db, v); }
    assert (t, p) in db.questions ==> RowSound(p, db.questions[(t, p)]);
  }

  lemma CancelKeeps(db: Db, t: nat)
    requires Inv(db)
    ensures var db' := CancelDraft(db, t); Inv(db') && Evolves(db, db')
  {
    hide Storable;
    var db' := CancelDraft(db, t);
    forall u, q | Published(db', u) ensures !MissesImage(db'.questions, u, q) {
      assert Published(db, u) && !MissesImage(db.questions, u, q);
    }
    forall u, v | IsActive(db', u) && IsActive(db', v) ensures u == v { assert IsActive(db, u) && IsActive(db, v); }
  }

  lemma ActiveOfFacts(db: Db)
    requires OneActive(db)
    ensures forall t: nat :: IsActive(db, t) <==> ActiveOf(db) == Some(t)
  {
  }

  lemma PublishKeeps(db: Db, t: nat)
    requires Inv(db) && Publish(db, t, ActiveOf(db)).Ok?
    ensures var db' := Publish(db, t, ActiveOf(db)).value;
            && Inv(db') && Evolves(db, db')
            && forall u :: IsActive(db', u) <==> u == t
  {
    hide RowsSound, ActiveOf;
    var db' := Publish(db, t, ActiveOf(db)).value;
    ActiveOfFacts(db);
    forall p ensures !MissesImage(db.questions, t, p) {
      assert MissesImage(db.questions, t, p) ==> p in MissingPositions(db.questions, t);
    }
    forall u ensures IsActive(db', u) <==> u == t { assert IsActive(db, u) <==> ActiveOf(db) == Some(u); }
    forall u, p | Published(db', u) ensures !MissesImage(db'.questions, u, p) { assert u == t || Published(db, u); }
  }

  /** A publish that raises after the archiving leaves archived what was active, if that is committed. */
  lemma RaiseKeeps(db: Db, t: nat)
    requires Inv(db) && Publish(db, t, ActiveOf(db)).Err?
    ensures var db' := PublishHolds(db, t, ActiveOf(db));
            && Inv(db') && Evolves(db, db')
            && (forall u :: IsActive(db', u) <==> IsActive(db, u) && !LosesActive(db, MakeActive(t, true)))
  {
    hide RowsSound, ActiveOf;
    var db' := PublishHolds(db, t, ActiveOf(db));
    ActiveOfFacts(db);
    forall u: nat ensures IsActive(db', u) <==> IsActive(db, u) && !LosesActive(db, MakeActive(t, true)) {
      assert IsActive(db, u) <==> ActiveOf(db) == Some(u);
    }
    forall u, p | Published(db', u) ensures !MissesImage(db'.questions, u, p) { assert Published(db, u); }
  }

  lemma PublishStepKeeps(db: Db, t: nat, caught: bool)
    requires Inv(db)
    ensures Inv(After(db, MakeActive(t, caught))) && Evolves(db, After(db, MakeActive(t, caught)))
  {
    hide Inv, Evolves, ActiveOf, MissingPositions;
    NothingChanges(db);
    if Publish(db, t, ActiveOf(db)).Ok? {
      PublishKeeps(db, t);
    } else {
      RaiseKeeps(db, t);
    }
  }

  lemma NothingChanges(db: Db)
    ensures Evolves(db, db)
  {
  }

  lemma StepKeeps(db: Db, step: Step)
    requires Inv(db)
    ensures Inv(After(db, step)) && Evolves(db, After(db, step))
  {
    hide Inv, Evolves, CreateDraft, UpdateTitle, ReplaceQuestions, AttachImage, CancelDraft, Publish, ActiveOf;
    NothingChanges(db);
    match step
    case Create(t, title, drafts) => if t !in db.tests && CreateDraft(db, t, title, drafts).Ok? {
      CreateKeeps(db, t, title, drafts);
    }
    case Rename(t, title) => if UpdateTitle(db, t, title).Ok? { RenameKeeps(db, t, title); }
    case Save(t, drafts) => if ReplaceQuestions(db, t, drafts).Ok? { SaveKeeps(db, t, drafts); }
    case Copy(source, t) => if t !in db.tests && Duplicate(db, source, t).Ok? {
      CreateKeeps(db, t, Copied(db.tests[source].title), ListUpTo(db.questions, source, EXPECTED_ROW_COUNT));
    }
    case Attach(t, p, image) => AttachKeeps(db, t, p, image);
    case Cancel(t) => CancelKeeps(db, t);
    case MakeActive(t, caught) => PublishStepKeeps(db, t, caught);
  }

  lemma EvolvesTransitive(a: Db, b: Db, c: Db)
    requires Evolves(a, b) && Evolves(b, c)
    ensures Evolves(a, c)
  {
    forall t | Published(a, t)
      ensures t in c.tests && c.tests[t].title == a.tests[t].title && StatusMoves(a.tests[t].status, c.tests[t].status)
    {
      PublishedStays(a, b, t);
    }
    forall t, p | Published(a, t) ensures SameQuestion(a, c, t, p) {
      PublishedStays(a, b, t);
      assert SameQuestion(a, b, t, p) && SameQuestion(b, c, t, p);
    }
    forall t | t in a.tests && t in c.tests ensures StatusMoves(a.tests[t].status, c.tests[t].status) {
      assert Published(a, t) || a.tests[t].status == InDraft;
    }
  }

  /** Over any run from the empty tables on: text questions carry no image, published tests miss none,
      at most one test is active, and published content is frozen from each state to every later one. */
  lemma {:induction false} RunKeeps(db: Db, steps: seq<Step>)
    requires Inv(db)
    ensures Inv(Run(db, steps)) && Evolves(db, Run(db, steps))
    decreases |steps|
  {
    hide Inv;
    if steps == [] {
      NothingChanges(db);
    } else {
      var next := After(db, steps[0]);
      StepKeeps(db, steps[0]);
      RunKeeps(next, steps[1..]);
      EvolvesTransitive(db, next, Run(db, steps));
    }
  }

  lemma StartInv()
    ensures Inv(Db(map[], map[]))
  {
  }

  /** Once a test is active, some test is after a further call if and only if that call does not publish,
      with its error caught, something that is not a draft and misses no image while another test is
      active. */
  lemma StaysActiveIff(db: Db, step: Step)
    requires Inv(db) && exists t :: IsActive(db, t)
    ensures (exists t :: IsActive(After(db, step), t)) <==> !LosesActive(db, step)
  {
    hide Inv, CreateDraft, UpdateTitle, ReplaceQuestions, AttachImage, CancelDraft, Publish, PublishHolds, ActiveOf,
         MissingPositions;
    var t :| IsActive(db, t);
    if !step.MakeActive? {
      OthersKeepActive(db, step, t);
    } else if Publish(db, step.t, ActiveOf(db)).Ok? {
      PublishedIsActive(db, step);
    } else {
      RaiseKeeps(db, step.t);
      RaisedStep(db, step);
      assert IsActive(db, t) && !LosesActive(db, step) ==> IsActive(After(db, step), t);
    }
  }

  lemma PublishedIsActive(db: Db, step: Step)
    requires Inv(db) && step.MakeActive? && Publish(db, step.t, ActiveOf(db)).Ok?
    ensures IsActive(After(db, step), step.t) && !LosesActive(db, step)
  {
    PublishKeeps(db, step.t);
  }

  lemma RaisedStep(db: Db, step: Step)
    requires step.MakeActive? && Publish(db, step.t, ActiveOf(db)).Err?
    ensures After(db, step) == if step.caught then PublishHolds(db, step.t, ActiveOf(db)) else db
    ensures LosesActive(db, step) <==> step.caught && LosesActive(db, MakeActive(step.t, true))
  {
    hide PublishHolds, ActiveOf, MissingPositions;
  }

  lemma OthersKeepActive(db: Db, step: Step, t: nat)
    requires IsActive(db, t) && !step.MakeActive?
    ensures IsActive(After(db, step), t)
  {
    hide Publish, ActiveOf, Free, Rows, Strip, WithoutTest, CarryAll, ListUpTo;
  }

  ghost predicate NothingLost(db: Db, steps: seq<Step>)
    decreases |steps|
  {
    steps == [] || (!LosesActive(db, steps[0]) && NothingLost(After(db, steps[0]), steps[1..]))
  }

  /** So over every run without such a call. */
  lemma {:induction false} RunStaysActive(db: Db, steps: seq<Step>)
    requires Inv(db) && (exists t :: IsActive(db, t)) && NothingLost(db, steps)
    ensures exists t :: IsActive(Run(db, steps), t)
    decreases |steps|
  {
    hide Inv, After, LosesActive;
    if steps == [] {
      assert Run(db, steps) == db;
    } else {
      StepKeeps(db, steps[0]);
      StaysActiveIff(db, steps[0]);
      RunStaysActive(After(db, steps[0]), steps[1..]);
      assert Run(db, steps) == Run(After(db, steps[0]), steps[1..]);
    }
  }
}
