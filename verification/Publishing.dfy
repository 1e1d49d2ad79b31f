/**
 Publishing while others publish, cancel and create drafts (`TestService.publish`,
 `app/repositories/test_repository.py`, the unique index of `app/models/test.py`).

 Transactions interleave statement by statement. What `get_active` returns is left open: it may be out of
 date. A guarded statement waits for the row while another transaction has changed it. The unique index
 on the active flag makes an activation wait while another transaction has moved a test in or out of
 `active`, and rejects it when a second test would be active. A transaction that raised may roll back, or
 commit what it wrote before, as it does when a handler catches the error and returns.
 */
module Publishing {
  import opened Common

  datatype Status = InDraft | Active | Archived

  /** Where a transaction stands; one that completed or raised may end. */
  datatype Phase = Started | Saw(active: Option<nat>) | OldArchived | Completed | Raised

  /** `writes` are the uncommitted rows; None is a deleted one. */
  datatype Session = Session(draft: nat, phase: Phase, writes: map<nat, Option<Status>>)

  datatype State = State(tests: map<nat, Status>, sessions: map<nat, Session>)

  datatype Step =
    | Begin(sid: nat, draft: nat)
    | GetActive(sid: nat, active: Option<nat>)
    | ArchiveOld(sid: nat)
    | Activate(sid: nat)
    | DeleteDraft(sid: nat)
    | InsertDraft(sid: nat)
    | Commit(sid: nat)
    | Abort(sid: nat)
    | Crash

  // ---------- Statements ----------

  predicate Has(tests: map<nat, Status>, s: Session, t: nat, status: Status) {
    if t in s.writes then s.writes[t] == Some(status) else t in tests && tests[t] == status
  }

  predicate RowFree(st: State, sid: nat, t: nat) {
    forall o :: o in st.sessions && o != sid ==> t !in st.sessions[o].writes
  }

  /** The write moves its test in or out of the unique index. */
  predicate InIndex(w: Option<Status>) {
    w == Some(Active) || w == Some(Archived)
  }

  predicate TouchesIndex(s: Session) {
    exists t :: t in s.writes && InIndex(s.writes[t])
  }

  predicate IndexFree(st: State, sid: nat) {
    forall o :: o in st.sessions && o != sid ==> !TouchesIndex(st.sessions[o])
  }

  predicate OtherActive(tests: map<nat, Status>, s: Session, t: nat) {
    exists u :: u in tests.Keys + s.writes.Keys && u != t && Has(tests, s, u, Active)
  }

  /** The test that `publish` has to archive first. */
  predicate MustArchive(s: Session) {
    s.phase.Saw? && s.phase.active.Some? && s.phase.active.value != s.draft
  }

  function Write(s: Session, t: nat, w: Option<Status>, phase: Phase): Session {
    s.(writes := s.writes[t := w], phase := phase)
  }

  predicate IsStatement(step: Step) {
    step.GetActive? || step.ArchiveOld? || step.Activate? || step.DeleteDraft? || step.InsertDraft?
  }

  /** The statement is next in its transaction, and no lock keeps it waiting. */
  predicate Ready(st: State, sid: nat, s: Session, step: Step)
    requires IsStatement(step)
  {
    match step
    case GetActive(_, _) => s.phase == Started
    case ArchiveOld(_) => MustArchive(s) && RowFree(st, sid, s.phase.active.value)
    case Activate(_) =>
      (s.phase == OldArchived || (s.phase.Saw? && !MustArchive(s))) && RowFree(st, sid, s.draft) && IndexFree(st, sid)
    case DeleteDraft(_) => s.phase == Started && RowFree(st, sid, s.draft)
    case InsertDraft(_) => s.phase == Started && s.draft !in st.tests && RowFree(st, sid, s.draft)
  }

  predicate Ended(s: Session) {
    s.phase == Completed || s.phase == Raised
  }

  predicate Enabled(st: State, step: Step) {
    if IsStatement(step) then step.sid in st.sessions && Ready(st, step.sid, st.sessions[step.sid], step)
    else
      match step
      case Begin(sid, _) => sid !in st.sessions
      case Abort(sid) => sid in st.sessions
      case Commit(sid) => sid in st.sessions && Ended(st.sessions[sid])
      case _ => true
  }

  function Exec(tests: map<nat, Status>, s: Session, step: Step): Session
    requires step.ArchiveOld? ==> MustArchive(s)
  {
    match step
    case GetActive(_, active) => s.(phase := Saw(active))
    case ArchiveOld(_) =>
      var a := s.phase.active.value;
      if Has(tests, s, a, Active) then Write(s, a, Some(Archived), OldArchived) else s.(phase := Raised)
    case Activate(_) =>
      if Has(tests, s, s.draft, InDraft) && !OtherActive(tests, s, s.draft)
      then Write(s, s.draft, Some(Active), Completed)
      else s.(phase := Raised)
    case DeleteDraft(_) =>
      if Has(tests, s, s.draft, InDraft) then Write(s, s.draft, None, Completed) else s.(phase := Completed)
    case InsertDraft(_) => Write(s, s.draft, Some(InDraft), Completed)
    case _ => s
  }

  function Committed(tests: map<nat, Status>, s: Session): map<nat, Status> {
    map t | t in tests.Keys + s.writes.Keys && (t in s.writes ==> s.writes[t].Some?) ::
      if t in s.writes then s.writes[t].value else tests[t]
  }

  /** A step that is not enabled waits: nothing happens. */
  function Do(st: State, step: Step): State {
    if !Enabled(st, step) then st
    else
      match step
      case Begin(sid, draft) => st.(sessions := st.sessions[sid := Session(draft, Started, map[])])
      case Commit(sid) => State(Committed(st.tests, st.sessions[sid]), st.sessions - {sid})
      case Abort(sid) => st.(sessions := st.sessions - {sid})
      case Crash => st.(sessions := map[])
      case _ => st.(sessions := st.sessions[step.sid := Exec(st.tests, st.sessions[step.sid], step)])
  }

  function Run(st: State, steps: seq<Step>): State
    decreases |steps|
  {
    if steps == [] then st else Run(Do(st, steps[0]), steps[1..])
  }

  // ---------- Invariant ----------

  predicate IsActive(tests: map<nat, Status>, t: nat) {
    t in tests && tests[t] == Active
  }

  ghost predicate OneActive(tests: map<nat, Status>) {
    forall t, u :: IsActive(tests, t) && IsActive(tests, u) ==> t == u
  }

  /** An uncommitted write is a move that the committed row still allows. */
  predicate WriteOk(tests: map<nat, Status>, t: nat, w: Option<Status>) {
    match w
    case None => t in tests && tests[t] == InDraft
    case Some(InDraft) => t !in tests
    case Some(Active) => t in tests && tests[t] == InDraft
    case Some(Archived) => IsActive(tests, t)
  }

  predicate Activates(s: Session, t: nat) {
    t in s.writes && s.writes[t] == Some(Active)
  }

  predicate Archives(s: Session, t: nat) {
    t in s.writes && s.writes[t] == Some(Archived)
  }

  ghost predicate SessionOk(tests: map<nat, Status>, s: Session) {
    && (forall t :: t in s.writes ==> WriteOk(tests, t, s.writes[t]))
    && (forall t :: Activates(s, t) ==> t == s.draft && s.phase == Completed)
    && (forall t, a :: Activates(s, t) && IsActive(tests, a) ==> Archives(s, a))
    && (forall a :: Archives(s, a) && s.phase == Completed ==> Activates(s, s.draft))
    && (s.phase == Started || s.phase.Saw? ==> s.writes == map[])
    && (s.phase == OldArchived ==> forall t :: t in s.writes ==> Archives(s, t))
  }

  ghost predicate Apart(s: Session, o: Session) {
    && (forall t :: t in s.writes ==> t !in o.writes)
    && (forall t :: Activates(s, t) ==> !TouchesIndex(o))
  }

  ghost predicate Inv(st: State) {
    && OneActive(st.tests)
    && (forall o :: o in st.sessions ==> SessionOk(st.tests, st.sessions[o]))
    && (forall o, p :: o in st.sessions && p in st.sessions && o != p ==> Apart(st.sessions[o], st.sessions[p]))
  }

  predicate HasActive(tests: map<nat, Status>) {
    exists t :: t in tests && IsActive(tests, t)
  }

  /** From one committed state to a later one. */
  ghost predicate Moves(tests: map<nat, Status>, tests': map<nat, Status>) {
    && (forall t :: t in tests && t in tests' ==>
                      tests[t] == tests'[t] || tests[t] == InDraft || (tests[t] == Active && tests'[t] == Archived))
    && (forall t :: t in tests && tests[t] != InDraft ==> t in tests')
  }

  /** A publish that archived the active test and then raised is committed. */
  predicate LosesActive(st: State, step: Step) {
    step.Commit? && Enabled(st, step) && Raised == st.sessions[step.sid].phase && HasArchived(st.sessions[step.sid])
  }

  predicate HasArchived(s: Session) {
    exists a :: a in s.writes && Archives(s, a)
  }

  // ---------- Statements keep it ----------

  lemma ExecOk(st: State, step: Step)
    requires Inv(st) && IsStatement(step) && Enabled(st, step)
    ensures SessionOk(st.tests, Exec(st.tests, st.sessions[step.sid], step))
  {
    var s := st.sessions[step.sid];
    var s' := Exec(st.tests, s, step);
    if step.Activate? && s'.phase == Completed {
      forall a | IsActive(st.tests, a) ensures Archives(s', a) {
        assert !OtherActive(st.tests, s, s.draft);
        assert a != s.draft ==> !Has(st.tests, s, a, Active);
        assert a in s.writes ==> WriteOk(st.tests, a, s.writes[a]);
      }
    }
  }

  /** What a statement adds to the writes of its session. */
  lemma ExecAdds(st: State, step: Step, t: nat)
    requires Inv(st) && IsStatement(step) && Enabled(st, step)
    ensures var s, s' := st.sessions[step.sid], Exec(st.tests, st.sessions[step.sid], step);
            && (t in s'.writes && t !in s.writes ==> RowFree(st, step.sid, t))
            && (t in s.writes ==> t in s'.writes && (s'.writes[t] != s.writes[t] ==> step.Activate? && t == s.draft))
            && (Activates(s', t) && !Activates(s, t) ==> IndexFree(st, step.sid))
            && (Archives(s', t) && !Archives(s, t) ==> step.ArchiveOld? && IsActive(st.tests, t))
  {
  }

  lemma ExecApart(st: State, step: Step, o: nat)
    requires Inv(st) && IsStatement(step) && Enabled(st, step)
    requires o in st.sessions && o != step.sid
    ensures Apart(Exec(st.tests, st.sessions[step.sid], step), st.sessions[o])
    ensures Apart(st.sessions[o], Exec(st.tests, st.sessions[step.sid], step))
  {
    var s, other := st.sessions[step.sid], st.sessions[o];
    var s' := Exec(st.tests, s, step);
    hide Exec, Enabled, SessionOk;
    forall t | t in s'.writes ensures t !in other.writes {
      ExecAdds(st, step, t);
      assert Apart(s, other);
    }
    forall t | Activates(s', t) ensures !TouchesIndex(other) {
      ExecAdds(st, step, t);
      assert Apart(s, other);
    }
    forall t | Activates(other, t) ensures !TouchesIndex(s') { OthersActivation(st, step, o, t); }
  }

  /** While another transaction has an activation pending, nothing moves in the index. */
  lemma OthersActivation(st: State, step: Step, o: nat, t: nat)
    requires Inv(st) && IsStatement(step) && Enabled(st, step)
    requires o in st.sessions && o != step.sid && Activates(st.sessions[o], t)
    ensures !TouchesIndex(Exec(st.tests, st.sessions[step.sid], step))
  {
    var s, other := st.sessions[step.sid], st.sessions[o];
    var s' := Exec(st.tests, s, step);
    assert Apart(other, s) && SessionOk(st.tests, other);
    assert InIndex(other.writes[t]);
    forall u | u in s'.writes ensures !InIndex(s'.writes[u]) {
      ExecAdds(st, step, u);
      assert IsActive(st.tests, u) ==> Archives(other, u);
    }
  }

  lemma StatementKeeps(st: State, step: Step)
    requires Inv(st) && IsStatement(step) && Enabled(st, step)
    ensures Inv(Do(st, step)) && Do(st, step).tests == st.tests
  {
    assert step.ArchiveOld? ==> MustArchive(st.sessions[step.sid]);
    hide Exec, Ready, SessionOk, Apart, OneActive;
    ExecOk(st, step);
    forall o | o in st.sessions && o != step.sid
      ensures Apart(Exec(st.tests, st.sessions[step.sid], step), st.sessions[o])
      ensures Apart(st.sessions[o], Exec(st.tests, st.sessions[step.sid], step))
    {
      ExecApart(st, step, o);
    }
  }

  // ---------- Commits keep it ----------

  lemma CommittedActive(tests: map<nat, Status>, s: Session, t: nat)
    requires SessionOk(tests, s) && Ended(s)
    ensures IsActive(Committed(tests, s), t)
            <==> if Activates(s, s.draft) then t == s.draft else IsActive(tests, t) && !Archives(s, t)
  {
    assert t in s.writes ==> WriteOk(tests, t, s.writes[t]);
    assert Activates(s, s.draft) ==> WriteOk(tests, s.draft, s.writes[s.draft]);
    assert Activates(s, t) ==> t == s.draft;
    assert Activates(s, s.draft) && IsActive(tests, t) ==> Archives(s, t);
    assert s.draft in s.writes ==> s.draft in tests.Keys + s.writes.Keys;
    assert t in s.writes ==> t in tests.Keys + s.writes.Keys;
  }

  lemma CommitMoves(tests: map<nat, Status>, s: Session)
    requires OneActive(tests) && SessionOk(tests, s) && Ended(s)
    ensures OneActive(Committed(tests, s)) && Moves(tests, Committed(tests, s))
  {
    var tests' := Committed(tests, s);
    forall t
      ensures IsActive(tests', t)
              <==> if Activates(s, s.draft) then t == s.draft else IsActive(tests, t) && !Archives(s, t)
    {
      CommittedActive(tests, s, t);
    }
    forall t | t in tests && t in tests'
      ensures tests[t] == tests'[t] || tests[t] == InDraft || (tests[t] == Active && tests'[t] == Archived)
    {
      assert t in s.writes ==> WriteOk(tests, t, s.writes[t]);
    }
    forall t | t in tests && tests[t] != InDraft ensures t in tests' {
      assert t in s.writes ==> WriteOk(tests, t, s.writes[t]);
    }
  }

  /** A commit ends with an active test, if there was one, but for a raise after the archiving. */
  lemma CommittedRaise(tests: map<nat, Status>, s: Session)
    requires OneActive(tests) && SessionOk(tests, s) && Ended(s) && HasActive(tests)
    ensures HasActive(Committed(tests, s)) <==> !(s.phase == Raised && HasArchived(s))
  {
    var tests' := Committed(tests, s);
    var a :| a in tests && IsActive(tests, a);
    CommittedActive(tests, s, a);
    CommittedActive(tests, s, s.draft);
    assert Activates(s, s.draft) ==> s.phase == Completed;
    assert IsActive(tests', a) || IsActive(tests', s.draft) ==> HasActive(tests');
    if HasArchived(s) {
      var b :| b in s.writes && Archives(s, b);
      assert WriteOk(tests, b, s.writes[b]) && b == a;
      forall t ensures IsActive(tests', t) ==> Activates(s, s.draft) { CommittedActive(tests, s, t); }
    }
  }

  /** What another transaction holds stays possible. */
  lemma CommitOther(tests: map<nat, Status>, s: Session, o: Session)
    requires SessionOk(tests, s) && Ended(s) && SessionOk(tests, o) && Apart(s, o) && Apart(o, s)
    ensures SessionOk(Committed(tests, s), o)
  {
    var tests' := Committed(tests, s);
    forall t | t in o.writes ensures WriteOk(tests', t, o.writes[t]) {
      assert t !in s.writes && WriteOk(tests, t, o.writes[t]);
    }
    forall t, a | Activates(o, t) && IsActive(tests', a) ensures Archives(o, a) {
      CommittedActive(tests, s, a);
      NoActivation(s, o, t);
    }
  }

  lemma NoActivation(s: Session, o: Session, t: nat)
    requires Apart(o, s) && Activates(o, t)
    ensures !Activates(s, s.draft)
  {
    assert Activates(s, s.draft) ==> InIndex(s.writes[s.draft]);
  }

  lemma CommitKeeps(st: State, sid: nat)
    requires Inv(st) && Enabled(st, Commit(sid))
    ensures Inv(Do(st, Commit(sid))) && Moves(st.tests, Do(st, Commit(sid)).tests)
  {
    var s := st.sessions[sid];
    CommitMoves(st.tests, s);
    forall o | o in st.sessions && o != sid ensures SessionOk(Committed(st.tests, s), st.sessions[o]) {
      assert Apart(s, st.sessions[o]) && Apart(st.sessions[o], s);
      CommitOther(st.tests, s, st.sessions[o]);
    }
    hide SessionOk, Apart, Committed, OneActive;
  }

  // ---------- Every run ----------

  lemma Unmoved(tests: map<nat, Status>)
    ensures Moves(tests, tests)
  {
  }

  lemma StepKeeps(st: State, step: Step)
    requires Inv(st)
    ensures Inv(Do(st, step)) && Moves(st.tests, Do(st, step).tests)
  {
    Unmoved(st.tests);
    hide Moves, Exec, OneActive;
    if Enabled(st, step) {
      match step
      case Commit(sid) => CommitKeeps(st, sid);
      case Begin(sid, draft) => BeginKeeps(st, sid, draft);
      case Abort(sid) =>
      case Crash =>
      case _ => StatementKeeps(st, step);
    }
  }

  lemma BeginKeeps(st: State, sid: nat, draft: nat)
    requires Inv(st) && sid !in st.sessions
    ensures Inv(Do(st, Begin(sid, draft)))
  {
    hide OneActive;
  }

  lemma MovesTransitive(a: map<nat, Status>, b: map<nat, Status>, c: map<nat, Status>)
    requires Moves(a, b) && Moves(b, c)
    ensures Moves(a, c)
  {
    forall t | t in a && t in c ensures a[t] == c[t] || a[t] == InDraft || (a[t] == Active && c[t] == Archived) {
      assert a[t] != InDraft ==> t in b;
    }
  }

  /** Once some committed state has an active test, the next has one if and only if the step is not the
      commit of a publish that raised after it archived. */
  lemma StepActiveIff(st: State, step: Step)
    requires Inv(st) && HasActive(st.tests)
    ensures HasActive(Do(st, step).tests) <==> !LosesActive(st, step)
  {
    hide Exec, Committed, HasActive, HasArchived, SessionOk, Apart;
    if step.Commit? && Enabled(st, step) { CommittedRaise(st.tests, st.sessions[step.sid]); }
  }

  /** No raise after an archiving is committed. */
  predicate NothingLost(st: State, steps: seq<Step>)
    decreases |steps|
  {
    steps == [] || (!LosesActive(st, steps[0]) && NothingLost(Do(st, steps[0]), steps[1..]))
  }

  /** However publishing, cancelling and creating interleave, commit, roll back or crash, and even where
      raises are committed: at most one test is active; a test only goes from draft to active to
      archived, and only drafts vanish. Where no raise after an archiving is committed, once some
      committed state has an active test, every later one has exactly one. */
  lemma {:induction false} PublishSafety(st: State, steps: seq<Step>)
    requires Inv(st)
    ensures Inv(Run(st, steps)) && OneActive(Run(st, steps).tests) && Moves(st.tests, Run(st, steps).tests)
    ensures HasActive(st.tests) && NothingLost(st, steps) ==> HasActive(Run(st, steps).tests)
    decreases |steps|
  {
    hide Inv, Moves, Do, HasActive, LosesActive;
    if steps == [] {
      Unmoved(st.tests);
      InvOneActive(st);
    } else {
      StepKeeps(st, steps[0]);
      if HasActive(st.tests) { StepActiveIff(st, steps[0]); }
      PublishSafety(Do(st, steps[0]), steps[1..]);
      MovesTransitive(st.tests, Do(st, steps[0]).tests, Run(st, steps).tests);
    }
  }

  lemma InvOneActive(st: State)
    requires Inv(st)
    ensures OneActive(st.tests)
  {
  }

  lemma StartInv(tests: map<nat, Status>)
    requires OneActive(tests)
    ensures Inv(State(tests, map[]))
  {
  }

  /** Two transactions publish different drafts while nothing is active: the one that comes second to the
      index raises, whatever it read before. */
  lemma SecondPublishRaises(st: State, sid: nat, t: nat)
    requires Inv(st) && sid in st.sessions && IsActive(st.tests, t) && t != st.sessions[sid].draft
    requires Enabled(st, Activate(sid)) && t !in st.sessions[sid].writes
    ensures Do(st, Activate(sid)).sessions[sid].phase == Raised && Do(st, Activate(sid)).tests == st.tests
  {
    assert Has(st.tests, st.sessions[sid], t, Active);
  }

  // ---------- Why a raise has to roll back ----------

  predicate ByOther(step: Step, sid: nat) {
    !step.Crash? && step.sid != sid
  }

  lemma {:induction false} SessionWaits(st: State, steps: seq<Step>, sid: nat)
    requires sid in st.sessions && forall i :: 0 <= i < |steps| ==> ByOther(steps[i], sid)
    ensures sid in Run(st, steps).sessions && Run(st, steps).sessions[sid] == st.sessions[sid]
    decreases |steps|
  {
    hide Enabled, Exec;
    if steps != [] {
      assert ByOther(steps[0], sid);
      SessionWaits(Do(st, steps[0]), steps[1..], sid);
    }
  }

  predicate InDraftNow(tests: map<nat, Status>, t: nat) {
    t in tests && tests[t] == InDraft
  }

  /** Whatever other transactions do between the archiving and the activation of a publish: it raises if
      and only if its test is no draft by then, because nothing else can have become active meanwhile, so
      the index rejects nothing. If it then commits, a test is active if and only if it did not raise. */
  lemma RaiseLosesActiveIff(st: State, sid: nat, others: seq<Step>)
    requires Inv(st) && Enabled(st, ArchiveOld(sid)) && forall i :: 0 <= i < |others| ==> ByOther(others[i], sid)
    requires Enabled(Run(Do(st, ArchiveOld(sid)), others), Activate(sid))
    ensures var st2 := Run(Do(st, ArchiveOld(sid)), others);
            var s := Do(st2, Activate(sid)).sessions[sid];
            && (s.phase == Raised <==> !InDraftNow(st2.tests, s.draft)) && HasActive(st2.tests)
            && (HasActive(Do(Do(st2, Activate(sid)), Commit(sid)).tests) <==> InDraftNow(st2.tests, s.draft))
  {
    var st1 := Do(st, ArchiveOld(sid));
    var st2 := Run(st1, others);
    var s1, a := st1.sessions[sid], st.sessions[sid].phase.active.value;
    StepKeeps(st, ArchiveOld(sid));
    SessionWaits(st1, others, sid);
    PublishSafety(st1, others);
    assert st2.sessions[sid] == s1;
    ArchivedPublish(st2, sid, a);
  }

  lemma ArchivedPublish(st: State, sid: nat, a: nat)
    requires Inv(st) && Enabled(st, Activate(sid))
    requires var s := st.sessions[sid]; s.phase == OldArchived && s.writes == map[a := Some(Archived)] && a != s.draft
    ensures var s := Do(st, Activate(sid)).sessions[sid];
            && (s.phase == Raised <==> !InDraftNow(st.tests, s.draft)) && HasActive(st.tests)
            && (HasActive(Do(Do(st, Activate(sid)), Commit(sid)).tests) <==> InDraftNow(st.tests, s.draft))
  {
    var s := st.sessions[sid];
    assert WriteOk(st.tests, a, s.writes[a]) && IsActive(st.tests, a);
    forall u | u in st.tests.Keys + s.writes.Keys && u != s.draft ensures !Has(st.tests, s, u, Active) {
      assert u != a ==> !IsActive(st.tests, u);
    }
    var s' := Exec(st.tests, s, Activate(sid));
    StatementKeeps(st, Activate(sid));
    assert Archives(s', a);
    StepActiveIff(Do(st, Activate(sid)), Commit(sid));
  }

  /** That happens: publishing an archived test raises after the active one was archived. */
  lemma RaiseAfterArchiving()
    ensures var st := Run(State(map[1 := Active, 2 := Archived], map[]),
              [Begin(1, 2), GetActive(1, Some(1)), ArchiveOld(1), Activate(1)]);
            1 in st.sessions && st.sessions[1].phase == Raised && Archives(st.sessions[1], 1)
  {
    var tests := map[1 := Active, 2 := Archived];
    var st0 := State(tests, map[]);
    var st1 := Do(st0, Begin(1, 2));
    var st2 := Do(st1, GetActive(1, Some(1)));
    var st3 := Do(st2, ArchiveOld(1));
    assert st3.sessions[1].writes == map[1 := Some(Archived)];
    var st4 := Do(st3, Activate(1));
    FourSteps(st0, Begin(1, 2), GetActive(1, Some(1)), ArchiveOld(1), Activate(1));
  }

  lemma FourSteps(st: State, a: Step, b: Step, c: Step, d: Step)
    ensures Run(st, [a, b, c, d]) == Do(Do(Do(Do(st, a), b), c), d)
  {
    hide Do;
    assert [a, b, c, d][1..] == [b, c, d] && [b, c, d][1..] == [c, d] && [c, d][1..] == [d] && [d][1..] == [];
    assert Run(st, [a, b, c, d]) == Run(Do(st, a), [b, c, d]);
    assert Run(Do(st, a), [b, c, d]) == Run(Do(Do(st, a), b), [c, d]);
    assert Run(Do(Do(st, a), b), [c, d]) == Run(Do(Do(Do(st, a), b), c), [d]);
  }
}
