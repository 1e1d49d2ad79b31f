/**
 Receipts that one user sends at the same time (`ReceiptService.submit` and the handler around it in
 `app/bot/handlers/payment.py`).

 A submission checks the cap and the waiting pictures in the snapshot of its transaction and writes later;
 the lock around it does not reach to the commit, and the snapshot may be older than the lock. Its writes
 are one step here, the other calls are one step each.
 */
module ReceiptRaces {
  import opened Common
  import opened Funnel
  import opened Hamming
  import Calls = FunnelRuns
  import Sections

  /** A submission that has passed its checks: `advance` is what it read of the user's status. */
  datatype Submission = Submission(user: nat, hash: int, advance: bool)

  datatype State = State(db: Db, sessions: map<nat, Submission>)

  datatype Step =
    | Read(sid: nat, u: nat, hash: Option<int>)
    | Write(sid: nat, id: nat)
    | Abort(sid: nat)
    | Call(call: Calls.Step)

  function Written(db: Db, s: Submission, id: nat): Db {
    var queued := Calls.Queued(db, s.user, s.hash, id);
    if s.advance then SetStatus(queued, s.user, PendingApproval) else queued
  }

  predicate Enabled(c: Calls.Config, st: State, step: Step) {
    match step
    case Read(sid, u, hash) =>
      sid !in st.sessions && u in st.db.users && SubmitFailure(st.db, u, hash, c.threshold, c.maxPending).None?
    case Write(sid, id) => sid in st.sessions && id !in st.db.receipts && st.sessions[sid].user in st.db.users
    case Abort(sid) => sid in st.sessions
    case Call(call) => !call.SendReceipt?
  }

  /** A read that finds the queue full or the picture waiting raises, and its transaction ends there. */
  function Do(c: Calls.Config, st: State, step: Step): State {
    if !Enabled(c, st, step) then st
    else
      match step
      case Read(sid, u, hash) =>
        st.(sessions := st.sessions[sid := Submission(u, hash.value, Has(st.db, u, {PendingPayment, Rejected}))])
      case Write(sid, id) => State(Written(st.db, st.sessions[sid], id), st.sessions - {sid})
      case Abort(sid) => st.(sessions := st.sessions - {sid})
      case Call(call) => st.(db := Calls.After(c, st.db, call))
  }

  function Run(c: Calls.Config, st: State, steps: seq<Step>): State
    decreases |steps|
  {
    if steps == [] then st else Run(c, Do(c, st, steps[0]), steps[1..])
  }

  // ---------- The queue ----------

  /** The cap holds, and a user's waiting pictures are pairwise apart. */
  ghost predicate QueueOk(c: Calls.Config, db: Db) {
    && (forall u :: |PendingOf(db, u)| <= c.maxPending)
    && (forall r, s :: Calls.Apart(c, db, r, s))
  }

  ghost predicate AlwaysOk(c: Calls.Config, st: State, steps: seq<Step>)
    decreases |steps|
  {
    QueueOk(c, st.db) && (steps == [] || AlwaysOk(c, Do(c, st, steps[0]), steps[1..]))
  }

  /** There is no room for the picture by now. */
  predicate NoRoom(c: Calls.Config, db: Db, s: Submission) {
    |PendingOf(db, s.user)| >= c.maxPending || OwnTwin(db, s.user, s.hash, c.threshold)
  }

  /** The submissions during which the same user's queue got another receipt. */
  function Joined(c: Calls.Config, st: State, step: Step, joined: set<nat>): set<nat> {
    if !Enabled(c, st, step) then joined
    else if step.Read? then joined - {step.sid}
    else if step.Write? then
      joined + set sid | sid in st.sessions && st.sessions[sid].user == st.sessions[step.sid].user
    else joined
  }

  /** An overlapped submission is written although there is no room for it. */
  predicate Crowds(c: Calls.Config, st: State, step: Step, joined: set<nat>) {
    step.Write? && Enabled(c, st, step) && step.sid in joined && NoRoom(c, st.db, st.sessions[step.sid])
  }

  predicate NoneCrowds(c: Calls.Config, st: State, steps: seq<Step>, joined: set<nat>)
    decreases |steps|
  {
    steps == []
    || (!Crowds(c, st, steps[0], joined)
        && NoneCrowds(c, Do(c, st, steps[0]), steps[1..], Joined(c, st, steps[0], joined)))
  }

  ghost predicate RoomKnown(c: Calls.Config, st: State, joined: set<nat>) {
    forall sid :: sid in st.sessions ==> HasRoom(c, st, joined, sid)
  }

  predicate HasRoom(c: Calls.Config, st: State, joined: set<nat>, sid: nat)
    requires sid in st.sessions
  {
    sid !in joined ==> !NoRoom(c, st.db, st.sessions[sid])
  }

  /** No other call adds to the queue. */
  lemma CallsOnlyResolve(c: Calls.Config, db: Db, call: Calls.Step, s: Submission)
    requires !call.SendReceipt? && !NoRoom(c, db, s)
    ensures !NoRoom(c, Calls.After(c, db, call), s)
  {
    var db' := Calls.After(c, db, call);
    forall r | r in PendingOf(db', s.user)
      ensures r in PendingOf(db, s.user) && db'.receipts[r].hash == db.receipts[r].hash
    {
      StillPending(c, db, call, r);
    }
    Sections.SubsetSize(PendingOf(db', s.user), PendingOf(db, s.user));
    hide Calls.After, Distance;
    forall r | r in PendingOf(db', s.user) ensures !Resembles(db', r, s.hash, c.threshold) {
      assert !Resembles(db, r, s.hash, c.threshold);
    }
  }

  lemma StillPending(c: Calls.Config, db: Db, call: Calls.Step, r: nat)
    requires !call.SendReceipt? && IsPending(Calls.After(c, db, call), r)
    ensures IsPending(db, r) && Calls.After(c, db, call).receipts[r].user == db.receipts[r].user
    ensures Calls.After(c, db, call).receipts[r].hash == db.receipts[r].hash
  {
  }

  /** A receipt of another user leaves this one's queue alone. */
  lemma OthersQueue(c: Calls.Config, db: Db, o: Submission, id: nat, s: Submission)
    requires o.user != s.user && id !in db.receipts
    ensures NoRoom(c, Written(db, o, id), s) <==> NoRoom(c, db, s)
  {
    var db' := Written(db, o, id);
    assert PendingOf(db', s.user) == PendingOf(db, s.user);
    hide Distance;
    forall r | r in PendingOf(db, s.user)
      ensures Resembles(db', r, s.hash, c.threshold) <==> Resembles(db, r, s.hash, c.threshold)
    {
    }
  }

  lemma StepRoom(c: Calls.Config, st: State, step: Step, joined: set<nat>)
    requires RoomKnown(c, st, joined)
    ensures RoomKnown(c, Do(c, st, step), Joined(c, st, step, joined))
  {
    var st', joined' := Do(c, st, step), Joined(c, st, step, joined);
    hide Written, Calls.After, PendingOf, OwnTwin;
    forall sid | sid in st'.sessions ensures HasRoom(c, st', joined', sid) {
      assert sid in st.sessions ==> HasRoom(c, st, joined, sid);
      if Enabled(c, st, step) && sid !in joined' {
        match step
        case Write(o, id) => OthersQueue(c, st.db, st.sessions[o], id, st.sessions[sid]);
        case Call(call) => CallsOnlyResolve(c, st.db, call, st.sessions[sid]);
        case _ =>
      }
    }
  }

  // ---------- What a write leaves ----------

  lemma WrittenWithRoom(c: Calls.Config, db: Db, s: Submission, id: nat)
    requires Calls.Inv(c, db) && s.user in db.users && id !in db.receipts && !NoRoom(c, db, s)
    ensures Calls.Inv(c, Written(db, s, id))
  {
    Calls.QueuedInv(c, db, s.user, s.hash, id);
    var queued := Calls.Queued(db, s.user, s.hash, id);
    if s.advance { Calls.OneUser(c, queued, s.user, queued.users[s.user].(status := PendingApproval)); }
  }

  lemma WrittenWithoutRoom(c: Calls.Config, db: Db, s: Submission, id: nat)
    requires id !in db.receipts && NoRoom(c, db, s)
    ensures !QueueOk(c, Written(db, s, id))
  {
    var db' := Written(db, s, id);
    if |PendingOf(db, s.user)| >= c.maxPending {
      assert PendingOf(db', s.user) == PendingOf(db, s.user) + {id};
    } else {
      var r :| r in PendingOf(db, s.user) && Resembles(db, r, s.hash, c.threshold);
      hide Distance;
      assert !Calls.Apart(c, db', id, r);
    }
  }

  lemma StepOkIff(c: Calls.Config, st: State, step: Step, joined: set<nat>)
    requires Calls.Inv(c, st.db) && RoomKnown(c, st, joined)
    ensures QueueOk(c, Do(c, st, step).db) <==> !Crowds(c, st, step, joined)
    ensures !Crowds(c, st, step, joined) ==> Calls.Inv(c, Do(c, st, step).db)
  {
    InvIsOk(c, st.db);
    if Enabled(c, st, step) && step.Write? {
      assert HasRoom(c, st, joined, step.sid);
      hide Written, Calls.Inv, QueueOk, NoRoom;
      if NoRoom(c, st.db, st.sessions[step.sid]) {
        WrittenWithoutRoom(c, st.db, st.sessions[step.sid], step.id);
      } else {
        WrittenWithRoom(c, st.db, st.sessions[step.sid], step.id);
        InvIsOk(c, Do(c, st, step).db);
      }
    } else if Enabled(c, st, step) && step.Call? {
      hide Calls.Inv, QueueOk, Calls.After;
      Calls.StepInv(c, st.db, step.call);
      InvIsOk(c, Do(c, st, step).db);
    }
  }

  lemma InvIsOk(c: Calls.Config, db: Db)
    requires Calls.Inv(c, db)
    ensures QueueOk(c, db)
  {
  }

  // ---------- Every run ----------

  lemma {:induction false} RunOkIff(c: Calls.Config, st: State, steps: seq<Step>, joined: set<nat>)
    requires Calls.Inv(c, st.db) && RoomKnown(c, st, joined)
    ensures AlwaysOk(c, st, steps) <==> NoneCrowds(c, st, steps, joined)
    decreases |steps|
  {
    InvIsOk(c, st.db);
    hide Calls.Inv, QueueOk, RoomKnown, Crowds, Joined, Do;
    if steps != [] {
      var step, next := steps[0], Do(c, st, steps[0]);
      StepOkIff(c, st, step, joined);
      StepRoom(c, st, step, joined);
      if Crowds(c, st, step, joined) {
        assert !AlwaysOk(c, next, steps[1..]);
      } else {
        RunOkIff(c, next, steps[1..], Joined(c, st, step, joined));
      }
    }
  }

  /** Over every run: the cap and the distance between waiting pictures hold throughout if and only if no
      submission, during which the same user's queue got another receipt, is written when there is no
      room for it any more. */
  lemma QueueOkIff(c: Calls.Config, st: State, steps: seq<Step>)
    requires Calls.Inv(c, st.db) && st.sessions == map[]
    ensures AlwaysOk(c, st, steps) <==> NoneCrowds(c, st, steps, {})
  {
    RunOkIff(c, st, steps, {});
  }

  // ---------- Without overlap, and with it ----------

  lemma RunTwo(c: Calls.Config, st: State, a: Step, b: Step)
    ensures Run(c, st, [a, b]) == Do(c, Do(c, st, a), b)
  {
    hide Do;
    assert [a, b][1..] == [b] && [b][1..] == [];
    assert Run(c, Do(c, st, a), [b]) == Run(c, Do(c, Do(c, st, a), b), []);
  }

  /** A submission that nothing overlaps is that of the atomic calls. */
  lemma SubmitAlone(c: Calls.Config, st: State, sid: nat, u: nat, hash: Option<int>, id: nat)
    requires sid !in st.sessions && u in st.db.users && id !in st.db.receipts
    ensures Run(c, st, [Read(sid, u, hash), Write(sid, id)]).db == Calls.After(c, st.db, Calls.SendReceipt(u, hash, id))
  {
    RunTwo(c, st, Read(sid, u, hash), Write(sid, id));
    hide SubmitFailure;
  }

  /** Two submissions of one picture that both read before either writes are both queued, whatever the
      threshold. */
  lemma TwiceQueued(c: Calls.Config, st: State, u: nat, hash: int, id: nat, id2: nat)
    requires c.threshold >= 0 && st.sessions == map[] && u in st.db.users
    requires id !in st.db.receipts && id2 !in st.db.receipts && id != id2
    requires SubmitFailure(st.db, u, Some(hash), c.threshold, c.maxPending).None?
    ensures var mid := Run(c, st, [Read(1, u, Some(hash)), Read(2, u, Some(hash))]);
            var end := Do(c, Do(c, mid, Write(1, id)), Write(2, id2));
            {id, id2} <= PendingOf(end.db, u) && !QueueOk(c, end.db)
  {
    RunTwo(c, st, Read(1, u, Some(hash)), Read(2, u, Some(hash)));
    var mid := Run(c, st, [Read(1, u, Some(hash)), Read(2, u, Some(hash))]);
    var s := mid.sessions[1];
    var one := Do(c, mid, Write(1, id));
    hide SubmitFailure;
    assert one.db == Written(st.db, s, id) && one.sessions == map[2 := s];
    FirstIsTwin(c, st.db, s, id);
    WrittenWithoutRoom(c, one.db, s, id2);
  }

  lemma FirstIsTwin(c: Calls.Config, db: Db, s: Submission, id: nat)
    requires c.threshold >= 0
    ensures OwnTwin(Written(db, s, id), s.user, s.hash, c.threshold) && id in PendingOf(Written(db, s, id), s.user)
  {
    ZeroIffSameBits(s.hash, s.hash, WIDTH);
    assert Resembles(Written(db, s, id), id, s.hash, c.threshold);
  }

  // ---------- A ban in between ----------

  /** The status update of a submission does not look at the status again: a write changes a banned user's
      row if and only if the submission had read a user who still had to pay. */
  lemma BanIsOverwrittenIff(db: Db, s: Submission, id: nat)
    requires Has(db, s.user, {Banned})
    ensures Written(db, s, id).users[s.user] != db.users[s.user] <==> s.advance
    ensures s.advance ==> Written(db, s, id).users[s.user].status == PendingApproval
  {
  }

  /** So a ban between the read and the write is lost, exactly for such a user. */
  lemma BanLost(c: Calls.Config, st: State, sid: nat, u: nat, hash: Option<int>, id: nat)
    requires Enabled(c, st, Read(sid, u, hash)) && id !in st.db.receipts && st.db.users[u].status != Banned
    ensures var mid := Run(c, st, [Read(sid, u, hash), Call(Calls.BanUser(u))]);
            var end := Do(c, mid, Write(sid, id));
            && Has(mid.db, u, {Banned})
            && (Has(end.db, u, {Banned}) <==> st.db.users[u].status !in {PendingPayment, Rejected})
  {
    RunTwo(c, st, Read(sid, u, hash), Call(Calls.BanUser(u)));
    hide SubmitFailure;
  }
}
