/** What every run of the funnel's calls keeps, each call being one transaction. */
module FunnelRuns {
  import opened Common
  import opened Text
  import opened Hamming
  import opened Funnel

  datatype Config = Config(maxPending: nat, threshold: int)

  datatype Step =
    | Register(u: nat)
    | Begin(u: nat)
    | GivePhone(u: nat, raw: string)
    | GiveName(u: nat, name: string, valid: bool)
    | GetCode(u: nat, code: string)
    | SendReceipt(u: nat, hash: Option<int>, id: nat)
    | ApproveReceipt(r: nat, admin: nat, now: int, caught: bool)
    | RejectReceipt(r: nat, admin: nat, reason: string, now: int)
    | BanUser(u: nat)
    | UnbanUser(u: nat)

  /** `resolved` counts the committed resolutions of each receipt. */
  datatype State = State(db: Db, resolved: multiset<nat>)

  function Or(db: Db, r: Result<Db, Failure>): Db {
    if r.Ok? then r.value else db
  }

  /** Receipts come from registered users and get fresh ids. A call that raises changes nothing, but for an
      approval whose error the caller catches, as the bot's callback does: that commits. */
  function After(c: Config, db: Db, step: Step): Db {
    match step
    case Register(u) => NewUser(db, u)
    case Begin(u) => StartOnboarding(db, u)
    case GivePhone(u, raw) => SetPhone(db, u, raw)
    case GiveName(u, name, valid) => Or(db, SetName(db, u, name, valid))
    case GetCode(u, code) => Or(db, AttachCode(db, u, code))
    case SendReceipt(u, hash, id) =>
      if u in db.users && id !in db.receipts then Or(db, Submit(db, u, hash, c.threshold, c.maxPending, id)) else db
    case ApproveReceipt(r, admin, now, caught) =>
      if caught then ApproveHolds(db, r, admin, now) else Or(db, Approve(db, r, admin, now))
    case RejectReceipt(r, admin, reason, now) => Or(db, Reject(db, r, admin, reason, now))
    case BanUser(u) => Ban(db, u)
    case UnbanUser(u) => Unban(db, u)
  }

  predicate Resolves(db: Db, step: Step) {
    match step
    case ApproveReceipt(r, admin, now, caught) => if caught then IsPending(db, r) else Approve(db, r, admin, now).Ok?
    case RejectReceipt(r, admin, reason, now) => Reject(db, r, admin, reason, now).Ok?
    case _ => false
  }

  function Do(c: Config, st: State, step: Step): State {
    State(After(c, st.db, step), if Resolves(st.db, step) then st.resolved + multiset{step.r} else st.resolved)
  }

  function Run(c: Config, st: State, steps: seq<Step>): State
    decreases |steps|
  {
    if steps == [] then st else Run(c, Do(c, st, steps[0]), steps[1..])
  }

  /** Every step of a run is the service's call. */
  method Perform(c: Config, store: FunnelStore, step: Step)
    requires store.maxPending == c.maxPending
    modifies store
    ensures store.Tables() == After(c, old(store.Tables()), step)
  {
    match step
    case Register(u) => store.RegisterCall(u);
    case Begin(u) => store.StartOnboardingCall(u);
    case GivePhone(u, raw) => store.SetPhoneCall(u, raw);
    case GiveName(u, name, valid) => var _ := store.SetNameCall(u, name, valid);
    case GetCode(u, code) => var _ := store.AttachCodeCall(u, code);
    case SendReceipt(u, hash, id) =>
      if u in store.users && id !in store.receipts {
        var _ := store.SubmitCall(u, hash, c.threshold, id);
      }
    case ApproveReceipt(r, admin, now, caught) => var _ := store.ApproveCall(r, admin, now, false, caught);
    case RejectReceipt(r, admin, reason, now) => var _ := store.RejectCall(r, admin, reason, now);
    case BanUser(u) => store.BanCall(u);
    case UnbanUser(u) => var _ := store.UnbanCall(u);
  }

  // ---------- Invariant ----------

  predicate UserOk(t: User) {
    && (t.status == Approved ==> t.approvedAt.Some?)
    && (t.phone.Some? ==> t.phone.value != "")
  }

  predicate ReceiptOk(db: Db, r: nat, t: Receipt) {
    && t.user in db.users
    && (t.status == Pending <==> t.review.None?)
    && (t.status == Declined ==> t.reason.Some? && t.reason.value != "")
  }

  predicate CodesDiffer(db: Db, u: nat, v: nat)
    requires u in db.users && v in db.users
  {
    u != v && db.users[u].code.Some? ==> db.users[u].code != db.users[v].code
  }

  /** Two receipts waiting for the same user show different pictures. */
  predicate Apart(c: Config, db: Db, r: nat, s: nat) {
    IsPending(db, r) && IsPending(db, s) && r != s
    && db.receipts[r].user == db.receipts[s].user && db.receipts[r].hash.Some? && db.receipts[s].hash.Some?
    ==> Distance(db.receipts[r].hash.value, db.receipts[s].hash.value) > c.threshold
  }

  ghost predicate Inv(c: Config, db: Db) {
    && (forall u :: u in db.users ==> UserOk(db.users[u]))
    && (forall r :: r in db.receipts ==> ReceiptOk(db, r, db.receipts[r]))
    && (forall u, v :: u in db.users && v in db.users ==> CodesDiffer(db, u, v))
    && (forall u :: |PendingOf(db, u)| <= c.maxPending)
    && (forall r, s :: Apart(c, db, r, s))
  }

  predicate CountOk(st: State, r: nat) {
    st.resolved[r] == if r in st.db.receipts && !IsPending(st.db, r) then 1 else 0
  }

  // ---------- How rows change ----------

  /** Onboarding progress: phone, then name and code, then the payment states. */
  function Rank(s: Status): nat {
    match s
    case New => 0
    case OnboardingPhone => 1
    case OnboardingName => 2
    case _ => 3
  }

  /** A user later on: progress never goes back, and what a passed step collected is kept. */
  predicate UserEvolves(a: User, b: User) {
    && Rank(a.status) <= Rank(b.status)
    && (a.approvedAt.Some? ==> b.approvedAt == a.approvedAt)
    && (Rank(a.status) >= 2 ==> b.phone == a.phone)
    && (Rank(a.status) >= 3 ==> b.name == a.name && b.code == a.code)
  }

  /** A receipt later on: its owner and picture stay, and once resolved all of it stays. */
  predicate ReceiptEvolves(a: Receipt, b: Receipt) {
    b.user == a.user && b.hash == a.hash && (a.status != Pending ==> b == a)
  }

  ghost predicate Evolves(db: Db, db': Db) {
    && (forall u :: u in db.users ==> u in db'.users && UserEvolves(db.users[u], db'.users[u]))
    && (forall r :: r in db.receipts ==> r in db'.receipts && ReceiptEvolves(db.receipts[r], db'.receipts[r]))
  }

  lemma EvolvesTransitive(a: Db, b: Db, c: Db)
    requires Evolves(a, b) && Evolves(b, c)
    ensures Evolves(a, c)
  {
  }

  lemma UserStep(c: Config, db: Db, step: Step, u: nat)
    requires u in db.users
    ensures var db' := After(c, db, step); u in db'.users && UserEvolves(db.users[u], db'.users[u])
  {
  }

  lemma ReceiptStep(c: Config, db: Db, step: Step, r: nat)
    requires r in db.receipts
    ensures var db' := After(c, db, step); r in db'.receipts && ReceiptEvolves(db.receipts[r], db'.receipts[r])
  {
  }

  lemma StepEvolves(c: Config, db: Db, step: Step)
    ensures Evolves(db, After(c, db, step))
  {
    forall u | u in db.users
      ensures var db' := After(c, db, step); u in db'.users && UserEvolves(db.users[u], db'.users[u])
    {
      UserStep(c, db, step, u);
    }
    forall r | r in db.receipts
      ensures var db' := After(c, db, step); r in db'.receipts && ReceiptEvolves(db.receipts[r], db'.receipts[r])
    {
      ReceiptStep(c, db, step, r);
    }
  }

  // ---------- The invariant is kept ----------

  /** A step on the users table alone. */
  lemma UsersOnly(c: Config, db: Db, db': Db)
    requires Inv(c, db) && db'.receipts == db.receipts && db.users.Keys <= db'.users.Keys
    requires forall u :: u in db'.users ==> UserOk(db'.users[u])
    requires forall u, v :: u in db'.users && v in db'.users ==> CodesDiffer(db', u, v)
    ensures Inv(c, db')
  {
    forall u ensures |PendingOf(db', u)| <= c.maxPending { assert PendingOf(db', u) == PendingOf(db, u); }
    forall r, s ensures Apart(c, db', r, s) { assert Apart(c, db, r, s); }
    forall r | r in db'.receipts ensures ReceiptOk(db', r, db'.receipts[r]) { assert ReceiptOk(db, r, db.receipts[r]); }
  }

  /** One user's row changes, but not its code. */
  lemma SameCodes(db: Db, u: nat, t: User)
    requires forall v, w :: v in db.users && w in db.users ==> CodesDiffer(db, v, w)
    requires if u in db.users then t.code == db.users[u].code else t.code.None?
    ensures var db' := SetUser(db, u, t); forall v, w :: v in db'.users && w in db'.users ==> CodesDiffer(db', v, w)
  {
    var db' := SetUser(db, u, t);
    forall v, w | v in db'.users && w in db'.users ensures CodesDiffer(db', v, w) {
      assert v in db.users && w in db.users ==> CodesDiffer(db, v, w) && CodesDiffer(db, w, v);
    }
  }

  lemma OneUser(c: Config, db: Db, u: nat, t: User)
    requires Inv(c, db) && UserOk(t)
    requires if u in db.users then t.code == db.users[u].code else t.code.None?
    ensures Inv(c, SetUser(db, u, t))
  {
    SameCodes(db, u, t);
    UsersOnly(c, db, SetUser(db, u, t));
  }

  lemma NewCode(c: Config, db: Db, u: nat, t: User, code: string)
    requires Inv(c, db) && UserOk(t) && t.code == Some(code) && u in db.users && !CodeTaken(db, u, code)
    ensures Inv(c, SetUser(db, u, t))
  {
    var db' := SetUser(db, u, t);
    forall v, w | v in db'.users && w in db'.users ensures CodesDiffer(db', v, w) {
      assert CodesDiffer(db, v, w);
    }
    UsersOnly(c, db, db');
  }

  /** A resolved receipt leaves the queue: fewer are pending, and no two get closer. */
  lemma ResolvedInv(c: Config, db: Db, r: nat, status: ReceiptStatus, review: Review, reason: Option<string>)
    requires Inv(c, db) && IsPending(db, r) && status != Pending
    requires status == Declined ==> reason.Some? && reason.value != ""
    ensures Inv(c, Resolve(db, r, status, review, reason))
  {
    var db' := Resolve(db, r, status, review, reason);
    forall u ensures |PendingOf(db', u)| <= c.maxPending {
      assert PendingOf(db', u) == PendingOf(db, u) - {r};
    }
    forall s, t ensures Apart(c, db', s, t) { assert Apart(c, db, s, t); }
    forall s | s in db'.receipts ensures ReceiptOk(db', s, db'.receipts[s]) { assert ReceiptOk(db, s, db.receipts[s]); }
    forall u, v | u in db'.users && v in db'.users ensures CodesDiffer(db', u, v) { assert CodesDiffer(db, u, v); }
  }

  function Queued(db: Db, u: nat, hash: int, id: nat): Db {
    db.(receipts := db.receipts[id := Receipt(u, Some(hash), Pending, None, None)])
  }

  /** A receipt is queued only below the cap and away from those that wait. */
  lemma QueuedInv(c: Config, db: Db, u: nat, hash: int, id: nat)
    requires Inv(c, db) && u in db.users && id !in db.receipts
    requires |PendingOf(db, u)| < c.maxPending && !OwnTwin(db, u, hash, c.threshold)
    ensures Inv(c, Queued(db, u, hash, id))
  {
    var db' := Queued(db, u, hash, id);
    forall v ensures |PendingOf(db', v)| <= c.maxPending { QueuedCount(c, db, u, hash, id, v); }
    forall r, s ensures Apart(c, db', r, s) {
      assert Apart(c, db, r, s);
      QueuedPair(c, db, u, hash, id, r, s);
    }
    hide Apart, PendingOf, UserOk;
    forall s | s in db'.receipts ensures ReceiptOk(db', s, db'.receipts[s]) {
      assert s != id ==> ReceiptOk(db, s, db.receipts[s]);
    }
    forall v, w | v in db'.users && w in db'.users ensures CodesDiffer(db', v, w) { assert CodesDiffer(db, v, w); }
  }

  lemma QueuedCount(c: Config, db: Db, u: nat, hash: int, id: nat, v: nat)
    requires |PendingOf(db, u)| < c.maxPending && |PendingOf(db, v)| <= c.maxPending && id !in db.receipts
    ensures |PendingOf(Queued(db, u, hash, id), v)| <= c.maxPending
  {
    var db' := Queued(db, u, hash, id);
    if v == u {
      assert PendingOf(db', v) == PendingOf(db, v) + {id};
    } else {
      assert PendingOf(db', v) == PendingOf(db, v);
    }
  }

  lemma QueuedPair(c: Config, db: Db, u: nat, hash: int, id: nat, r: nat, s: nat)
    requires !OwnTwin(db, u, hash, c.threshold) && id !in db.receipts && Apart(c, db, r, s)
    ensures Apart(c, Queued(db, u, hash, id), r, s)
  {
    QueuedApart(c, db, u, hash, id, r);
    QueuedApart(c, db, u, hash, id, s);
    hide OwnTwin, Distance;
  }

  lemma QueuedApart(c: Config, db: Db, u: nat, hash: int, id: nat, s: nat)
    requires !OwnTwin(db, u, hash, c.threshold) && id !in db.receipts
    ensures Apart(c, Queued(db, u, hash, id), id, s) && Apart(c, Queued(db, u, hash, id), s, id)
  {
    if s in PendingOf(db, u) && db.receipts[s].hash.Some? {
      assert !Resembles(db, s, hash, c.threshold);
      Symmetric(hash, db.receipts[s].hash.value, WIDTH);
    }
  }

  lemma SubmitInv(c: Config, db: Db, u: nat, hash: int, id: nat)
    requires Inv(c, db) && u in db.users && id !in db.receipts
    requires SubmitFailure(db, u, Some(hash), c.threshold, c.maxPending).None?
    ensures Inv(c, Submitted(db, u, hash, id))
  {
    QueuedInv(c, db, u, hash, id);
    var q := Queued(db, u, hash, id);
    if Has(q, u, {PendingPayment, Rejected}) { OneUser(c, q, u, q.users[u].(status := PendingApproval)); }
  }

  lemma ApproveInv(c: Config, db: Db, r: nat, admin: nat, now: int)
    requires Inv(c, db) && IsPending(db, r)
    ensures Inv(c, ApproveHolds(db, r, admin, now))
  {
    var u := db.receipts[r].user;
    ResolvedInv(c, db, r, Accepted, Review(admin, now), db.receipts[r].reason);
    var mid := Resolve(db, r, Accepted, Review(admin, now), db.receipts[r].reason);
    if u in mid.users && mid.users[u].status != Banned {
      var at := if mid.users[u].approvedAt.Some? then mid.users[u].approvedAt else Some(now);
      OneUser(c, mid, u, mid.users[u].(status := Approved, approvedAt := at));
    }
  }

  lemma RejectInv(c: Config, db: Db, r: nat, admin: nat, reason: string, now: int)
    requires Inv(c, db) && Reject(db, r, admin, reason, now).Ok?
    ensures Inv(c, Reject(db, r, admin, reason, now).value)
  {
    var u := db.receipts[r].user;
    ResolvedInv(c, db, r, Declined, Review(admin, now), Some(Strip(reason)));
    var mid := Resolve(db, r, Declined, Review(admin, now), Some(Strip(reason)));
    if u in mid.users && mid.users[u].status != Banned { OneUser(c, mid, u, mid.users[u].(status := Rejected)); }
  }

  lemma StatusInv(c: Config, db: Db, u: nat, status: Status)
    requires Inv(c, db) && (status == Approved && u in db.users ==> db.users[u].approvedAt.Some?)
    ensures Inv(c, SetStatus(db, u, status))
  {
    if u in db.users { OneUser(c, db, u, db.users[u].(status := status)); }
  }

  lemma OnboardingInv(c: Config, db: Db, step: Step)
    requires Inv(c, db) && (step.Register? || step.Begin? || step.GivePhone? || step.GiveName? || step.GetCode?)
    ensures Inv(c, After(c, db, step))
  {
    var db' := After(c, db, step);
    if db' != db {
      var u := step.u;
      if step.GetCode? {
        NewCode(c, db, u, db'.users[u], step.code);
      } else {
        OneUser(c, db, u, db'.users[u]);
      }
    }
  }

  lemma StepInv(c: Config, db: Db, step: Step)
    requires Inv(c, db)
    ensures Inv(c, After(c, db, step))
  {
    match step
    case SendReceipt(u, hash, id) =>
      if u in db.users && id !in db.receipts && Submit(db, u, hash, c.threshold, c.maxPending, id).Ok? {
        SubmitInv(c, db, u, hash.value, id);
      }
    case ApproveReceipt(r, admin, now, caught) => if IsPending(db, r) { ApproveInv(c, db, r, admin, now); }
    case RejectReceipt(r, admin, reason, now) => if Resolves(db, step) { RejectInv(c, db, r, admin, reason, now); }
    case BanUser(u) => StatusInv(c, db, u, Banned);
    case UnbanUser(u) => if CanUnban(db, u) { StatusInv(c, db, u, Approved); }
    case _ => OnboardingInv(c, db, step);
  }

  lemma StepCounts(c: Config, st: State, step: Step)
    requires forall r :: CountOk(st, r)
    requires forall r :: r in st.db.receipts ==> r in After(c, st.db, step).receipts
    ensures forall r :: CountOk(Do(c, st, step), r)
  {
    forall r ensures CountOk(Do(c, st, step), r) { assert CountOk(st, r); }
  }

  // ---------- What holds of every run ----------

  lemma {:induction false} RunKeeps(c: Config, st: State, steps: seq<Step>)
    requires Inv(c, st.db) && forall r :: CountOk(st, r)
    ensures Inv(c, Run(c, st, steps).db) && (forall r :: CountOk(Run(c, st, steps), r))
    ensures Evolves(st.db, Run(c, st, steps).db)
    decreases |steps|
  {
    if steps != [] {
      var next := Do(c, st, steps[0]);
      StepInv(c, st.db, steps[0]);
      StepEvolves(c, st.db, steps[0]);
      StepCounts(c, st, steps[0]);
      RunKeeps(c, next, steps[1..]);
      EvolvesTransitive(st.db, next.db, Run(c, st, steps).db);
    }
  }

  /** The receipt queue after any run: the cap holds, a user's waiting pictures are pairwise apart, and
      each receipt was resolved at most once, exactly if it no longer waits. */
  lemma QueueSafety(c: Config, steps: seq<Step>)
    ensures var st := Run(c, State(Db(map[], map[]), multiset{}), steps);
            && (forall u :: |PendingOf(st.db, u)| <= c.maxPending)
            && (forall r, s :: Apart(c, st.db, r, s))
            && (forall r :: st.resolved[r] == if r in st.db.receipts && !IsPending(st.db, r) then 1 else 0)
            && (forall u :: u in st.db.users && st.db.users[u].status == Approved ==> st.db.users[u].approvedAt.Some?)
  {
    var st0 := State(Db(map[], map[]), multiset{});
    forall u ensures |PendingOf(st0.db, u)| <= c.maxPending { assert PendingOf(st0.db, u) == {}; }
    forall r ensures CountOk(st0, r) {}
    RunKeeps(c, st0, steps);
    var st := Run(c, st0, steps);
    forall r ensures st.resolved[r] == if r in st.db.receipts && !IsPending(st.db, r) then 1 else 0 {
      assert CountOk(st, r);
    }
    forall u | u in st.db.users ensures st.db.users[u].status == Approved ==> st.db.users[u].approvedAt.Some? {
      assert UserOk(st.db.users[u]);
    }
  }

  /** A ban holds against everything but `unban`, and `unban` only restores who was approved before. */
  lemma BanWins(c: Config, db: Db, step: Step, u: nat)
    requires u in db.users && db.users[u].status == Banned
    ensures var db' := After(c, db, step);
            u in db'.users &&
            if step == UnbanUser(u) && db.users[u].approvedAt.Some?
            then db'.users[u] == db.users[u].(status := Approved)
            else db'.users[u] == db.users[u]
  {
  }

  ghost predicate NoUnban(steps: seq<Step>, u: nat) {
    forall i :: 0 <= i < |steps| ==> steps[i] != UnbanUser(u)
  }

  /** Over a run, a banned user that is not unbanned, or was never approved, keeps exactly its row. */
  lemma {:induction false} BannedStays(c: Config, st: State, steps: seq<Step>, u: nat)
    requires u in st.db.users && st.db.users[u].status == Banned
    requires NoUnban(steps, u) || st.db.users[u].approvedAt.None?
    ensures var db' := Run(c, st, steps).db; u in db'.users && db'.users[u] == st.db.users[u]
    decreases |steps|
  {
    if steps != [] {
      BanWins(c, st.db, steps[0], u);
      assert NoUnban(steps, u) ==> NoUnban(steps[1..], u);
      BannedStays(c, Do(c, st, steps[0]), steps[1..], u);
    }
  }

  // ---------- An approval that raises ----------

  predicate IsAccepted(db: Db, r: nat) {
    r in db.receipts && db.receipts[r].status == Accepted
  }

  /** Approving a receipt of a banned user raises. Rolled back, that leaves the receipt pending; caught, it
      leaves it accepted, and the user banned as before. */
  lemma BannedReceiptWaits(c: Config, db: Db, r: nat, admin: nat, now: int, caught: bool)
    requires IsPending(db, r) && db.receipts[r].user in db.users && db.users[db.receipts[r].user].status == Banned
    ensures Approve(db, r, admin, now) == Err(UserBanned)
    ensures var db' := After(c, db, ApproveReceipt(r, admin, now, caught));
            if caught then IsAccepted(db', r) && db'.users == db.users else db' == db
  {
  }

  /** Who has an accepted receipt was approved at some time. */
  predicate PaidFor(db: Db, r: nat) {
    IsAccepted(db, r) && db.receipts[r].user in db.users ==>
      db.users[db.receipts[r].user].approvedAt.Some?
  }

  ghost predicate AllPaidFor(db: Db) {
    forall r :: PaidFor(db, r)
  }

  /** The step accepts a waiting receipt of a banned user who was never approved, and catches the error. */
  predicate TakesForNothing(db: Db, step: Step) {
    && step.ApproveReceipt? && step.caught && IsPending(db, step.r)
    && Has(db, db.receipts[step.r].user, {Banned}) && db.users[db.receipts[step.r].user].approvedAt.None?
  }

  /** A receipt that was accepted for nothing stays so: its user is out for good. */
  predicate Wasted(db: Db, r: nat) {
    && IsAccepted(db, r)
    && Has(db, db.receipts[r].user, {Banned}) && db.users[db.receipts[r].user].approvedAt.None?
  }

  lemma WastedStays(c: Config, db: Db, step: Step, r: nat)
    requires Wasted(db, r)
    ensures Wasted(After(c, db, step), r)
  {
    hide After;
    ReceiptStep(c, db, step, r);
    BanWins(c, db, step, db.receipts[r].user);
  }

  lemma {:induction false} WastedForever(c: Config, st: State, steps: seq<Step>, r: nat)
    requires Wasted(st.db, r)
    ensures Wasted(Run(c, st, steps).db, r)
    decreases |steps|
  {
    if steps != [] {
      WastedStays(c, st.db, steps[0], r);
      WastedForever(c, Do(c, st, steps[0]), steps[1..], r);
    }
  }

  lemma StepPaidFor(c: Config, db: Db, step: Step, r: nat)
    requires Inv(c, db) && PaidFor(db, r) && !TakesForNothing(db, step)
    ensures PaidFor(After(c, db, step), r)
  {
    hide Inv, Distance, SubmitFailure;
    assert r in db.receipts ==> db.receipts[r].user in db.users by { OwnerKnown(c, db, r); }
    if r in db.receipts { UserStep(c, db, step, db.receipts[r].user); }
  }

  lemma OwnerKnown(c: Config, db: Db, r: nat)
    requires Inv(c, db)
    ensures r in db.receipts ==> db.receipts[r].user in db.users
  {
    assert r in db.receipts ==> ReceiptOk(db, r, db.receipts[r]);
  }

  predicate NothingTaken(c: Config, st: State, steps: seq<Step>)
    decreases |steps|
  {
    steps == [] || (!TakesForNothing(st.db, steps[0]) && NothingTaken(c, Do(c, st, steps[0]), steps[1..]))
  }

  /** Over every run: each accepted receipt belongs to someone who was approved if and only if nowhere in
      the run a caught error accepted the receipt of a banned user who never was. */
  lemma {:induction false} PaidForIff(c: Config, st: State, steps: seq<Step>)
    requires Inv(c, st.db) && AllPaidFor(st.db)
    ensures AllPaidFor(Run(c, st, steps).db) <==> NothingTaken(c, st, steps)
    decreases |steps|
  {
    hide Inv, After, TakesForNothing, PaidFor;
    if steps != [] {
      var step, next := steps[0], Do(c, st, steps[0]);
      if TakesForNothing(st.db, step) {
        TakenIsWasted(c, st.db, step);
        WastedForever(c, next, steps[1..], step.r);
        NotPaidFor(Run(c, st, steps).db, step.r);
      } else {
        StepInv(c, st.db, step);
        forall r ensures PaidFor(next.db, r) { StepPaidFor(c, st.db, step, r); }
        PaidForIff(c, next, steps[1..]);
      }
    }
  }

  lemma TakenIsWasted(c: Config, db: Db, step: Step)
    requires TakesForNothing(db, step)
    ensures step.ApproveReceipt? && Wasted(After(c, db, step), step.r)
  {
  }

  lemma NotPaidFor(db: Db, r: nat)
    requires Wasted(db, r)
    ensures !PaidFor(db, r)
  {
  }

  /** Resending a waiting picture, or one within the threshold of it, never queues a second receipt. */
  lemma ResendIsRefused(c: Config, db: Db, u: nat, hash: int, again: int, id: nat, id2: nat)
    requires c.threshold >= 0 && u in db.users && id !in db.receipts && id2 !in db.receipts && id != id2
    requires Submit(db, u, Some(hash), c.threshold, c.maxPending, id).Ok? && Distance(again, hash) <= c.threshold
    ensures var db' := After(c, db, SendReceipt(u, Some(hash), id));
            After(c, db', SendReceipt(u, Some(again), id2)) == db'
  {
    var db' := After(c, db, SendReceipt(u, Some(hash), id));
    assert id in PendingOf(db', u) && Resembles(db', id, again, c.threshold);
    assert OwnTwin(db', u, again, c.threshold);
  }
}
