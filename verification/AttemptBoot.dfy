/**
 Boot reconciliation (`app/jobs/startup_reconciliation.py`): each open attempt has its turn, in which its
 jobs are set again and it is finalized if its time has come, while the scheduler is already running.
 */
module AttemptBoot {
  import opened Common
  import opened AttemptTables
  import opened AttemptJobs

  // ---------- Reconciliation ----------

  /** A boot, as its clock reads and its troubles fall: `scheduledAt` is the read of the skip test and
      `checkedAt` that of the overdue test, for each attempt; `order` is the order in which the database
      lists the open attempts, and `meanwhile` what the scheduler does before an attempt has its turn. */
  datatype Boot = Boot(
    order: seq<nat>,
    scheduledAt: nat -> int,
    checkedAt: nat -> int,
    trouble: nat -> Trouble,
    meanwhile: nat -> seq<TimerEvent>)

  ghost predicate Quiet(boot: Boot) {
    forall a :: boot.meanwhile(a) == []
  }

  ghost predicate Lists(order: seq<nat>, s: set<nat>) {
    && (forall i, j :: 0 <= i < j < |order| ==> order[i] != order[j])
    && (forall a :: a in order <==> a in s)
  }

  function Elems(order: seq<nat>): set<nat> {
    set a | a in order
  }

  lemma NextTurn(order: seq<nat>, i: nat, s: set<nat>)
    requires Lists(order, s) && i < |order|
    ensures order[i] in Elems(order[i..]) && Elems(order[i..]) - {order[i]} == Elems(order[i + 1..])
    ensures order[i] in s
  {
    assert order[i..] == [order[i]] + order[i + 1..];
  }

  lemma AllTurns(order: seq<nat>, s: set<nat>)
    requires Lists(order, s)
    ensures Elems(order[0..]) == s && Elems(order[|order|..]) == {}
  {
    assert order[0..] == order;
  }

  /** All trouble is with the attempts in `failing`. */
  ghost predicate TroubleWithin(boot: Boot, failing: set<nat>, db: Db) {
    && (forall a :: a in db.attempts && boot.trouble(a) != NoTrouble ==> a in failing)
    && (forall a, i :: 0 <= i < |boot.meanwhile(a)| ==> EventOk(boot.meanwhile(a)[i], failing))
  }

  /** Between the two clock reads the expiry slips through: neither in time for the first test nor late
      for the second. */
  predicate Slips(expiresAt: int, scheduledAt: int, checkedAt: int) {
    checkedAt < expiresAt <= scheduledAt
  }

  /** What rescheduling one attempt, and finalizing it if late, does to tables and jobs. */
  ghost predicate Reconciled(w: World, w': World, a: nat, scheduledAt: int, checkedAt: int, t: Trouble) {
    && a in w.db.attempts && w'.running == w.running
    && var expiresAt := w.db.attempts[a].expiresAt;
    && w'.db == (if expiresAt <= checkedAt then AfterExpire(w.db, a, t, checkedAt) else w.db)
    && (forall j: JobId :: j.attempt != a ==> SameJob(w.jobs, w'.jobs, j))
    && (forall slot :: if expiresAt <= checkedAt && CancelsJobs(w.db, a, t) then JobId(slot, a) !in w'.jobs
                       else SlotSet(w.jobs, w'.jobs, a, slot, expiresAt, scheduledAt))
  }

  /** An open attempt is left open and without its job: because its finalization rolled back after the
      jobs were cancelled, or because the clock reads let it slip and it had no job. */
  predicate Dropped(had: bool, expiresAt: int, scheduledAt: int, checkedAt: int, t: Trouble) {
    if expiresAt <= checkedAt && t != RaisesEarly then t != NoTrouble else expiresAt <= scheduledAt && !had
  }

  lemma DroppedIff(w: World, w': World, a: nat, scheduledAt: int, checkedAt: int, t: Trouble)
    requires Open(w.db, a) && Reconciled(w, w', a, scheduledAt, checkedAt, t)
    ensures var expiresAt := w.db.attempts[a].expiresAt;
            Open(w'.db, a) && !HasExpireJob(w'.jobs, a, expiresAt)
            <==> Dropped(HasExpireJob(w.jobs, a, expiresAt), expiresAt, scheduledAt, checkedAt, t)
  {
    var expiresAt := w.db.attempts[a].expiresAt;
    assert if expiresAt <= checkedAt && CancelsJobs(w.db, a, t) then JobId(ExpireJob, a) !in w'.jobs
           else SlotSet(w.jobs, w'.jobs, a, ExpireJob, expiresAt, scheduledAt);
  }

  /** Without trouble: an attempt is left open and without its job if and only if it had none and the
      clock stepped back between the two reads, from at or past its expiry to before it. */
  lemma SlipsIff(w: World, w': World, a: nat, scheduledAt: int, checkedAt: int)
    requires Open(w.db, a) && Reconciled(w, w', a, scheduledAt, checkedAt, NoTrouble)
    ensures var expiresAt := w.db.attempts[a].expiresAt;
            Open(w'.db, a) && !HasExpireJob(w'.jobs, a, expiresAt)
            <==> Slips(expiresAt, scheduledAt, checkedAt) && !HasExpireJob(w.jobs, a, expiresAt)
  {
    DroppedIff(w, w', a, scheduledAt, checkedAt, NoTrouble);
  }

  /** The two clock reads cannot drop an attempt between them: read in order, one of the two tests
      catches it. */
  lemma KeptOne(w: World, w': World, a: nat, scheduledAt: int, checkedAt: int)
    requires Reconciled(w, w', a, scheduledAt, checkedAt, NoTrouble) && scheduledAt <= checkedAt
    ensures Open(w'.db, a) ==> HasExpireJob(w'.jobs, a, w.db.attempts[a].expiresAt)
  {
    if Open(w.db, a) { SlipsIff(w, w', a, scheduledAt, checkedAt); }
  }

  // ---------- The cover of one attempt over a boot ----------

  /** The turn of an attempt that stays open. */
  function AtTurn(c: Cover, expiresAt: int, scheduledAt: int): Cover {
    if scheduledAt < expiresAt then c.(job := Some(expiresAt)) else c
  }

  /** Everything that the scheduler does between the turns lo and hi. */
  function Events(boot: Boot, lo: nat, hi: nat): seq<TimerEvent>
    requires hi <= |boot.order|
    decreases hi
  {
    if lo >= hi then [] else Events(boot, lo, hi - 1) + boot.meanwhile(boot.order[hi - 1])
  }

  /** The cover of an attempt that stays open, after the first n turns. */
  function CoverAt(c: Cover, boot: Boot, a: nat, expiresAt: int, n: nat): Cover
    requires n <= |boot.order|
  {
    if n == 0 then c
    else
      var b := boot.order[n - 1];
      var mid := AfterEvents(CoverAt(c, boot, a, expiresAt, n - 1), boot.meanwhile(b), a);
      if b == a then AtTurn(mid, expiresAt, boot.scheduledAt(a)) else mid
  }

  /** Before its turn only events touch it, after its turn likewise. */
  lemma {:induction false} CoverBefore(c: Cover, boot: Boot, a: nat, expiresAt: int, n: nat)
    requires n <= |boot.order| && forall i :: 0 <= i < n ==> boot.order[i] != a
    ensures CoverAt(c, boot, a, expiresAt, n) == AfterEvents(c, Events(boot, 0, n), a)
  {
    if n > 0 {
      CoverBefore(c, boot, a, expiresAt, n - 1);
      AfterAppend(c, Events(boot, 0, n - 1), boot.meanwhile(boot.order[n - 1]), a);
    }
  }

  lemma {:induction false} CoverAfter(c: Cover, boot: Boot, a: nat, expiresAt: int, k: nat, n: nat)
    requires k <= n <= |boot.order| && forall i :: k <= i < n ==> boot.order[i] != a
    ensures CoverAt(c, boot, a, expiresAt, n) == AfterEvents(CoverAt(c, boot, a, expiresAt, k), Events(boot, k, n), a)
    decreases n
  {
    if n > k {
      CoverAfter(c, boot, a, expiresAt, k, n - 1);
      AfterAppend(CoverAt(c, boot, a, expiresAt, k), Events(boot, k, n - 1), boot.meanwhile(boot.order[n - 1]), a);
    }
  }

  /** An attempt that stays open is left with neither job nor coroutine, by events before and after its
      turn. A job that is missed before the turn does no harm unless the clock read of the skip test is
      already past the expiry; one that is missed after the turn does. */
  predicate Lost(c: Cover, before: seq<TimerEvent>, after: seq<TimerEvent>, a: nat, expiresAt: int, scheduledAt: int) {
    && !c.running && !(c.job.Some? && FiredIn(before, a))
    && (if scheduledAt < expiresAt then MissedIn(after, a)
        else c.job.None? || MissedIn(before, a) || MissedIn(after, a)
             || (c.job != Some(expiresAt) && !FiredIn(after, a)))
  }

  lemma LostIff(c: Cover, boot: Boot, k: nat, expiresAt: int)
    requires k < |boot.order| && forall i :: 0 <= i < |boot.order| && i != k ==> boot.order[i] != boot.order[k]
    ensures var a, n := boot.order[k], |boot.order|;
            CoverAt(c, boot, a, expiresAt, n).Holds(expiresAt)
            <==> !Lost(c, Events(boot, 0, k + 1), Events(boot, k + 1, n), a, expiresAt, boot.scheduledAt(a))
  {
    var a, n := boot.order[k], |boot.order|;
    var before, after := Events(boot, 0, k + 1), Events(boot, k + 1, n);
    CoverBefore(c, boot, a, expiresAt, k);
    AfterAppend(c, Events(boot, 0, k), boot.meanwhile(a), a);
    CoverAfter(c, boot, a, expiresAt, k + 1, n);
    FirstDecides(c, before, a);
    FirstDecides(AtTurn(AfterEvents(c, before, a), expiresAt, boot.scheduledAt(a)), after, a);
  }

  // ---------- Reconciliation under way ----------

  /** Those that reconciliation finalizes if nothing else happens. */
  function Reached(t0: Db, boot: Boot): set<nat> {
    WithoutTrouble(Late(t0, boot.checkedAt), boot.trouble)
  }

  /** A job of one attempt after its turn, if nothing else happens. */
  predicate JobAfter(was: map<JobId, int>, jobs: map<JobId, int>, a: nat, slot: JobSlot, expiresAt: int, boot: Boot) {
    if expiresAt <= boot.checkedAt(a) && boot.trouble(a) != RaisesEarly then JobId(slot, a) !in jobs
    else SlotSet(was, jobs, a, slot, expiresAt, boot.scheduledAt(a))
  }

  ghost predicate JobsSoFar(w0: World, jobs: map<JobId, int>, todo: set<nat>, boot: Boot) {
    && (forall j: JobId :: j.attempt in todo || j.attempt !in OpenAttempts(w0.db) ==> SameJob(w0.jobs, jobs, j))
    && (forall a, slot :: a in OpenAttempts(w0.db) && a !in todo ==>
                            JobAfter(w0.jobs, jobs, a, slot, w0.db.attempts[a].expiresAt, boot))
  }

  /** With nothing happening in between. */
  ghost predicate QuietSoFar(w0: World, w: World, todo: set<nat>, boot: Boot) {
    && w.running == w0.running
    && Finalized(w0.db, w.db, Reached(w0.db, boot) - todo, boot.checkedAt)
    && JobsSoFar(w0, w.jobs, todo, boot)
  }

  /** After n turns, the cover of an attempt that is still open. */
  predicate KeptSoFar(w0: World, w: World, boot: Boot, a: nat, n: nat)
    requires n <= |boot.order|
  {
    a in w0.db.attempts && Open(w.db, a) ==>
      CoverOf(w, a) == CoverAt(CoverOf(w0, a), boot, a, w0.db.attempts[a].expiresAt, n)
  }

  /** And before the next turn. */
  predicate KeptUntil(w0: World, w: World, boot: Boot, a: nat, n: nat)
    requires n < |boot.order|
  {
    a in w0.db.attempts && Open(w.db, a) ==>
      CoverOf(w, a) == AfterEvents(CoverAt(CoverOf(w0, a), boot, a, w0.db.attempts[a].expiresAt, n),
                                   boot.meanwhile(boot.order[n]), a)
  }

  /** Reconciliation after n turns. */
  ghost predicate Reconciling(w0: World, w: World, boot: Boot, n: nat, failing: set<nat>)
    requires n <= |boot.order|
  {
    && Evolves(w0.db, w.db)
    && (Quiet(boot) ==> QuietSoFar(w0, w, Elems(boot.order[n..]), boot))
    && (forall a :: a in OpenAttempts(w0.db) && a !in failing ==> KeptSoFar(w0, w, boot, a, n))
  }

  /** And when the next attempt has its turn. */
  ghost predicate NextUp(w0: World, w: World, boot: Boot, n: nat, failing: set<nat>)
    requires n < |boot.order|
  {
    && Evolves(w0.db, w.db)
    && (Quiet(boot) ==> QuietSoFar(w0, w, Elems(boot.order[n..]), boot))
    && (forall a :: a in OpenAttempts(w0.db) && a !in failing ==> KeptUntil(w0, w, boot, a, n))
  }

  lemma ReconcileBegins(w0: World, boot: Boot, failing: set<nat>)
    requires Lists(boot.order, OpenAttempts(w0.db))
    ensures Reconciling(w0, w0, boot, 0, failing)
    ensures OpenAttempts(w0.db) - Elems(boot.order[0..]) == {}
    ensures Late(w0.db, boot.checkedAt) - Elems(boot.order[0..]) == {}
  {
    AllTurns(boot.order, OpenAttempts(w0.db));
    EvolvesSelf(w0.db);
    assert Reached(w0.db, boot) - OpenAttempts(w0.db) == {};
  }

  lemma TimersBetween(w0: World, w: World, w': World, boot: Boot, n: nat, failing: set<nat>)
    requires n < |boot.order| && Reconciling(w0, w, boot, n, failing)
    requires TimersOk(w, w', boot.meanwhile(boot.order[n]), failing) && (Quiet(boot) ==> w' == w)
    ensures NextUp(w0, w', boot, n, failing)
  {
    hide QuietSoFar, CoverAt, AfterEvents;
    EvolvesTransitive(w0.db, w.db, w'.db);
    forall a | a in OpenAttempts(w0.db) && a !in failing ensures KeptUntil(w0, w', boot, a, n) {
      assert KeptSoFar(w0, w, boot, a, n) && Tracked(w, w', boot.meanwhile(boot.order[n]), a);
    }
  }

  lemma StillListed(w0: World, w: World, boot: Boot, n: nat, failing: set<nat>)
    requires n < |boot.order| && Lists(boot.order, OpenAttempts(w0.db)) && NextUp(w0, w, boot, n, failing)
    ensures var a := boot.order[n];
            && a in w0.db.attempts && a in w.db.attempts && w.db.attempts[a].expiresAt == w0.db.attempts[a].expiresAt
            && (a in Late(w0.db, boot.checkedAt) <==> w0.db.attempts[a].expiresAt <= boot.checkedAt(a))
  {
    NextTurn(boot.order, n, OpenAttempts(w0.db));
  }

  lemma NextQuiet(w0: World, w: World, w': World, todo: set<nat>, boot: Boot, a: nat)
    requires QuietSoFar(w0, w, todo, boot) && a in todo && todo <= OpenAttempts(w0.db)
    requires Reconciled(w, w', a, boot.scheduledAt(a), boot.checkedAt(a), boot.trouble(a))
    ensures QuietSoFar(w0, w', todo - {a}, boot)
  {
    hide SlotSet, SameJob, CurrentScore;
    assert w.db.attempts[a] == w0.db.attempts[a] && a !in Reached(w0.db, boot) - todo;
    FinalizedNext(w0.db, w.db, Reached(w0.db, boot), todo, a, boot.checkedAt);
    NextJobs(w0, w, w', todo, boot, a);
  }

  lemma NextJobs(w0: World, w: World, w': World, todo: set<nat>, boot: Boot, a: nat)
    requires JobsSoFar(w0, w.jobs, todo, boot) && a in todo && todo <= OpenAttempts(w0.db)
    requires a in w.db.attempts && w.db.attempts[a] == w0.db.attempts[a]
    requires Reconciled(w, w', a, boot.scheduledAt(a), boot.checkedAt(a), boot.trouble(a))
    ensures JobsSoFar(w0, w'.jobs, todo - {a}, boot)
  {
    forall j: JobId | j.attempt in todo - {a} || j.attempt !in OpenAttempts(w0.db)
      ensures SameJob(w0.jobs, w'.jobs, j)
    {
      assert SameJob(w0.jobs, w.jobs, j) && SameJob(w.jobs, w'.jobs, j);
    }
    forall b, slot | b in OpenAttempts(w0.db) && b !in todo - {a}
      ensures JobAfter(w0.jobs, w'.jobs, b, slot, w0.db.attempts[b].expiresAt, boot)
    {
      var j := JobId(slot, b);
      if b == a {
        assert SameJob(w0.jobs, w.jobs, j);
      } else {
        assert JobAfter(w0.jobs, w.jobs, b, slot, w0.db.attempts[b].expiresAt, boot) && SameJob(w.jobs, w'.jobs, j);
      }
    }
  }

  /** The turn of b, for the cover of a. */
  lemma OneKept(w0: World, w: World, w': World, boot: Boot, n: nat, a: nat)
    requires n < |boot.order| && Evolves(w0.db, w.db) && a in w0.db.attempts && KeptUntil(w0, w, boot, a, n)
    requires var b := boot.order[n];
             && b in w0.db.attempts && (a == b ==> boot.trouble(b) == NoTrouble)
             && Reconciled(w, w', b, boot.scheduledAt(b), boot.checkedAt(b), boot.trouble(b))
    ensures KeptSoFar(w0, w', boot, a, n + 1)
  {
    hide CurrentScore;
    var b := boot.order[n];
    assert a != b ==> SameJob(w.jobs, w'.jobs, JobId(ExpireJob, a));
    assert a == b && Open(w'.db, a) ==>
             SlotSet(w.jobs, w'.jobs, b, ExpireJob, w.db.attempts[b].expiresAt, boot.scheduledAt(b));
  }

  lemma OneReconciled(w0: World, w: World, w': World, boot: Boot, n: nat, failing: set<nat>)
    requires n < |boot.order| && Lists(boot.order, OpenAttempts(w0.db)) && NextUp(w0, w, boot, n, failing)
    requires var b := boot.order[n]; Reconciled(w, w', b, boot.scheduledAt(b), boot.checkedAt(b), boot.trouble(b))
    requires TroubleWithin(boot, failing, w0.db)
    ensures Reconciling(w0, w', boot, n + 1, failing)
  {
    hide QuietSoFar, Reconciled, KeptSoFar, KeptUntil;
    var b := boot.order[n];
    NextTurn(boot.order, n, OpenAttempts(w0.db));
    if Quiet(boot) { NextQuiet(w0, w, w', Elems(boot.order[n..]), boot, b); }
    ReconciledEvolves(w0.db, w, w', b, boot.scheduledAt(b), boot.checkedAt(b), boot.trouble(b));
    forall a | a in OpenAttempts(w0.db) && a !in failing ensures KeptSoFar(w0, w', boot, a, n + 1) {
      OneKept(w0, w, w', boot, n, a);
    }
  }

  lemma ReconciledEvolves(t0: Db, w: World, w': World, a: nat, scheduledAt: int, checkedAt: int, t: Trouble)
    requires Evolves(t0, w.db) && Reconciled(w, w', a, scheduledAt, checkedAt, t)
    ensures Evolves(t0, w'.db)
  {
    hide CurrentScore;
    assert Evolves(w.db, w'.db);
    EvolvesTransitive(t0, w.db, w'.db);
  }

  /** Whatever the scheduler does in between, exactly which attempts without trouble are lost. */
  ghost predicate LostExactly(w0: World, w: World, boot: Boot, failing: set<nat>) {
    forall k :: 0 <= k < |boot.order| && boot.order[k] !in failing ==> CoveredExactly(w0, w, boot, k)
  }

  predicate CoveredExactly(w0: World, w: World, boot: Boot, k: nat)
    requires k < |boot.order|
  {
    var a := boot.order[k];
    a in w0.db.attempts && Open(w.db, a) ==>
      var c, expiresAt := CoverOf(w0, a), w0.db.attempts[a].expiresAt;
      Covered(w, a, expiresAt)
      <==> !Lost(c, Events(boot, 0, k + 1), Events(boot, k + 1, |boot.order|), a, expiresAt, boot.scheduledAt(a))
  }

  /** If nothing fires in between: exactly the late attempts without trouble expired, exactly the dropped
      ones are open without their job, and each job stands as its turn left it. */
  ghost predicate ExactlyReconciled(w0: World, w: World, boot: Boot) {
    && w.running == w0.running
    && Finalized(w0.db, w.db, Reached(w0.db, boot), boot.checkedAt)
    && (forall a :: a in OpenAttempts(w0.db) ==> DroppedExactly(w0, w, boot, a))
    && JobsSoFar(w0, w.jobs, {}, boot)
  }

  predicate DroppedExactly(w0: World, w: World, boot: Boot, a: nat) {
    a in w0.db.attempts ==>
      var expiresAt := w0.db.attempts[a].expiresAt;
      Open(w.db, a) && !HasExpireJob(w.jobs, a, expiresAt)
      <==> Dropped(HasExpireJob(w0.jobs, a, expiresAt), expiresAt, boot.scheduledAt(a), boot.checkedAt(a),
          boot.trouble(a))
  }

  lemma ReconcileEnds(w0: World, w: World, boot: Boot, failing: set<nat>)
    requires Lists(boot.order, OpenAttempts(w0.db)) && Reconciling(w0, w, boot, |boot.order|, failing)
    ensures Evolves(w0.db, w.db) && LostExactly(w0, w, boot, failing)
    ensures Quiet(boot) ==> ExactlyReconciled(w0, w, boot)
  {
    AllTurns(boot.order, OpenAttempts(w0.db));
    forall k | 0 <= k < |boot.order| && boot.order[k] !in failing ensures CoveredExactly(w0, w, boot, k) {
      var a := boot.order[k];
      assert a in OpenAttempts(w0.db) && KeptSoFar(w0, w, boot, a, |boot.order|);
      LostIff(CoverOf(w0, a), boot, k, w0.db.attempts[a].expiresAt);
    }
    if Quiet(boot) { QuietEnds(w0, w, boot); }
  }

  lemma QuietEnds(w0: World, w: World, boot: Boot)
    requires QuietSoFar(w0, w, {}, boot)
    ensures ExactlyReconciled(w0, w, boot)
  {
    NothingDone(Reached(w0.db, boot));
    forall a | a in OpenAttempts(w0.db) ensures DroppedExactly(w0, w, boot, a) {
      assert JobAfter(w0.jobs, w.jobs, a, ExpireJob, w0.db.attempts[a].expiresAt, boot);
      if a in Reached(w0.db, boot) { assert ExpiredRow(w0.db, w.db, a, boot.checkedAt(a)); }
    }
  }

  // ---------- Crashes ----------

  /** Where the process dies, with the attempt whose jobs were being changed. Expire jobs that had left the
      store and not committed are gone at any of them. */
  datatype CrashPoint =
    | BetweenCalls
    | BeforeFinishCommits(attempt: nat)
    | BeforeStartCommits(attempt: nat, expiresAt: int, now: int)
    | JobsFlushed

  /** The expire job of an attempt that is in the store after the crash. */
  function Surviving(crash: CrashPoint, jobs: map<JobId, int>, a: nat): Option<int> {
    match crash
    case BetweenCalls => JobOf(jobs, a)
    case BeforeFinishCommits(c) => if a == c then None else JobOf(jobs, a)
    case BeforeStartCommits(c, e, now) => if a == c && e > now then Some(e) else JobOf(jobs, a)
    case JobsFlushed => None
  }

  /** The world that the next boot finds. */
  predicate Survived(crash: CrashPoint, w: World, w': World, a: nat) {
    CoverOf(w', a) == Cover(Surviving(crash, w.jobs, a), false)
  }

  /** After the crash and the boot, the attempt that had the k-th turn, if still open, has its job exactly
      unless it is lost with what survived. */
  predicate CoveredAfterCrash(crash: CrashPoint, was: map<JobId, int>, w: World, boot: Boot, k: nat)
    requires k < |boot.order|
  {
    var a := boot.order[k];
    Open(w.db, a) ==>
      var c, expiresAt := Cover(Surviving(crash, was, a), false), w.db.attempts[a].expiresAt;
      Covered(w, a, expiresAt)
      <==> !Lost(c, Events(boot, 0, k + 1), Events(boot, k + 1, |boot.order|), a, expiresAt, boot.scheduledAt(a))
  }

  lemma CrashedBoot(crash: CrashPoint, w: World, w0: World, w': World, boot: Boot, failing: set<nat>)
    requires w0.db == w.db && Lists(boot.order, OpenAttempts(w0.db)) && forall a :: Survived(crash, w, w0, a)
    requires Evolves(w0.db, w'.db) && LostExactly(w0, w', boot, failing)
    ensures forall k :: 0 <= k < |boot.order| && boot.order[k] !in failing ==>
                          CoveredAfterCrash(crash, w.jobs, w', boot, k)
  {
    hide Lost, Surviving, Events, Covered;
    forall k | 0 <= k < |boot.order| && boot.order[k] !in failing
      ensures CoveredAfterCrash(crash, w.jobs, w', boot, k)
    {
      assert boot.order[k] in OpenAttempts(w0.db) && Survived(crash, w, w0, boot.order[k]);
      assert CoveredExactly(w0, w', boot, k);
    }
  }
}
