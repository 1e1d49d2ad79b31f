/**
 The scheduler's job store, and what timer jobs and the sweep do to it and to the tables
 (`app/jobs/registry.py`, `app/jobs/attempt_timer.py`, `app/core/scheduler.py`).

 The job store is not part of any transaction. A job that fires leaves the store first; it has no effect
 on the tables until its own transaction commits.
 */
module AttemptJobs {
  import opened Common
  import opened AttemptTables

  datatype JobSlot = WarnJob(slot: Slot) | ExpireJob

  /** The deterministic job id `attempt_<suffix>:<attempt_id>`. */
  datatype JobId = JobId(slot: JobSlot, attempt: nat)

  /** Seconds before `expires_at` at which a slot fires. */
  function Lead(slot: JobSlot): nat {
    match slot
    case WarnJob(Min10) => 600
    case WarnJob(Min5) => 300
    case WarnJob(Min1) => 60
    case ExpireJob => 0
  }

  const SLOTS: seq<JobSlot> := [WarnJob(Min10), WarnJob(Min5), WarnJob(Min1), ExpireJob]

  lemma AllSlots(slot: JobSlot)
    ensures slot in SLOTS
  {
    var s := SLOTS;
    match slot
    case WarnJob(Min10) => assert s[0] == slot;
    case WarnJob(Min5) => assert s[1] == slot;
    case WarnJob(Min1) => assert s[2] == slot;
    case ExpireJob => assert s[3] == slot;
  }

  /** The tables, the job store, and the attempts whose expire job has left the store and not ended. */
  datatype World = World(db: Db, jobs: map<JobId, int>, running: set<nat>)

  /** How a timer job can end without a commit: it raises before or after `finish` has cancelled the jobs
      of the attempt, or it finds no user and rolls back. */
  datatype Trouble = NoTrouble | RaisesEarly | RaisesLate | OwnerMissing

  predicate Raises(t: Trouble) {
    t == RaisesEarly || t == RaisesLate
  }

  /** What the scheduler does: a job leaves the store, to start its coroutine or because it was missed by
      more than the grace time, or a coroutine ends. A run of the sweep ends expire jobs that never left
      the store. */
  datatype TimerEvent =
    | Fires(job: JobId)
    | Missed(job: JobId)
    | ExpireEnds(attempt: nat, banned: bool, trouble: Trouble, now: int)
    | WarnEnds(attempt: nat, slot: Slot, banned: bool, trouble: Trouble, now: int)

  /** The tables after a run of the expire job. */
  function AfterExpire(db: Db, a: nat, t: Trouble, now: int): Db {
    if a in db.attempts && t == NoTrouble then MarkFinished(db, a, Expired, CurrentScore(db, a), now) else db
  }

  /** Whether that run took the jobs of the attempt out of the store. */
  predicate CancelsJobs(db: Db, a: nat, t: Trouble) {
    Open(db, a) && t != RaisesEarly
  }

  // ---------- Attempts in the tables ----------

  /** The open attempts of the whole table, and of one user. */
  function OpenAttempts(db: Db): set<nat> {
    set a | a in db.attempts && Open(db, a)
  }

  function OpenOf(db: Db, user: nat): set<nat> {
    set a | a in db.attempts && Open(db, a) && db.attempts[a].userId == user
  }

  /** The open attempts past their expiry, as the sweep selects them. */
  function Overdue(db: Db, now: int): set<nat> {
    set a | a in db.attempts && Open(db, a) && db.attempts[a].expiresAt < now
  }

  /** Those whose expiry has come when reconciliation checks them. */
  function Late(db: Db, clock: nat -> int): set<nat> {
    set a | a in db.attempts && Open(db, a) && db.attempts[a].expiresAt <= clock(a)
  }

  /** The four selections, on the rows: what the ban cleanup, the sweep and reconciliation are about, and
      what the sweep counts. */
  lemma Selections(db: Db, user: nat, now: int, clock: nat -> int, trouble: nat -> Trouble, a: nat)
    ensures a in OpenAttempts(db) <==> a in db.attempts && db.attempts[a].status == InProgress
    ensures a in OpenOf(db, user) <==> a in OpenAttempts(db) && db.attempts[a].userId == user
    ensures a in Late(db, clock) <==> a in OpenAttempts(db) && db.attempts[a].expiresAt <= clock(a)
    ensures a in WithoutRaise(Overdue(db, now), trouble)
            <==> a in OpenAttempts(db) && db.attempts[a].expiresAt < now
                 && (trouble(a) == NoTrouble || trouble(a) == OwnerMissing)
  {
  }

  ghost predicate Settled(db: Db, s: set<nat>) {
    forall a :: a in s ==> a in db.attempts && !Open(db, a)
  }

  lemma SettledStays(db: Db, db': Db, s: set<nat>)
    requires Evolves(db, db') && Settled(db, s)
    ensures Settled(db', s)
  {
  }

  /** From `db` to `db'`, exactly the attempts in `done` expired, each with the score of its answers and at
      its own time, and nothing else changed. */
  ghost predicate Finalized(db: Db, db': Db, done: set<nat>, clock: nat -> int) {
    && db'.attempts.Keys == db.attempts.Keys && db'.answers == db.answers && db'.questions == db.questions
    && (forall a :: a in db.attempts && a !in done ==> db'.attempts[a] == db.attempts[a])
    && (forall a :: a in done ==> ExpiredRow(db, db', a, clock(a)))
  }

  predicate ExpiredRow(db: Db, db': Db, a: nat, now: int) {
    && Open(db, a) && a in db'.attempts
    && db'.attempts[a] == db.attempts[a].(status := Expired, finishedAt := Some(now),
                                          scores := Some(CurrentScore(db, a)))
  }

  lemma FinalizedPut(db: Db, db': Db, done: set<nat>, a: nat, clock: nat -> int, row: Attempt)
    requires Finalized(db, db', done, clock) && Open(db, a) && a !in done
    requires row == FinishedRow(db.attempts[a], Expired, CurrentScore(db, a), clock(a))
    ensures Finalized(db, Put(db', a, row), done + {a}, clock)
  {
    hide CurrentScore;
    forall b | b in done + {a} ensures ExpiredRow(db, Put(db', a, row), b, clock(b)) {
      if b in done { assert ExpiredRow(db, db', b, clock(b)); }
    }
  }

  lemma FinalizedMore(db: Db, db': Db, done: set<nat>, a: nat, clock: nat -> int)
    requires Finalized(db, db', done, clock) && Open(db, a) && a !in done
    ensures Finalized(db, AfterExpire(db', a, NoTrouble, clock(a)), done + {a}, clock)
  {
    var row := FinishedRow(db.attempts[a], Expired, CurrentScore(db, a), clock(a));
    FinalizedPut(db, db', done, a, clock, row);
    SameScore(db, db', a);
    hide CurrentScore, Finalized, FinishedRow;
    ExpirePuts(db', a, clock(a));
  }

  lemma ExpirePuts(db: Db, a: nat, now: int)
    requires Open(db, a)
    ensures AfterExpire(db, a, NoTrouble, now)
            == Put(db, a, FinishedRow(db.attempts[a], Expired, CurrentScore(db, a), now))
  {
  }

  lemma FinalizedEvolves(db: Db, db': Db, done: set<nat>, clock: nat -> int)
    requires Finalized(db, db', done, clock)
    ensures Evolves(db, db')
  {
    forall a | a in db.attempts ensures RowEvolves(db.attempts[a], db'.attempts[a]) {
      if a in done { assert ExpiredRow(db, db', a, clock(a)); }
    }
  }

  lemma NothingFinalized(db: Db, all: set<nat>, clock: nat -> int)
    ensures Finalized(db, db, all - all, clock)
  {
    assert all - all == {};
  }

  lemma FinalizedNext(db: Db, db': Db, all: set<nat>, todo: set<nat>, a: nat, clock: nat -> int)
    requires Finalized(db, db', all - todo, clock) && a in todo && Open(db, a)
    ensures Finalized(db, if a in all then AfterExpire(db', a, NoTrouble, clock(a)) else db', all - (todo - {a}), clock)
  {
    OneDone(all, todo, a);
    if a in all { FinalizedMore(db, db', all - todo, a, clock); }
  }

  lemma StillToDo(db: Db, db': Db, all: set<nat>, todo: set<nat>, a: nat, clock: nat -> int)
    requires Finalized(db, db', all - todo, clock) && a in todo && Open(db, a)
    ensures Open(db', a)
    ensures AfterExpire(db', a, NoTrouble, clock(a)) == MarkFinished(db', a, Expired, CurrentScore(db', a), clock(a))
  {
    assert db'.attempts[a] == db.attempts[a];
  }

  lemma AllFinalized(db: Db, db': Db, user: nat, clock: nat -> int)
    requires Finalized(db, db', OpenOf(db, user), clock)
    ensures OpenOf(db', user) == {}
  {
    forall a | a in db'.attempts && Open(db', a) ensures db'.attempts[a].userId != user {
      assert a in db.attempts;
      if a in OpenOf(db, user) { assert ExpiredRow(db, db', a, clock(a)); }
    }
  }

  /** Moving one element out of the work list. */
  lemma OneDone(all: set<nat>, todo: set<nat>, a: nat)
    requires a in todo
    ensures all - (todo - {a}) == if a in all then (all - todo) + {a} else all - todo
    ensures |all - (todo - {a})| == |all - todo| + if a in all then 1 else 0
  {
    if a in all {
      assert all - (todo - {a}) == (all - todo) + {a};
    } else {
      assert all - (todo - {a}) == all - todo;
    }
  }

  lemma NothingDone(all: set<nat>)
    ensures all - all == {} && all - {} == all
  {
  }

  // ---------- The sweep ----------

  /** What the sweep finalizes of a work list, and what it counts. */
  function WithoutTrouble(s: set<nat>, trouble: nat -> Trouble): set<nat> {
    set a | a in s && trouble(a) == NoTrouble
  }

  function WithoutRaise(s: set<nat>, trouble: nat -> Trouble): set<nat> {
    set a | a in s && !Raises(trouble(a))
  }

  /** What remains overdue after a sweep is what it could not finalize. */
  lemma StillOverdue(db: Db, db': Db, now: int, trouble: nat -> Trouble)
    requires Evolves(db, db') && NewEndLater(db, db', now)
    requires Settled(db', WithoutTrouble(Overdue(db, now), trouble))
    ensures forall a :: a in Overdue(db', now) ==> a in Overdue(db, now) && trouble(a) != NoTrouble
  {
    forall a | a in Overdue(db', now) ensures a in Overdue(db, now) && trouble(a) != NoTrouble {
      assert a in db.attempts;
    }
  }

  /** And if nothing else happens, it is exactly that. */
  lemma QuietSweep(db: Db, db': Db, now: int, trouble: nat -> Trouble)
    requires Finalized(db, db', WithoutTrouble(Overdue(db, now), trouble), _ => now)
    ensures Overdue(db', now) == Overdue(db, now) - WithoutTrouble(Overdue(db, now), trouble)
  {
    var reached := WithoutTrouble(Overdue(db, now), trouble);
    forall a ensures a in Overdue(db', now) <==> a in Overdue(db, now) - reached {
      if a in reached { assert ExpiredRow(db, db', a, now); }
    }
  }

  /** A sweep: the tables when it selects its items, and those it will finalize. */
  datatype Sweep = Sweep(start: Db, reached: set<nat>, quiet: bool)

  function SweepOf(db: Db, now: int, trouble: nat -> Trouble, quiet: bool): Sweep {
    Sweep(db, WithoutTrouble(Overdue(db, now), trouble), quiet)
  }

  /** The sweep with the attempts in `todo` still ahead. */
  ghost predicate Sweeping(sweep: Sweep, db: Db, todo: set<nat>, now: int) {
    && Sound(db) && Evolves(sweep.start, db) && NewEndLater(sweep.start, db, now)
    && Settled(db, sweep.reached - todo)
    && (sweep.quiet ==> Finalized(sweep.start, db, sweep.reached - todo, _ => now))
  }

  lemma SweepBegins(t0: Db, now: int, trouble: nat -> Trouble, quiet: bool)
    requires Sound(t0)
    ensures var expired := Overdue(t0, now);
            && Sweeping(SweepOf(t0, now, trouble, quiet), t0, expired, now)
            && WithoutRaise(expired, trouble) - expired == {}
  {
    EvolvesSelf(t0);
    assert WithoutTrouble(Overdue(t0, now), trouble) - Overdue(t0, now) == {};
  }

  lemma SweptOthers(sweep: Sweep, db: Db, db': Db, todo: set<nat>, now: int)
    requires Sweeping(sweep, db, todo, now)
    requires Sound(db') && Evolves(db, db') && NewEndLater(db, db', now) && (sweep.quiet ==> db' == db)
    ensures Sweeping(sweep, db', todo, now)
  {
    hide Sound;
    EvolvesTransitive(sweep.start, db, db');
    NewEndLaterTransitive(sweep.start, db, db', now);
    SettledStays(db, db', sweep.reached - todo);
  }

  lemma SweepEnds(t0: Db, db: Db, now: int, trouble: nat -> Trouble, quiet: bool)
    requires Sweeping(SweepOf(t0, now, trouble, quiet), db, {}, now)
    ensures Sound(db) && Evolves(t0, db)
    ensures forall a :: a in Overdue(db, now) ==> a in Overdue(t0, now) && trouble(a) != NoTrouble
    ensures quiet ==> Finalized(t0, db, WithoutTrouble(Overdue(t0, now), trouble), _ => now)
    ensures quiet ==> Overdue(db, now) == Overdue(t0, now) - WithoutTrouble(Overdue(t0, now), trouble)
  {
    NothingDone(WithoutTrouble(Overdue(t0, now), trouble));
    StillOverdue(t0, db, now, trouble);
    if quiet { QuietSweep(t0, db, now, trouble); }
  }

  lemma ExpireSound(db: Db, a: nat, t: Trouble, now: int)
    requires Sound(db)
    ensures Sound(AfterExpire(db, a, t, now))
  {
    hide CurrentScore, QuestionsSound;
    var db' := AfterExpire(db, a, t, now);
    forall b, q | (b, q) in db'.answers ensures AnswerSound(db', b, q, db'.answers[(b, q)]) {
      assert AnswerSound(db, b, q, db.answers[(b, q)]);
    }
  }

  lemma ExpireKeeps(db: Db, a: nat, t: Trouble, now: int, moment: int)
    requires Sound(db)
    ensures var db' := AfterExpire(db, a, t, now); Sound(db') && Evolves(db, db') && NewEndLater(db, db', moment)
    ensures t == NoTrouble ==> !Open(AfterExpire(db, a, t, now), a)
  {
    hide CurrentScore, Sound;
    ExpireSound(db, a, t, now);
  }

  lemma SweptOne(sweep: Sweep, db: Db, db': Db, todo: set<nat>, a: nat, now: int, t: Trouble)
    requires Sweeping(sweep, db, todo, now) && a in todo && Open(sweep.start, a)
    requires db' == AfterExpire(db, a, t, now) && (a in sweep.reached <==> t == NoTrouble)
    ensures Sweeping(sweep, db', todo - {a}, now)
  {
    hide Sound, AfterExpire;
    ExpireKeeps(db, a, t, now, now);
    EvolvesTransitive(sweep.start, db, db');
    NewEndLaterTransitive(sweep.start, db, db', now);
    SettledStays(db, db', sweep.reached - todo);
    OneDone(sweep.reached, todo, a);
    TroubleChangesNothing(db, a, t, now);
    if sweep.quiet { FinalizedNext(sweep.start, db, sweep.reached, todo, a, _ => now); }
  }

  lemma TroubleChangesNothing(db: Db, a: nat, t: Trouble, now: int)
    ensures t != NoTrouble ==> AfterExpire(db, a, t, now) == db
  {
  }

  // ---------- Jobs ----------

  predicate SameJob(jobs: map<JobId, int>, jobs': map<JobId, int>, j: JobId) {
    (j in jobs <==> j in jobs') && (j in jobs ==> jobs'[j] == jobs[j])
  }

  predicate HasExpireJob(jobs: map<JobId, int>, a: nat, expiresAt: int) {
    var j := JobId(ExpireJob, a);
    j in jobs && jobs[j] == expiresAt
  }

  /** After rescheduling: the job stands at exactly its time before the expiry if that is still ahead, and is
      what it was before if not. */
  predicate SlotSet(jobs: map<JobId, int>, jobs': map<JobId, int>, a: nat, slot: JobSlot, expiresAt: int, now: int) {
    var j, runAt := JobId(slot, a), expiresAt - Lead(slot);
    if now < runAt then j in jobs' && jobs'[j] == runAt else SameJob(jobs, jobs', j)
  }

  // ---------- What an open attempt has ----------

  /** The expire job of an attempt in the store, and whether its coroutine is on its way. */
  datatype Cover = Cover(job: Option<int>, running: bool) {
    predicate Holds(expiresAt: int) {
      job == Some(expiresAt) || running
    }
  }

  function JobOf(jobs: map<JobId, int>, a: nat): Option<int> {
    if JobId(ExpireJob, a) in jobs then Some(jobs[JobId(ExpireJob, a)]) else None
  }

  function CoverOf(w: World, a: nat): Cover {
    Cover(JobOf(w.jobs, a), a in w.running)
  }

  predicate Covered(w: World, a: nat, expiresAt: int) {
    CoverOf(w, a).Holds(expiresAt)
  }

  /** What an event does to the cover of an attempt that it does not finalize. */
  function AfterEvent(c: Cover, e: TimerEvent, a: nat): Cover {
    match e
    case Fires(j) => if j == JobId(ExpireJob, a) && c.job.Some? then Cover(None, true) else c
    case Missed(j) => if j == JobId(ExpireJob, a) then c.(job := None) else c
    case _ => c
  }

  function AfterEvents(c: Cover, es: seq<TimerEvent>, a: nat): Cover
    decreases |es|
  {
    if es == [] then c else AfterEvents(AfterEvent(c, es[0], a), es[1..], a)
  }

  lemma {:induction false} AfterAppend(c: Cover, es: seq<TimerEvent>, more: seq<TimerEvent>, a: nat)
    ensures AfterEvents(c, es + more, a) == AfterEvents(AfterEvents(c, es, a), more, a)
    decreases |es|
  {
    if es == [] {
      assert es + more == more;
    } else {
      assert (es + more)[1..] == es[1..] + more;
      AfterAppend(AfterEvent(c, es[0], a), es[1..], more, a);
    }
  }

  lemma AfterOne(c: Cover, e: TimerEvent, a: nat)
    ensures AfterEvents(c, [e], a) == AfterEvent(c, e, a)
  {
    assert [e][1..] == [];
  }

  /** The first event that takes the expire job of the attempt out of the store. */
  function FirstTaking(es: seq<TimerEvent>, a: nat): Option<TimerEvent>
    decreases |es|
  {
    if es == [] then None
    else if (es[0].Fires? || es[0].Missed?) && es[0].job == JobId(ExpireJob, a) then Some(es[0])
    else FirstTaking(es[1..], a)
  }

  predicate FiredIn(es: seq<TimerEvent>, a: nat) {
    FirstTaking(es, a).Some? && FirstTaking(es, a).value.Fires?
  }

  predicate MissedIn(es: seq<TimerEvent>, a: nat) {
    FirstTaking(es, a).Some? && FirstTaking(es, a).value.Missed?
  }

  /** Only the first such event matters. */
  lemma {:induction false} FirstDecides(c: Cover, es: seq<TimerEvent>, a: nat)
    ensures AfterEvents(c, es, a) == if c.job.None? then c
                                     else if FiredIn(es, a) then Cover(None, true)
                                     else if MissedIn(es, a) then c.(job := None)
                                     else c
    decreases |es|
  {
    if es != [] { FirstDecides(AfterEvent(c, es[0], a), es[1..], a); }
  }

  predicate EventOk(e: TimerEvent, failing: set<nat>) {
    (e.ExpireEnds? || e.WarnEnds?) && e.trouble != NoTrouble ==> e.attempt in failing
  }

  /** An attempt that stays open has the cover that the events leave. */
  predicate Tracked(w: World, w': World, es: seq<TimerEvent>, a: nat) {
    Open(w'.db, a) ==> CoverOf(w', a) == AfterEvents(CoverOf(w, a), es, a)
  }

  /** The tables only change as they may, and so do the covers of attempts without trouble. */
  ghost predicate TimersOk(w: World, w': World, es: seq<TimerEvent>, failing: set<nat>) {
    Evolves(w.db, w'.db) && forall a :: a in w.db.attempts && a !in failing ==> Tracked(w, w', es, a)
  }

  lemma TimersMore(w: World, mid: World, w': World, es: seq<TimerEvent>, e: TimerEvent, failing: set<nat>)
    requires TimersOk(w, mid, es, failing) && TimersOk(mid, w', [e], failing)
    ensures TimersOk(w, w', es + [e], failing)
  {
    EvolvesTransitive(w.db, mid.db, w'.db);
    forall a | a in w.db.attempts && a !in failing ensures Tracked(w, w', es + [e], a) {
      assert Tracked(w, mid, es, a) && Tracked(mid, w', [e], a);
      AfterAppend(CoverOf(w, a), es, [e], a);
    }
  }

  lemma TimersIdle(w: World, failing: set<nat>)
    ensures TimersOk(w, w, [], failing)
  {
    EvolvesSelf(w.db);
  }
}
