/**
 The attempt service and its timer jobs (`app/services/attempt_service.py`,
 `app/jobs/registry.py`, `app/jobs/attempt_timer.py`, `app/jobs/startup_reconciliation.py`)
 over the tables and the scheduler's job store, one call at a time; the sweep with any run of the
 attempt protocol between its items, reconciliation with any events of the scheduler.

 A call that raises leaves the tables as they were: its session rolls back. The job store is not
 part of the transaction, so jobs that were cancelled or added stay cancelled or added.
 */
module AttemptService {
  import opened Common
  import opened Text
  import opened Sections
  import opened Scoring
  import opened AttemptTables
  import opened AttemptBoot
  import opened AttemptJobs
  import Protocol = AttemptProtocol
  import Runs = AttemptRuns

  datatype StartError = NotApproved | AlreadyExists(attempt: Option<nat>)

  datatype SubmitError = NotVisible | NoSuchQuestion | OptionRejected

  datatype FinishResult = FinishResult(attempt: Attempt, scores: Scores, ownedFinalization: bool)

  /** `section_scores_from_attempt`: missing columns read as zero. */
  function StoredScores(t: Attempt): Scores {
    match t.scores
    case Some(s) => s
    case None => Scores(0, 0, 0, 0)
  }

  /** What other sessions do while a call is between two of its statements: any run of the attempt
      protocol, and anything at all to the job store. */
  datatype Meanwhile = Nothing | Others(steps: seq<Protocol.Step>, jobs: map<JobId, int>)

  function TablesAfter(db: Db, m: Meanwhile): Db {
    match m
    case Nothing => db
    case Others(steps, _) => Protocol.Run(Runs.AtRest(db), steps).db
  }

  function JobsAfter(jobs: map<JobId, int>, m: Meanwhile): map<JobId, int> {
    match m
    case Nothing => jobs
    case Others(_, after) => after
  }

  /** Attempts that the others start end at or after `now`. */
  predicate EndLater(m: Meanwhile, now: int) {
    m.Others? ==> Runs.StartsEndLater(m.steps, now)
  }

  ghost predicate Alone(meanwhile: nat -> Meanwhile) {
    forall a :: meanwhile(a) == Nothing
  }

  /** The checks of `start` that read: an open attempt of the user, or any attempt on this test. */
  predicate HasAttempt(db: Db, user: nat, test: nat) {
    exists b :: b in db.attempts && db.attempts[b].userId == user
                && (db.attempts[b].status == InProgress || db.attempts[b].testId == test)
  }

  /** A new attempt's jobs: those whose time is still ahead, replacing older ones; no other job changes. */
  ghost predicate StartedJobs(jobs: map<JobId, int>, jobs': map<JobId, int>, a: nat, expiresAt: int, now: int) {
    && (forall j :: j in jobs' <==> j in jobs || (j.attempt == a && expiresAt - Lead(j.slot) > now))
    && (forall j :: j in jobs' ==>
                      jobs'[j] == if j.attempt == a && expiresAt - Lead(j.slot) > now then expiresAt - Lead(j.slot)
                                  else jobs[j])
  }

  /** The unique index on (user, test). */
  predicate Taken(db: Db, user: nat, test: nat) {
    exists b :: b in db.attempts && db.attempts[b].userId == user && db.attempts[b].testId == test
  }

  /** The two outcomes of a sweep, attempt by attempt. */
  lemma SweptRows(t0: Db, db: Db, now: int, trouble: nat -> Trouble, quiet: bool)
    requires forall a :: a in Overdue(db, now) ==> a in Overdue(t0, now) && trouble(a) != NoTrouble
    requires quiet ==> Finalized(t0, db, WithoutTrouble(Overdue(t0, now), trouble), _ => now)
    ensures forall a :: a in db.attempts && db.attempts[a].status == InProgress && db.attempts[a].expiresAt < now ==>
                          a in t0.attempts && t0.attempts[a].status == InProgress && t0.attempts[a].expiresAt < now
                          && trouble(a) != NoTrouble
    ensures quiet ==>
              forall a :: a in t0.attempts ==>
                            if t0.attempts[a].status == InProgress && t0.attempts[a].expiresAt < now
                               && trouble(a) == NoTrouble
                            then ExpiredRow(t0, db, a, now)
                            else a in db.attempts && db.attempts[a] == t0.attempts[a]
  {
    hide CurrentScore;
    forall a | a in db.attempts && db.attempts[a].status == InProgress && db.attempts[a].expiresAt < now
      ensures a in Overdue(t0, now) && trouble(a) != NoTrouble
    {
      assert a in Overdue(db, now);
    }
  }

  lemma Mine(db: Db, user: nat, a: nat)
    ensures a in OpenOf(db, user) ==> Open(db, a)
  {
  }

  lemma FinalizedRows(t0: Db, db: Db, user: nat, now: int)
    requires Finalized(t0, db, OpenOf(t0, user), _ => now)
    ensures forall a :: a in t0.attempts && t0.attempts[a].status == InProgress && t0.attempts[a].userId == user ==>
                          a in OpenOf(t0, user) && ExpiredRow(t0, db, a, now)
    ensures forall a :: a in t0.attempts && !(t0.attempts[a].status == InProgress && t0.attempts[a].userId == user) ==>
                          a in db.attempts && db.attempts[a] == t0.attempts[a]
  {
    hide CurrentScore;
  }

  /** The job stands at this time if that is still ahead. */
  predicate SetAhead(jobs: map<JobId, int>, a: nat, slot: JobSlot, runAt: int, now: int) {
    runAt > now ==> JobId(slot, a) in jobs && jobs[JobId(slot, a)] == runAt
  }

  lemma StillThere(db: Db, db': Db, a: nat)
    requires Evolves(db, db') && a in db.attempts
    ensures a in db'.attempts
  {
  }

  lemma ComputedScore(rows: seq<AnswerRow>, asked: seq<QuestionRow>, chosen: map<nat, Answer>,
                      byId: map<nat, Question>, r: Scores)
    requires ListsAnswers(rows, chosen) && ListsQuestions(asked, byId)
    requires r.rus == CountHits(rows, ById(asked), RusTili) && r.ped == CountHits(rows, ById(asked), Pedagogik)
    requires r.kas == CountHits(rows, ById(asked), Kasbiy) && r.total == r.rus + r.ped + r.kas
    ensures r == ScoreOf(chosen, byId)
  {
    ByIdOfList(asked, byId);
    ComputeCountsHits(rows, chosen, byId, RusTili);
    ComputeCountsHits(rows, chosen, byId, Pedagogik);
    ComputeCountsHits(rows, chosen, byId, Kasbiy);
  }

  class AttemptStore {
    var attempts: map<nat, Attempt>
    var answers: map<(nat, nat), Answer>
    var jobs: map<JobId, int>
    var running: set<nat>
    const questions: map<nat, Question>

    constructor (questions: map<nat, Question>)
      ensures Now() == World(Db(map[], map[], questions), map[], {})
    {
      this.questions := questions;
      attempts, answers, jobs, running := map[], map[], map[], {};
    }

    function Tables(): Db
      reads this
    {
      Db(attempts, answers, questions)
    }

    function Now(): World
      reads this
    {
      World(Tables(), jobs, running)
    }

    // ---------- Scheduler ----------

    method ScheduleAttemptJobs(a: nat, expiresAt: int, now: int)
      modifies this`jobs
      ensures forall j :: j in jobs <==> j in old(jobs) || (j.attempt == a && expiresAt - Lead(j.slot) > now)
      ensures forall j :: j in jobs ==>
                            jobs[j] == if j.attempt == a && expiresAt - Lead(j.slot) > now
                                       then expiresAt - Lead(j.slot) else old(jobs)[j]
      ensures SetAhead(jobs, a, WarnJob(Min10), expiresAt - 600, now)
      ensures SetAhead(jobs, a, WarnJob(Min5), expiresAt - 300, now)
      ensures SetAhead(jobs, a, WarnJob(Min1), expiresAt - 60, now)
      ensures SetAhead(jobs, a, ExpireJob, expiresAt, now)
    {
      for i := 0 to |SLOTS|
        invariant forall j ::
                   j in jobs
                   <==> j in old(jobs) || (j.attempt == a && j.slot in SLOTS[..i] && expiresAt - Lead(j.slot) > now)
        invariant forall j :: j in jobs ==>
                                jobs[j] == if j.attempt == a && j.slot in SLOTS[..i] && expiresAt - Lead(j.slot) > now
                                           then expiresAt - Lead(j.slot) else old(jobs)[j]
      {
        assert SLOTS[..i + 1] == SLOTS[..i] + [SLOTS[i]];
        var runAt := expiresAt - Lead(SLOTS[i]);
        if runAt <= now {
          continue;
        }
        jobs := jobs[JobId(SLOTS[i], a) := runAt];
      }
      forall s ensures s in SLOTS[..|SLOTS|] { AllSlots(s); }
    }

    method CancelAttemptJobs(a: nat)
      modifies this`jobs
      ensures forall j :: j in jobs <==> j in old(jobs) && j.attempt != a
      ensures forall j :: j in jobs ==> jobs[j] == old(jobs)[j]
    {
      for i := 0 to |SLOTS|
        invariant forall j :: j in jobs <==> j in old(jobs) && !(j.attempt == a && j.slot in SLOTS[..i])
        invariant forall j :: j in jobs ==> jobs[j] == old(jobs)[j]
      {
        assert SLOTS[..i + 1] == SLOTS[..i] + [SLOTS[i]];
        jobs := jobs - {JobId(SLOTS[i], a)};
      }
      forall s ensures s in SLOTS[..|SLOTS|] { AllSlots(s); }
    }

    // ---------- Queries ----------

    method ListByAttempt(a: nat) returns (rows: seq<AnswerRow>)
      ensures ListsAnswers(rows, Chosen(Tables(), a))
    {
      var chosen := Chosen(Tables(), a);
      rows := [];
      var todo := chosen.Keys;
      while todo != {}
        invariant todo <= chosen.Keys
        invariant forall i :: 0 <= i < |rows| ==>
                    rows[i].questionId in chosen && chosen[rows[i].questionId] == rows[i].answer
        invariant forall i :: 0 <= i < |rows| ==> rows[i].questionId !in todo
        invariant forall i, j :: 0 <= i < j < |rows| ==> rows[i].questionId != rows[j].questionId
        invariant forall q :: q in chosen ==> q in todo || exists i :: 0 <= i < |rows| && rows[i].questionId == q
        decreases |todo|
      {
        var q :| q in todo;
        ghost var before := rows;
        rows := rows + [AnswerRow(q, chosen[q])];
        todo := todo - {q};
        forall p | p in chosen && p !in todo ensures exists i :: 0 <= i < |rows| && rows[i].questionId == p {
          if p == q {
            assert rows[|before|].questionId == p;
          } else {
            var i :| 0 <= i < |before| && before[i].questionId == p;
            assert rows[i].questionId == p;
          }
        }
      }
    }

    method ListQuestions(test: nat) returns (rows: seq<QuestionRow>)
      ensures ListsQuestions(rows, QuestionsOf(Tables(), test))
    {
      var byId := QuestionsOf(Tables(), test);
      rows := [];
      var todo := byId.Keys;
      while todo != {}
        invariant todo <= byId.Keys
        invariant forall i :: 0 <= i < |rows| ==> rows[i].id in byId && byId[rows[i].id] == rows[i].question
        invariant forall i :: 0 <= i < |rows| ==> rows[i].id !in todo
        invariant forall i, j :: 0 <= i < j < |rows| ==> rows[i].id != rows[j].id
        invariant forall q :: q in byId ==> q in todo || exists i :: 0 <= i < |rows| && rows[i].id == q
        decreases |todo|
      {
        var q :| q in todo;
        ghost var before := rows;
        rows := rows + [QuestionRow(q, byId[q])];
        todo := todo - {q};
        forall p | p in byId && p !in todo ensures exists i :: 0 <= i < |rows| && rows[i].id == p {
          if p == q {
            assert rows[|before|].id == p;
          } else {
            var i :| 0 <= i < |before| && before[i].id == p;
            assert rows[i].id == p;
          }
        }
      }
    }

    /** The newest open attempt of a user, on any test. */
    method GetInProgressForUser(user: nat) returns (r: Option<nat>)
      ensures r.Some? ==> Open(Tables(), r.value) && attempts[r.value].userId == user
                          && forall b :: Open(Tables(), b) && attempts[b].userId == user ==>
                                           attempts[b].startedAt <= attempts[r.value].startedAt
      ensures r.None? ==> forall b :: Open(Tables(), b) ==> attempts[b].userId != user
    {
      r := None;
      var todo := attempts.Keys;
      while todo != {}
        invariant todo <= attempts.Keys
        invariant r.Some? ==> Open(Tables(), r.value) && attempts[r.value].userId == user
                              && forall b :: Open(Tables(), b) && b !in todo && attempts[b].userId == user ==>
                                               attempts[b].startedAt <= attempts[r.value].startedAt
        invariant r.None? ==> forall b :: Open(Tables(), b) && b !in todo ==> attempts[b].userId != user
        decreases |todo|
      {
        var b :| b in todo;
        todo := todo - {b};
        if attempts[b].userId == user && attempts[b].status == InProgress {
          if r.None? || attempts[r.value].startedAt <= attempts[b].startedAt {
            r := Some(b);
          }
        }
      }
    }

    method GetByUserAndTest(user: nat, test: nat) returns (r: Option<nat>)
      ensures r.Some? ==> r.value in attempts && attempts[r.value].userId == user && attempts[r.value].testId == test
      ensures r.None? ==> forall b :: b in attempts ==> !(attempts[b].userId == user && attempts[b].testId == test)
    {
      if b :| b in attempts && attempts[b].userId == user && attempts[b].testId == test {
        r := Some(b);
      } else {
        r := None;
      }
    }

    // ---------- Service calls ----------

    method OtherSessions(m: Meanwhile)
      requires m.Others? ==> Sound(Tables())
      modifies this`attempts, this`answers, this`jobs
      ensures Tables() == TablesAfter(old(Tables()), m) && jobs == JobsAfter(old(jobs), m)
      ensures Sound(old(Tables())) ==> Sound(Tables())
      ensures Evolves(old(Tables()), Tables())
      ensures forall now :: EndLater(m, now) ==> NewEndLater(old(Tables()), Tables(), now)
    {
      EvolvesSelf(Tables());
      if m.Others? {
        var st := Runs.AtRest(Tables());
        Runs.AtRestInv(Tables());
        Runs.RunSafety(st, m.steps);
        forall now | EndLater(m, now) ensures NewEndLater(st.db, Protocol.Run(st, m.steps).db, now) {
          Runs.RunEndsLater(st, m.steps, now);
        }
        var end := Protocol.Run(st, m.steps);
        attempts, answers, jobs := end.db.attempts, end.db.answers, m.jobs;
      }
    }

    /** `start`, with other sessions between its checks and its insert. The new row's id is the database's
        choice. The checks refuse with the attempt they found, the index without one. */
    method Start(user: nat, approved: bool, test: nat, durationSeconds: nat, now: int, scheduledAt: int, id: nat,
                 m: Meanwhile)
      returns (r: Result<nat, StartError>)
      requires id !in TablesAfter(Tables(), m).attempts && (m.Others? ==> Sound(Tables()))
      modifies this`attempts, this`answers, this`jobs
      ensures r == Err(NotApproved) <==> !approved
      ensures r.Err? && approved && r.error.attempt.Some? ==>
                var b := r.error.attempt.value;
                b in attempts && attempts[b].userId == user && (Open(Tables(), b) || attempts[b].testId == test)
      ensures r == Err(AlreadyExists(None)) <==>
              approved && !HasAttempt(old(Tables()), user, test) && Taken(TablesAfter(old(Tables()), m), user, test)
      ensures r.Ok? <==> approved && !HasAttempt(old(Tables()), user, test)
                         && !Taken(TablesAfter(old(Tables()), m), user, test)
      ensures r.Err? && (!approved || HasAttempt(old(Tables()), user, test)) ==> Now() == old(Now())
      ensures r == Err(AlreadyExists(None)) ==>
                Tables() == TablesAfter(old(Tables()), m) && jobs == JobsAfter(old(jobs), m)
      ensures r.Ok? ==>
                var mid := TablesAfter(old(Tables()), m);
                && r.value == id && answers == mid.answers
                && attempts == mid.attempts[id := Attempt(user, test, InProgress, 1, now, now + durationSeconds,
                                                          None, None, map[])]
      ensures r.Ok? ==> StartedJobs(JobsAfter(old(jobs), m), jobs, id, now + durationSeconds, scheduledAt)
    {
      if !approved {
        return Err(NotApproved);
      }
      var open := GetInProgressForUser(user);
      if open.Some? {
        return Err(AlreadyExists(open));
      }
      var existing := GetByUserAndTest(user, test);
      if existing.Some? {
        return Err(AlreadyExists(existing));
      }
      OtherSessions(m);
      if Taken(Tables(), user, test) {
        return Err(AlreadyExists(None));
      }
      var expiresAt := now + durationSeconds;
      attempts := attempts[id := NewAttempt(user, test, now, expiresAt)];
      ScheduleAttemptJobs(id, expiresAt, scheduledAt);
      return Ok(id);
    }

    method SubmitAnswer(a: nat, user: nat, position: int, selectedOption: string) returns (r: Result<(), SubmitError>)
      requires QuestionsSound(questions)
      modifies this`answers
      ensures r.Err? ==> answers == old(answers)
      ensures r == Err(NotVisible) <==> a !in attempts || attempts[a].userId != user
      ensures a in attempts && attempts[a].userId == user && attempts[a].status != InProgress ==>
                r == Ok(()) && answers == old(answers)
      ensures r == Err(NoSuchQuestion) <==>
              Open(Tables(), a) && attempts[a].userId == user
              && forall q :: q in questions ==>
                   !(questions[q].testId == attempts[a].testId && questions[q].position == position)
      ensures r == Err(OptionRejected) ==> Upper(Strip(selectedOption)) !in OPTIONS
      ensures r.Ok? && Open(Tables(), a) ==> Upper(Strip(selectedOption)) in OPTIONS
      ensures forall q :: Open(Tables(), a) && attempts[a].userId == user && r.Ok?
                          && q in questions && questions[q].testId == attempts[a].testId
                             && questions[q].position == position ==>
                            var option := Upper(Strip(selectedOption));
                            answers == old(answers)[(a, q) := Answer(option, option == questions[q].correct)]
    {
      if a !in attempts || attempts[a].userId != user {
        return Err(NotVisible);
      }
      if attempts[a].status != InProgress {
        return Ok(());
      }
      if q :| q in questions && questions[q].testId == attempts[a].testId && questions[q].position == position {
        var option := Upper(Strip(selectedOption));
        if option !in OPTIONS {
          return Err(OptionRejected);
        }
        forall p | p in questions && questions[p].testId == attempts[a].testId && questions[p].position == position
          ensures p == q
        {
          assert SamePlace(questions[p], questions[q]);
        }
        answers := answers[(a, q) := Answer(option, option == questions[q].correct)];
        return Ok(());
      } else {
        return Err(NoSuchQuestion);
      }
    }

    method SetCurrentPosition(a: nat, user: nat, position: int) returns (r: Result<(), SubmitError>)
      modifies this`attempts
      ensures r == Err(NotVisible) <==> a !in old(attempts) || old(attempts)[a].userId != user
      ensures r.Err? ==> attempts == old(attempts)
      ensures r.Ok? <==> a in old(attempts) && old(attempts)[a].userId == user && 1 <= position <= 50
      ensures r.Ok? && old(attempts)[a].status != InProgress ==> attempts == old(attempts)
      ensures r.Ok? && old(attempts)[a].status == InProgress ==>
                attempts == old(attempts)[a := old(attempts)[a].(position := position)]
    {
      if a !in attempts || attempts[a].userId != user {
        return Err(NotVisible);
      }
      if !(1 <= position <= 50) {
        return Err(NoSuchQuestion);
      }
      if attempts[a].status == InProgress {
        attempts := attempts[a := attempts[a].(position := position)];
      }
      return Ok(());
    }

    /** `mark_finished`: the guarded UPDATE and its row count. */
    method MarkFinishedRow(a: nat, status: Status, scores: Scores, now: int) returns (rowcount: nat)
      modifies this`attempts
      ensures Tables() == MarkFinished(old(Tables()), a, status, scores, now)
      ensures rowcount == if Open(old(Tables()), a) then 1 else 0
    {
      if a in attempts && attempts[a].status == InProgress {
        attempts := attempts[a := attempts[a].(status := status, finishedAt := Some(now), scores := Some(scores))];
        return 1;
      }
      return 0;
    }

    /** The reads of `finish` and what it computes from them. */
    method ScoreAnswers(a: nat) returns (scores: Scores)
      requires a in attempts
      ensures scores == CurrentScore(Tables(), a)
    {
      var rows := ListByAttempt(a);
      var asked := ListQuestions(attempts[a].testId);
      scores := Compute(rows, asked);
      ComputedScore(rows, asked, Chosen(Tables(), a), QuestionsOf(Tables(), attempts[a].testId), scores);
    }

    /** `finish`, with other sessions between the snapshot that its transaction reads and its update. A
        missing attempt is an error. The score is that of the answers it read; whether it owns the
        finalization is up to the update. A call whose update hits no row reads the row again from its
        snapshot, where the attempt is still open: the row that it returns is the stored one exactly if
        it owned the finalization or found the attempt final, and the scores are only then the stored
        ones, unless those happen to be the same. */
    method Finish(a: nat, reason: FinishReason, now: int, m: Meanwhile) returns (r: Option<FinishResult>)
      requires m.Others? ==> Sound(Tables())
      modifies this`attempts, this`answers, this`jobs
      ensures r.None? <==> a !in old(attempts)
      ensures r.Some? ==> a in attempts && !Open(Tables(), a)
      ensures r.Some? ==> r.value.attempt == (if r.value.ownedFinalization then attempts[a] else old(attempts)[a])
                          && r.value.scores == StoredScores(r.value.attempt)
      ensures r.Some? ==> (r.value.attempt == attempts[a]
                           <==> r.value.ownedFinalization || !Open(old(Tables()), a))
      ensures r.Some? ==> (r.value.scores == StoredScores(attempts[a])
                           <==> r.value.ownedFinalization || !Open(old(Tables()), a)
                                || StoredScores(attempts[a]) == StoredScores(old(attempts)[a]))
      ensures !Open(old(Tables()), a) ==> Now() == old(Now()) && (r.Some? ==> !r.value.ownedFinalization)
      ensures Open(old(Tables()), a) ==>
                var db, mid := old(Tables()), TablesAfter(old(Tables()), m);
                && Tables() == MarkFinished(mid, a, TargetStatus(reason), CurrentScore(db, a), now)
                && (r.value.ownedFinalization <==> Open(mid, a))
                && (Open(mid, a) ==>
                      a in attempts
                      && attempts[a] == mid.attempts[a].(status := if reason == ByUser then Submitted else Expired,
                                                         finishedAt := Some(now), scores := Some(CurrentScore(db, a))))
                && (forall j :: j in jobs <==> j in JobsAfter(old(jobs), m) && j.attempt != a)
                && (forall j :: j in jobs ==> jobs[j] == JobsAfter(old(jobs), m)[j])
    {
      if a !in attempts {
        return None;
      }
      if attempts[a].status != InProgress {
        return Some(FinishResult(attempts[a], StoredScores(attempts[a]), false));
      }
      hide CurrentScore, Evolves, Sound, TablesAfter, JobsAfter;
      var snapshot := attempts[a];
      var scores := ScoreAnswers(a);
      OtherSessions(m);
      assert a in attempts by { StillThere(old(Tables()), Tables(), a); }
      var rowcount := MarkFinishedRow(a, TargetStatus(reason), scores, now);
      CancelAttemptJobs(a);
      if rowcount == 0 {
        return Some(FinishResult(snapshot, StoredScores(snapshot), false));
      }
      return Some(FinishResult(attempts[a], scores, true));
    }

    method ClaimWarningSlot(a: nat, slot: Slot, now: int) returns (r: Option<Attempt>)
      modifies this`attempts
      ensures Tables() == MarkWarning(old(Tables()), a, slot, now)
      ensures r.Some? <==> Open(old(Tables()), a) && slot !in old(attempts)[a].warnedAt
      ensures r.Some? ==> attempts == old(attempts)[a := r.value]
                          && r.value == old(attempts)[a].(warnedAt := old(attempts)[a].warnedAt[slot := now])
      ensures r.None? ==> attempts == old(attempts)
    {
      if a in attempts && attempts[a].status == InProgress && slot !in attempts[a].warnedAt {
        attempts := attempts[a := attempts[a].(warnedAt := attempts[a].warnedAt[slot := now])];
        return Some(attempts[a]);
      }
      return None;
    }

    /** The ban cleanup: every open attempt of the user expires with the score of its answers, and loses
        its jobs; no other attempt and no other job changes. */
    method FinalizeInProgressForUser(user: nat, now: int) returns (count: nat)
      modifies this`attempts, this`answers, this`jobs
      ensures Finalized(old(Tables()), Tables(), OpenOf(old(Tables()), user), _ => now)
      ensures Evolves(old(Tables()), Tables()) && OpenOf(Tables(), user) == {}
      ensures forall j :: j in jobs <==> j in old(jobs) && j.attempt !in OpenOf(old(Tables()), user)
      ensures forall j :: j in jobs ==> jobs[j] == old(jobs)[j]
      ensures count == |OpenOf(old(Tables()), user)|
      ensures forall a :: a in old(attempts) && old(attempts)[a].status == InProgress && old(attempts)[a].userId == user
                          ==> ExpiredRow(old(Tables()), Tables(), a, now) && JobId(ExpireJob, a) !in jobs
      ensures forall a :: a in old(attempts)
                          && !(old(attempts)[a].status == InProgress && old(attempts)[a].userId == user)
                          ==> a in attempts && attempts[a] == old(attempts)[a]
    {
      hide Finalized, CurrentScore, Evolves, MarkFinished, AfterExpire, Sound, OpenOf, ExpiredRow;
      ghost var t0 := Tables();
      ghost var clock := _ => now;
      var mine := OpenOf(Tables(), user);
      count := |mine|;
      var todo := mine;
      NothingFinalized(t0, mine, clock);
      while todo != {}
        invariant todo <= mine
        invariant Finalized(t0, Tables(), mine - todo, clock)
        invariant forall j :: j in jobs <==> j in old(jobs) && j.attempt !in mine - todo
        invariant forall j :: j in jobs ==> jobs[j] == old(jobs)[j]
        decreases |todo|
      {
        var a :| a in todo;
        Mine(t0, user, a);
        StillToDo(t0, Tables(), mine, todo, a, clock);
        FinalizedNext(t0, Tables(), mine, todo, a, clock);
        OneDone(mine, todo, a);
        var _ := Finish(a, ByTimer, now, Nothing);
        todo := todo - {a};
      }
      NothingDone(mine);
      FinalizedEvolves(t0, Tables(), mine, clock);
      AllFinalized(t0, Tables(), user, clock);
      FinalizedRows(t0, Tables(), user, now);
    }

    // ---------- Timer jobs ----------

    /** `attempt_expire_job`: finalizes, and reports to the user only when it owned the change. Where it
        raises or finds no user its transaction rolls back, after the jobs may have been cancelled. */
    method RunExpireJob(a: nat, banned: bool, trouble: Trouble, now: int) returns (sent: bool, raised: bool)
      modifies this`attempts, this`answers, this`jobs
      ensures Tables() == AfterExpire(old(Tables()), a, trouble, now)
      ensures forall j :: j in jobs <==> j in old(jobs) && !(j.attempt == a && CancelsJobs(old(Tables()), a, trouble))
      ensures forall j :: j in jobs ==> jobs[j] == old(jobs)[j]
      ensures Evolves(old(Tables()), Tables()) && (trouble == NoTrouble ==> !Open(Tables(), a))
      ensures Open(old(Tables()), a) && trouble == NoTrouble ==>
                attempts == old(attempts)[a := old(attempts)[a].(
                                status := Expired, finishedAt := Some(now),
                                scores := Some(CurrentScore(old(Tables()), a)))]
      ensures !Open(old(Tables()), a) || trouble != NoTrouble ==> attempts == old(attempts)
      ensures answers == old(answers)
      ensures sent <==> Open(old(Tables()), a) && trouble == NoTrouble && !banned
      ensures raised <==> trouble == RaisesEarly || trouble == RaisesLate
    {
      if trouble == RaisesEarly || a !in attempts {
        return false, Raises(trouble);
      }
      var before := attempts;
      var r := Finish(a, ByTimer, now, Nothing);
      if trouble == RaisesLate {
        attempts := before;
        return false, true;
      }
      if !r.value.ownedFinalization {
        return false, false;
      }
      if trouble == OwnerMissing {
        attempts := before;
        return false, false;
      }
      return !banned, false;
    }

    /** `_send_warning`: the claim is stamped first; a banned user is not written to, and without a user
        the claim is rolled back. */
    method RunWarningJob(a: nat, slot: Slot, banned: bool, trouble: Trouble, now: int) returns (sent: bool)
      modifies this`attempts
      ensures Tables() == if trouble == NoTrouble then MarkWarning(old(Tables()), a, slot, now) else old(Tables())
      ensures sent <==> CanWarn(old(Tables()), a, slot) && trouble == NoTrouble && !banned
    {
      var before := attempts;
      var claimed := ClaimWarningSlot(a, slot, now);
      if claimed.None? {
        return false;
      }
      if trouble != NoTrouble {
        attempts := before;
        return false;
      }
      return !banned;
    }

    // ---------- The sweep ----------

    /** One item of the sweep, after whatever other sessions did. An item that raises is not counted. */
    method SweepItem(a: nat, now: int, banned: bool, trouble: Trouble, m: Meanwhile,
                     ghost sweep: Sweep, ghost todo: set<nat>)
      returns (counted: bool)
      requires Sweeping(sweep, Tables(), todo, now) && EndLater(m, now) && (sweep.quiet ==> m == Nothing)
      requires a in todo && Open(sweep.start, a) && (a in sweep.reached <==> trouble == NoTrouble)
      modifies this`attempts, this`answers, this`jobs
      ensures Sweeping(sweep, Tables(), todo - {a}, now)
      ensures counted <==> !Raises(trouble)
    {
      hide Sound, Evolves, NewEndLater, AfterExpire, Settled, Finalized;
      ghost var t1 := Tables();
      OtherSessions(m);
      ghost var t2 := Tables();
      SweptOthers(sweep, t1, t2, todo, now);
      var _, raised := RunExpireJob(a, banned, trouble, now);
      SweptOne(sweep, t2, Tables(), todo, a, now, trouble);
      return !raised;
    }

    /** `expired_attempt_sweep_job`, with other sessions running between its items. An item that raises
        does not stop the sweep. Only attempts that were overdue and ran into trouble can stay overdue;
        when nothing else runs, exactly those do. */
    method Sweep(now: int, banned: set<nat>, trouble: nat -> Trouble, meanwhile: nat -> Meanwhile)
      returns (finalized: nat)
      requires Sound(Tables())
      requires forall a :: EndLater(meanwhile(a), now)
      modifies this`attempts, this`answers, this`jobs
      ensures Sound(Tables()) && Evolves(old(Tables()), Tables())
      ensures forall a :: a in Overdue(Tables(), now) ==> a in Overdue(old(Tables()), now) && trouble(a) != NoTrouble
      ensures Alone(meanwhile) ==>
                var reached := WithoutTrouble(Overdue(old(Tables()), now), trouble);
                && Finalized(old(Tables()), Tables(), reached, _ => now)
                && Overdue(Tables(), now) == Overdue(old(Tables()), now) - reached
      ensures finalized == |WithoutRaise(Overdue(old(Tables()), now), trouble)|
      ensures forall a :: a in attempts && attempts[a].status == InProgress && attempts[a].expiresAt < now ==>
                            a in old(attempts) && old(attempts)[a].status == InProgress
                            && old(attempts)[a].expiresAt < now && trouble(a) != NoTrouble
      ensures Alone(meanwhile) ==>
                forall a :: a in old(attempts) ==>
                              if old(attempts)[a].status == InProgress && old(attempts)[a].expiresAt < now
                                 && trouble(a) == NoTrouble
                              then ExpiredRow(old(Tables()), Tables(), a, now)
                              else a in attempts && attempts[a] == old(attempts)[a]
    {
      hide Sweeping, Sound, Evolves, Finalized, EndLater;
      var expired := Overdue(Tables(), now);
      ghost var counted := WithoutRaise(expired, trouble);
      ghost var sweep := SweepOf(Tables(), now, trouble, Alone(meanwhile));
      finalized := 0;
      var todo := expired;
      SweepBegins(Tables(), now, trouble, Alone(meanwhile));
      while todo != {}
        invariant todo <= expired
        invariant Sweeping(sweep, Tables(), todo, now)
        invariant finalized == |counted - todo|
        decreases |todo|
      {
        var a :| a in todo;
        var done := SweepItem(a, now, a in banned, trouble(a), meanwhile(a), sweep, todo);
        if done {
          finalized := finalized + 1;
        }
        OneDone(counted, todo, a);
        todo := todo - {a};
      }
      NothingDone(counted);
      SweepEnds(old(Tables()), Tables(), now, trouble, Alone(meanwhile));
      SweptRows(old(Tables()), Tables(), now, trouble, Alone(meanwhile));
    }

    // ---------- Boot ----------

    /** One attempt of `reconcile_attempts`: reschedule, then finalize if its time has come. The expiry
        is that of the row listed at the start; the attempt may be final by now. */
    method ReconcileOne(a: nat, expiresAt: int, scheduledAt: int, checkedAt: int, trouble: Trouble) returns (late: bool)
      requires a in attempts && attempts[a].expiresAt == expiresAt
      modifies this`attempts, this`answers, this`jobs
      ensures late <==> expiresAt <= checkedAt
      ensures Reconciled(old(Now()), Now(), a, scheduledAt, checkedAt, trouble)
    {
      hide CurrentScore, Evolves;
      ScheduleAttemptJobs(a, expiresAt, scheduledAt);
      late := expiresAt <= checkedAt;
      if late {
        var _, _ := RunExpireJob(a, false, trouble, checkedAt);
      }
    }

    /** One thing that the scheduler does. */
    method TimerFires(e: TimerEvent, ghost failing: set<nat>)
      requires EventOk(e, failing)
      modifies this`attempts, this`answers, this`jobs, this`running
      ensures TimersOk(old(Now()), Now(), [e], failing)
    {
      hide CurrentScore, AfterEvents;
      match e {
        case Fires(job) =>
          if job in jobs {
            jobs := jobs - {job};
            if job.slot == ExpireJob {
              running := running + {job.attempt};
            }
          }
        case Missed(job) =>
          jobs := jobs - {job};
        case ExpireEnds(a, banned, trouble, now) =>
          var _, _ := RunExpireJob(a, banned, trouble, now);
          running := running - {a};
        case WarnEnds(a, slot, banned, trouble, now) =>
          var _ := RunWarningJob(a, slot, banned, trouble, now);
      }
      forall a ensures AfterEvents(CoverOf(old(Now()), a), [e], a) == AfterEvent(CoverOf(old(Now()), a), e, a) {
        AfterOne(CoverOf(old(Now()), a), e, a);
      }
    }

    /** What the scheduler does meanwhile: it is already running. */
    method TimersFire(events: seq<TimerEvent>, ghost failing: set<nat>)
      requires forall i :: 0 <= i < |events| ==> EventOk(events[i], failing)
      modifies this`attempts, this`answers, this`jobs, this`running
      ensures TimersOk(old(Now()), Now(), events, failing)
      ensures events == [] ==> Now() == old(Now())
    {
      TimersIdle(Now(), failing);
      assert events[..0] == [];
      for i := 0 to |events|
        invariant TimersOk(old(Now()), Now(), events[..i], failing)
        invariant i == 0 ==> Now() == old(Now())
      {
        ghost var before := Now();
        TimerFires(events[i], failing);
        TimersMore(old(Now()), before, Now(), events[..i], events[i], failing);
        assert events[..i + 1] == events[..i] + [events[i]];
      }
      assert events[..|events|] == events;
    }

    /** `reconcile_attempts`. Trouble in one finalization is logged and left to the sweep. Whatever the
        scheduler does in between, an attempt without trouble that stays open is left with neither job
        nor coroutine exactly if it is `Lost`; if nothing happens in between, exactly the late attempts
        expired and exactly the dropped ones have no job. */
    method Reconcile(boot: Boot, ghost failing: set<nat>) returns (rescheduled: nat, finishedImmediately: nat)
      requires Lists(boot.order, OpenAttempts(Tables())) && TroubleWithin(boot, failing, Tables())
      modifies this`attempts, this`answers, this`jobs, this`running
      ensures Evolves(old(Tables()), Tables()) && LostExactly(old(Now()), Now(), boot, failing)
      ensures Quiet(boot) ==> ExactlyReconciled(old(Now()), Now(), boot)
      ensures rescheduled == |OpenAttempts(old(Tables()))|
      ensures finishedImmediately == |Late(old(Tables()), boot.checkedAt)|
    {
      hide Reconciling, NextUp, Reconciled, Evolves, TimersOk, LostExactly, ExactlyReconciled;
      hide Lists, OpenAttempts, Late;
      ghost var w0 := Now();
      var listed := attempts;
      ghost var open, late := OpenAttempts(Tables()), Late(Tables(), boot.checkedAt);
      rescheduled, finishedImmediately := 0, 0;
      ReconcileBegins(w0, boot, failing);
      for i := 0 to |boot.order|
        invariant Reconciling(w0, Now(), boot, i, failing)
        invariant rescheduled == |open - Elems(boot.order[i..])|
        invariant finishedImmediately == |late - Elems(boot.order[i..])|
      {
        var a := boot.order[i];
        ghost var w1 := Now();
        TimersFire(boot.meanwhile(a), failing);
        ghost var w2 := Now();
        TimersBetween(w0, w1, w2, boot, i, failing);
        StillListed(w0, w2, boot, i, failing);
        var isLate := ReconcileOne(a, listed[a].expiresAt, boot.scheduledAt(a), boot.checkedAt(a), boot.trouble(a));
        rescheduled := rescheduled + 1;
        if isLate {
          finishedImmediately := finishedImmediately + 1;
        }
        NextTurn(boot.order, i, open);
        OneDone(open, Elems(boot.order[i..]), a);
        OneDone(late, Elems(boot.order[i..]), a);
        OneReconciled(w0, w2, Now(), boot, i, failing);
      }
      AllTurns(boot.order, open);
      NothingDone(open);
      NothingDone(late);
      ReconcileEnds(w0, Now(), boot, failing);
    }

    // ---------- Crashes ----------

    /** The process dies. Its transactions are rolled back, but the job store keeps what was done to it:
        `finish` had cancelled jobs, `start` had added some, or the whole store was flushed. */
    method Die(crash: CrashPoint)
      modifies this`jobs, this`running
      ensures forall a :: Survived(crash, old(Now()), Now(), a)
    {
      running := {};
      match crash
      case BetweenCalls =>
      case BeforeFinishCommits(a) => CancelAttemptJobs(a);
      case BeforeStartCommits(a, expiresAt, now) => ScheduleAttemptJobs(a, expiresAt, now);
      case JobsFlushed => jobs := map[];
    }

    /** After a crash and the next boot: an attempt that was open, ran into no trouble and is still open has
        its expire job, in the store or on its way, exactly unless it is `Lost` with what survived the
        crash. If nothing happens during the boot, exactly the attempts dropped with what survived are
        left without a job, with or without trouble. */
    method DieAndBoot(crash: CrashPoint, boot: Boot, ghost failing: set<nat>)
      requires Lists(boot.order, OpenAttempts(Tables())) && TroubleWithin(boot, failing, Tables())
      modifies this`attempts, this`answers, this`jobs, this`running
      ensures Evolves(old(Tables()), Tables())
      ensures forall k :: 0 <= k < |boot.order| && boot.order[k] !in failing ==>
                            CoveredAfterCrash(crash, old(jobs), Now(), boot, k)
      ensures Quiet(boot) ==>
                forall a :: a in OpenAttempts(old(Tables())) ==>
                              var expiresAt := old(attempts)[a].expiresAt;
                              Open(Tables(), a) && !HasExpireJob(jobs, a, expiresAt)
                              <==> Dropped(Surviving(crash, old(jobs), a) == Some(expiresAt), expiresAt,
                                           boot.scheduledAt(a), boot.checkedAt(a), boot.trouble(a))
    {
      hide Dropped, Lost, LostExactly, Surviving, TroubleWithin, Evolves, CoveredAfterCrash;
      ghost var before := Now();
      Die(crash);
      ghost var w0 := Now();
      var _, _ := Reconcile(boot, failing);
      CrashedBoot(crash, before, w0, Now(), boot, failing);
      if Quiet(boot) {
        forall a | a in OpenAttempts(w0.db)
          ensures DroppedExactly(w0, Now(), boot, a) && Survived(crash, before, w0, a)
        {
        }
      }
    }

    /** The jobs of an attempt whose `start` never committed fire and change nothing. */
    method OrphanJobsFire(crash: CrashPoint, slot: Slot, banned: bool, trouble: Trouble, now: int) returns (told: bool)
      requires crash.BeforeStartCommits? && crash.attempt !in attempts
      modifies this`attempts, this`answers, this`jobs, this`running
      ensures !told && Tables() == old(Tables())
    {
      Die(crash);
      var warned := RunWarningJob(crash.attempt, slot, banned, trouble, now);
      var sent, _ := RunExpireJob(crash.attempt, banned, trouble, now);
      return warned || sent;
    }
  }
}
