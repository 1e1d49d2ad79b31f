/**
 The calls of `AttemptService`, which change the tables in one piece, as runs of `AttemptProtocol`: a call
 that no lock keeps waiting is its session's statements from begin to commit.
 */
module AttemptCalls {
  import opened Common
  import opened Scoring
  import opened Sections
  import opened AttemptTables
  import opened AttemptProtocol
  import opened AttemptRuns
  import Worth = AttemptScores
  import Service = AttemptService

  function With(st: State, sid: nat, s: Session): State {
    st.(sessions := st.sessions[sid := s])
  }

  /** A new session may run the statement at once. */
  predicate Free(st: State, sid: nat, step: Step) {
    sid !in st.sessions && IsStatement(step) && step.sid == sid && Sees(st.db, NEW_SESSION, step) && Unlocked(st, step)
  }

  lemma NothingWritten(db: Db)
    ensures View(db, NEW_SESSION) == db
  {
  }

  /** A session that has written nothing is in nobody's way. */
  lemma StillUnlocked(st: State, sid: nat, s: Session, step: Step)
    requires sid !in st.sessions && IsStatement(step) && step.sid == sid && s.rows == map[] && Unlocked(st, step)
    ensures Unlocked(With(st, sid, s), step)
  {
  }

  lemma DoBegin(st: State, sid: nat)
    requires sid !in st.sessions
    ensures Do(st, Begin(sid)) == With(st, sid, NEW_SESSION)
  {
  }

  lemma WithTwice(st: State, sid: nat, s: Session, s': Session)
    ensures With(With(st, sid, s), sid, s') == With(st, sid, s')
    ensures With(st, sid, s).db == st.db && sid in With(st, sid, s).sessions && With(st, sid, s).sessions[sid] == s
  {
    assert st.sessions[sid := s][sid := s'] == st.sessions[sid := s'];
  }

  lemma DoStatement(st: State, sid: nat, s: Session, step: Step)
    requires sid !in st.sessions && IsStatement(step) && step.sid == sid
    requires s.rows == map[] && Sees(st.db, s, step) && Unlocked(st, step)
    ensures Do(With(st, sid, s), step) == With(st, sid, Exec(st.db, s, step))
  {
    hide Exec, Sees, Unlocked, Do;
    StillUnlocked(st, sid, s, step);
    WithTwice(st, sid, s, Exec(st.db, s, step));
    StatementDone(With(st, sid, s), step);
  }

  lemma Commits(st: State, sid: nat, s: Session)
    requires sid !in st.sessions
    ensures Do(With(st, sid, s), Commit(sid))
            == State(View(st.db, s), st.sessions, st.finals + multiset(s.owned), st.warnings + multiset(s.claims))
  {
    assert st.sessions[sid := s] - {sid} == st.sessions;
  }

  /** A call of one statement. */
  lemma OneStatement(st: State, sid: nat, step: Step)
    requires Free(st, sid, step)
    ensures var s := Exec(st.db, NEW_SESSION, step);
            Run(st, [Begin(sid), step, Commit(sid)])
            == State(View(st.db, s), st.sessions, st.finals + multiset(s.owned), st.warnings + multiset(s.claims))
  {
    hide Exec, Sees, Unlocked, Do, Enabled, View;
    DoBegin(st, sid);
    DoStatement(st, sid, NEW_SESSION, step);
    Commits(st, sid, Exec(st.db, NEW_SESSION, step));
    RunCons(st, Begin(sid), [step, Commit(sid)]);
    RunTwo(With(st, sid, NEW_SESSION), step, Commit(sid));
    assert [Begin(sid), step, Commit(sid)] == [Begin(sid)] + [step, Commit(sid)];
  }

  /** What one statement of a new session leaves, and counts. */
  lemma StatementShown(db: Db, step: Step)
    requires IsStatement(step) && Sees(db, NEW_SESSION, step)
    ensures var s := Exec(db, NEW_SESSION, step);
            match step
            case Start(_, a, user, test, startedAt, expiresAt) =>
              View(db, s) == Create(db, a, user, test, startedAt, expiresAt) && s.owned == {} && s.claims == {}
            case Submit(_, a, q, selected) =>
              View(db, s) == Upsert(db, a, q, Answer(selected, selected == db.questions[q].correct))
              && s.owned == {} && s.claims == {}
            case Move(_, a, position) => View(db, s) == SetPosition(db, a, position) && s.owned == {} && s.claims == {}
            case Warn(_, a, slot, now) =>
              View(db, s) == MarkWarning(db, a, slot, now) && s.owned == {}
              && s.claims == if CanWarn(db, a, slot) then {(a, slot)} else {}
            case _ => true
  {
    hide CurrentScore;
    NothingWritten(db);
    match step
    case Start(_, a, user, test, startedAt, expiresAt) => RowShown(db, a, NewAttempt(user, test, startedAt, expiresAt));
    case Move(_, a, position) => if Open(db, a) { RowShown(db, a, db.attempts[a].(position := position)); }
    case Warn(_, a, slot, now) => if CanWarn(db, a, slot) { RowShown(db, a, WarnedRow(db.attempts[a], slot, now)); }
    case _ =>
  }

  lemma RowShown(db: Db, a: nat, t: Attempt)
    ensures View(db, WithRow(NEW_SESSION, a, t)) == Put(db, a, t)
  {
  }

  /** `start`: the inserted row. */
  lemma StartIsARun(st: State, sid: nat, a: nat, user: nat, test: nat, startedAt: int, expiresAt: int)
    requires Free(st, sid, Start(sid, a, user, test, startedAt, expiresAt))
    ensures Run(st, [Begin(sid), Start(sid, a, user, test, startedAt, expiresAt), Commit(sid)])
            == st.(db := st.db.(attempts := st.db.attempts[a := Attempt(user, test, InProgress, 1, startedAt, expiresAt,
                                                                        None, None, map[])]))
  {
    OneStatement(st, sid, Start(sid, a, user, test, startedAt, expiresAt));
    StatementShown(st.db, Start(sid, a, user, test, startedAt, expiresAt));
    hide Exec, View, Run, Unlocked;
  }

  /** `submit_answer`: the guarded insert, with the mark. */
  lemma SubmitIsARun(st: State, sid: nat, a: nat, q: nat, selected: string)
    requires Free(st, sid, Submit(sid, a, q, selected))
    ensures Run(st, [Begin(sid), Submit(sid, a, q, selected), Commit(sid)])
            == st.(db := if Open(st.db, a)
                         then st.db.(answers := st.db.answers[
                                         (a, q) := Answer(selected, selected == st.db.questions[q].correct)])
                         else st.db)
  {
    OneStatement(st, sid, Submit(sid, a, q, selected));
    StatementShown(st.db, Submit(sid, a, q, selected));
    hide Exec, View, Run, Unlocked;
  }

  /** `set_current_position`. */
  lemma MoveIsARun(st: State, sid: nat, a: nat, position: int)
    requires Free(st, sid, Move(sid, a, position))
    ensures Run(st, [Begin(sid), Move(sid, a, position), Commit(sid)])
            == st.(db := if Open(st.db, a)
                         then st.db.(attempts := st.db.attempts[a := st.db.attempts[a].(position := position)])
                         else st.db)
  {
    OneStatement(st, sid, Move(sid, a, position));
    StatementShown(st.db, Move(sid, a, position));
    hide Exec, View, Run, Unlocked;
  }

  /** `claim_warning_slot`: the guarded stamp, and one more claim if it was free. */
  lemma WarnIsARun(st: State, sid: nat, a: nat, slot: Slot, now: int)
    requires Free(st, sid, Warn(sid, a, slot, now))
    ensures Run(st, [Begin(sid), Warn(sid, a, slot, now), Commit(sid)])
            == if Open(st.db, a) && slot !in st.db.attempts[a].warnedAt
               then var row := st.db.attempts[a];
                    st.(db := st.db.(attempts := st.db.attempts[a := row.(warnedAt := row.warnedAt[slot := now])]),
                        warnings := st.warnings + multiset{(a, slot)})
               else st
  {
    OneStatement(st, sid, Warn(sid, a, slot, now));
    StatementShown(st.db, Warn(sid, a, slot, now));
    hide Exec, View, Run, Unlocked;
  }

  /** `finish` of an open attempt: the read, the guarded update with what was read, and one more owner. */
  lemma FinishIsARun(st: State, sid: nat, a: nat, reason: FinishReason, now: int)
    requires sid !in st.sessions && Open(st.db, a) && RowFree(st, sid, a)
    ensures Run(st, [Begin(sid), Read(sid, a), Finish(sid, a, reason, now), Commit(sid)])
            == st.(db := st.db.(attempts := st.db.attempts[a := st.db.attempts[a].(
                                  status := if reason == ByUser then Submitted else Expired, finishedAt := Some(now),
                                  scores := Some(CurrentScore(st.db, a)))]),
                   finals := st.finals + multiset{a})
  {
    var scores := CurrentScore(st.db, a);
    var seen := NEW_SESSION.(seen := map[a := scores]);
    var s := Finishing(st.db, a, reason, scores, now);
    ReadAlone(st.db, sid, a);
    FinishAlone(st.db, sid, a, reason, scores, now);
    hide Do, Enabled, Exec, Sees, CurrentScore, View, MarkFinished, Finishing, RowFree;
    DoBegin(st, sid);
    DoStatement(st, sid, NEW_SESSION, Read(sid, a));
    DoStatement(st, sid, seen, Finish(sid, a, reason, now));
    Commits(st, sid, s);
    FourSteps(st, sid, Read(sid, a), Finish(sid, a, reason, now));
  }

  lemma FourSteps(st: State, sid: nat, x: Step, y: Step)
    ensures Run(st, [Begin(sid), x, y, Commit(sid)]) == Do(Do(Do(Do(st, Begin(sid)), x), y), Commit(sid))
  {
    hide Do;
    RunCons(st, Begin(sid), [x, y, Commit(sid)]);
    RunCons(Do(st, Begin(sid)), x, [y, Commit(sid)]);
    RunTwo(Do(Do(st, Begin(sid)), x), y, Commit(sid));
    assert [Begin(sid), x, y, Commit(sid)] == [Begin(sid)] + [x, y, Commit(sid)];
    assert [x, y, Commit(sid)] == [x] + [y, Commit(sid)];
  }

  lemma ReadAlone(db: Db, sid: nat, a: nat)
    requires Open(db, a)
    ensures Sees(db, NEW_SESSION, Read(sid, a))
    ensures Exec(db, NEW_SESSION, Read(sid, a)) == NEW_SESSION.(seen := map[a := CurrentScore(db, a)])
  {
    NothingWritten(db);
    hide CurrentScore;
  }

  /** A session that has read and updated. */
  function Finishing(db: Db, a: nat, reason: FinishReason, scores: Scores, now: int): Session
    requires Open(db, a)
  {
    NEW_SESSION.(seen := map[a := scores],
                 rows := map[a := FinishedRow(db.attempts[a], TargetStatus(reason), scores, now)],
                 tried := {a}, owned := {a})
  }

  lemma FinishAlone(db: Db, sid: nat, a: nat, reason: FinishReason, scores: Scores, now: int)
    requires Open(db, a)
    ensures var seen, step, s := NEW_SESSION.(seen := map[a := scores]), Finish(sid, a, reason, now),
                                 Finishing(db, a, reason, scores, now);
            && Sees(db, seen, step) && Exec(db, seen, step) == s
            && View(db, s) == MarkFinished(db, a, TargetStatus(reason), scores, now)
            && multiset(s.owned) == multiset{a} && multiset(s.claims) == multiset{}
  {
    hide CurrentScore;
    var seen := NEW_SESSION.(seen := map[a := scores]);
    assert View(db, seen) == db;
  }

  // ---------- A finish that loses the race ----------

  /** The expire job finalizes the attempt and commits. */
  function ExpireJob(a: nat, now: int): Service.Meanwhile {
    Service.Others([Begin(1), Read(1, a), Finish(1, a, ByTimer, now), Commit(1)], map[])
  }

  lemma ExpireJobRuns(db: Db, a: nat, now: int)
    requires Open(db, a)
    ensures Service.TablesAfter(db, ExpireJob(a, now)) == MarkFinished(db, a, Expired, CurrentScore(db, a), now)
  {
    FinishIsARun(AtRest(db), 1, a, ByTimer, now);
    hide Run, AtRest, MarkFinished, CurrentScore;
  }

  /** The snapshot of the tap has the attempt open, without scores; the row that the tap's update finds is
      final and has these. */
  predicate TapLoses(db: Db, a: nat, now: int, stored: Scores) {
    var mid := Service.TablesAfter(db, ExpireJob(a, now));
    && Open(db, a) && Service.StoredScores(db.attempts[a]) == Scores(0, 0, 0, 0)
    && a in mid.attempts && !Open(mid, a) && mid.attempts[a].scores == Some(stored)
  }

  /** A tap that reads an open attempt before the expire job finalizes it returns what is in its snapshot,
      scores of zero, over the score of the answers. */
  lemma LosingTapShowsZeros(db: Db, a: nat, now: int)
    requires Open(db, a) && db.attempts[a].scores == None
    ensures TapLoses(db, a, now, CurrentScore(db, a))
  {
    ExpireJobRuns(db, a, now);
    hide CurrentScore;
  }

  lemma ExampleSound(db: Db)
    requires Worth.ExampleDb(db) && db.answers == map[(1, 1) := Answer("A", true)]
    ensures Sound(db) && Open(db, 1) && db.attempts[1].scores == None && db.attempts[1].testId == 1
  {
  }

  lemma ExampleTap(db: Db)
    requires Worth.ExampleDb(db) && db.answers == map[(1, 1) := Answer("A", true)]
    ensures Sound(db) && TapLoses(db, 1, 100, Scores(1, 0, 0, 1))
  {
    hide CurrentScore, TapLoses, Sound;
    ExampleSound(db);
    Worth.ScoreOne(db, 1);
    LosingTapShowsZeros(db, 1, 100);
  }

  /** That happens over a score that is not zero. */
  lemma LosingTapIsWrong()
    ensures exists db :: Sound(db) && TapLoses(db, 1, 100, Scores(1, 0, 0, 1))
  {
    hide TapLoses, Sound;
    var answers, questions := map[(1, 1) := Answer("A", true)], map[1 := Question(1, 1, RusTili, "A")];
    ExampleTap(Db(map[1 := NewAttempt(1, 1, 0, 100)], answers, questions));
  }
}
