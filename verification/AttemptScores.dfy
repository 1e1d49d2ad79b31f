/**
 What a finalized attempt is worth, over the runs of `AttemptProtocol`: when the stored score is the score
 of the stored answers, and what follows from it.
 */
module AttemptScores {
  import opened Common
  import opened Sections
  import opened Scoring
  import opened AttemptTables
  import opened AttemptProtocol
  import opened AttemptSteps
  import opened AttemptRuns

  // ---------- Finalizing ----------

  /** Once a session whose finalizing update ran on an attempt commits, the attempt is final: the
      update either flipped the row or found it flipped. */
  lemma CommitFinalizes(st: State, sid: nat, a: nat)
    requires Inv(st) && sid in st.sessions && a in st.sessions[sid].tried
    ensures var db' := Do(st, Commit(sid)).db; a in db'.attempts && !Open(db', a)
  {
    assert TriedOk(st.db, st.sessions[sid], a);
  }

  /** A final attempt is never owned again: whatever happens next, its count stays at one. */
  lemma FinalizedOnce(st: State, a: nat, steps: seq<Step>)
    requires Inv(st) && a in st.db.attempts && !Open(st.db, a)
    ensures var end := Run(st, steps);
            end.finals[a] == 1 && a in end.db.attempts && end.db.attempts[a] == st.db.attempts[a]
              && Chosen(end.db, a) == Chosen(st.db, a)
  {
    RunSafety(st, steps);
    FrozenScore(st.db, Run(st, steps).db, a);
    assert FinalOk(Run(st, steps), a);
  }

  /** What a finalizing session will store for an attempt it owns. */
  function PendingScore(st: State, sid: nat, a: nat): Option<Scores>
    requires sid in st.sessions && a in st.sessions[sid].rows
  {
    st.sessions[sid].rows[a].scores
  }

  lemma StoredAsPending(st: State, sid: nat, a: nat, steps: seq<Step>)
    requires Inv(st) && sid in st.sessions && a in st.sessions[sid].owned && a in st.sessions[sid].rows
    ensures var end := Run(Do(st, Commit(sid)), steps);
            && a in end.db.attempts
            && (end.db.attempts[a].scores == Some(CurrentScore(end.db, a))
                <==> PendingScore(st, sid, a) == Some(CurrentScore(View(st.db, st.sessions[sid]), a)))
  {
    var mid := Do(st, Commit(sid));
    assert OwnsOk(st.db, st.sessions[sid], a);
    StepInv(st, Commit(sid));
    RunSafety(mid, steps);
    FrozenScore(mid.db, Run(mid, steps).db, a);
  }

  // ---------- Between the read and the update ----------

  /** A step of another session. */
  predicate ByOther(step: Step, sid: nat) {
    !step.Crash? && step.sid != sid
  }

  predicate ByOthers(steps: seq<Step>, sid: nat) {
    forall i :: 0 <= i < |steps| ==> ByOther(steps[i], sid)
  }

  lemma {:induction false} SessionWaits(st: State, steps: seq<Step>, sid: nat)
    requires sid in st.sessions && ByOthers(steps, sid)
    ensures sid in Run(st, steps).sessions && Run(st, steps).sessions[sid] == st.sessions[sid]
    decreases |steps|
  {
    if steps != [] {
      assert ByOther(steps[0], sid);
      SessionWaits(Do(st, steps[0]), steps[1..], sid);
    }
  }

  /** What the stored answers of an attempt score, with the session's own. */
  function ScoreNow(st: State, sid: nat, a: nat): Scores
    requires sid in st.sessions && a in View(st.db, st.sessions[sid]).attempts
  {
    CurrentScore(View(st.db, st.sessions[sid]), a)
  }

  lemma CommitShown(st: State, o: nat)
    requires o in st.sessions
    ensures Do(st, Commit(o)).db == View(st.db, st.sessions[o]) && Do(st, Commit(o)).sessions == st.sessions - {o}
  {
  }

  /** While a session holds an attempt, no other commit changes what its answers score. */
  lemma LockedScore(db: Db, s: Session, o: Session, a: nat)
    requires SessionOk(db, s) && SessionOk(db, o) && Apart(s, o) && a in o.rows
    ensures CurrentScore(View(View(db, s), o), a) == CurrentScore(View(db, o), a)
  {
    assert !Touches(s, a);
    SameScore(View(db, o), View(View(db, s), o), a);
  }

  lemma LockedStep(st: State, step: Step, sid: nat, a: nat)
    requires Inv(st) && sid in st.sessions && a in st.sessions[sid].rows && ByOther(step, sid)
    ensures sid in Do(st, step).sessions && Do(st, step).sessions[sid] == st.sessions[sid]
    ensures ScoreNow(Do(st, step), sid, a) == ScoreNow(st, sid, a)
  {
    SessionWaits(st, [step], sid);
    RunOne(st, step);
    hide SessionOk, Apart, Sound, Exec, Sees, Unlocked, CurrentScore, View;
    if step.Commit? && Enabled(st, step) {
      CommitShown(st, step.sid);
      LockedScore(st.db, st.sessions[step.sid], st.sessions[sid], a);
    }
  }

  lemma {:induction false} LockedRun(st: State, steps: seq<Step>, sid: nat, a: nat)
    requires Inv(st) && sid in st.sessions && a in st.sessions[sid].rows && ByOthers(steps, sid)
    ensures sid in Run(st, steps).sessions && Run(st, steps).sessions[sid] == st.sessions[sid]
    ensures ScoreNow(Run(st, steps), sid, a) == ScoreNow(st, sid, a)
    decreases |steps|
  {
    hide Inv, Do, View, CurrentScore;
    if steps != [] {
      assert ByOther(steps[0], sid);
      StepInv(st, steps[0]);
      LockedStep(st, steps[0], sid, a);
      LockedRun(Do(st, steps[0]), steps[1..], sid, a);
    }
  }

  /** Where a finalizing call stands: before its update, after it, and after its commit, with what other
      sessions do in between. */
  function BeforeUpdate(st: State, sid: nat, a: nat, others: seq<Step>): State {
    Run(Do(st, Read(sid, a)), others)
  }

  function AfterCommit(st: State, sid: nat, a: nat, reason: FinishReason, now: int, others: seq<Step>): State {
    Do(Run(Do(st, Finish(sid, a, reason, now)), others), Commit(sid))
  }

  /** For every schedule of the other sessions between the read, the update and the commit of a call that
      finalizes, and for every continuation: the stored score is the score of the stored answers if and
      only if the answers scored at the update what they scored at the read. */
  lemma FinalScoreExactIff(st: State, sid: nat, a: nat, reason: FinishReason, now: int,
                           others: seq<Step>, more: seq<Step>, after: seq<Step>)
    requires Inv(st) && Enabled(st, Read(sid, a)) && ByOthers(others, sid) && ByOthers(more, sid)
    requires var mid := BeforeUpdate(st, sid, a, others);
             Enabled(mid, Finish(sid, a, reason, now)) && Open(View(mid.db, mid.sessions[sid]), a)
    ensures var mid := BeforeUpdate(st, sid, a, others);
            var end := Run(AfterCommit(mid, sid, a, reason, now, more), after);
            && a in end.db.attempts && !Open(end.db, a)
            && (end.db.attempts[a].scores == Some(CurrentScore(end.db, a))
                <==> ScoreNow(mid, sid, a) == ScoreNow(st, sid, a))
  {
    hide Inv;
    var st1, mid := Do(st, Read(sid, a)), BeforeUpdate(st, sid, a, others);
    StepInv(st, Read(sid, a));
    SessionWaits(st1, others, sid);
    RunSafety(st1, others);
    assert mid.sessions[sid].seen[a] == ScoreNow(st, sid, a);
    StoredAsSeen(mid, sid, a, reason, now, more, after);
  }

  /** From the update on: what is stored is what was read, and the answers are locked. */
  lemma StoredAsSeen(mid: State, sid: nat, a: nat, reason: FinishReason, now: int, more: seq<Step>, after: seq<Step>)
    requires Inv(mid) && Enabled(mid, Finish(sid, a, reason, now)) && ByOthers(more, sid)
    requires Open(View(mid.db, mid.sessions[sid]), a)
    ensures var end := Run(AfterCommit(mid, sid, a, reason, now, more), after);
            && a in end.db.attempts && !Open(end.db, a)
            && (end.db.attempts[a].scores == Some(CurrentScore(end.db, a))
                <==> mid.sessions[sid].seen[a] == ScoreNow(mid, sid, a))
  {
    hide Inv;
    var done := Do(mid, Finish(sid, a, reason, now));
    var ready := Run(done, more);
    Finishes(mid, sid, a, reason, now);
    StepInv(mid, Finish(sid, a, reason, now));
    LockedRun(done, more, sid, a);
    RunSafety(done, more);
    StoredAsPending(ready, sid, a, after);
    CommitFinalizes(ready, sid, a);
    StepInv(ready, Commit(sid));
    FinalizedOnce(Do(ready, Commit(sid)), a, after);
  }

  lemma Finishes(mid: State, sid: nat, a: nat, reason: FinishReason, now: int)
    requires Enabled(mid, Finish(sid, a, reason, now)) && Open(View(mid.db, mid.sessions[sid]), a)
    ensures var done := Do(mid, Finish(sid, a, reason, now));
            && sid in done.sessions && a in done.sessions[sid].owned && a in done.sessions[sid].tried
            && a in done.sessions[sid].rows
            && PendingScore(done, sid, a) == Some(mid.sessions[sid].seen[a])
            && ScoreNow(done, sid, a) == ScoreNow(mid, sid, a)
  {
    var done := Do(mid, Finish(sid, a, reason, now));
    SameScore(View(mid.db, mid.sessions[sid]), View(done.db, done.sessions[sid]), a);
  }

  // ---------- Reads that are still good ----------

  predicate HoldsAnswer(s: Session, a: nat) {
    exists k :: k in s.answers && k.0 == a
  }

  /** The reads, by session and attempt, after which no answer of the attempt was committed or given by
      the session itself: a rule about the schedule, which looks at no score. */
  function GoodReads(st: State, step: Step, good: set<(nat, nat)>): set<(nat, nat)> {
    if !Enabled(st, step) then good
    else
      match step
      case Read(sid, a) => good + {(sid, a)}
      case Submit(sid, a, _, _) => good - {(sid, a)}
      case Commit(sid) => set p | p in good && p.0 != sid && !HoldsAnswer(st.sessions[sid], p.1)
      case Begin(sid) => set p | p in good && p.0 != sid
      case Abort(sid) => set p | p in good && p.0 != sid
      case Crash => {}
      case _ => good
  }

  /** An update that is going to finalize has a good read behind it. */
  predicate Prompt(st: State, step: Step, good: set<(nat, nat)>) {
    step.Finish? && Enabled(st, step) && Open(View(st.db, st.sessions[step.sid]), step.a) ==> (step.sid, step.a) in good
  }

  /** Nowhere in the run is an answer committed between the read and the update of a call that finalizes
      its attempt. */
  predicate NoAnswerBetween(st: State, steps: seq<Step>, good: set<(nat, nat)>)
    decreases |steps|
  {
    steps == []
    || (Prompt(st, steps[0], good) && NoAnswerBetween(Do(st, steps[0]), steps[1..], GoodReads(st, steps[0], good)))
  }

  predicate ReadTrue(st: State, sid: nat, a: nat) {
    && sid in st.sessions && a in st.sessions[sid].seen && a in View(st.db, st.sessions[sid]).attempts
    && st.sessions[sid].seen[a] == ScoreNow(st, sid, a)
  }

  predicate ReadsTrue(st: State, good: set<(nat, nat)>) {
    forall p :: p in good ==> ReadTrue(st, p.0, p.1)
  }

  lemma ExecSameTest(db: Db, s: Session, step: Step, a: nat)
    requires IsStatement(step) && Sees(db, s, step) && a in View(db, s).attempts
    ensures var v' := View(db, Exec(db, s, step));
            a in v'.attempts && v'.attempts[a].testId == View(db, s).attempts[a].testId
  {
    hide CurrentScore;
  }

  lemma ExecSameAnswers(db: Db, s: Session, step: Step, a: nat)
    requires IsStatement(step) && Sees(db, s, step) && a in View(db, s).attempts && !(step.Submit? && step.a == a)
    ensures SameAnswers(View(db, s), View(db, Exec(db, s, step)), a)
  {
    ExecSameTest(db, s, step, a);
    ExecSamePending(db, s, step);
    hide Exec, Sees;
  }

  lemma ExecSamePending(db: Db, s: Session, step: Step)
    requires IsStatement(step) && Sees(db, s, step)
    ensures var s' := Exec(db, s, step);
            s'.answers == s.answers
            || (step.Submit? && s'.answers - {(step.a, step.q)} == s.answers - {(step.a, step.q)})
  {
    hide CurrentScore, View, CanWarn, Open;
  }

  lemma ExecSameSeen(db: Db, s: Session, step: Step, a: nat)
    requires IsStatement(step) && Sees(db, s, step) && a in s.seen && !(step.Read? && step.a == a)
    ensures a in Exec(db, s, step).seen && Exec(db, s, step).seen[a] == s.seen[a]
  {
    hide CurrentScore, View, CanWarn, Open;
  }

  lemma ExecSameScore(db: Db, s: Session, step: Step, a: nat)
    requires IsStatement(step) && Sees(db, s, step) && a in View(db, s).attempts && !(step.Submit? && step.a == a)
    ensures a in View(db, Exec(db, s, step)).attempts
    ensures CurrentScore(View(db, Exec(db, s, step)), a) == CurrentScore(View(db, s), a)
  {
    ExecSameAnswers(db, s, step, a);
    hide Exec, Sees, CurrentScore;
    SameScore(View(db, s), View(db, Exec(db, s, step)), a);
  }

  /** A statement of the session itself, other than an answer to the attempt. */
  lemma OwnStatement(st: State, step: Step, a: nat)
    requires IsStatement(step) && Enabled(st, step) && ReadTrue(st, step.sid, a)
    requires !(step.Submit? && step.a == a) && !(step.Read? && step.a == a)
    ensures ReadTrue(Do(st, step), step.sid, a)
  {
    hide Exec, Sees, Unlocked, CurrentScore, View, Do;
    StatementDone(st, step);
    ExecSameScore(st.db, st.sessions[step.sid], step, a);
    ExecSameSeen(st.db, st.sessions[step.sid], step, a);
  }

  lemma ReadIsTrue(st: State, sid: nat, a: nat)
    requires Enabled(st, Read(sid, a))
    ensures ReadTrue(Do(st, Read(sid, a)), sid, a)
  {
    var st' := Do(st, Read(sid, a));
    assert View(st'.db, st'.sessions[sid]) == View(st.db, st.sessions[sid]);
  }

  lemma CommitSameScore(db: Db, o: Session, s: Session, a: nat)
    requires Evolves(db, View(db, o)) && a in View(db, s).attempts && !HoldsAnswer(o, a)
    ensures a in View(View(db, o), s).attempts
    ensures CurrentScore(View(View(db, o), s), a) == CurrentScore(View(db, s), a)
  {
    hide CurrentScore;
    assert forall q :: (a, q) !in o.answers;
    SameScore(View(db, s), View(View(db, o), s), a);
  }

  lemma OthersCommit(st: State, o: nat, sid: nat, a: nat)
    requires Inv(st) && o in st.sessions && o != sid && ReadTrue(st, sid, a) && !HoldsAnswer(st.sessions[o], a)
    ensures ReadTrue(Do(st, Commit(o)), sid, a)
  {
    hide SessionOk, Sound, Apart, Do, CurrentScore, HoldsAnswer, View, Evolves;
    CommitShown(st, o);
    CommitEvolves(st.db, st.sessions[o]);
    CommitSameScore(st.db, st.sessions[o], st.sessions[sid], a);
  }

  lemma StepReads(st: State, step: Step, good: set<(nat, nat)>)
    requires Inv(st) && ReadsTrue(st, good)
    ensures ReadsTrue(Do(st, step), GoodReads(st, step, good))
  {
    hide Inv, Exec, Sees, Unlocked, CurrentScore;
    forall p | p in GoodReads(st, step, good) ensures ReadTrue(Do(st, step), p.0, p.1) {
      if Enabled(st, step) {
        if step == Read(p.0, p.1) {
          ReadIsTrue(st, p.0, p.1);
        } else if step.Commit? {
          OthersCommit(st, step.sid, p.0, p.1);
        } else if IsStatement(step) && step.sid == p.0 {
          OwnStatement(st, step, p.1);
        }
      }
    }
  }

  // ---------- Scores, when finish reads and writes as one ----------

  /** Every final attempt scores its stored answers; so does every row about to become final. */
  ghost predicate Exact(st: State) {
    && (forall a :: a in st.db.attempts && !Open(st.db, a) ==> st.db.attempts[a].scores == Some(CurrentScore(st.db, a)))
    && (forall o :: o in st.sessions ==> SessionExact(st.db, st.sessions[o]))
  }

  ghost predicate SessionExact(db: Db, s: Session) {
    forall a :: ScoreExact(db, s, a)
  }

  predicate ScoreExact(db: Db, s: Session, a: nat) {
    a in s.owned && a in s.rows ==> s.rows[a].scores == Some(CurrentScore(View(db, s), a))
  }

  /** An update that is going to finalize stores what the answers score at that moment. */
  predicate Clean(st: State, step: Step) {
    step.Finish? && Enabled(st, step) && Open(View(st.db, st.sessions[step.sid]), step.a) ==>
      st.sessions[step.sid].seen[step.a] == ScoreNow(st, step.sid, step.a)
  }

  /** An update right after the read is clean. */
  lemma AtomicFinishIsClean(st: State, sid: nat, a: nat, reason: FinishReason, now: int)
    requires Enabled(st, Read(sid, a))
    ensures Clean(Do(st, Read(sid, a)), Finish(sid, a, reason, now))
  {
    ReadIsTrue(st, sid, a);
  }

  /** Some session in the run commits an answer of the attempt. */
  predicate CommitsAnswer(st: State, steps: seq<Step>, a: nat)
    decreases |steps|
  {
    steps != []
    && ((steps[0].Commit? && Enabled(st, steps[0]) && HoldsAnswer(st.sessions[steps[0].sid], a))
        || CommitsAnswer(Do(st, steps[0]), steps[1..], a))
  }

  lemma {:induction false} ReadStaysTrue(st: State, steps: seq<Step>, sid: nat, a: nat)
    requires Inv(st) && ReadTrue(st, sid, a) && ByOthers(steps, sid) && !CommitsAnswer(st, steps, a)
    ensures ReadTrue(Run(st, steps), sid, a)
    decreases |steps|
  {
    hide Inv, ReadTrue, Do, Enabled;
    if steps != [] {
      assert ByOther(steps[0], sid);
      StepInv(st, steps[0]);
      StepReads(st, steps[0], {(sid, a)});
      assert (sid, a) in GoodReads(st, steps[0], {(sid, a)});
      ReadStaysTrue(Do(st, steps[0]), steps[1..], sid, a);
    }
  }

  /** So is one after any schedule of the other sessions in which none commits an answer of the attempt. */
  lemma QuietFinishIsClean(st: State, sid: nat, a: nat, others: seq<Step>, reason: FinishReason, now: int)
    requires Inv(st) && Enabled(st, Read(sid, a)) && ByOthers(others, sid)
    requires !CommitsAnswer(Do(st, Read(sid, a)), others, a)
    ensures Clean(BeforeUpdate(st, sid, a, others), Finish(sid, a, reason, now))
  {
    ReadIsTrue(st, sid, a);
    StepInv(st, Read(sid, a));
    ReadStaysTrue(Do(st, Read(sid, a)), others, sid, a);
  }

  /** A session cannot change an attempt that it has finalized itself. */
  lemma OwnedUntouched(db: Db, s: Session, step: Step, a: nat)
    requires Sound(db) && SessionOk(db, s) && IsStatement(step) && Sees(db, s, step) && a in s.owned
    ensures var s' := Exec(db, s, step);
            && a in s.rows && a in s'.rows && s'.rows[a] == s.rows[a]
            && (forall q :: (a, q) in s'.answers <==> (a, q) in s.answers)
            && (forall q :: (a, q) in s.answers ==> s'.answers[(a, q)] == s.answers[(a, q)])
  {
    assert OwnsOk(db, s, a);
  }

  lemma OwnedExact(db: Db, s: Session, step: Step, a: nat)
    requires Sound(db) && SessionOk(db, s) && IsStatement(step) && Sees(db, s, step) && a in s.owned
    requires ScoreExact(db, s, a)
    ensures ScoreExact(db, Exec(db, s, step), a)
  {
    OwnedUntouched(db, s, step, a);
    SameScore(View(db, s), View(db, Exec(db, s, step)), a);
  }

  lemma NewlyOwned(db: Db, s: Session, step: Step, a: nat)
    requires IsStatement(step) && Sees(db, s, step) && a !in s.owned && a in Exec(db, s, step).owned
    ensures step.Finish? && step.a == a && Open(View(db, s), a)
  {
  }

  lemma FinishExact(db: Db, s: Session, step: Step)
    requires step.Finish? && Sees(db, s, step) && Open(View(db, s), step.a)
    requires s.seen[step.a] == CurrentScore(View(db, s), step.a)
    ensures ScoreExact(db, Exec(db, s, step), step.a)
  {
    SameScore(View(db, s), View(db, Exec(db, s, step)), step.a);
  }

  lemma ExecExact(db: Db, s: Session, step: Step)
    requires Sound(db) && SessionOk(db, s) && SessionExact(db, s) && IsStatement(step) && Sees(db, s, step)
    requires step.Finish? && Open(View(db, s), step.a) ==> s.seen[step.a] == CurrentScore(View(db, s), step.a)
    ensures SessionExact(db, Exec(db, s, step))
  {
    var s' := Exec(db, s, step);
    forall a ensures ScoreExact(db, s', a) {
      if a in s.owned {
        OwnedExact(db, s, step, a);
      } else if a in s'.owned {
        NewlyOwned(db, s, step, a);
        FinishExact(db, s, step);
      }
    }
  }

  lemma CommittedExact(db: Db, s: Session, a: nat)
    requires SessionOk(db, s) && SessionExact(db, s)
    requires a in db.attempts && !Open(db, a) ==> db.attempts[a].scores == Some(CurrentScore(db, a))
    requires a in View(db, s).attempts && !Open(View(db, s), a)
    ensures View(db, s).attempts[a].scores == Some(CurrentScore(View(db, s), a))
  {
    assert OwnsOk(db, s, a) && ScoreExact(db, s, a);
    if a !in s.rows {
      CommitEvolves(db, s);
      FrozenScore(db, View(db, s), a);
    }
  }

  lemma CommitExact(st: State, sid: nat)
    requires Inv(st) && Exact(st) && sid in st.sessions
    ensures Exact(Do(st, Commit(sid)))
  {
    var s, st' := st.sessions[sid], Do(st, Commit(sid));
    forall a | a in st'.db.attempts && !Open(st'.db, a)
      ensures st'.db.attempts[a].scores == Some(CurrentScore(st'.db, a))
    {
      CommittedExact(st.db, s, a);
    }
    forall o | o in st'.sessions ensures SessionExact(st'.db, st'.sessions[o]) {
      CommitExactOther(st.db, s, st.sessions[o]);
    }
  }

  lemma CommitExactOther(db: Db, s: Session, o: Session)
    requires SessionOk(db, s) && SessionOk(db, o) && Apart(s, o) && SessionExact(db, o)
    ensures SessionExact(View(db, s), o)
  {
    forall a ensures ScoreExact(View(db, s), o, a) {
      assert ScoreExact(db, o, a);
      if a in o.owned && a in o.rows { LockedScore(db, s, o, a); }
    }
  }

  lemma StepExact(st: State, step: Step)
    requires Inv(st) && Exact(st) && Clean(st, step)
    ensures Exact(Do(st, step))
  {
    if Enabled(st, step) {
      if IsStatement(step) {
        ExecExact(st.db, st.sessions[step.sid], step);
        StatementExact(st, step);
      } else if step.Commit? {
        CommitExact(st, step.sid);
      }
    }
  }

  lemma StatementExact(st: State, step: Step)
    requires Exact(st) && IsStatement(step) && Enabled(st, step)
    requires SessionExact(st.db, Exec(st.db, st.sessions[step.sid], step))
    ensures Exact(Do(st, step))
  {
  }

  lemma {:induction false} GoodRunsMatch(st: State, steps: seq<Step>, good: set<(nat, nat)>)
    requires Inv(st) && Exact(st) && ReadsTrue(st, good) && NoAnswerBetween(st, steps, good)
    ensures Exact(Run(st, steps))
    decreases |steps|
  {
    if steps != [] {
      var step := steps[0];
      assert Prompt(st, step, good);
      assert Clean(st, step) by {
        assert (step.Finish? && (step.sid, step.a) in good) ==> ReadTrue(st, step.sid, step.a);
      }
      StepInv(st, step);
      StepExact(st, step);
      StepReads(st, step, good);
      GoodRunsMatch(Do(st, step), steps[1..], GoodReads(st, step, good));
    }
  }

  /** In every run in which no answer of an attempt is committed between the read and the update of the
      call that finalizes it, each final attempt scores exactly its stored answers. */
  lemma ScoresMatchAnswers(st: State, steps: seq<Step>)
    requires Inv(st) && Exact(st) && NoAnswerBetween(st, steps, {})
    ensures Exact(Run(st, steps))
  {
    GoodRunsMatch(st, steps, {});
  }

  /** So the stored score is the sum of its sections, within 35, 10, 5 and 50, and equals the
      number of questions that the result screen marks as correct. */
  lemma StoredScoreFacts(st: State, steps: seq<Step>, a: nat)
    requires Inv(st) && Exact(st) && NoAnswerBetween(st, steps, {})
    requires a in Run(st, steps).db.attempts && !Open(Run(st, steps).db, a)
    ensures var db := Run(st, steps).db;
            var byId := QuestionsOf(db, db.attempts[a].testId);
            && db.attempts[a].scores.Some?
            && var s := db.attempts[a].scores.value;
            && s.rus <= 35 && s.ped <= 10 && s.kas <= 5 && s.total <= 50
            && s.total == s.rus + s.ped + s.kas
            && UniquePositions(byId)
            && s.total == |TrueMarks(QuestionMarks(Chosen(db, a), byId))|
  {
    RunSafety(st, steps);
    ScoresMatchAnswers(st, steps);
    CurrentScoreFacts(Run(st, steps).db, a);
  }

  // ---------- Scores, when an answer slips in between ----------

  /** The run ends with attempt 1 final, scored 0, while its stored answers score 1. */
  predicate ScoresStale(db: Db, steps: seq<Step>) {
    var end := Run(State(db, map[], multiset{}, multiset{}), steps).db;
    && Open(db, 1)
    && 1 in end.attempts && end.attempts[1].scores == Some(Scores(0, 0, 0, 0))
    && CurrentScore(end, 1) == Scores(1, 0, 0, 1)
  }

  /** An answer committed between the read and the update of `finish` is stored but not scored. */
  lemma AnswerCanSlipIn()
    ensures exists db, steps :: Sound(db) && ScoresStale(db, steps)
  {
    var db := Db(map[1 := NewAttempt(1, 1, 0, 100)], map[], map[1 := Question(1, 1, RusTili, "A")]);
    var read, answer := [Begin(1), Read(1, 1)], [Begin(2), Submit(2, 1, 1, "A"), Commit(2)];
    var finish := [Finish(1, 1, ByTimer, 100), Commit(1)];
    StaleRun(db, read, answer, finish);
    assert Sound(db);
  }

  lemma StaleRun(db: Db, read: seq<Step>, answer: seq<Step>, finish: seq<Step>)
    requires ExampleDb(db) && db.answers == map[]
    requires read == [Begin(1), Read(1, 1)] && answer == [Begin(2), Submit(2, 1, 1, "A"), Commit(2)]
    requires finish == [Finish(1, 1, ByTimer, 100), Commit(1)]
    ensures ScoresStale(db, read + (answer + finish))
  {
    var st := State(db, map[], multiset{}, multiset{});
    Reading(st);
    var st2 := Run(st, read);
    Answering(st2);
    var st5 := Run(st2, answer);
    Finishing(st5);
    RunAppend(st, read, answer + finish);
    RunAppend(st2, answer, finish);
    ScoreOne(Run(st5, finish).db, 1);
  }

  /** The tables of the example, before and after the answer. */
  predicate ExampleDb(db: Db) {
    db.attempts == map[1 := NewAttempt(1, 1, 0, 100)] && db.questions == map[1 := Question(1, 1, RusTili, "A")]
  }

  const EXAMPLE_READER := NEW_SESSION.(seen := map[1 := Scores(0, 0, 0, 0)])

  lemma Reading(st: State)
    requires ExampleDb(st.db) && st.db.answers == map[] && st.sessions == map[]
    ensures Run(st, [Begin(1), Read(1, 1)]) == st.(sessions := map[1 := EXAMPLE_READER])
  {
    RunTwo(st, Begin(1), Read(1, 1));
    assert Do(st, Begin(1)) == st.(sessions := map[1 := NEW_SESSION]);
    ReadingOne(st.(sessions := map[1 := NEW_SESSION]));
  }

  lemma ReadingOne(st: State)
    requires ExampleDb(st.db) && st.db.answers == map[] && st.sessions == map[1 := NEW_SESSION]
    ensures Do(st, Read(1, 1)) == st.(sessions := map[1 := EXAMPLE_READER])
  {
    ReadingExec(st.db);
    hide ExampleDb, Exec, Sees;
    StatementDone(st, Read(1, 1));
  }

  lemma ReadingExec(db: Db)
    requires ExampleDb(db) && db.answers == map[]
    ensures Sees(db, NEW_SESSION, Read(1, 1)) && Exec(db, NEW_SESSION, Read(1, 1)) == EXAMPLE_READER
  {
    assert View(db, NEW_SESSION) == db;
    ScoreNone(db, 1);
    hide CurrentScore;
  }

  lemma Answering(st: State)
    requires ExampleDb(st.db) && st.db.answers == map[] && st.sessions == map[1 := EXAMPLE_READER]
    ensures var st' := Run(st, [Begin(2), Submit(2, 1, 1, "A"), Commit(2)]);
            && st'.sessions == st.sessions
            && st'.db == st.db.(answers := map[(1, 1) := Answer("A", true)])
  {
    hide ExampleDb, Exec, Sees, Unlocked, View;
    var tail := [Submit(2, 1, 1, "A"), Commit(2)];
    assert [Begin(2), Submit(2, 1, 1, "A"), Commit(2)] == [Begin(2)] + tail;
    RunCons(st, Begin(2), tail);
    var st1 := Do(st, Begin(2));
    RunTwo(st1, Submit(2, 1, 1, "A"), Commit(2));
    AnsweringOne(st1);
    CommittingOne(Do(st1, Submit(2, 1, 1, "A")));
  }

  lemma AnsweringOne(st: State)
    requires ExampleDb(st.db) && st.sessions == map[1 := EXAMPLE_READER, 2 := NEW_SESSION]
    ensures Do(st, Submit(2, 1, 1, "A"))
            == st.(sessions := map[1 := EXAMPLE_READER, 2 := NEW_SESSION.(answers := map[(1, 1) := Answer("A", true)])])
  {
    assert View(st.db, NEW_SESSION) == st.db;
    assert Enabled(st, Submit(2, 1, 1, "A"));
  }

  lemma CommittingOne(st: State)
    requires st.sessions == map[1 := EXAMPLE_READER, 2 := NEW_SESSION.(answers := map[(1, 1) := Answer("A", true)])]
    requires st.db.answers == map[]
    ensures var st' := Do(st, Commit(2));
            && st'.sessions == map[1 := EXAMPLE_READER]
            && st'.db == st.db.(answers := map[(1, 1) := Answer("A", true)])
  {
    assert st.db.attempts + map[] == st.db.attempts;
  }

  lemma Finishing(st: State)
    requires ExampleDb(st.db) && st.sessions == map[1 := EXAMPLE_READER]
    ensures var db' := Run(st, [Finish(1, 1, ByTimer, 100), Commit(1)]).db;
            && db'.answers == st.db.answers && db'.questions == st.db.questions
            && 1 in db'.attempts && db'.attempts[1].testId == 1
            && db'.attempts[1].scores == Some(Scores(0, 0, 0, 0))
  {
    RunTwo(st, Finish(1, 1, ByTimer, 100), Commit(1));
    assert View(st.db, EXAMPLE_READER) == st.db;
    assert Enabled(st, Finish(1, 1, ByTimer, 100));
    var st1 := Do(st, Finish(1, 1, ByTimer, 100));
    assert st1.sessions[1].answers == map[];
    assert 1 in st1.sessions[1].rows;
  }

  lemma ScoreNone(db: Db, a: nat)
    requires a in db.attempts && db.answers == map[]
    ensures CurrentScore(db, a) == Scores(0, 0, 0, 0)
  {
    forall s: Section ensures HitIds(Chosen(db, a), QuestionsOf(db, db.attempts[a].testId), s) == {} {
    }
  }

  lemma ScoreOne(db: Db, a: nat)
    requires a in db.attempts && db.attempts[a].testId == 1
    requires db.questions == map[1 := Question(1, 1, RusTili, "A")] && db.answers == map[(a, 1) := Answer("A", true)]
    ensures CurrentScore(db, a) == Scores(1, 0, 0, 1)
  {
    var chosen, byId := Chosen(db, a), QuestionsOf(db, 1);
    assert HitIds(chosen, byId, RusTili) == {1};
    assert HitIds(chosen, byId, Pedagogik) == {} && HitIds(chosen, byId, Kasbiy) == {};
  }
}
