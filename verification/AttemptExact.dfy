/** Exactly which runs of `AttemptProtocol` leave every final attempt with the score of its stored answers. */
module AttemptExact {
  import opened Common
  import opened AttemptTables
  import opened AttemptProtocol
  import opened AttemptRuns
  import opened AttemptScores
  import opened AttemptSteps

  /** The finalizing updates, by session and attempt, that stored a score which the answers did not have
      any more at that moment. */
  function Stale(st: State, step: Step, stale: set<(nat, nat)>): set<(nat, nat)> {
    if !Enabled(st, step) then stale
    else
      match step
      case Finish(sid, a, _, _) =>
        if !Open(View(st.db, st.sessions[sid]), a) then stale
        else if Clean(st, step) then stale - {(sid, a)} else stale + {(sid, a)}
      case Begin(sid) => WithoutSession(stale, sid)
      case Commit(sid) => WithoutSession(stale, sid)
      case Abort(sid) => WithoutSession(stale, sid)
      case Crash => {}
      case _ => stale
  }

  function WithoutSession(stale: set<(nat, nat)>, sid: nat): set<(nat, nat)> {
    set p | p in stale && p.0 != sid
  }

  /** A session commits such an update. */
  predicate Spoils(st: State, step: Step, stale: set<(nat, nat)>) {
    step.Commit? && Enabled(st, step) && exists p :: p in stale && p.0 == step.sid
  }

  predicate NothingSpoilt(st: State, steps: seq<Step>, stale: set<(nat, nat)>)
    decreases |steps|
  {
    steps == []
    || (!Spoils(st, steps[0], stale) && NothingSpoilt(Do(st, steps[0]), steps[1..], Stale(st, steps[0], stale)))
  }

  /** The set holds exactly the pending scores that are wrong. */
  ghost predicate StaleKnown(st: State, stale: set<(nat, nat)>) {
    forall o, a :: Known(st, stale, o, a)
  }

  predicate Known(st: State, stale: set<(nat, nat)>, o: nat, a: nat) {
    (o, a) in stale <==> o in st.sessions && !ScoreExact(st.db, st.sessions[o], a)
  }

  predicate FinalExact(db: Db, a: nat) {
    a in db.attempts && !Open(db, a) ==> db.attempts[a].scores == Some(CurrentScore(db, a))
  }

  /** Every final attempt scores its stored answers. */
  ghost predicate FinalsExact(db: Db) {
    forall a :: FinalExact(db, a)
  }

  // ---------- Statements ----------

  lemma OwnedSame(db: Db, s: Session, step: Step, a: nat)
    requires Sound(db) && SessionOk(db, s) && IsStatement(step) && Sees(db, s, step) && a in s.owned
    ensures ScoreExact(db, Exec(db, s, step), a) <==> ScoreExact(db, s, a)
    ensures !Open(View(db, s), a)
  {
    OwnedUntouched(db, s, step, a);
    OwnedStays(db, s, step, a);
    assert OwnsOk(db, s, a);
    hide Exec, Sees, CurrentScore, SessionOk, Sound;
    SameScore(View(db, s), View(db, Exec(db, s, step)), a);
  }

  lemma OwnedStays(db: Db, s: Session, step: Step, a: nat)
    requires IsStatement(step) && Sees(db, s, step)
    ensures a in s.owned ==> a in Exec(db, s, step).owned
  {
    hide View, CurrentScore;
  }

  lemma FinishedExactIff(db: Db, s: Session, step: Step)
    requires step.Finish? && Sees(db, s, step) && Open(View(db, s), step.a)
    ensures ScoreExact(db, Exec(db, s, step), step.a) <==> s.seen[step.a] == CurrentScore(View(db, s), step.a)
  {
    SameScore(View(db, s), View(db, Exec(db, s, step)), step.a);
  }

  /** The update is about to finalize the attempt. */
  predicate Finalizes(db: Db, s: Session, step: Step, a: nat) {
    step.Finish? && step.a == a && Open(View(db, s), a)
  }

  lemma OwnTruth(db: Db, s: Session, step: Step, a: nat)
    requires Sound(db) && SessionOk(db, s) && IsStatement(step) && Sees(db, s, step)
    ensures ScoreExact(db, Exec(db, s, step), a)
            <==> if Finalizes(db, s, step, a) then s.seen[a] == CurrentScore(View(db, s), a) else ScoreExact(db, s, a)
  {
    hide Exec, Sees, CurrentScore, SessionOk, Sound, View;
    if a in s.owned {
      OwnedSame(db, s, step, a);
    } else if Finalizes(db, s, step, a) {
      FinishedExactIff(db, s, step);
    } else if a in Exec(db, s, step).owned {
      NewlyOwned(db, s, step, a);
    }
  }

  lemma OwnScore(st: State, step: Step, stale: set<(nat, nat)>, a: nat)
    requires Inv(st) && IsStatement(step) && Enabled(st, step) && Known(st, stale, step.sid, a)
    ensures Known(Do(st, step), Stale(st, step, stale), step.sid, a)
  {
    hide Exec, Sees, Unlocked, CurrentScore, SessionOk, Sound, Apart, View, ScoreExact, Do;
    StatementDone(st, step);
    OwnTruth(st.db, st.sessions[step.sid], step, a);
  }

  lemma StatementKnown(st: State, step: Step, stale: set<(nat, nat)>)
    requires Inv(st) && IsStatement(step) && Enabled(st, step) && StaleKnown(st, stale)
    ensures StaleKnown(Do(st, step), Stale(st, step, stale))
  {
    hide Inv, Exec, Sees, Unlocked, CurrentScore, View, ScoreExact, Do, Clean;
    StatementDone(st, step);
    forall o, a ensures Known(Do(st, step), Stale(st, step, stale), o, a) {
      assert Known(st, stale, o, a);
      if o == step.sid { OwnScore(st, step, stale, a); }
    }
  }

  // ---------- Commits ----------

  lemma OthersScore(db: Db, s: Session, o: Session, a: nat)
    requires SessionOk(db, s) && SessionOk(db, o) && Apart(s, o)
    ensures ScoreExact(View(db, s), o, a) <==> ScoreExact(db, o, a)
  {
    if a in o.owned && a in o.rows { LockedScore(db, s, o, a); }
  }

  lemma CommitKnown(st: State, sid: nat, stale: set<(nat, nat)>)
    requires Inv(st) && sid in st.sessions && StaleKnown(st, stale)
    ensures StaleKnown(Do(st, Commit(sid)), Stale(st, Commit(sid), stale))
  {
    hide SessionOk, Apart, Sound, View, ScoreExact;
    CommitShown(st, sid);
    forall o, a ensures Known(Do(st, Commit(sid)), Stale(st, Commit(sid), stale), o, a) {
      assert Known(st, stale, o, a);
      if o in st.sessions && o != sid { OthersScore(st.db, st.sessions[sid], st.sessions[o], a); }
    }
  }

  /** What a commit leaves of the property: all of it, exactly if the session holds no wrong score. */
  lemma CommitExactIff(db: Db, s: Session)
    requires SessionOk(db, s) && FinalsExact(db)
    ensures FinalsExact(View(db, s)) <==> SessionExact(db, s)
  {
    if SessionExact(db, s) {
      forall a ensures FinalExact(View(db, s), a) {
        assert FinalExact(db, a);
        if a in View(db, s).attempts && !Open(View(db, s), a) { CommittedExact(db, s, a); }
      }
    }
    if FinalsExact(View(db, s)) {
      forall a ensures ScoreExact(db, s, a) {
        assert FinalExact(View(db, s), a) && OwnsOk(db, s, a);
      }
    }
  }

  // ---------- Every run ----------

  lemma StepKnown(st: State, step: Step, stale: set<(nat, nat)>)
    requires Inv(st) && StaleKnown(st, stale)
    ensures StaleKnown(Do(st, step), Stale(st, step, stale))
  {
    hide Inv, Exec, Sees, Unlocked, CurrentScore, View;
    if Enabled(st, step) {
      if IsStatement(step) {
        StatementKnown(st, step, stale);
      } else if step.Commit? {
        CommitKnown(st, step.sid, stale);
      } else {
        forall o, a ensures Known(Do(st, step), Stale(st, step, stale), o, a) { assert Known(st, stale, o, a); }
      }
    }
  }

  /** A step leaves every final attempt with its score exactly if it does not spoil one. */
  lemma StepExactIff(st: State, step: Step, stale: set<(nat, nat)>)
    requires Inv(st) && StaleKnown(st, stale) && FinalsExact(st.db)
    ensures FinalsExact(Do(st, step).db) <==> !Spoils(st, step, stale)
  {
    hide FinalsExact, Exec, Sees, Unlocked, View, ScoreExact, SessionOk, Sound, Apart;
    if step.Commit? && Enabled(st, step) {
      CommitShown(st, step.sid);
      CommitExactIff(st.db, st.sessions[step.sid]);
      forall a: nat ensures (step.sid, a) in stale <==> !ScoreExact(st.db, st.sessions[step.sid], a) {
        assert Known(st, stale, step.sid, a);
      }
    }
  }

  /** Once wrong, a stored score stays wrong. */
  lemma WrongForever(st: State, steps: seq<Step>)
    requires Inv(st) && !FinalsExact(st.db)
    ensures !FinalsExact(Run(st, steps).db)
  {
    hide Inv, Run, Sound;
    var a :| !FinalExact(st.db, a);
    RunSafety(st, steps);
    FrozenScore(st.db, Run(st, steps).db, a);
    assert !FinalExact(Run(st, steps).db, a);
  }

  lemma {:induction false} RunExactIff(st: State, steps: seq<Step>, stale: set<(nat, nat)>)
    requires Inv(st) && StaleKnown(st, stale) && FinalsExact(st.db)
    ensures FinalsExact(Run(st, steps).db) <==> NothingSpoilt(st, steps, stale)
    decreases |steps|
  {
    hide Inv, StaleKnown, FinalsExact, Stale, Spoils, Do;
    if steps != [] {
      var step, next := steps[0], Do(st, steps[0]);
      StepInv(st, step);
      StepKnown(st, step, stale);
      StepExactIff(st, step, stale);
      if Spoils(st, step, stale) {
        WrongForever(next, steps[1..]);
      } else {
        RunExactIff(next, steps[1..], Stale(st, step, stale));
      }
    }
  }

  /** Over every run that starts with no session open: every final attempt scores exactly its stored
      answers if and only if nowhere in the run a session commits a finalizing update whose read score
      was not that of the answers at the update. */
  lemma AllScoresExactIff(st: State, steps: seq<Step>)
    requires Inv(st) && st.sessions == map[] && FinalsExact(st.db)
    ensures FinalsExact(Run(st, steps).db) <==> NothingSpoilt(st, steps, {})
  {
    RunExactIff(st, steps, {});
  }
}
