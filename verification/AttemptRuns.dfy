/** What every run of `AttemptProtocol` keeps. */
module AttemptRuns {
  import opened AttemptTables
  import opened AttemptProtocol
  import opened AttemptSteps

  // ---------- Every step, every run ----------

  lemma BeginInv(st: State, sid: nat)
    requires Inv(st)
    ensures Inv(st.(sessions := st.sessions[sid := NEW_SESSION]))
  {
    NewSessionOk(st.db);
    forall o | o in st.sessions && o != sid
      ensures Apart(NEW_SESSION, st.sessions[o]) && Apart(st.sessions[o], NEW_SESSION)
    {
      NewSessionApart(st.sessions[o]);
    }
    ReplacedInv(st, sid, NEW_SESSION);
  }

  lemma NewSessionOk(db: Db)
    ensures SessionOk(db, NEW_SESSION)
  {
  }

  lemma NewSessionApart(o: Session)
    ensures Apart(NEW_SESSION, o) && Apart(o, NEW_SESSION)
  {
  }

  lemma StepInv(st: State, step: Step)
    requires Inv(st)
    ensures Inv(Do(st, step)) && Evolves(st.db, Do(st, step).db)
  {
    EvolvesSelf(st.db);
    if Enabled(st, step) {
      if IsStatement(step) {
        StatementInv(st, step);
      } else {
        match step
        case Commit(sid) => CommitInv(st, sid);
        case Begin(sid) => BeginInv(st, sid);
        case _ => DroppedInv(st, Do(st, step));
      }
    }
  }

  lemma DroppedInv(st: State, st': State)
    requires Inv(st) && st' == st.(sessions := st'.sessions)
    requires forall o :: o in st'.sessions ==> o in st.sessions && st'.sessions[o] == st.sessions[o]
    ensures Inv(st')
  {
    forall a ensures FinalOk(st', a) { assert FinalOk(st, a); }
    forall a, slot ensures WarningOk(st', a, slot) { assert WarningOk(st, a, slot); }
  }

  /** For every run: each attempt is finalized by at most one committed call and each slot claimed
      at most once, and whatever was final before the run is unchanged after it. */
  lemma {:induction false} RunSafety(st: State, steps: seq<Step>)
    requires Inv(st)
    ensures Inv(Run(st, steps)) && Evolves(st.db, Run(st, steps).db)
    ensures forall a :: Run(st, steps).finals[a] <= 1
    ensures forall a, slot :: Run(st, steps).warnings[(a, slot)] <= 1
    decreases |steps|
  {
    var end := Run(st, steps);
    if steps == [] {
      EvolvesSelf(st.db);
      forall a ensures end.finals[a] <= 1 { assert FinalOk(end, a); }
      forall a, slot ensures end.warnings[(a, slot)] <= 1 { assert WarningOk(end, a, slot); }
    } else {
      StepInv(st, steps[0]);
      RunSafety(Do(st, steps[0]), steps[1..]);
      EvolvesTransitive(st.db, Do(st, steps[0]).db, end.db);
    }
  }

  // ---------- Runs put together ----------

  lemma StatementDone(st: State, step: Step)
    requires IsStatement(step) && Enabled(st, step)
    ensures Do(st, step) == st.(sessions := st.sessions[step.sid := Exec(st.db, st.sessions[step.sid], step)])
  {
    hide Exec, Sees, Unlocked;
  }

  lemma {:induction false} RunAppend(st: State, a: seq<Step>, b: seq<Step>)
    ensures Run(st, a + b) == Run(Run(st, a), b)
    decreases |a|
  {
    if a == [] {
      assert a + b == b;
    } else {
      assert (a + b)[1..] == a[1..] + b;
      RunAppend(Do(st, a[0]), a[1..], b);
    }
  }

  lemma RunCons(st: State, a: Step, rest: seq<Step>)
    ensures Run(st, [a] + rest) == Run(Do(st, a), rest)
  {
    assert ([a] + rest)[1..] == rest;
  }

  lemma RunOne(st: State, a: Step)
    ensures Run(st, [a]) == Do(st, a)
  {
    RunCons(st, a, []);
    assert [a] == [a] + [];
  }

  lemma RunTwo(st: State, a: Step, b: Step)
    ensures Run(st, [a, b]) == Do(Do(st, a), b)
  {
    RunCons(st, a, [b]);
    RunCons(Do(st, a), b, []);
    assert [a, b] == [a] + [b] && [b] == [b] + [];
  }

  // ---------- Where runs start ----------

  /** The attempts that are final, and the slots that are stamped. */
  function FinalAttempts(db: Db): set<nat> {
    set a | a in db.attempts && !Open(db, a)
  }

  function StampedSlots(db: Db): set<(nat, Slot)> {
    set a, slot | a in db.attempts && slot in db.attempts[a].warnedAt :: (a, slot)
  }

  /** Tables without open sessions, with the history that they show. */
  function AtRest(db: Db): State {
    State(db, map[], multiset(FinalAttempts(db)), multiset(StampedSlots(db)))
  }

  lemma AtRestInv(db: Db)
    requires Sound(db)
    ensures Inv(AtRest(db))
  {
    var st := AtRest(db);
    forall a ensures FinalOk(st, a) { assert a in FinalAttempts(db) <==> a in db.attempts && !Open(db, a); }
    forall a, slot ensures WarningOk(st, a, slot) {
      assert (a, slot) in StampedSlots(db) <==> a in db.attempts && slot in db.attempts[a].warnedAt;
    }
  }

  /** Whatever tables meet their constraints are where some history has led: counted once for each final
      attempt and each stamped slot, they satisfy the invariant that runs start from. */
  lemma InitialInv(db: Db)
    requires Sound(db)
    ensures exists finals, warnings :: Inv(State(db, map[], finals, warnings))
  {
    AtRestInv(db);
  }

  // ---------- When new attempts end ----------

  /** Attempts that the run starts expire at or after `now`. */
  predicate StartsEndLater(steps: seq<Step>, now: int) {
    forall i :: 0 <= i < |steps| && steps[i].Start? ==> steps[i].expiresAt >= now
  }

  ghost predicate RowsEndLater(db: Db, rows: map<nat, Attempt>, now: int) {
    forall a :: a in rows && a !in db.attempts ==> rows[a].expiresAt >= now
  }

  /** So do those that open sessions have inserted but not committed. */
  ghost predicate PendingEndLater(db: Db, st: State, now: int) {
    forall o :: o in st.sessions ==> RowsEndLater(db, st.sessions[o].rows, now)
  }

  lemma ExecEndsLater(db0: Db, db: Db, s: Session, step: Step, now: int)
    requires IsStatement(step) && Sees(db, s, step) && (step.Start? ==> step.expiresAt >= now)
    requires RowsEndLater(db0, db.attempts, now) && RowsEndLater(db0, s.rows, now)
    ensures RowsEndLater(db0, Exec(db, s, step).rows, now)
  {
    hide CurrentScore;
  }

  lemma StepEndsLater(db: Db, st: State, step: Step, now: int)
    requires NewEndLater(db, st.db, now) && PendingEndLater(db, st, now)
    requires step.Start? ==> step.expiresAt >= now
    ensures NewEndLater(db, Do(st, step).db, now) && PendingEndLater(db, Do(st, step), now)
  {
    hide Exec, Sees, Unlocked;
    if IsStatement(step) && Enabled(st, step) { ExecEndsLater(db, st.db, st.sessions[step.sid], step, now); }
  }

  lemma {:induction false} EndsLater(db: Db, st: State, steps: seq<Step>, now: int)
    requires NewEndLater(db, st.db, now) && PendingEndLater(db, st, now) && StartsEndLater(steps, now)
    ensures NewEndLater(db, Run(st, steps).db, now)
    decreases |steps|
  {
    if steps != [] {
      StepEndsLater(db, st, steps[0], now);
      EndsLater(db, Do(st, steps[0]), steps[1..], now);
    }
  }

  /** In every run whose starts end at or after a moment, every attempt that appears does. */
  lemma RunEndsLater(st: State, steps: seq<Step>, now: int)
    requires StartsEndLater(steps, now) && PendingEndLater(st.db, st, now)
    ensures NewEndLater(st.db, Run(st, steps).db, now)
  {
    EndsLater(st.db, st, steps, now);
  }
}
