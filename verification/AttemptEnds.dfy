/**
 How an attempt ended, over the runs of `AttemptProtocol`: stored as submitted exactly if a finish by the
 user owned the finalization, and as expired exactly if a finish by a timer did.
 */
module AttemptEnds {
  import opened AttemptTables
  import opened AttemptProtocol
  import opened AttemptSteps
  import opened AttemptRuns

  /** The step is a finish for this reason, and its update flips the row. */
  predicate Flips(st: State, step: Step, a: nat, reason: FinishReason) {
    step.Finish? && step.a == a && step.reason == reason && Enabled(st, step)
    && Open(View(st.db, st.sessions[step.sid]), a)
  }

  predicate Ends(step: Step, sid: nat) {
    step.Crash? || ((step.Commit? || step.Abort?) && step.sid == sid)
  }

  /** The session, open at the start, ends with a commit. */
  predicate Commits(steps: seq<Step>, sid: nat)
    decreases |steps|
  {
    steps != [] && (steps[0] == Commit(sid) || (!Ends(steps[0], sid) && Commits(steps[1..], sid)))
  }

  /** Somewhere in the run a finish for this reason flips the row, and its session commits. */
  predicate EndedBy(st: State, steps: seq<Step>, a: nat, reason: FinishReason)
    decreases |steps|
  {
    steps != []
    && ((Flips(st, steps[0], a, reason) && Commits(steps[1..], steps[0].sid))
        || EndedBy(Do(st, steps[0]), steps[1..], a, reason))
  }

  predicate HasStatus(db: Db, a: nat, status: Status) {
    a in db.attempts && db.attempts[a].status == status
  }

  predicate Final(db: Db, a: nat) {
    a in db.attempts && !Open(db, a)
  }

  /** The session has flipped the row to this status. */
  predicate Holds(st: State, sid: nat, a: nat, status: Status) {
    && sid in st.sessions && a in st.sessions[sid].owned
    && a in st.sessions[sid].rows && st.sessions[sid].rows[a].status == status
  }

  ghost predicate Pending(st: State, steps: seq<Step>, a: nat, status: Status) {
    exists sid :: Holds(st, sid, a, status) && Commits(steps, sid)
  }

  // ---------- A final attempt is not flipped again ----------

  lemma NoFlipOfFinal(st: State, step: Step, a: nat, reason: FinishReason)
    requires Inv(st) && Final(st.db, a)
    ensures !Flips(st, step, a, reason)
  {
    if step.Finish? && step.sid in st.sessions && step.a == a {
      assert SessionOk(st.db, st.sessions[step.sid]);
    }
  }

  lemma {:induction false} NeverAgain(st: State, steps: seq<Step>, a: nat, reason: FinishReason)
    requires Inv(st) && Final(st.db, a)
    ensures !EndedBy(st, steps, a, reason)
    decreases |steps|
  {
    hide Inv, Flips, Do;
    if steps != [] {
      NoFlipOfFinal(st, steps[0], a, reason);
      StepInv(st, steps[0]);
      NeverAgain(Do(st, steps[0]), steps[1..], a, reason);
    }
  }

  // ---------- One step ----------

  lemma ExecHolds(db: Db, s: Session, step: Step, a: nat, reason: FinishReason)
    requires IsStatement(step) && Sees(db, s, step) && OwnsOk(db, s, a)
    ensures var s' := Exec(db, s, step);
            a in s'.owned && a in s'.rows && s'.rows[a].status == TargetStatus(reason)
            <==> (a in s.owned && a in s.rows && s.rows[a].status == TargetStatus(reason))
                 || (step.Finish? && step.a == a && step.reason == reason && Open(View(db, s), a))
  {
    hide CurrentScore;
  }

  /** Which sessions will commit a row they have flipped, before a step and after it. */
  lemma StepHolds(st: State, step: Step, rest: seq<Step>, a: nat, reason: FinishReason, sid: nat)
    requires Inv(st) && !(step.Commit? && Holds(st, step.sid, a, TargetStatus(reason)))
    ensures Holds(Do(st, step), sid, a, TargetStatus(reason)) && Commits(rest, sid)
            <==> (Holds(st, sid, a, TargetStatus(reason)) && Commits([step] + rest, sid))
                 || (Flips(st, step, a, reason) && step.Finish? && step.sid == sid && Commits(rest, sid))
  {
    hide Sound, Exec, Sees, Unlocked, SessionOk, Apart, View;
    assert ([step] + rest)[1..] == rest;
    if Enabled(st, step) && IsStatement(step) {
      StatementDone(st, step);
      OwnsFlipped(st, step.sid, a);
      ExecHolds(st.db, st.sessions[step.sid], step, a, reason);
    }
  }

  /** A flipped row that is committed is final, and no other session has flipped it. */
  lemma CommitOfHeld(st: State, step: Step, rest: seq<Step>, a: nat, status: Status)
    requires Inv(st) && step.Commit? && Holds(st, step.sid, a, status)
    ensures HasStatus(Do(st, step).db, a, status)
    ensures forall sid, other :: Holds(st, sid, a, other) ==> sid == step.sid
  {
    forall sid, other | sid != step.sid ensures !Holds(st, sid, a, other) {
      HeldApart(st, sid, step.sid, a, other);
    }
  }

  lemma HeldApart(st: State, sid: nat, o: nat, a: nat, status: Status)
    requires Inv(st) && sid != o && o in st.sessions && a in st.sessions[o].rows
    ensures !Holds(st, sid, a, status)
  {
    if sid in st.sessions { assert Apart(st.sessions[sid], st.sessions[o]); }
  }

  lemma CommitOfUnheld(st: State, sid: nat, a: nat)
    requires Inv(st) && sid in st.sessions && !Final(st.db, a) && a !in st.sessions[sid].owned
    ensures !Final(Do(st, Commit(sid)).db, a)
  {
    OwnsFlipped(st, sid, a);
  }

  lemma OwnsFlipped(st: State, sid: nat, a: nat)
    requires Inv(st) && sid in st.sessions
    ensures OwnsOk(st.db, st.sessions[sid], a)
    ensures a in st.sessions[sid].owned ==>
              Holds(st, sid, a, Submitted) || Holds(st, sid, a, Expired)
  {
    assert SessionOk(st.db, st.sessions[sid]);
  }

  lemma StillOpen(st: State, step: Step, a: nat)
    requires Inv(st) && !Final(st.db, a)
    requires !(step.Commit? && (Holds(st, step.sid, a, Submitted) || Holds(st, step.sid, a, Expired)))
    ensures !Final(Do(st, step).db, a)
  {
    hide Inv, Exec, Sees, Unlocked, View;
    if step.Commit? && Enabled(st, step) {
      OwnsFlipped(st, step.sid, a);
      CommitOfUnheld(st, step.sid, a);
    }
  }

  lemma FlipsAreFinishes(st: State, step: Step, a: nat, reason: FinishReason)
    ensures Flips(st, step, a, reason) ==> step.Finish?
  {
  }

  lemma PendingStep(st: State, step: Step, rest: seq<Step>, a: nat, reason: FinishReason)
    requires Inv(st) && !(step.Commit? && Holds(st, step.sid, a, TargetStatus(reason)))
    ensures Pending(Do(st, step), rest, a, TargetStatus(reason)) || EndedBy(Do(st, step), rest, a, reason)
            <==> Pending(st, [step] + rest, a, TargetStatus(reason)) || EndedBy(st, [step] + rest, a, reason)
  {
    hide Inv, Do, Holds, Flips, Commits;
    var st' := Do(st, step);
    assert ([step] + rest)[1..] == rest;
    forall sid
      ensures Holds(st', sid, a, TargetStatus(reason)) && Commits(rest, sid)
              <==> (Holds(st, sid, a, TargetStatus(reason)) && Commits([step] + rest, sid))
                   || (Flips(st, step, a, reason) && step.Finish? && step.sid == sid && Commits(rest, sid))
    {
      StepHolds(st, step, rest, a, reason, sid);
    }
    if Flips(st, step, a, reason) && step.Finish? && Commits(rest, step.sid) {
      assert Holds(st', step.sid, a, TargetStatus(reason));
    }
    assert Flips(st, step, a, reason) ==> step.Finish? by { FlipsAreFinishes(st, step, a, reason); }
  }

  // ---------- Every run ----------

  /** With flips that were already under way at the start. */
  lemma {:induction false} EndsAs(st: State, steps: seq<Step>, a: nat, reason: FinishReason)
    requires Inv(st) && !Final(st.db, a)
    ensures HasStatus(Run(st, steps).db, a, TargetStatus(reason))
            <==> EndedBy(st, steps, a, reason) || Pending(st, steps, a, TargetStatus(reason))
    decreases |steps|
  {
    hide Inv, Do, Holds, Flips;
    if steps != [] {
      var step, rest := steps[0], steps[1..];
      var st' := Do(st, step);
      assert steps == [step] + rest;
      StepInv(st, step);
      if step.Commit? && (Holds(st, step.sid, a, Submitted) || Holds(st, step.sid, a, Expired)) {
        CommitEnds(st, step, rest, a, reason);
      } else {
        StillOpen(st, step, a);
        PendingStep(st, step, rest, a, reason);
        EndsAs(st', rest, a, reason);
      }
    }
  }

  lemma CommitEnds(st: State, step: Step, rest: seq<Step>, a: nat, reason: FinishReason)
    requires Inv(st) && step.Commit? && (Holds(st, step.sid, a, Submitted) || Holds(st, step.sid, a, Expired))
    ensures HasStatus(Run(st, [step] + rest).db, a, TargetStatus(reason))
            <==> EndedBy(st, [step] + rest, a, reason) || Pending(st, [step] + rest, a, TargetStatus(reason))
  {
    hide Inv, Do;
    var st' := Do(st, step);
    var status := if Holds(st, step.sid, a, Submitted) then Submitted else Expired;
    assert ([step] + rest)[0] == step && ([step] + rest)[1..] == rest;
    CommitOfHeld(st, step, rest, a, status);
    StepInv(st, step);
    NeverAgain(st', rest, a, reason);
    RunSafety(st', rest);
    FrozenScore(st'.db, Run(st', rest).db, a);
    RunCons(st, step, rest);
    assert Commits([step] + rest, step.sid);
    assert !Flips(st, step, a, reason);
    assert !EndedBy(st, [step] + rest, a, reason);
  }

  /** For every run from tables without open sessions, and every attempt that is not final there: it ends
      as submitted if and only if somewhere in the run a finish by the user flipped its row and was
      committed, and as expired if and only if one by a timer was. */
  lemma EndsAsIff(db: Db, steps: seq<Step>, a: nat)
    requires Sound(db) && !(a in db.attempts && !Open(db, a))
    ensures var end := Run(AtRest(db), steps).db;
            && (a in end.attempts && end.attempts[a].status == Submitted <==> EndedBy(AtRest(db), steps, a, ByUser))
            && (a in end.attempts && end.attempts[a].status == Expired <==> EndedBy(AtRest(db), steps, a, ByTimer))
  {
    hide EndedBy, Run, Sound, Inv;
    AtRestInv(db);
    EndsAs(AtRest(db), steps, a, ByUser);
    EndsAs(AtRest(db), steps, a, ByTimer);
  }
}
