/** Each statement and each commit of `AttemptProtocol` keeps its invariant. */
module AttemptSteps {
  import opened AttemptTables
  import opened AttemptProtocol

  // ---------- Committing ----------

  lemma CommitEvolves(db: Db, s: Session)
    requires SessionOk(db, s)
    ensures Evolves(db, View(db, s))
  {
    PendingOpen(db, s);
    var v := View(db, s);
    forall a, q | a in db.attempts && !Open(db, a) && (a, q) in v.answers
      ensures (a, q) in db.answers && v.answers[(a, q)] == db.answers[(a, q)]
    {
      assert (a, q) !in s.answers;
    }
  }

  lemma PendingOpen(db: Db, s: Session)
    requires SessionOk(db, s)
    ensures forall k :: k in s.answers && k.0 in db.attempts ==> Open(db, k.0)
  {
    forall k | k in s.answers && k.0 in db.attempts ensures Open(db, k.0) { assert PendingAnswerOk(db, s, k); }
  }

  lemma CommitSound(db: Db, s: Session)
    requires Sound(db) && SessionOk(db, s)
    ensures Sound(View(db, s))
  {
    var v := View(db, s);
    CommitEvolves(db, s);
    forall a | a in v.attempts ensures AttemptSound(v.attempts[a]) {
      if a in s.rows { assert RowOk(db, a, s.rows[a]); }
    }
    forall a, q | (a, q) in v.answers ensures AnswerSound(v, a, q, v.answers[(a, q)]) {
      if (a, q) in s.answers {
        assert PendingAnswerOk(db, s, (a, q));
      } else {
        assert AnswerSound(db, a, q, db.answers[(a, q)]);
      }
    }
  }

  lemma CommitCounts(st: State, sid: nat)
    requires Inv(st) && sid in st.sessions
    ensures var st' := Do(st, Commit(sid)); (forall a :: FinalOk(st', a)) && (forall a, slot :: WarningOk(st', a, slot))
  {
    var s := st.sessions[sid];
    var st' := Do(st, Commit(sid));
    forall a ensures FinalOk(st', a) {
      assert FinalOk(st, a) && OwnsOk(st.db, s, a);
      if a in s.rows { assert RowOk(st.db, a, s.rows[a]); }
    }
    forall a, slot ensures WarningOk(st', a, slot) {
      assert WarningOk(st, a, slot) && ClaimOk(st.db, s, a, slot);
      if a in s.rows { assert RowOk(st.db, a, s.rows[a]); }
    }
  }

  lemma CommitOtherRows(db: Db, s: Session, o: Session)
    requires SessionOk(db, s) && SessionOk(db, o) && Apart(s, o)
    ensures forall a :: a in o.rows ==> RowOk(View(db, s), a, o.rows[a])
    ensures forall a :: OwnsOk(View(db, s), o, a)
    ensures forall a, slot :: ClaimOk(View(db, s), o, a, slot)
  {
    var v := View(db, s);
    forall a | a in o.rows ensures RowOk(v, a, o.rows[a]) {
      assert RowOk(db, a, o.rows[a]);
      assert a !in s.rows;
    }
    forall a ensures OwnsOk(v, o, a) { assert OwnsOk(db, o, a); }
    forall a, slot ensures ClaimOk(v, o, a, slot) { assert ClaimOk(db, o, a, slot); }
  }

  lemma CommitOtherAnswers(db: Db, s: Session, o: Session)
    requires SessionOk(db, s) && SessionOk(db, o) && Apart(s, o)
    ensures forall k :: k in o.answers ==> PendingAnswerOk(View(db, s), o, k)
  {
    forall k | k in o.answers ensures PendingAnswerOk(View(db, s), o, k) {
      assert PendingAnswerOk(db, o, k);
      assert Touches(o, k.0);
      assert k.0 !in s.rows;
    }
  }

  lemma CommitOtherViews(db: Db, s: Session, o: Session)
    requires SessionOk(db, s) && SessionOk(db, o) && Apart(s, o)
    ensures forall a :: TriedOk(View(db, s), o, a)
    ensures TakersDiffer(o.rows, View(db, s).attempts)
  {
    forall a ensures TriedOk(View(db, s), o, a) {
      assert TriedOk(db, o, a);
      assert a in s.rows ==> RowOk(db, a, s.rows[a]);
      hide SessionOk, Apart;
      OtherTried(db, s, o, a);
    }
    CommitOtherTakers(db, s, o);
  }

  lemma OtherTried(db: Db, s: Session, o: Session, a: nat)
    requires TriedOk(db, o, a) && (a in s.rows ==> RowOk(db, a, s.rows[a]))
    ensures TriedOk(View(db, s), o, a)
  {
    hide RowEvolves, AttemptSound;
  }

  lemma CommitOtherTakers(db: Db, s: Session, o: Session)
    requires TakersDiffer(o.rows, db.attempts) && TakersDiffer(s.rows, o.rows)
    ensures TakersDiffer(o.rows, View(db, s).attempts)
  {
    var v := View(db, s);
    forall a, b | a in o.rows && b in v.attempts && a != b ensures !SameTaker(o.rows[a], v.attempts[b]) {
      if b in s.rows { assert !SameTaker(s.rows[b], o.rows[a]); }
    }
  }

  /** What another session holds stays possible when a session commits. */
  lemma CommitOther(db: Db, s: Session, o: Session)
    requires SessionOk(db, s) && SessionOk(db, o) && Apart(s, o)
    ensures SessionOk(View(db, s), o)
  {
    CommitOtherRows(db, s, o);
    CommitOtherAnswers(db, s, o);
    CommitOtherViews(db, s, o);
  }

  lemma CommitInv(st: State, sid: nat)
    requires Inv(st) && sid in st.sessions
    ensures Inv(Do(st, Commit(sid))) && Evolves(st.db, Do(st, Commit(sid)).db)
  {
    var s := st.sessions[sid];
    var st' := Do(st, Commit(sid));
    CommitEvolves(st.db, s);
    CommitSound(st.db, s);
    CommitCounts(st, sid);
    forall o | o in st'.sessions ensures SessionOk(st'.db, st'.sessions[o]) {
      CommitOther(st.db, s, st.sessions[o]);
    }
  }

  // ---------- Statements ----------

  lemma ReadOk(db: Db, s: Session, step: Step)
    requires SessionOk(db, s) && step.Read? && Sees(db, s, step)
    ensures SessionOk(db, Exec(db, s, step))
  {
    var s' := Exec(db, s, step);
    assert View(db, s') == View(db, s);
    forall k | k in s'.answers ensures PendingAnswerOk(db, s', k) { assert PendingAnswerOk(db, s, k); }
    SameRowsOk(db, s, s');
  }

  /** A statement that rewrites no attempt row. */
  lemma SameRowsOk(db: Db, s: Session, s': Session)
    requires SessionOk(db, s) && s'.rows == s.rows && s'.owned == s.owned && s'.claims == s.claims
             && s'.tried == s.tried
    requires forall k :: k in s'.answers ==> PendingAnswerOk(db, s', k)
    ensures SessionOk(db, s')
  {
    forall b ensures OwnsOk(db, s', b) { assert OwnsOk(db, s, b); }
    forall b, slot ensures ClaimOk(db, s', b, slot) { assert ClaimOk(db, s, b, slot); }
    forall b ensures TriedOk(db, s', b) { assert TriedOk(db, s, b); }
  }

  lemma SubmitOk(db: Db, s: Session, step: Step)
    requires SessionOk(db, s) && step.Submit? && Sees(db, s, step)
    ensures SessionOk(db, Exec(db, s, step))
  {
    var s', v := Exec(db, s, step), View(db, s);
    assert step.a in s.rows ==> RowOk(db, step.a, s.rows[step.a]);
    forall k | k in s'.answers ensures PendingAnswerOk(db, s', k) {
      assert k in s.answers ==> PendingAnswerOk(db, s, k);
    }
    SameRowsOk(db, s, s');
  }

  /** A row that is replaced by a later version of itself. */
  lemma RewriteOk(db: Db, s: Session, s': Session, a: nat, t: Attempt)
    requires Sound(db) && SessionOk(db, s) && a in View(db, s).attempts
    requires s'.rows == s.rows[a := t] && s'.answers == s.answers
    requires Open(View(db, s), a) && RowEvolves(View(db, s).attempts[a], t) && AttemptSound(t)
    ensures forall b :: b in s'.rows ==> RowOk(db, b, s'.rows[b])
    ensures forall k :: k in s'.answers ==> PendingAnswerOk(db, s', k)
    ensures TakersDiffer(s'.rows, db.attempts) && TakersDiffer(s'.rows, s'.rows)
  {
    assert a in s.rows ==> RowOk(db, a, s.rows[a]);
    RewriteAnswers(db, s, s', a, t);
    RewriteTakers(db, s, a, t);
  }

  lemma RewriteAnswers(db: Db, s: Session, s': Session, a: nat, t: Attempt)
    requires SessionOk(db, s) && a in View(db, s).attempts && SameTaker(t, View(db, s).attempts[a])
    requires s'.rows == s.rows[a := t] && s'.answers == s.answers
    ensures forall k :: k in s'.answers ==> PendingAnswerOk(db, s', k)
  {
    forall k | k in s'.answers ensures PendingAnswerOk(db, s', k) {
      assert PendingAnswerOk(db, s, k);
    }
  }

  lemma RewriteTakers(db: Db, s: Session, a: nat, t: Attempt)
    requires TakersDiffer(db.attempts, db.attempts) && TakersDiffer(s.rows, db.attempts) && TakersDiffer(s.rows, s.rows)
    requires a in View(db, s).attempts && SameTaker(t, View(db, s).attempts[a])
    ensures TakersDiffer(s.rows[a := t], db.attempts) && TakersDiffer(s.rows[a := t], s.rows[a := t])
  {
    var rows := s.rows[a := t];
    forall b, c | b in rows && c in db.attempts && b != c ensures !SameTaker(rows[b], db.attempts[c]) {
      if b == a && a !in s.rows { assert !SameTaker(db.attempts[a], db.attempts[c]); }
    }
    forall b, c | b in rows && c in rows && b != c ensures !SameTaker(rows[b], rows[c]) {
      if b == a && a !in s.rows { assert !SameTaker(s.rows[c], db.attempts[a]); }
      if c == a && a !in s.rows { assert !SameTaker(s.rows[b], db.attempts[a]); }
    }
  }

  /** The attempt that a statement addresses, and what its session already did to it. */
  lemma Addressed(db: Db, s: Session, a: nat)
    requires Sound(db) && SessionOk(db, s) && a in View(db, s).attempts
    ensures AttemptSound(View(db, s).attempts[a])
    ensures Open(View(db, s), a) ==> a !in s.owned && a !in s.tried && (a in db.attempts ==> Open(db, a))
    ensures a !in s.rows ==> forall slot :: (a, slot) !in s.claims
  {
    assert a in s.rows ==> RowOk(db, a, s.rows[a]);
    assert OwnsOk(db, s, a) && TriedOk(db, s, a);
    forall slot | a !in s.rows ensures (a, slot) !in s.claims { assert ClaimOk(db, s, a, slot); }
  }

  lemma FinishOk(db: Db, s: Session, step: Step)
    requires Sound(db) && SessionOk(db, s) && step.Finish? && Sees(db, s, step)
    ensures SessionOk(db, Exec(db, s, step))
  {
    var s', v, a := Exec(db, s, step), View(db, s), step.a;
    Addressed(db, s, a);
    if Open(v, a) {
      var t := s'.rows[a];
      RewriteOk(db, s, s', a, t);
      FinishedOwned(db, s, step);
      MovedClaims(db, s, WithRow(s, a, t), a, t);
      forall b, slot ensures ClaimOk(db, s', b, slot) { assert ClaimOk(db, WithRow(s, a, t), b, slot); }
    } else {
      AlreadyFinal(db, s, a);
    }
  }

  lemma FinishedOwned(db: Db, s: Session, step: Step)
    requires SessionOk(db, s) && step.Finish? && Sees(db, s, step) && Open(View(db, s), step.a)
    ensures forall b :: OwnsOk(db, Exec(db, s, step), b)
    ensures forall b :: TriedOk(db, Exec(db, s, step), b)
  {
    var s' := Exec(db, s, step);
    forall b ensures OwnsOk(db, s', b) { assert OwnsOk(db, s, b); }
    forall b ensures TriedOk(db, s', b) { assert TriedOk(db, s, b); }
  }

  lemma AlreadyFinal(db: Db, s: Session, a: nat)
    requires SessionOk(db, s) && a in View(db, s).attempts && !Open(View(db, s), a)
    ensures SessionOk(db, s.(tried := s.tried + {a}))
  {
    var s' := s.(tried := s.tried + {a});
    forall b ensures OwnsOk(db, s', b) { assert OwnsOk(db, s, b); }
    forall b ensures TriedOk(db, s', b) { assert TriedOk(db, s, b); }
    forall b, slot ensures ClaimOk(db, s', b, slot) { assert ClaimOk(db, s, b, slot); }
    forall k | k in s'.answers ensures PendingAnswerOk(db, s', k) { assert PendingAnswerOk(db, s, k); }
  }

  lemma MoveOk(db: Db, s: Session, step: Step)
    requires Sound(db) && SessionOk(db, s) && step.Move? && Sees(db, s, step)
    ensures SessionOk(db, Exec(db, s, step))
  {
    var s', v, a := Exec(db, s, step), View(db, s), step.a;
    Addressed(db, s, a);
    if Open(v, a) {
      var t := s'.rows[a];
      assert RowEvolves(v.attempts[a], t) && AttemptSound(t);
      RewriteOk(db, s, s', a, t);
      MovedOwned(db, s, s', a, t);
      MovedClaims(db, s, s', a, t);
    }
  }

  /** Moving the cursor of an open row finalizes nothing and claims nothing. */
  lemma MovedOwned(db: Db, s: Session, s': Session, a: nat, t: Attempt)
    requires SessionOk(db, s) && Open(View(db, s), a) && s' == WithRow(s, a, t)
    requires t.status == InProgress
    ensures forall b :: OwnsOk(db, s', b)
    ensures forall b :: TriedOk(db, s', b)
  {
    forall b ensures OwnsOk(db, s', b) { assert OwnsOk(db, s, b); assert OwnsOk(db, s, a); }
    forall b ensures TriedOk(db, s', b) { assert TriedOk(db, s, b); }
  }

  lemma MovedClaims(db: Db, s: Session, s': Session, a: nat, t: Attempt)
    requires SessionOk(db, s) && Open(View(db, s), a) && s' == WithRow(s, a, t)
    requires t.warnedAt == View(db, s).attempts[a].warnedAt
    ensures forall b, slot :: ClaimOk(db, s', b, slot)
  {
    forall b, slot ensures ClaimOk(db, s', b, slot) { assert ClaimOk(db, s, b, slot); }
  }

  lemma WarnOk(db: Db, s: Session, step: Step)
    requires Sound(db) && SessionOk(db, s) && step.Warn? && Sees(db, s, step)
    ensures SessionOk(db, Exec(db, s, step))
  {
    var s', v, a := Exec(db, s, step), View(db, s), step.a;
    Addressed(db, s, a);
    if CanWarn(v, a, step.slot) {
      var t := s'.rows[a];
      RewriteOk(db, s, s', a, t);
      MovedOwned(db, s, WithRow(s, a, t), a, t);
      forall b ensures OwnsOk(db, s', b) && TriedOk(db, s', b) {
        assert OwnsOk(db, WithRow(s, a, t), b) && TriedOk(db, WithRow(s, a, t), b);
      }
      WarnedClaims(db, s, step);
    }
  }

  lemma WarnedClaims(db: Db, s: Session, step: Step)
    requires SessionOk(db, s) && step.Warn? && Sees(db, s, step) && CanWarn(View(db, s), step.a, step.slot)
    ensures forall b, slot :: ClaimOk(db, Exec(db, s, step), b, slot)
  {
    var s' := Exec(db, s, step);
    forall b, slot ensures ClaimOk(db, s', b, slot) { assert ClaimOk(db, s, b, slot); }
  }

  lemma StartOk(db: Db, s: Session, step: Step)
    requires SessionOk(db, s) && step.Start? && Sees(db, s, step)
    requires var t := NewAttempt(step.user, step.test, step.startedAt, step.expiresAt);
             && (forall b :: b in db.attempts ==> !SameTaker(db.attempts[b], t))
             && (forall b :: b in s.rows ==> !SameTaker(s.rows[b], t))
    ensures SessionOk(db, Exec(db, s, step))
  {
    var s', a := Exec(db, s, step), step.a;
    StartTakers(db, s, a, s'.rows[a]);
    StartRows(db, s, a, s'.rows[a]);
    StartMarks(db, s, a, s'.rows[a]);
  }

  lemma StartTakers(db: Db, s: Session, a: nat, t: Attempt)
    requires TakersDiffer(s.rows, db.attempts) && TakersDiffer(s.rows, s.rows)
    requires forall b :: b in db.attempts ==> !SameTaker(db.attempts[b], t)
    requires forall b :: b in s.rows ==> !SameTaker(s.rows[b], t)
    ensures var rows := s.rows[a := t]; TakersDiffer(rows, db.attempts) && TakersDiffer(rows, rows)
  {
    var rows := s.rows[a := t];
    forall b, c | b in rows && c in db.attempts && b != c ensures !SameTaker(rows[b], db.attempts[c]) {
      if b == a { assert !SameTaker(db.attempts[c], t); }
    }
    forall b, c | b in rows && c in rows && b != c ensures !SameTaker(rows[b], rows[c]) {
      if b == a { assert !SameTaker(s.rows[c], t); } else if c == a { assert !SameTaker(s.rows[b], t); }
    }
  }

  lemma StartRows(db: Db, s: Session, a: nat, t: Attempt)
    requires SessionOk(db, s) && a !in View(db, s).attempts
    requires AttemptSound(t) && t.status == InProgress && t.warnedAt == map[]
    ensures var s' := WithRow(s, a, t);
            && (forall b :: b in s'.rows ==> RowOk(db, b, s'.rows[b]))
            && (forall k :: k in s'.answers ==> PendingAnswerOk(db, s', k))
  {
    var s' := WithRow(s, a, t);
    forall b | b in s'.rows ensures RowOk(db, b, s'.rows[b]) { assert b == a || RowOk(db, b, s.rows[b]); }
    forall k | k in s'.answers ensures PendingAnswerOk(db, s', k) { assert PendingAnswerOk(db, s, k); }
  }

  lemma StartMarks(db: Db, s: Session, a: nat, t: Attempt)
    requires SessionOk(db, s) && a !in View(db, s).attempts
    requires t.status == InProgress && t.warnedAt == map[]
    ensures var s' := WithRow(s, a, t);
            && (forall b :: OwnsOk(db, s', b))
            && (forall b :: TriedOk(db, s', b))
            && (forall b, slot :: ClaimOk(db, s', b, slot))
  {
    var s' := WithRow(s, a, t);
    forall b ensures OwnsOk(db, s', b) { assert OwnsOk(db, s, b); }
    forall b ensures TriedOk(db, s', b) { assert TriedOk(db, s, b); }
    forall b, slot ensures ClaimOk(db, s', b, slot) { assert ClaimOk(db, s, b, slot); }
  }

  lemma ExecOk(st: State, step: Step)
    requires Inv(st) && IsStatement(step) && Enabled(st, step)
    ensures SessionOk(st.db, Exec(st.db, st.sessions[step.sid], step))
  {
    var s := st.sessions[step.sid];
    match step
    case Read(_, _) => ReadOk(st.db, s, step);
    case Submit(_, _, _, _) => SubmitOk(st.db, s, step);
    case Finish(_, _, _, _) => FinishOk(st.db, s, step);
    case Move(_, _, _) => MoveOk(st.db, s, step);
    case Warn(_, _, _, _) => WarnOk(st.db, s, step);
    case Start(_, _, _, _, _, _) => StartOk(st.db, s, step);
  }

  /** What a statement can change in its session. */
  lemma ExecFrame(db: Db, s: Session, step: Step)
    requires IsStatement(step) && Sees(db, s, step)
    ensures var s' := Exec(db, s, step);
            && (forall b :: b in s'.rows ==> b in s.rows || (WritesRow(step) && b == step.a))
            && (forall k :: k in s'.answers ==> k in s.answers || (step.Submit? && k == (step.a, step.q)))
            && (forall b :: b in s'.rows ==>
                  if b in View(db, s).attempts then SameTaker(s'.rows[b], View(db, s).attempts[b])
                  else step.Start? && s'.rows[b] == NewAttempt(step.user, step.test, step.startedAt, step.expiresAt))
  {
  }

  /** Locks and unique keys keep two sessions apart. */
  lemma ExecApart(db: Db, s: Session, o: Session, step: Step)
    requires IsStatement(step) && Sees(db, s, step) && SessionOk(db, o) && Apart(s, o)
    requires WritesRow(step) ==> !Touches(o, step.a)
    requires step.Submit? ==> step.a !in o.rows && (step.a, step.q) !in o.answers
    requires step.Start? ==>
               forall b :: b in o.rows ==>
                   !SameTaker(o.rows[b], NewAttempt(step.user, step.test, step.startedAt, step.expiresAt))
    ensures Apart(Exec(db, s, step), o)
  {
    var s' := Exec(db, s, step);
    ExecFrame(db, s, step);
    forall a | a in o.rows ensures !Touches(s', a) {
      assert !Touches(s, a);
      forall k | k in s'.answers ensures k.0 != a { assert k in s.answers ==> k.0 != a; }
    }
    forall b, c | b in s'.rows && c in o.rows && b != c ensures !SameTaker(s'.rows[b], o.rows[c]) {
      if b in s.rows {
        assert !SameTaker(s.rows[b], o.rows[c]);
      } else if b in db.attempts {
        assert !SameTaker(o.rows[c], db.attempts[b]);
      }
    }
  }

  lemma ApartSymmetric(s: Session, o: Session)
    requires Apart(s, o)
    ensures Apart(o, s)
  {
    forall b, c | b in o.rows && c in s.rows && b != c ensures !SameTaker(o.rows[b], s.rows[c]) {
      assert !SameTaker(s.rows[c], o.rows[b]);
    }
  }

  lemma StatementApart(st: State, step: Step, o: nat)
    requires Inv(st) && IsStatement(step) && Enabled(st, step) && o in st.sessions && o != step.sid
    ensures Apart(Exec(st.db, st.sessions[step.sid], step), st.sessions[o])
    ensures Apart(st.sessions[o], Exec(st.db, st.sessions[step.sid], step))
  {
    var s, other := st.sessions[step.sid], st.sessions[o];
    LocksHold(st, step, o);
    ExecApart(st.db, s, other, step);
    ApartSymmetric(Exec(st.db, s, step), other);
  }

  lemma LocksHold(st: State, step: Step, o: nat)
    requires IsStatement(step) && Unlocked(st, step) && o in st.sessions && o != step.sid
             && SessionOk(st.db, st.sessions[o])
    ensures var other := st.sessions[o];
            && (WritesRow(step) ==> !Touches(other, step.a))
            && (step.Submit? ==> step.a !in other.rows && (step.a, step.q) !in other.answers)
            && (step.Start? ==> forall b :: b in other.rows ==>
                                  !SameTaker(other.rows[b],
                                      NewAttempt(step.user, step.test, step.startedAt, step.expiresAt)))
  {
    if step.Start? { FreshUntouched(st, step.a, o); }
  }

  lemma FreshUntouched(st: State, a: nat, o: nat)
    requires FreshId(st, a) && o in st.sessions && SessionOk(st.db, st.sessions[o])
    ensures !Touches(st.sessions[o], a)
  {
    var other := st.sessions[o];
    forall k | k in other.answers ensures k.0 != a { assert PendingAnswerOk(st.db, other, k); }
  }

  lemma StatementInv(st: State, step: Step)
    requires Inv(st) && IsStatement(step) && Enabled(st, step)
    ensures Inv(Do(st, step)) && Do(st, step).db == st.db
  {
    var s' := Exec(st.db, st.sessions[step.sid], step);
    ExecOk(st, step);
    forall o | o in st.sessions && o != step.sid
      ensures Apart(s', st.sessions[o]) && Apart(st.sessions[o], s')
    {
      StatementApart(st, step, o);
    }
    ReplacedInv(st, step.sid, s');
  }

  lemma ReplacedInv(st: State, sid: nat, s': Session)
    requires Inv(st) && SessionOk(st.db, s')
    requires forall o :: o in st.sessions && o != sid ==> Apart(s', st.sessions[o]) && Apart(st.sessions[o], s')
    ensures Inv(st.(sessions := st.sessions[sid := s']))
  {
    var st' := st.(sessions := st.sessions[sid := s']);
    forall a ensures FinalOk(st', a) { assert FinalOk(st, a); }
    forall a, slot ensures WarningOk(st', a, slot) { assert WarningOk(st, a, slot); }
  }
}
