/**
 The attempt protocol under concurrency: taps, timer jobs, the sweep, reconciliation and the ban
 cleanup run as database sessions whose statements interleave in any order.

 A session sees the committed tables with its own uncommitted writes on top. A statement that
 writes a row waits while another session holds an uncommitted write to it; the guarded answer
 insert reads the attempt row, so it waits for that row as well and holds it. Sessions may issue
 any statements in any order, which covers every handler and job. The scheduler's job store is
 not part of the state, because no statement reads it.

 `Read` stands for the moment that fixes what the transaction's plain SELECTs see: its first one,
 under the default isolation of the database (repeatable read). Guarded updates and the guarded insert
 always see the latest committed rows.
 */
module AttemptProtocol {
  import opened Scoring
  import opened AttemptTables
  import opened Sections

  /** `seen` is what `finish` computed from the rows it read; `tried` and `owned` are the attempts
      whose finalizing update ran, and flipped the row; `claims` the warning slots it stamped. */
  datatype Session = Session(
    rows: map<nat, Attempt>,
    answers: map<(nat, nat), Answer>,
    seen: map<nat, Scores>,
    tried: set<nat>,
    owned: set<nat>,
    claims: set<(nat, Slot)>)

  /** `finals` counts, for each attempt, the committed calls that returned `owned_finalization`;
      `warnings` the committed claims of each slot. Messages are sent only after such a commit. */
  datatype State = State(
    db: Db,
    sessions: map<nat, Session>,
    finals: multiset<nat>,
    warnings: multiset<(nat, Slot)>)

  datatype Step =
    | Begin(sid: nat)
    | Read(sid: nat, a: nat)
    | Finish(sid: nat, a: nat, reason: FinishReason, now: int)
    | Submit(sid: nat, a: nat, q: nat, selected: string)
    | Move(sid: nat, a: nat, position: int)
    | Warn(sid: nat, a: nat, slot: Slot, now: int)
    | Start(sid: nat, a: nat, user: nat, test: nat, startedAt: int, expiresAt: int)
    | Commit(sid: nat)
    | Abort(sid: nat)
    | Crash

  const NEW_SESSION := Session(map[], map[], map[], {}, {}, {})

  function View(db: Db, s: Session): Db {
    Db(db.attempts + s.rows, db.answers + s.answers, db.questions)
  }

  // ---------- Locks ----------

  predicate Touches(s: Session, a: nat) {
    a in s.rows || exists k :: k in s.answers && k.0 == a
  }

  predicate RowFree(st: State, sid: nat, a: nat) {
    forall o :: o in st.sessions && o != sid ==> !Touches(st.sessions[o], a)
  }

  predicate AnswerFree(st: State, sid: nat, a: nat, q: nat) {
    forall o :: o in st.sessions && o != sid ==> a !in st.sessions[o].rows && (a, q) !in st.sessions[o].answers
  }

  /** The unique index on (user, test), with the uncommitted rows of other sessions. */
  predicate TakerFree(st: State, t: Attempt) {
    && (forall b :: b in st.db.attempts ==> !SameTaker(st.db.attempts[b], t))
    && (forall o :: o in st.sessions ==> forall b :: b in st.sessions[o].rows ==> !SameTaker(st.sessions[o].rows[b], t))
  }

  predicate FreshId(st: State, a: nat) {
    a !in st.db.attempts && forall o :: o in st.sessions ==> a !in st.sessions[o].rows
  }

  // ---------- Steps ----------

  predicate WritesRow(step: Step) {
    step.Finish? || step.Move? || step.Warn? || step.Start?
  }

  predicate IsStatement(step: Step) {
    WritesRow(step) || step.Read? || step.Submit?
  }

  /** What the session itself must see for the statement to make sense. */
  predicate Sees(db: Db, s: Session, step: Step)
    requires IsStatement(step)
  {
    var v := View(db, s);
    match step
    case Read(_, a) => Open(v, a)
    case Finish(_, a, _, _) => a in v.attempts && a in s.seen
    case Submit(_, a, q, selected) =>
      a in v.attempts && q in db.questions && db.questions[q].testId == v.attempts[a].testId && selected in OPTIONS
    case Move(_, a, position) => a in v.attempts && 1 <= position <= 50
    case Warn(_, a, _, _) => a in v.attempts
    case Start(_, a, user, test, s, e) => a !in v.attempts
  }

  /** No other session holds what the statement writes. */
  predicate Unlocked(st: State, step: Step)
    requires IsStatement(step)
  {
    match step
    case Read(_, _) => true
    case Submit(sid, a, q, _) => AnswerFree(st, sid, a, q)
    case Start(sid, a, user, test, s, e) => FreshId(st, a) && TakerFree(st, NewAttempt(user, test, s, e))
    case _ => RowFree(st, step.sid, step.a)
  }

  function WithRow(s: Session, a: nat, t: Attempt): Session {
    s.(rows := s.rows[a := t])
  }

  /** What a statement does to its own session. */
  function Exec(db: Db, s: Session, step: Step): Session
    requires IsStatement(step) && Sees(db, s, step)
  {
    var v := View(db, s);
    match step
    case Read(_, a) => s.(seen := s.seen[a := CurrentScore(v, a)])
    case Finish(_, a, reason, now) =>
      if Open(v, a) then
        WithRow(s, a, FinishedRow(v.attempts[a], TargetStatus(reason), s.seen[a], now))
          .(tried := s.tried + {a}, owned := s.owned + {a})
      else s.(tried := s.tried + {a})
    case Submit(_, a, q, selected) =>
      if Open(v, a) then
        s.(answers := s.answers[(a, q) := Answer(selected, selected == db.questions[q].correct)])
      else s
    case Move(_, a, position) =>
      if Open(v, a) then WithRow(s, a, v.attempts[a].(position := position)) else s
    case Warn(_, a, slot, now) =>
      if CanWarn(v, a, slot) then
        WithRow(s, a, WarnedRow(v.attempts[a], slot, now)).(claims := s.claims + {(a, slot)})
      else s
    case Start(_, a, user, test, startedAt, expiresAt) =>
      WithRow(s, a, NewAttempt(user, test, startedAt, expiresAt))
  }

  predicate Enabled(st: State, step: Step) {
    match step
    case Begin(sid) => sid !in st.sessions
    case Crash => true
    case Commit(sid) => sid in st.sessions
    case Abort(sid) => sid in st.sessions
    case _ => step.sid in st.sessions && Sees(st.db, st.sessions[step.sid], step) && Unlocked(st, step)
  }

  /** A step that is not enabled waits: nothing happens. */
  function Do(st: State, step: Step): State {
    if !Enabled(st, step) then st
    else if IsStatement(step) then
      st.(sessions := st.sessions[step.sid := Exec(st.db, st.sessions[step.sid], step)])
    else
      match step
      case Begin(sid) => st.(sessions := st.sessions[sid := NEW_SESSION])
      case Commit(sid) =>
        var s := st.sessions[sid];
        State(View(st.db, s), st.sessions - {sid}, st.finals + multiset(s.owned), st.warnings + multiset(s.claims))
      case Abort(sid) => st.(sessions := st.sessions - {sid})
      case _ => st.(sessions := map[])
  }

  function Run(st: State, steps: seq<Step>): State
    decreases |steps|
  {
    if steps == [] then st else Run(Do(st, steps[0]), steps[1..])
  }

  // ---------- The invariant ----------

  predicate RowOk(db: Db, a: nat, t: Attempt) {
    && AttemptSound(t)
    && (a in db.attempts ==> Open(db, a) && RowEvolves(db.attempts[a], t))
  }

  ghost predicate TakersDiffer(rows: map<nat, Attempt>, others: map<nat, Attempt>) {
    forall a, b :: a in rows && b in others && a != b ==> !SameTaker(rows[a], others[b])
  }

  predicate PendingAnswerOk(db: Db, s: Session, k: (nat, nat)) {
    k in s.answers && AnswerSound(View(db, s), k.0, k.1, s.answers[k]) && (k.0 in db.attempts ==> Open(db, k.0))
  }

  predicate OwnsOk(db: Db, s: Session, a: nat) {
    a in s.owned <==> a in s.rows && s.rows[a].status != InProgress
  }

  predicate ClaimOk(db: Db, s: Session, a: nat, slot: Slot) {
    (a, slot) in s.claims
    <==> a in s.rows && slot in s.rows[a].warnedAt && !(a in db.attempts && slot in db.attempts[a].warnedAt)
  }

  /** After the finalizing update ran, the attempt is final in the session's view. */
  predicate TriedOk(db: Db, s: Session, a: nat) {
    a in s.tried ==> a in View(db, s).attempts && !Open(View(db, s), a)
  }

  ghost predicate SessionOk(db: Db, s: Session) {
    && (forall a :: a in s.rows ==> RowOk(db, a, s.rows[a]))
    && (forall k :: k in s.answers ==> PendingAnswerOk(db, s, k))
    && (forall a :: OwnsOk(db, s, a))
    && (forall a, slot :: ClaimOk(db, s, a, slot))
    && (forall a :: TriedOk(db, s, a))
    && TakersDiffer(s.rows, db.attempts)
    && TakersDiffer(s.rows, s.rows)
  }

  ghost predicate Apart(s: Session, o: Session) {
    && (forall a :: a in s.rows ==> !Touches(o, a))
    && (forall a :: a in o.rows ==> !Touches(s, a))
    && (forall k :: k in s.answers ==> k !in o.answers)
    && TakersDiffer(s.rows, o.rows)
  }

  predicate FinalOk(st: State, a: nat) {
    st.finals[a] == if a in st.db.attempts && !Open(st.db, a) then 1 else 0
  }

  predicate WarningOk(st: State, a: nat, slot: Slot) {
    st.warnings[(a, slot)] == if a in st.db.attempts && slot in st.db.attempts[a].warnedAt then 1 else 0
  }

  /** Each finalized attempt was finalized by exactly one committed call, each stamped slot claimed
      by exactly one, and every open session only holds changes that are still possible. */
  ghost predicate Inv(st: State) {
    && Sound(st.db)
    && (forall a :: FinalOk(st, a))
    && (forall a, slot :: WarningOk(st, a, slot))
    && (forall o :: o in st.sessions ==> SessionOk(st.db, st.sessions[o]))
    && (forall o, p :: o in st.sessions && p in st.sessions && o != p ==> Apart(st.sessions[o], st.sessions[p]))
  }
}
