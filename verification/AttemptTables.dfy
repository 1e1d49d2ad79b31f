/** The `attempts` and `answers` tables and the guarded statements that write them
    (`app/repositories/attempt_repository.py`, `app/repositories/answer_repository.py`). */
module AttemptTables {
  import opened Common
  import opened Sections
  import opened Scoring

  datatype Status = InProgress | Submitted | Expired

  datatype FinishReason = ByUser | ByTimer

  function TargetStatus(reason: FinishReason): Status {
    if reason == ByUser then Submitted else Expired
  }

  /** The three warnings; each has its own `warning_<slot>_sent_at` column. */
  datatype Slot = Min10 | Min5 | Min1

  datatype Attempt = Attempt(
    userId: nat,
    testId: nat,
    status: Status,
    position: int,
    startedAt: int,
    expiresAt: int,
    finishedAt: Option<int>,
    scores: Option<Scores>,
    warnedAt: map<Slot, int>)

  /** The rows of `attempts` and `answers` by primary and unique key, and the questions of the
      published tests, which these statements only read. */
  datatype Db = Db(attempts: map<nat, Attempt>, answers: map<(nat, nat), Answer>, questions: map<nat, Question>)

  predicate Open(db: Db, a: nat) {
    a in db.attempts && db.attempts[a].status == InProgress
  }

  // ---------- Statements ----------

  function NewAttempt(user: nat, test: nat, startedAt: int, expiresAt: int): Attempt {
    Attempt(user, test, InProgress, 1, startedAt, expiresAt, None, None, map[])
  }

  function FinishedRow(t: Attempt, status: Status, scores: Scores, now: int): Attempt {
    t.(status := status, finishedAt := Some(now), scores := Some(scores))
  }

  function WarnedRow(t: Attempt, slot: Slot, now: int): Attempt {
    t.(warnedAt := t.warnedAt[slot := now])
  }

  function Put(db: Db, a: nat, t: Attempt): Db {
    db.(attempts := db.attempts[a := t])
  }

  function Create(db: Db, a: nat, user: nat, test: nat, startedAt: int, expiresAt: int): Db {
    Put(db, a, NewAttempt(user, test, startedAt, expiresAt))
  }

  function SetPosition(db: Db, a: nat, position: int): Db {
    if Open(db, a) then Put(db, a, db.attempts[a].(position := position)) else db
  }

  function MarkFinished(db: Db, a: nat, status: Status, scores: Scores, now: int): Db {
    if Open(db, a) then Put(db, a, FinishedRow(db.attempts[a], status, scores, now)) else db
  }

  predicate CanWarn(db: Db, a: nat, slot: Slot) {
    Open(db, a) && slot !in db.attempts[a].warnedAt
  }

  function MarkWarning(db: Db, a: nat, slot: Slot, now: int): Db {
    if CanWarn(db, a, slot) then Put(db, a, WarnedRow(db.attempts[a], slot, now)) else db
  }

  function Upsert(db: Db, a: nat, q: nat, answer: Answer): Db {
    if Open(db, a) then db.(answers := db.answers[(a, q) := answer]) else db
  }

  // ---------- Queries ----------

  /** The answers of one attempt, by question. */
  function Chosen(db: Db, a: nat): (c: map<nat, Answer>)
    ensures forall q :: q in c <==> (a, q) in db.answers
    ensures forall q :: q in c ==> c[q] == db.answers[(a, q)]
  {
    map k | k in db.answers && k.0 == a :: k.1 := db.answers[k]
  }

  function QuestionsOf(db: Db, test: nat): map<nat, Question> {
    map q | q in db.questions && db.questions[q].testId == test :: db.questions[q]
  }

  /** The score of the answers that are stored now. */
  function CurrentScore(db: Db, a: nat): Scores
    requires a in db.attempts
  {
    ScoreOf(Chosen(db, a), QuestionsOf(db, db.attempts[a].testId))
  }

  // ---------- Integrity ----------

  predicate SamePlace(p: Question, q: Question) {
    p.testId == q.testId && p.position == q.position
  }

  predicate SameTaker(t: Attempt, u: Attempt) {
    t.userId == u.userId && t.testId == u.testId
  }

  /** What the CHECK constraints and unique indexes of the questions table give. */
  ghost predicate QuestionsSound(questions: map<nat, Question>) {
    && (forall p, q :: p in questions && q in questions && SamePlace(questions[p], questions[q]) ==> p == q)
    && (forall q :: q in questions ==> SectionForPosition(questions[q].position) == Some(questions[q].section))
  }

  predicate AttemptSound(t: Attempt) {
    && 1 <= t.position <= 50
    && (t.status == InProgress <==> t.finishedAt == None)
    && (t.status != InProgress ==> t.scores.Some?)
  }

  predicate AnswerSound(db: Db, a: nat, q: nat, answer: Answer) {
    && a in db.attempts && q in db.questions
    && db.questions[q].testId == db.attempts[a].testId
    && (answer.isCorrect <==> answer.selected == db.questions[q].correct)
  }

  ghost predicate Sound(db: Db) {
    && QuestionsSound(db.questions)
    && (forall a :: a in db.attempts ==> AttemptSound(db.attempts[a]))
    && (forall a, q :: (a, q) in db.answers ==> AnswerSound(db, a, q, db.answers[(a, q)]))
    && (forall a, b :: a in db.attempts && b in db.attempts && SameTaker(db.attempts[a], db.attempts[b]) ==> a == b)
  }

  // ---------- How the tables may change ----------

  /** One attempt row later on: its identity and its stamps stay, and nothing at all changes once
      it has left `in_progress`. */
  predicate RowEvolves(t: Attempt, t': Attempt) {
    && t'.userId == t.userId && t'.testId == t.testId
    && t'.startedAt == t.startedAt && t'.expiresAt == t.expiresAt
    && (forall s :: s in t.warnedAt ==> s in t'.warnedAt && t'.warnedAt[s] == t.warnedAt[s])
    && (t.status != InProgress ==> t' == t)
  }

  ghost predicate Evolves(db: Db, db': Db) {
    && db'.questions == db.questions
    && (forall a :: a in db.attempts ==> a in db'.attempts && RowEvolves(db.attempts[a], db'.attempts[a]))
    && (forall k :: k in db.answers ==> k in db'.answers)
    && (forall a, q :: a in db.attempts && !Open(db, a) && (a, q) in db'.answers ==>
                       (a, q) in db.answers && db'.answers[(a, q)] == db.answers[(a, q)])
  }

  /** Attempts that are in the later tables only expire no earlier than `now`. */
  ghost predicate NewEndLater(db: Db, db': Db, now: int) {
    forall a :: a in db'.attempts && a !in db.attempts ==> db'.attempts[a].expiresAt >= now
  }

  lemma NewEndLaterTransitive(a: Db, b: Db, c: Db, now: int)
    requires Evolves(a, b) && Evolves(b, c) && NewEndLater(a, b, now) && NewEndLater(b, c, now)
    ensures NewEndLater(a, c, now)
  {
  }

  lemma EvolvesSelf(db: Db)
    ensures Evolves(db, db)
  {
  }

  lemma EvolvesTransitive(a: Db, b: Db, c: Db)
    requires Evolves(a, b) && Evolves(b, c)
    ensures Evolves(a, c)
  {
    forall i, q | i in a.attempts && !Open(a, i) && (i, q) in c.answers
      ensures (i, q) in a.answers && c.answers[(i, q)] == a.answers[(i, q)]
    {
      assert b.attempts[i] == a.attempts[i];
    }
  }

  /** The answers of the attempt, and the test it is for, are the same. */
  ghost predicate SameAnswers(db: Db, db': Db, a: nat) {
    && (a in db.attempts ==> a in db'.attempts && db'.attempts[a].testId == db.attempts[a].testId)
    && (forall q :: (a, q) in db.answers <==> (a, q) in db'.answers)
    && (forall q :: (a, q) in db.answers ==> db'.answers[(a, q)] == db.answers[(a, q)])
  }

  lemma SameScore(db: Db, db': Db, a: nat)
    requires a in db.attempts && db'.questions == db.questions && SameAnswers(db, db', a)
    ensures CurrentScore(db', a) == CurrentScore(db, a)
  {
    assert Chosen(db', a) == Chosen(db, a);
    assert QuestionsOf(db', db'.attempts[a].testId) == QuestionsOf(db, db.attempts[a].testId);
  }

  /** A finalized attempt keeps its answers, so it keeps what they score. */
  lemma FrozenScore(db: Db, db': Db, a: nat)
    requires Evolves(db, db') && a in db.attempts && !Open(db, a)
    ensures db'.attempts[a] == db.attempts[a]
    ensures Chosen(db', a) == Chosen(db, a)
    ensures CurrentScore(db', a) == CurrentScore(db, a)
  {
    assert QuestionsOf(db', db.attempts[a].testId) == QuestionsOf(db, db.attempts[a].testId);
    assert Chosen(db', a) == Chosen(db, a) by {
      forall q | q in Chosen(db, a) ensures q in Chosen(db', a) { assert (a, q) in db.answers; }
    }
  }

  /** Everything that holds of a finalized score: the bounds, the sum, and agreement with the marks. */
  lemma CurrentScoreFacts(db: Db, a: nat)
    requires Sound(db) && a in db.attempts
    ensures var s, byId := CurrentScore(db, a), QuestionsOf(db, db.attempts[a].testId);
            && s.rus <= 35 && s.ped <= 10 && s.kas <= 5 && s.total <= 50
            && s.total == s.rus + s.ped + s.kas
            && UniquePositions(byId)
            && s.total == |TrueMarks(QuestionMarks(Chosen(db, a), byId))|
  {
    var byId := QuestionsOf(db, db.attempts[a].testId);
    var chosen := Chosen(db, a);
    assert AnswersFit(chosen, byId) by {
      forall q | q in chosen ensures q in byId && (chosen[q].isCorrect <==> chosen[q].selected == byId[q].correct) {
        assert AnswerSound(db, a, q, db.answers[(a, q)]);
      }
    }
    ScoreBounds(chosen, byId);
    TotalIsTrueMarks(chosen, byId);
  }
}
