/**
 The announcement delivery loop (`app/jobs/broadcast_runner.py`, `app/services/notification_service.py`,
 `app/repositories/broadcast_repository.py`, `list_approved_after` of `app/repositories/user_repository.py`).
 */
module Broadcast {
  import opened Common
  import opened Sections

  const BATCH_SIZE: nat := 25
  const MAX_SEND_ATTEMPTS: nat := 3

  datatype User = User(approved: bool, botBlocked: bool)

  datatype BroadcastStatus = Running | Completed

  /** One row of `broadcasts`; `cursor` is `last_user_id`. */
  datatype Row = Row(status: BroadcastStatus, sent: nat, blocked: nat, errors: nat, cursor: nat)

  /** What Telegram says to one copy request. */
  datatype Reply = Delivered | Forbidden | RetryAfter | ApiError

  datatype Outcome = Sent | Blocked | Error

  /** The answer to a user's request number k; requests are numbered from 1. */
  type Replies = nat -> Reply

  // ---------- One user ----------

  /** The request that settles a send: the first that Telegram does not defer. */
  predicate Decisive(replies: Replies, k: nat) {
    1 <= k <= MAX_SEND_ATTEMPTS && replies(k) != RetryAfter && forall j :: 1 <= j < k ==> replies(j) == RetryAfter
  }

  function Settled(reply: Reply): Outcome {
    match reply
    case Delivered => Sent
    case Forbidden => Blocked
    case _ => Error
  }

  function OutcomeFrom(replies: Replies, attempt: nat): Outcome
    decreases MAX_SEND_ATTEMPTS - attempt
  {
    if attempt > MAX_SEND_ATTEMPTS then Error
    else if replies(attempt) == RetryAfter then OutcomeFrom(replies, attempt + 1)
    else Settled(replies(attempt))
  }

  function OutcomeOf(replies: Replies): Outcome {
    OutcomeFrom(replies, 1)
  }

  /** The first reply that is not a deferral is this one. */
  ghost predicate SettledBy(replies: Replies, reply: Reply) {
    exists k :: Decisive(replies, k) && replies(k) == reply
  }

  /** Telegram defers every request. */
  predicate Deferred(replies: Replies) {
    forall k :: 1 <= k <= MAX_SEND_ATTEMPTS ==> replies(k) == RetryAfter
  }

  /** The first reply that is not a deferral decides; three deferrals are an error. */
  lemma OutcomeMeans(replies: Replies)
    ensures OutcomeOf(replies) == Sent <==> SettledBy(replies, Delivered)
    ensures OutcomeOf(replies) == Blocked <==> SettledBy(replies, Forbidden)
    ensures OutcomeOf(replies) == Error <==> SettledBy(replies, ApiError) || Deferred(replies)
  {
    assert replies(1) != RetryAfter ==> Decisive(replies, 1);
    assert replies(1) == RetryAfter && replies(2) != RetryAfter ==> Decisive(replies, 2);
    assert replies(1) == RetryAfter && replies(2) == RetryAfter && replies(3) != RetryAfter ==> Decisive(replies, 3);
  }

  // ---------- The users table ----------

  predicate Eligible(users: map<nat, User>, u: nat) {
    u in users && users[u].approved && !users[u].botBlocked
  }

  function MarkBlocked(users: map<nat, User>, u: nat): map<nat, User> {
    if u in users then users[u := users[u].(botBlocked := true)] else users
  }

  /** The eligible users beyond the cursor. */
  function Ahead(users: map<nat, User>, cursor: nat): set<nat> {
    set u | u in users && Eligible(users, u) && u > cursor
  }

  predicate Ascending(ids: seq<nat>) {
    forall i, j :: 0 <= i < j < |ids| ==> ids[i] < ids[j]
  }

  function Last(ids: seq<nat>, cursor: nat): nat {
    if ids == [] then cursor else ids[|ids| - 1]
  }

  /** `list_approved_after`: the lowest eligible ids beyond the cursor, in order, up to the limit. */
  ghost predicate IsBatch(users: map<nat, User>, cursor: nat, limit: nat, ids: seq<nat>) {
    && Ascending(ids) && |ids| <= limit
    && (forall u :: u in ids ==> u in Ahead(users, cursor))
    && (forall u :: u in Ahead(users, cursor) && u !in ids ==> |ids| == limit && Last(ids, cursor) < u)
  }

  method LowestAhead(users: map<nat, User>, cursor: nat) returns (r: Option<nat>)
    ensures r.None? <==> Ahead(users, cursor) == {}
    ensures r.Some? ==> r.value in Ahead(users, cursor) && forall u :: u in Ahead(users, cursor) ==> r.value <= u
  {
    var ahead := Ahead(users, cursor);
    var todo := ahead;
    r := None;
    while todo != {}
      invariant todo <= ahead
      invariant r.None? ==> todo == ahead
      invariant r.Some? ==> r.value in ahead && forall v :: v in ahead && v !in todo ==> r.value <= v
      decreases |todo|
    {
      var u :| u in todo;
      todo := todo - {u};
      if r.None? || u < r.value {
        r := Some(u);
      }
    }
  }

  method ListApprovedAfter(users: map<nat, User>, cursor: nat, limit: nat) returns (ids: seq<nat>)
    ensures IsBatch(users, cursor, limit, ids)
    ensures forall u :: u in ids ==> u in users && users[u].approved && !users[u].botBlocked && cursor < u
    ensures forall u :: u in users && users[u].approved && !users[u].botBlocked && cursor < u && u !in ids ==>
                          |ids| == limit && forall v :: v in ids ==> v < u
  {
    ids := [];
    while |ids| < limit
      invariant |ids| <= limit && Ascending(ids)
      invariant forall u :: u in ids ==> u in Ahead(users, cursor)
      invariant forall u :: u in Ahead(users, cursor) && u !in ids ==> Last(ids, cursor) < u
      invariant Last(ids, cursor) >= cursor
    {
      var next := LowestAhead(users, Last(ids, cursor));
      if next.None? {
        forall u | u in Ahead(users, cursor) ensures u in ids {
          assert u !in Ahead(users, Last(ids, cursor));
        }
        return;
      }
      assert forall u :: u in Ahead(users, cursor) && u !in ids ==> u in Ahead(users, Last(ids, cursor));
      ids := ids + [next.value];
    }
  }

  // ---------- One batch ----------

  function Count(outcomes: seq<Outcome>, o: Outcome): nat {
    if outcomes == [] then 0
    else Count(outcomes[..|outcomes| - 1], o) + if outcomes[|outcomes| - 1] == o then 1 else 0
  }

  lemma {:induction false} CountAll(outcomes: seq<Outcome>)
    ensures Count(outcomes, Sent) + Count(outcomes, Blocked) + Count(outcomes, Error) == |outcomes|
  {
    if outcomes != [] { CountAll(outcomes[..|outcomes| - 1]); }
  }

  lemma CountMore(outcomes: seq<Outcome>, last: Outcome, o: Outcome)
    ensures Count(outcomes + [last], o) == Count(outcomes, o) + if last == o then 1 else 0
  {
    assert (outcomes + [last])[..|outcomes|] == outcomes;
  }

  /** The row after a batch is recorded. */
  function Recorded(row: Row, ids: seq<nat>, outcomes: seq<Outcome>): Row {
    row.(sent := row.sent + Count(outcomes, Sent), blocked := row.blocked + Count(outcomes, Blocked),
         errors := row.errors + Count(outcomes, Error), cursor := Last(ids, row.cursor))
  }

  /** Those of `ids` that turned out to have blocked the bot, flagged. */
  function Flagged(users: map<nat, User>, ids: seq<nat>, outcomes: seq<Outcome>): (r: map<nat, User>)
    requires |outcomes| <= |ids|
    ensures r.Keys == users.Keys
    ensures forall u :: u in r ==> r[u].approved == users[u].approved && (users[u].botBlocked ==> r[u].botBlocked)
    ensures forall u :: u in r && u !in ids[..|outcomes|] ==> r[u] == users[u]
    decreases |outcomes|
  {
    if outcomes == [] then users
    else
      var k := |outcomes| - 1;
      var rest := Flagged(users, ids, outcomes[..k]);
      assert forall u :: u in ids[..k] ==> u in ids[..|outcomes|];
      if outcomes[k] == Blocked then MarkBlocked(rest, ids[k]) else rest
  }

  function Outcomes(ids: seq<nat>, telegram: nat -> Replies): (o: seq<Outcome>)
    ensures |o| == |ids|
    ensures forall i :: 0 <= i < |ids| ==> o[i] == OutcomeOf(telegram(ids[i]))
  {
    seq(|ids|, i requires 0 <= i < |ids| => OutcomeOf(telegram(ids[i])))
  }

  /** The counters of a batch in progress. */
  predicate Tally(row: Row, outcomes: seq<Outcome>, sent: nat, blocked: nat, errors: nat) {
    && sent == row.sent + Count(outcomes, Sent)
    && blocked == row.blocked + Count(outcomes, Blocked)
    && errors == row.errors + Count(outcomes, Error)
  }

  lemma TallyMore(row: Row, outcomes: seq<Outcome>, i: nat, sent: nat, blocked: nat, errors: nat)
    requires i < |outcomes| && Tally(row, outcomes[..i], sent, blocked, errors)
    ensures var o := outcomes[i];
            Tally(row, outcomes[..i + 1], if o == Sent then sent + 1 else sent,
                  if o == Blocked then blocked + 1 else blocked, if o == Error then errors + 1 else errors)
  {
    assert outcomes[..i + 1] == outcomes[..i] + [outcomes[i]];
    CountMore(outcomes[..i], outcomes[i], Sent);
    CountMore(outcomes[..i], outcomes[i], Blocked);
    CountMore(outcomes[..i], outcomes[i], Error);
  }

  lemma AllTaken<T>(s: seq<T>)
    ensures s[..|s|] == s
  {
  }

  // ---------- The runner ----------

  class Runner {
    var users: map<nat, User>
    var row: Row

    constructor (users: map<nat, User>, row: Row)
      ensures this.users == users && this.row == row
    {
      this.users, this.row := users, row;
    }

    /** `copy_broadcast_message`. */
    method CopyMessage(u: nat, replies: Replies) returns (status: Outcome, requests: nat)
      modifies this`users
      ensures status == OutcomeOf(replies)
      ensures Decisive(replies, requests) || requests == MAX_SEND_ATTEMPTS
      ensures users == if status == Blocked then MarkBlocked(old(users), u) else old(users)
      ensures status == Sent <==> SettledBy(replies, Delivered)
      ensures status == Blocked <==> SettledBy(replies, Forbidden)
      ensures status == Error <==> SettledBy(replies, ApiError) || Deferred(replies)
      ensures users == if SettledBy(replies, Forbidden) && u in old(users)
                       then old(users)[u := User(old(users)[u].approved, true)] else old(users)
    {
      OutcomeMeans(replies);
      for attempt := 1 to MAX_SEND_ATTEMPTS + 1
        invariant attempt <= MAX_SEND_ATTEMPTS && OutcomeFrom(replies, attempt) == OutcomeOf(replies)
        invariant forall j :: 1 <= j < attempt ==> replies(j) == RetryAfter
        invariant users == old(users)
      {
        match replies(attempt)
        case Delivered => return Sent, attempt;
        case Forbidden =>
          users := MarkBlocked(users, u);
          return Blocked, attempt;
        case RetryAfter =>
          if attempt == MAX_SEND_ATTEMPTS {
            return Error, attempt;
          }
        case ApiError => return Error, attempt;
      }
      assert false;
    }

    /** `_run_one_batch`, uninterrupted. */
    method RunOneBatch(telegram: nat -> Replies) returns (done: bool, ghost ids: seq<nat>)
      modifies this
      ensures old(row).status != Running ==> done && row == old(row) && users == old(users)
      ensures old(row).status == Running ==> IsBatch(old(users), old(row).cursor, BATCH_SIZE, ids)
      ensures old(row).status == Running ==> (done <==> ids == [])
      ensures old(row).status == Running && done ==> row == old(row).(status := Completed) && users == old(users)
      ensures !done ==> row == Recorded(old(row), ids, Outcomes(ids, telegram))
                        && users == Flagged(old(users), ids, Outcomes(ids, telegram))
      ensures !done ==> CountsReplies(old(row), row, ids, telegram)
      ensures !done ==> FlagsForbidden(old(users), users, ids, telegram)
    {
      hide CountsReplies, FlagsForbidden, OutcomeOf, SettledBy, Deferred;
      ids := [];
      if row.status != Running {
        return true, ids;
      }
      var recipients := ListApprovedAfter(users, row.cursor, BATCH_SIZE);
      ids := recipients;
      if |recipients| == 0 {
        row := row.(status := Completed);
        return true, ids;
      }
      var sent, blocked, errors := row.sent, row.blocked, row.errors;
      var cursor := row.cursor;
      ghost var outcomes := Outcomes(recipients, telegram);
      for i := 0 to |recipients|
        invariant row == old(row)
        invariant Tally(row, outcomes[..i], sent, blocked, errors)
        invariant cursor == Last(recipients[..i], row.cursor)
        invariant users == Flagged(old(users), recipients, outcomes[..i])
      {
        TallyMore(row, outcomes, i, sent, blocked, errors);
        FlaggedMore(old(users), recipients, outcomes, i);
        assert recipients[..i + 1] == recipients[..i] + [recipients[i]];
        var status, _ := CopyMessage(recipients[i], telegram(recipients[i]));
        match status {
          case Sent => sent := sent + 1;
          case Blocked => blocked := blocked + 1;
          case Error => errors := errors + 1;
        }
        cursor := recipients[i];
      }
      AllTaken(outcomes);
      AllTaken(recipients);
      row := row.(sent := sent, blocked := blocked, errors := errors, cursor := cursor);
      RecordedIs(old(row), recipients, telegram);
      FlaggedAll(old(users), recipients, telegram);
      return false, ids;
    }

    /** `run_broadcast` without a crash and without other writers: it ends after one call for each
        started batch of 25 and one that finds nobody, whatever Telegram answers, and every eligible
        user beyond the cursor is counted once, under its own outcome. */
    method RunBroadcast(telegram: nat -> Replies) returns (calls: nat)
      modifies this
      ensures row.status == Completed
      ensures calls == if old(row).status == Running
              then (|Ahead(old(users), old(row).cursor)| + BATCH_SIZE - 1) / BATCH_SIZE + 1 else 1
      ensures old(row).status == Running ==> AllCounted(Ahead(old(users), old(row).cursor), old(row), row, telegram)
      ensures old(row).status == Running ==>
                FlaggedAmong(old(users), users, Ahead(old(users), old(row).cursor), telegram)
      ensures old(row).status != Running ==> users == old(users)
    {
      hide Serving, IsBatch, Outcomes, Flagged, FlagsForbidden, CountsReplies, AllCounted, FlaggedAmong;
      calls := 0;
      ghost var all, users0, row0 := Ahead(users, row.cursor), users, row;
      ghost var served: set<nat> := {};
      NoneServed(users, row, telegram);
      while true
        invariant row.status == row0.status
        invariant row0.status != Running ==> calls == 0 && users == users0
        invariant row0.status == Running ==> Serving(all, served, users0, users, row0, row, telegram, calls)
        invariant |served| <= |all|
        decreases |all| - |served|
      {
        ghost var users1, row1 := users, row;
        var done, ids := RunOneBatch(telegram);
        calls := calls + 1;
        if done {
          if row0.status == Running {
            ServingEnds(all, served, users0, users1, row0, row1, ids, telegram, calls - 1);
          }
          return;
        }
        served := ServingMore(all, served, users0, users1, users, row0, row1, ids, telegram, calls - 1);
      }
    }
  }

  // ---------- Why the loop ends, and with what ----------

  function Ids(ids: seq<nat>): set<nat> {
    set u | u in ids
  }

  /** The places of a list whose user's send is settled by this reply, and those deferred throughout. */
  ghost function Settling(ids: seq<nat>, telegram: nat -> Replies, reply: Reply): set<nat> {
    set i: nat | i < |ids| && SettledBy(telegram(ids[i]), reply)
  }

  function Deferring(ids: seq<nat>, telegram: nat -> Replies): set<nat> {
    set i: nat | i < |ids| && Deferred(telegram(ids[i]))
  }

  /** The places with an outcome. */
  function Ending(ids: seq<nat>, telegram: nat -> Replies, o: Outcome): set<nat> {
    set i: nat | i < |ids| && OutcomeOf(telegram(ids[i])) == o
  }

  /** Exactly the users of the list whose send is settled by a refusal are flagged, and nothing else changes. */
  ghost predicate FlagsForbidden(users: map<nat, User>, users': map<nat, User>, ids: seq<nat>,
                                 telegram: nat -> Replies) {
    users'.Keys == users.Keys
    && forall u :: u in users ==>
         users'[u] == if u in ids && SettledBy(telegram(u), Forbidden) then User(users[u].approved, true) else users[u]
  }

  /** Every place of the list is counted under the reply that settled it, and the cursor is at the last. */
  ghost predicate CountsReplies(row: Row, row': Row, ids: seq<nat>, telegram: nat -> Replies) {
    && ids != [] && row'.status == row.status && row'.cursor == ids[|ids| - 1]
    && row'.sent == row.sent + |Settling(ids, telegram, Delivered)|
    && row'.blocked == row.blocked + |Settling(ids, telegram, Forbidden)|
    && row'.errors == row.errors + |Settling(ids, telegram, ApiError)| + |Deferring(ids, telegram)|
  }

  lemma RecordedIs(row: Row, ids: seq<nat>, telegram: nat -> Replies)
    requires ids != []
    ensures CountsReplies(row, Recorded(row, ids, Outcomes(ids, telegram)), ids, telegram)
  {
    CountIsSettling(ids, telegram);
  }

  lemma {:induction false} CountIsEnding(ids: seq<nat>, telegram: nat -> Replies, o: Outcome)
    ensures Count(Outcomes(ids, telegram), o) == |Ending(ids, telegram, o)|
  {
    hide OutcomeOf;
    if ids == [] {
      assert Ending(ids, telegram, o) == {};
    } else {
      var n := |ids| - 1;
      CountIsEnding(ids[..n], telegram, o);
      OutcomesOfInit(ids, telegram);
      EndingMore(ids, telegram, o);
    }
  }

  lemma EndingMore(ids: seq<nat>, telegram: nat -> Replies, o: Outcome)
    requires ids != []
    ensures var n := |ids| - 1;
            |Ending(ids, telegram, o)|
            == |Ending(ids[..n], telegram, o)| + if OutcomeOf(telegram(ids[n])) == o then 1 else 0
  {
    hide OutcomeOf;
    var n: nat := |ids| - 1;
    var before := Ending(ids[..n], telegram, o);
    if OutcomeOf(telegram(ids[n])) == o {
      assert Ending(ids, telegram, o) == before + {n};
    } else {
      assert Ending(ids, telegram, o) == before;
    }
  }

  lemma AllMean(telegram: nat -> Replies)
    ensures forall u: nat :: (OutcomeOf(telegram(u)) == Sent <==> SettledBy(telegram(u), Delivered))
              && (OutcomeOf(telegram(u)) == Blocked <==> SettledBy(telegram(u), Forbidden))
              && (OutcomeOf(telegram(u)) == Error <==> SettledBy(telegram(u), ApiError) || Deferred(telegram(u)))
  {
    hide OutcomeOf, SettledBy, Deferred;
    forall u: nat
      ensures (OutcomeOf(telegram(u)) == Sent <==> SettledBy(telegram(u), Delivered))
              && (OutcomeOf(telegram(u)) == Blocked <==> SettledBy(telegram(u), Forbidden))
              && (OutcomeOf(telegram(u)) == Error <==> SettledBy(telegram(u), ApiError) || Deferred(telegram(u)))
    {
      OutcomeMeans(telegram(u));
    }
  }

  lemma NeverBoth(replies: Replies)
    ensures !(SettledBy(replies, ApiError) && Deferred(replies))
  {
  }

  /** What a batch counts, on the replies. */
  lemma CountIsSettling(ids: seq<nat>, telegram: nat -> Replies)
    ensures Count(Outcomes(ids, telegram), Sent) == |Settling(ids, telegram, Delivered)|
    ensures Count(Outcomes(ids, telegram), Blocked) == |Settling(ids, telegram, Forbidden)|
    ensures Count(Outcomes(ids, telegram), Error)
            == |Settling(ids, telegram, ApiError)| + |Deferring(ids, telegram)|
  {
    hide OutcomeOf, SettledBy, Deferred;
    CountIsEnding(ids, telegram, Sent);
    CountIsEnding(ids, telegram, Blocked);
    CountIsEnding(ids, telegram, Error);
    AllMean(telegram);
    assert Ending(ids, telegram, Sent) == Settling(ids, telegram, Delivered);
    assert Ending(ids, telegram, Blocked) == Settling(ids, telegram, Forbidden);
    assert Ending(ids, telegram, Error) == Settling(ids, telegram, ApiError) + Deferring(ids, telegram);
    forall i | i in Settling(ids, telegram, ApiError) ensures i !in Deferring(ids, telegram) {
      NeverBoth(telegram(ids[i]));
    }
    assert Settling(ids, telegram, ApiError) !! Deferring(ids, telegram);
  }

  /** The same for a set of users. */
  ghost predicate FlaggedAmong(users: map<nat, User>, users': map<nat, User>, served: set<nat>,
                               telegram: nat -> Replies) {
    users'.Keys == users.Keys
    && forall u :: u in users ==>
         users'[u] == if u in served && SettledBy(telegram(u), Forbidden) then User(users[u].approved, true)
                      else users[u]
  }

  lemma FlaggedOn(users0: map<nat, User>, users: map<nat, User>, users': map<nat, User>, served: set<nat>,
                  ids: seq<nat>, telegram: nat -> Replies)
    requires FlaggedAmong(users0, users, served, telegram) && FlagsForbidden(users, users', ids, telegram)
    ensures FlaggedAmong(users0, users', served + Ids(ids), telegram)
  {
    hide SettledBy;
  }

  lemma FlaggedAll(users: map<nat, User>, ids: seq<nat>, telegram: nat -> Replies)
    ensures FlagsForbidden(users, Flagged(users, ids, Outcomes(ids, telegram)), ids, telegram)
  {
    forall u | u in users
      ensures Flagged(users, ids, Outcomes(ids, telegram))[u]
              == if u in ids && SettledBy(telegram(u), Forbidden) then User(users[u].approved, true) else users[u]
    {
      FlaggedExactly(users, ids, telegram, u);
    }
  }

  /** The users of a set whose send ends with outcome `o`. */
  function With(s: set<nat>, telegram: nat -> Replies, o: Outcome): set<nat> {
    set u | u in s && OutcomeOf(telegram(u)) == o
  }

  /** The users of a set whose send is settled by this reply, and those deferred throughout. */
  ghost function SettledWith(s: set<nat>, telegram: nat -> Replies, reply: Reply): set<nat> {
    set u | u in s && SettledBy(telegram(u), reply)
  }

  function DeferredOf(s: set<nat>, telegram: nat -> Replies): set<nat> {
    set u | u in s && Deferred(telegram(u))
  }

  /** From `row0` to `row`, every user of the set was counted once: as sent, blocked or an error as the
      reply that settled it says, or as an error if there was none. The cursor has passed them all. */
  ghost predicate AllCounted(served: set<nat>, row0: Row, row: Row, telegram: nat -> Replies) {
    && (forall u :: u in served ==> u <= row.cursor)
    && row.sent == row0.sent + |SettledWith(served, telegram, Delivered)|
    && row.blocked == row0.blocked + |SettledWith(served, telegram, Forbidden)|
    && row.errors == row0.errors + |SettledWith(served, telegram, ApiError)| + |DeferredOf(served, telegram)|
  }

  lemma TalliedIsCounted(served: set<nat>, row0: Row, row: Row, end: Row, telegram: nat -> Replies)
    requires Tallied(served, row0, row, telegram) && end == row.(status := Completed)
    ensures AllCounted(served, row0, end, telegram)
  {
    hide OutcomeOf, SettledBy, Deferred;
    AllMean(telegram);
    assert With(served, telegram, Sent) == SettledWith(served, telegram, Delivered);
    assert With(served, telegram, Blocked) == SettledWith(served, telegram, Forbidden);
    assert With(served, telegram, Error) == SettledWith(served, telegram, ApiError) + DeferredOf(served, telegram);
    forall u | u in SettledWith(served, telegram, ApiError) ensures u !in DeferredOf(served, telegram) {
      NeverBoth(telegram(u));
    }
    assert SettledWith(served, telegram, ApiError) !! DeferredOf(served, telegram);
  }

  /** The same by outcomes. */
  ghost predicate Tallied(served: set<nat>, row0: Row, row: Row, telegram: nat -> Replies) {
    && (forall u :: u in served ==> u <= row.cursor)
    && row.sent == row0.sent + |With(served, telegram, Sent)|
    && row.blocked == row0.blocked + |With(served, telegram, Blocked)|
    && row.errors == row0.errors + |With(served, telegram, Error)|
  }

  /** What is served is counted, and what is not is still ahead. */
  ghost predicate Progress(all: set<nat>, served: set<nat>, users: map<nat, User>, row0: Row, row: Row,
                           telegram: nat -> Replies) {
    && served <= all && Ahead(users, row.cursor) == all - served
    && Tallied(served, row0, row, telegram)
  }

  /** The loop after some calls: what it has served, flagged and counted. */
  ghost predicate Serving(all: set<nat>, served: set<nat>, users0: map<nat, User>, users: map<nat, User>,
                          row0: Row, row: Row, telegram: nat -> Replies, calls: nat) {
    && Progress(all, served, users, row0, row, telegram) && Batches(|all|, |served|, calls)
    && FlaggedAmong(users0, users, served, telegram)
  }

  lemma NoneServed(users: map<nat, User>, row: Row, telegram: nat -> Replies)
    ensures Serving(Ahead(users, row.cursor), {}, users, users, row, row, telegram, 0)
  {
    assert With({}, telegram, Sent) == {} && With({}, telegram, Blocked) == {} && With({}, telegram, Error) == {};
  }

  lemma FlaggedMore(users: map<nat, User>, ids: seq<nat>, outcomes: seq<Outcome>, i: nat)
    requires |outcomes| == |ids| && i < |ids|
    ensures Flagged(users, ids, outcomes[..i + 1])
            == if outcomes[i] == Blocked then MarkBlocked(Flagged(users, ids, outcomes[..i]), ids[i])
               else Flagged(users, ids, outcomes[..i])
  {
    assert outcomes[..i + 1][..i] == outcomes[..i];
  }

  lemma {:induction false} CountIsWith(ids: seq<nat>, telegram: nat -> Replies, o: Outcome)
    requires Ascending(ids)
    ensures Count(Outcomes(ids, telegram), o) == |With(Ids(ids), telegram, o)|
  {
    if ids == [] {
      assert With(Ids(ids), telegram, o) == {};
    } else {
      var n := |ids| - 1;
      CountIsWith(ids[..n], telegram, o);
      OutcomesOfInit(ids, telegram);
      IdsOfInit(ids);
      WithMore(Ids(ids[..n]), ids[n], telegram, o);
    }
  }

  lemma OutcomesOfInit(ids: seq<nat>, telegram: nat -> Replies)
    requires ids != []
    ensures Outcomes(ids, telegram)[..|ids| - 1] == Outcomes(ids[..|ids| - 1], telegram)
  {
  }

  lemma IdsOfInit(ids: seq<nat>)
    requires Ascending(ids) && ids != []
    ensures Ids(ids) == Ids(ids[..|ids| - 1]) + {ids[|ids| - 1]} && ids[|ids| - 1] !in Ids(ids[..|ids| - 1])
  {
    assert ids == ids[..|ids| - 1] + [ids[|ids| - 1]];
  }

  lemma {:induction false} IdsSize(ids: seq<nat>)
    requires Ascending(ids)
    ensures |Ids(ids)| == |ids|
  {
    if ids == [] {
      assert Ids(ids) == {};
    } else {
      IdsSize(ids[..|ids| - 1]);
      IdsOfInit(ids);
    }
  }

  lemma WithMore(s: set<nat>, u: nat, telegram: nat -> Replies, o: Outcome)
    requires u !in s
    ensures |With(s + {u}, telegram, o)| == |With(s, telegram, o)| + if OutcomeOf(telegram(u)) == o then 1 else 0
  {
    if OutcomeOf(telegram(u)) == o {
      assert With(s + {u}, telegram, o) == With(s, telegram, o) + {u};
    } else {
      assert With(s + {u}, telegram, o) == With(s, telegram, o);
    }
  }

  lemma WithUnion(s: set<nat>, t: set<nat>, telegram: nat -> Replies, o: Outcome)
    requires s !! t
    ensures |With(s + t, telegram, o)| == |With(s, telegram, o)| + |With(t, telegram, o)|
  {
    assert With(s + t, telegram, o) == With(s, telegram, o) + With(t, telegram, o);
  }

  lemma LastIsHighest(ids: seq<nat>, cursor: nat)
    requires Ascending(ids) && ids != []
    ensures Last(ids, cursor) in ids
    ensures forall u :: u in ids ==> u <= Last(ids, cursor)
  {
  }

  /** A recorded batch leaves ahead exactly those it did not serve. */
  lemma AheadAfter(users: map<nat, User>, cursor: nat, ids: seq<nat>, outcomes: seq<Outcome>)
    requires IsBatch(users, cursor, BATCH_SIZE, ids) && ids != [] && |outcomes| == |ids|
    ensures Ahead(Flagged(users, ids, outcomes), Last(ids, cursor)) == Ahead(users, cursor) - Ids(ids)
  {
    var users', last := Flagged(users, ids, outcomes), Last(ids, cursor);
    LastIsHighest(ids, cursor);
    AllTaken(ids);
    assert last in Ahead(users, cursor);
    forall u ensures u in Ahead(users', last) <==> u in Ahead(users, cursor) - Ids(ids) {
      if u in ids { assert u <= last; }
    }
  }

  lemma BatchCounted(served: set<nat>, ids: seq<nat>, telegram: nat -> Replies, o: Outcome, n: nat, n0: nat)
    requires Ascending(ids) && served !! Ids(ids) && n == n0 + |With(served, telegram, o)|
    ensures n + Count(Outcomes(ids, telegram), o) == n0 + |With(served + Ids(ids), telegram, o)|
  {
    CountIsWith(ids, telegram, o);
    WithUnion(served, Ids(ids), telegram, o);
  }

  lemma BatchAdvances(all: set<nat>, served: set<nat>, users: map<nat, User>, cursor: nat, ids: seq<nat>)
    requires served <= all && Ahead(users, cursor) == all - served
    requires IsBatch(users, cursor, BATCH_SIZE, ids) && ids != []
    ensures Ids(ids) <= all - served && |served + Ids(ids)| == |served| + |ids|
    ensures Ahead(users, cursor) - Ids(ids) == all - (served + Ids(ids))
    ensures |ids| < BATCH_SIZE ==> served + Ids(ids) == all
  {
    IdsSize(ids);
    if |ids| < BATCH_SIZE {
      forall u | u in all ensures u in served + Ids(ids) { assert u in Ahead(users, cursor) ==> u in ids; }
    }
  }

  lemma BatchServes(all: set<nat>, served: set<nat>, users: map<nat, User>, row0: Row, row: Row, ids: seq<nat>,
                    telegram: nat -> Replies)
    requires Progress(all, served, users, row0, row, telegram)
    requires IsBatch(users, row.cursor, BATCH_SIZE, ids) && ids != []
    ensures var o := Outcomes(ids, telegram);
            Progress(all, served + Ids(ids), Flagged(users, ids, o), row0, Recorded(row, ids, o), telegram)
    ensures |served + Ids(ids)| == |served| + |ids| && Ids(ids) <= all - served && 0 < |ids| <= BATCH_SIZE
    ensures |ids| < BATCH_SIZE ==> served + Ids(ids) == all
  {
    BatchAdvances(all, served, users, row.cursor, ids);
    AheadAfter(users, row.cursor, ids, Outcomes(ids, telegram));
    LastIsHighest(ids, row.cursor);
    assert Last(ids, row.cursor) in Ahead(users, row.cursor);
    BatchCounted(served, ids, telegram, Sent, row.sent, row0.sent);
    BatchCounted(served, ids, telegram, Blocked, row.blocked, row0.blocked);
    BatchCounted(served, ids, telegram, Error, row.errors, row0.errors);
  }

  lemma NobodyLeft(all: set<nat>, served: set<nat>, users: map<nat, User>, cursor: nat, ids: seq<nat>)
    requires served <= all && Ahead(users, cursor) == all - served
    requires IsBatch(users, cursor, BATCH_SIZE, ids) && ids == []
    ensures served == all
  {
    forall u | u in all ensures u in served { assert u in Ahead(users, cursor) ==> u in ids; }
  }

  /** So many batches serve so many of n users: full ones, but for the last. */
  predicate Batches(n: nat, served: nat, batches: nat) {
    && served <= batches * BATCH_SIZE < served + BATCH_SIZE
    && (served < n ==> batches * BATCH_SIZE == served)
  }

  lemma MoreServed(all: set<nat>, served: set<nat>, more: set<nat>, size: nat, batches: nat)
    requires more <= all - served && served <= all && |served + more| == |served| + size && 0 < size <= BATCH_SIZE
    requires size < BATCH_SIZE ==> served + more == all
    requires Batches(|all|, |served|, batches)
    ensures Batches(|all|, |served + more|, batches + 1)
    ensures |all - (served + more)| < |all - served|
  {
    SubsetSize(served + more, all);
    assert |all - served| == |all| - |served|;
    assert |all - (served + more)| == |all| - |served + more|;
  }

  lemma ServingMore(all: set<nat>, served: set<nat>, users0: map<nat, User>, users: map<nat, User>,
                    users': map<nat, User>, row0: Row, row: Row, ids: seq<nat>, telegram: nat -> Replies, calls: nat)
    returns (more: set<nat>)
    requires Serving(all, served, users0, users, row0, row, telegram, calls)
    requires IsBatch(users, row.cursor, BATCH_SIZE, ids) && ids != []
    requires users' == Flagged(users, ids, Outcomes(ids, telegram)) && FlagsForbidden(users, users', ids, telegram)
    ensures Serving(all, more, users0, users', row0, Recorded(row, ids, Outcomes(ids, telegram)), telegram, calls + 1)
    ensures |served| < |more| <= |all|
  {
    hide IsBatch, Tallied, FlaggedAmong, FlagsForbidden, Flagged, Recorded, Ahead;
    more := served + Ids(ids);
    BatchServes(all, served, users, row0, row, ids, telegram);
    MoreServed(all, served, Ids(ids), |ids|, calls);
    FlaggedOn(users0, users, users', served, ids, telegram);
    SubsetSize(more, all);
  }

  lemma ServingEnds(all: set<nat>, served: set<nat>, users0: map<nat, User>, users: map<nat, User>, row0: Row,
                    row: Row, ids: seq<nat>, telegram: nat -> Replies, calls: nat)
    requires Serving(all, served, users0, users, row0, row, telegram, calls)
    requires IsBatch(users, row.cursor, BATCH_SIZE, ids) && ids == []
    ensures AllCounted(all, row0, row.(status := Completed), telegram) && FlaggedAmong(users0, users, all, telegram)
    ensures calls == (|all| + BATCH_SIZE - 1) / BATCH_SIZE
  {
    hide IsBatch, Tallied, AllCounted, FlaggedAmong;
    NobodyLeft(all, served, users, row.cursor, ids);
    BatchCount(|all|, calls);
    TalliedIsCounted(all, row0, row, row.(status := Completed), telegram);
  }

  lemma BatchCount(n: nat, batches: nat)
    requires Batches(n, n, batches)
    ensures batches == (n + BATCH_SIZE - 1) / BATCH_SIZE
  {
  }

  // ---------- The other fan-out ----------

  datatype Summary = Summary(sent: nat, blocked: nat, errors: nat)

  const EMPTY := Row(Running, 0, 0, 0, 0)

  /** `broadcast_new_test`: the sends run together, the flags are written afterwards. Nobody is lost
      or counted twice. */
  method BroadcastNewTest(users: map<nat, User>, recipients: seq<nat>, telegram: nat -> Replies)
    returns (users': map<nat, User>, summary: Summary)
    ensures var results := Outcomes(recipients, telegram);
            && Tally(EMPTY, results, summary.sent, summary.blocked, summary.errors)
            && users' == Flagged(users, recipients, results)
    ensures summary.sent == |Settling(recipients, telegram, Delivered)|
    ensures summary.blocked == |Settling(recipients, telegram, Forbidden)|
    ensures summary.errors == |Settling(recipients, telegram, ApiError)| + |Deferring(recipients, telegram)|
    ensures FlagsForbidden(users, users', recipients, telegram)
    ensures summary.sent + summary.blocked + summary.errors == |recipients|
  {
    var results := Outcomes(recipients, telegram);
    users' := users;
    var sent, blocked, errors := 0, 0, 0;
    for i := 0 to |recipients|
      invariant Tally(EMPTY, results[..i], sent, blocked, errors)
      invariant users' == Flagged(users, recipients, results[..i])
    {
      TallyMore(EMPTY, results, i, sent, blocked, errors);
      FlaggedMore(users, recipients, results, i);
      match results[i] {
        case Sent => sent := sent + 1;
        case Blocked =>
          blocked := blocked + 1;
          users' := MarkBlocked(users', recipients[i]);
        case Error => errors := errors + 1;
      }
    }
    AllTaken(results);
    CountAll(results);
    CountIsSettling(recipients, telegram);
    FlaggedAll(users, recipients, telegram);
    return users', Summary(sent, blocked, errors);
  }

  /** Exactly the recipients who blocked the bot are flagged, in either fan-out. */
  lemma FlaggedExactly(users: map<nat, User>, ids: seq<nat>, telegram: nat -> Replies, u: nat)
    requires u in users
    ensures var users' := Flagged(users, ids, Outcomes(ids, telegram));
            users'[u] == if u in ids && SettledBy(telegram(u), Forbidden) then User(users[u].approved, true)
                         else users[u]
  {
    OutcomeMeans(telegram(u));
    FlaggedAt(users, ids, Outcomes(ids, telegram), u, OutcomeOf(telegram(u)) == Blocked);
    AllTaken(ids);
  }

  lemma {:induction false} FlaggedAt(users: map<nat, User>, ids: seq<nat>, outcomes: seq<Outcome>, u: nat,
                                     blocked: bool)
    requires u in users && |outcomes| <= |ids|
    requires forall i :: 0 <= i < |outcomes| && ids[i] == u ==> (outcomes[i] == Blocked <==> blocked)
    ensures Flagged(users, ids, outcomes)[u]
            == if u in ids[..|outcomes|] && blocked then users[u].(botBlocked := true) else users[u]
    decreases |outcomes|
  {
    if outcomes != [] {
      var k := |outcomes| - 1;
      FlaggedAt(users, ids, outcomes[..k], u, blocked);
      assert ids[..k + 1] == ids[..k] + [ids[k]];
    }
  }
}
