/**
 A broadcast over any number of crashes, restarts and changes to the users table.

 One runner works at a time: a run that fails is only resumed at the next start. Its progress is the
 committed row; what a batch did before its commit is lost in a crash, but not the messages it sent.
 */
module BroadcastRuns {
  import opened Common
  import opened Sections
  import opened Broadcast

  /** A batch under way: its recipients, the outcomes so far, and the users table when it began. */
  datatype Batch = Batch(ids: seq<nat>, outcomes: seq<Outcome>, begun: map<nat, User>)

  /** The ids that a committed batch moved the cursor across, and the users table when it began. */
  datatype Window = Window(from: nat, upTo: nat, users: map<nat, User>)

  /** `tries` counts, for each user, the copies that were attempted: at most one message each.
      `done` and `results` are the recipients of the committed batches and their outcomes, `windows`
      the history of the cursor. */
  datatype State = State(
    users: map<nat, User>,
    row: Row,
    batch: Option<Batch>,
    crashes: nat,
    tries: multiset<nat>,
    done: seq<nat>,
    results: seq<Outcome>,
    windows: seq<Window>)

  datatype Step =
    | ChangeUsers(users: map<nat, User>)
    | BeginBatch(ids: seq<nat>)
    | Copy(outcome: Outcome)
    | CommitBatch
    | Complete
    | Crash

  /** A broadcast as `create` inserts it. */
  predicate JustCreated(st: State) {
    && st.row.status == Running && st.row.sent == 0 && st.row.blocked == 0 && st.row.errors == 0 && st.row.cursor == 0
    && st.batch.None? && st.crashes == 0 && |st.tries| == 0 && st.done == [] && st.results == []
    && st.windows == []
  }

  predicate Finished(b: Batch) {
    |b.outcomes| == |b.ids|
  }

  predicate Unfinished(b: Batch) {
    |b.outcomes| < |b.ids|
  }

  ghost predicate Enabled(st: State, step: Step) {
    match step
    case BeginBatch(ids) =>
      st.batch.None? && st.row.status == Running && ids != [] && IsBatch(st.users, st.row.cursor, BATCH_SIZE, ids)
    case Copy(_) => st.batch.Some? && Unfinished(st.batch.value)
    case CommitBatch => st.batch.Some? && Finished(st.batch.value)
    case Complete => st.batch.None? && st.row.status == Running && Ahead(st.users, st.row.cursor) == {}
    case _ => true
  }

  ghost function Do(st: State, step: Step): State {
    if !Enabled(st, step) then st
    else
      match step
      case ChangeUsers(users) => st.(users := users)
      case BeginBatch(ids) => st.(batch := Some(Batch(ids, [], st.users)))
      case Copy(outcome) =>
        var b := st.batch.value;
        st.(batch := Some(b.(outcomes := b.outcomes + [outcome])), tries := st.tries + multiset{b.ids[|b.outcomes|]})
      case CommitBatch =>
        var b := st.batch.value;
        st.(users := Flagged(st.users, b.ids, b.outcomes), row := Recorded(st.row, b.ids, b.outcomes), batch := None,
            done := st.done + b.ids, results := st.results + b.outcomes,
            windows := st.windows + [Window(st.row.cursor, Last(b.ids, st.row.cursor), b.begun)])
      case Complete => st.(row := st.row.(status := Completed))
      case Crash => st.(batch := None, crashes := st.crashes + 1)
  }

  ghost function Run(st: State, steps: seq<Step>): State
    decreases |steps|
  {
    if steps == [] then st else Run(Do(st, steps[0]), steps[1..])
  }

  // ---------- The invariant ----------

  /** The recipients of the current batch that a copy was already attempted for. */
  function Reached(st: State): seq<nat> {
    match st.batch
    case Some(b) => if |b.outcomes| <= |b.ids| then b.ids[..|b.outcomes|] else b.ids
    case None => []
  }

  predicate Served(st: State, u: nat) {
    u in st.done || u in Reached(st)
  }

  /** Every crash can cost a user one repeat; without crashes there is one copy, in its turn. */
  predicate TriesOk(st: State, u: nat) {
    && st.tries[u] <= st.crashes + (if Served(st, u) then 1 else 0)
    && (Served(st, u) ==> st.tries[u] >= 1)
  }

  predicate CountersOk(st: State) {
    && |st.results| == |st.done|
    && Tally(EMPTY, st.results, st.row.sent, st.row.blocked, st.row.errors)
    && Ascending(st.done) && st.row.cursor == Last(st.done, 0)
  }

  predicate BatchOk(st: State) {
    st.batch.Some? ==>
      var b := st.batch.value;
      && st.row.status == Running && b.ids != [] && |b.ids| <= BATCH_SIZE && |b.outcomes| <= |b.ids|
      && Ascending(b.ids) && forall i :: 0 <= i < |b.ids| ==> b.ids[i] > st.row.cursor
  }

  ghost predicate Inv(st: State) {
    && CountersOk(st) && BatchOk(st)
    && (forall u :: TriesOk(st, u))
    && |st.tries| <= |st.done| + |Reached(st)| + BATCH_SIZE * st.crashes
  }

  lemma InDone(st: State, u: nat)
    requires CountersOk(st) && u in st.done
    ensures u <= st.row.cursor
  {
    LastIsHighest(st.done, 0);
  }

  lemma CopyInv(st: State, outcome: Outcome)
    requires Inv(st) && st.batch.Some? && Unfinished(st.batch.value)
    ensures Inv(Do(st, Copy(outcome)))
  {
    var st', b := Do(st, Copy(outcome)), st.batch.value;
    var k := |b.outcomes|;
    assert b.ids[..k + 1] == b.ids[..k] + [b.ids[k]];
    NotServed(st);
    forall u ensures TriesOk(st', u) { assert TriesOk(st, u); }
  }

  lemma NotServed(st: State)
    requires CountersOk(st) && BatchOk(st) && st.batch.Some? && Unfinished(st.batch.value)
    ensures !Served(st, st.batch.value.ids[|st.batch.value.outcomes|])
  {
    var u := st.batch.value.ids[|st.batch.value.outcomes|];
    assert u > st.row.cursor;
    assert u !in st.done by { if u in st.done { InDone(st, u); } }
  }

  lemma {:induction false} CountConcat(a: seq<Outcome>, b: seq<Outcome>, o: Outcome)
    ensures Count(a + b, o) == Count(a, o) + Count(b, o)
    decreases |b|
  {
    if b == [] {
      assert a + b == a;
    } else {
      var n := |b| - 1;
      CountConcat(a, b[..n], o);
      assert a + b == (a + b[..n]) + [b[n]];
      CountMore(a + b[..n], b[n], o);
    }
  }

  lemma AscendingConcat(a: seq<nat>, b: seq<nat>)
    requires Ascending(a) && Ascending(b) && forall i :: 0 <= i < |b| ==> b[i] > Last(a, 0)
    ensures Ascending(a + b)
    ensures b != [] ==> Last(a + b, 0) == Last(b, Last(a, 0))
  {
    if a != [] { LastIsHighest(a, 0); }
    forall i, j | 0 <= i < j < |a + b| ensures (a + b)[i] < (a + b)[j] {
      if i < |a| { assert a[i] in a; }
    }
  }

  lemma CommitInv(st: State)
    requires Inv(st) && st.batch.Some? && Finished(st.batch.value)
    ensures Inv(Do(st, CommitBatch))
  {
    var st', b := Do(st, CommitBatch), st.batch.value;
    CountConcat(st.results, b.outcomes, Sent);
    CountConcat(st.results, b.outcomes, Blocked);
    CountConcat(st.results, b.outcomes, Error);
    AscendingConcat(st.done, b.ids);
    AllTaken(b.ids);
    forall u ensures TriesOk(st', u) { assert TriesOk(st, u); }
  }

  lemma StepInv(st: State, step: Step)
    requires Inv(st)
    ensures Inv(Do(st, step))
  {
    if Enabled(st, step) {
      match step
      case Copy(outcome) => CopyInv(st, outcome);
      case CommitBatch => CommitInv(st);
      case BeginBatch(ids) => {
        forall i | 0 <= i < |ids| ensures ids[i] > st.row.cursor { assert ids[i] in Ahead(st.users, st.row.cursor); }
        forall u ensures TriesOk(Do(st, step), u) { assert TriesOk(st, u); }
      }
      case _ => {
        forall u ensures TriesOk(Do(st, step), u) { assert TriesOk(st, u); }
      }
    }
  }

  lemma {:induction false} RunInv(st: State, steps: seq<Step>)
    requires Inv(st)
    ensures Inv(Run(st, steps))
    decreases |steps|
  {
    if steps != [] {
      StepInv(st, steps[0]);
      RunInv(Do(st, steps[0]), steps[1..]);
    }
  }

  lemma StartInv(st: State)
    requires JustCreated(st)
    ensures Inv(st)
  {
    assert CountersOk(st);
    forall u ensures TriesOk(st, u) { assert !Served(st, u); }
  }

  // ---------- What holds of every run ----------

  function Distinct(m: multiset<nat>): set<nat> {
    set u | u in m
  }

  /** Copies beyond the first one to each user. */
  function Repeats(m: multiset<nat>): int {
    |m| - |Distinct(m)|
  }

  /** After any run the counters add up to the users of committed batches, each once, in order, up to
      the cursor; nobody gets more than one copy and one for each crash; and a crash costs at most a
      batch of repeats. */
  lemma DeliverySafety(st0: State, steps: seq<Step>)
    requires JustCreated(st0)
    ensures var st := Run(st0, steps);
            && st.row.sent + st.row.blocked + st.row.errors == |st.done|
            && Ascending(st.done) && st.row.cursor == Last(st.done, 0)
            && (forall u :: st.tries[u] <= 1 + st.crashes)
            && (forall u :: u in st.done ==> st.tries[u] >= 1)
            && Repeats(st.tries) <= BATCH_SIZE * st.crashes
  {
    StartInv(st0);
    RunInv(st0, steps);
    SafeState(Run(st0, steps));
  }

  lemma SafeState(st: State)
    requires Inv(st)
    ensures st.row.sent + st.row.blocked + st.row.errors == |st.done|
    ensures forall u :: st.tries[u] <= 1 + st.crashes
    ensures forall u :: u in st.done ==> st.tries[u] >= 1
    ensures Repeats(st.tries) <= BATCH_SIZE * st.crashes
  {
    CountAll(st.results);
    forall u ensures st.tries[u] <= 1 + st.crashes && (u in st.done ==> st.tries[u] >= 1) { assert TriesOk(st, u); }
    FewRepeats(st);
  }

  lemma FewRepeats(st: State)
    requires Inv(st)
    ensures Repeats(st.tries) <= BATCH_SIZE * st.crashes
  {
    var reached := Reached(st);
    AscendingConcat(st.done, reached);
    IdsSize(st.done + reached);
    forall u | u in Ids(st.done + reached) ensures u in Distinct(st.tries) { assert TriesOk(st, u); }
    SubsetSize(Ids(st.done + reached), Distinct(st.tries));
  }

  /** What is committed stays: the cursor never goes back, no committed recipient is forgotten, and a
      completed broadcast changes no more. */
  lemma {:induction false} ProgressIsKept(st: State, steps: seq<Step>)
    requires Inv(st)
    ensures var st' := Run(st, steps);
            && st.row.cursor <= st'.row.cursor && st.done <= st'.done && st.results <= st'.results
            && (st.row.status == Completed ==> st'.row == st.row && st'.tries == st.tries)
    decreases |steps|
  {
    if steps != [] {
      var next := Do(st, steps[0]);
      StepInv(st, steps[0]);
      StepKeeps(st, steps[0]);
      ProgressIsKept(next, steps[1..]);
    }
  }

  lemma StepKeeps(st: State, step: Step)
    requires Inv(st)
    ensures var st' := Do(st, step);
            && st.row.cursor <= st'.row.cursor && st.done <= st'.done && st.results <= st'.results
            && (st.row.status == Completed ==> st'.row == st.row && st'.tries == st.tries)
  {
    if step == CommitBatch && Enabled(st, step) {
      var ids := st.batch.value.ids;
      assert ids[|ids| - 1] > st.row.cursor;
    }
  }

  // ---------- Nobody is missed ----------

  /** From here to the end of the run, the user can be delivered to until it was. */
  ghost predicate EligibleUntilServed(st: State, steps: seq<Step>, u: nat)
    decreases |steps|
  {
    (u in st.done || Eligible(st.users, u)) && (steps == [] || EligibleUntilServed(Do(st, steps[0]), steps[1..], u))
  }

  /** The user is done, in the batch, or still ahead of it. */
  predicate InSight(st: State, u: nat) {
    u in st.done || StillDue(st, u)
  }

  predicate StillDue(st: State, u: nat) {
    && st.row.status == Running && u > st.row.cursor
    && (st.batch.Some? ==> u in st.batch.value.ids || u > Last(st.batch.value.ids, 0))
  }

  lemma StepInSight(st: State, step: Step, u: nat)
    requires Inv(st) && InSight(st, u) && (u in st.done || Eligible(st.users, u))
    ensures InSight(Do(st, step), u)
  {
    if Enabled(st, step) {
      match step
      case BeginBatch(ids) =>
        assert u in st.done || u in Ahead(st.users, st.row.cursor);
      case Complete =>
        assert u in st.done || u in Ahead(st.users, st.row.cursor);
      case _ =>
    }
  }

  lemma {:induction false} StaysInSight(st: State, steps: seq<Step>, u: nat)
    requires Inv(st) && InSight(st, u) && EligibleUntilServed(st, steps, u)
    ensures InSight(Run(st, steps), u)
    decreases |steps|
  {
    if steps != [] {
      StepInv(st, steps[0]);
      StepInSight(st, steps[0], u);
      StaysInSight(Do(st, steps[0]), steps[1..], u);
    }
  }

  /** At completion, whatever crashed and changed on the way, every user who could be delivered to
      all along is in a committed batch and had a copy attempted. User ids start at 1. */
  lemma NobodyMissed(st0: State, steps: seq<Step>, u: nat)
    requires JustCreated(st0) && u > 0 && EligibleUntilServed(st0, steps, u)
    requires Run(st0, steps).row.status == Completed
    ensures var st := Run(st0, steps); u in st.done && st.tries[u] >= 1
  {
    StartInv(st0);
    StaysInSight(st0, steps, u);
    DeliverySafety(st0, steps);
  }

  // ---------- Exactly who is missed ----------

  predicate Crosses(w: Window, u: nat) {
    w.from < u <= w.upTo
  }

  predicate Crossed(ws: seq<Window>, u: nat) {
    exists i :: 0 <= i < |ws| && Crosses(ws[i], u)
  }

  /** The windows lie one after the other and reach the cursor. */
  predicate Tiled(ws: seq<Window>, cursor: nat) {
    && (forall i :: 0 <= i < |ws| ==> ws[i].upTo <= cursor)
    && (forall i, j :: 0 <= i < j < |ws| ==> ws[i].upTo <= ws[j].from)
    && (forall u: nat :: 1 <= u <= cursor ==> Crossed(ws, u))
  }

  predicate WindowOk(st: State, i: nat, u: nat)
    requires i < |st.windows|
  {
    Crosses(st.windows[i], u) ==> (u in st.done <==> Eligible(st.windows[i].users, u))
  }

  ghost predicate HistoryOk(st: State) {
    && (st.batch.Some? ==> IsBatch(st.batch.value.begun, st.row.cursor, BATCH_SIZE, st.batch.value.ids))
    && Tiled(st.windows, st.row.cursor)
    && (forall i, u :: 0 <= i < |st.windows| ==> WindowOk(st, i, u))
  }

  /** In the stretch that a batch crosses, it holds exactly the users who were eligible when it began. */
  lemma BatchCrosses(users: map<nat, User>, cursor: nat, ids: seq<nat>, u: nat)
    requires IsBatch(users, cursor, BATCH_SIZE, ids) && cursor < u <= Last(ids, cursor)
    ensures u in ids <==> Eligible(users, u)
  {
    assert u in Ahead(users, cursor) <==> Eligible(users, u);
  }

  lemma TiledMore(ws: seq<Window>, w: Window)
    requires Tiled(ws, w.from) && w.from <= w.upTo
    ensures Tiled(ws + [w], w.upTo)
  {
    var more := ws + [w];
    forall u: nat | 1 <= u <= w.upTo ensures Crossed(more, u) {
      if u <= w.from {
        assert Crossed(ws, u);
        var i :| 0 <= i < |ws| && Crosses(ws[i], u);
        assert more[i] == ws[i];
      } else {
        assert Crosses(more[|ws|], u);
      }
    }
  }

  lemma CommitHistory(st: State)
    requires Inv(st) && HistoryOk(st) && st.batch.Some? && Finished(st.batch.value)
    ensures HistoryOk(Do(st, CommitBatch))
  {
    var st', b := Do(st, CommitBatch), st.batch.value;
    LastIsHighest(b.ids, st.row.cursor);
    TiledMore(st.windows, Window(st.row.cursor, Last(b.ids, st.row.cursor), b.begun));
    forall i, u | 0 <= i < |st'.windows| ensures WindowOk(st', i, u) {
      if Crosses(st'.windows[i], u) {
        if i < |st.windows| {
          assert WindowOk(st, i, u);
        } else {
          BatchCrosses(b.begun, st.row.cursor, b.ids, u);
          if u in st.done { InDone(st, u); }
        }
      }
    }
  }

  lemma StepHistory(st: State, step: Step)
    requires Inv(st) && HistoryOk(st)
    ensures HistoryOk(Do(st, step))
  {
    hide IsBatch, Tiled;
    if step.CommitBatch? && Enabled(st, step) {
      CommitHistory(st);
    } else {
      var st' := Do(st, step);
      forall i, u | 0 <= i < |st'.windows| ensures WindowOk(st', i, u) { assert WindowOk(st, i, u); }
    }
  }

  lemma {:induction false} RunHistory(st: State, steps: seq<Step>)
    requires Inv(st) && HistoryOk(st)
    ensures HistoryOk(Run(st, steps))
    decreases |steps|
  {
    if steps != [] {
      StepInv(st, steps[0]);
      StepHistory(st, steps[0]);
      RunHistory(Do(st, steps[0]), steps[1..]);
    }
  }

  /** After any run, each user id up to the cursor was crossed by exactly one committed batch, and the
      user was processed if and only if eligible when that batch began. */
  lemma ServedIffEligible(st0: State, steps: seq<Step>, u: nat)
    requires JustCreated(st0) && 1 <= u <= Run(st0, steps).row.cursor
    ensures var st := Run(st0, steps);
            && Crossed(st.windows, u)
            && (forall i, j :: 0 <= i < j < |st.windows| ==> !(Crosses(st.windows[i], u) && Crosses(st.windows[j], u)))
            && (forall i :: 0 <= i < |st.windows| && Crosses(st.windows[i], u) ==>
                              (u in st.done <==> Eligible(st.windows[i].users, u)))
  {
    StartInv(st0);
    RunHistory(st0, steps);
    var st := Run(st0, steps);
    forall i | 0 <= i < |st.windows| && Crosses(st.windows[i], u)
      ensures u in st.done <==> Eligible(st.windows[i].users, u)
    {
      assert WindowOk(st, i, u);
    }
  }

  /** What the cursor column is described to mean: every approved user up to it was processed. */
  predicate CursorMeaning(st: State) {
    forall u :: u in st.users && st.users[u].approved && 1 <= u <= st.row.cursor ==> u in st.done
  }

  /** Who is approved now was eligible when the cursor went past. */
  predicate NoneChangedLate(st: State) {
    forall i, u :: 0 <= i < |st.windows| && u in st.users && st.users[u].approved && Crosses(st.windows[i], u) ==>
                     Eligible(st.windows[i].users, u)
  }

  /** That meaning holds after a run if and only if nobody who is approved by then was approved, or
      stopped blocking the bot, only after the batch that went past had begun. */
  lemma CursorMeaningIff(st0: State, steps: seq<Step>)
    requires JustCreated(st0)
    ensures CursorMeaning(Run(st0, steps)) <==> NoneChangedLate(Run(st0, steps))
  {
    StartInv(st0);
    RunHistory(st0, steps);
    var st := Run(st0, steps);
    forall u | u in st.users && st.users[u].approved && 1 <= u <= st.row.cursor
      ensures Crossed(st.windows, u)
      ensures forall i :: 0 <= i < |st.windows| && Crosses(st.windows[i], u) ==>
                            (u in st.done <==> Eligible(st.windows[i].users, u))
    {
      ServedIffEligible(st0, steps, u);
    }
  }

  const LATE_BEFORE: map<nat, User> := map[1 := User(false, false), 2 := User(true, false)]
  const LATE_AFTER: map<nat, User> := map[1 := User(true, false), 2 := User(true, false)]

  /** A user approved after the cursor went past gets nothing, although the cursor column is described
      as having every approved user up to it processed. */
  lemma LateApprovalMissed(st0: State)
    requires JustCreated(st0) && st0.users == LATE_BEFORE
    ensures var st := Run(st0, [BeginBatch([2]), Copy(Sent), CommitBatch, ChangeUsers(LATE_AFTER), Complete]);
            st.row.status == Completed && Eligible(st.users, 1) && 1 <= st.row.cursor && st.tries[1] == 0
  {
    OnlyTwoServed(st0);
    OneNotAhead(Do(Do(Do(st0, BeginBatch([2])), Copy(Sent)), CommitBatch));
    FiveSteps(st0, BeginBatch([2]), Copy(Sent), CommitBatch, ChangeUsers(LATE_AFTER), Complete);
  }

  lemma OnlyTwoServed(st: State)
    requires JustCreated(st) && st.users == LATE_BEFORE
    ensures var st' := Do(Do(Do(st, BeginBatch([2])), Copy(Sent)), CommitBatch);
            st'.batch.None? && st'.row.status == Running && st'.row.cursor == 2 && st'.tries[1] == 0
  {
    var ids := [2];
    assert Ahead(LATE_BEFORE, 0) == {2};
    assert IsBatch(LATE_BEFORE, 0, BATCH_SIZE, ids);
    var st1 := Do(st, BeginBatch(ids));
    assert Finished(Do(st1, Copy(Sent)).batch.value);
  }

  lemma OneNotAhead(st: State)
    requires st.batch.None? && st.row.status == Running && st.row.cursor == 2 && st.tries[1] == 0
    ensures var st' := Do(Do(st, ChangeUsers(LATE_AFTER)), Complete);
            st'.row.status == Completed && Eligible(st'.users, 1) && st'.row.cursor == 2 && st'.tries[1] == 0
  {
    assert Ahead(LATE_AFTER, 2) == {};
    assert Eligible(LATE_AFTER, 1);
  }

  lemma FiveSteps(st: State, a: Step, b: Step, c: Step, d: Step, e: Step)
    ensures Run(st, [a, b, c, d, e]) == Do(Do(Do(Do(Do(st, a), b), c), d), e)
  {
    TwoThenMore(st, a, b, [c, d, e]);
    TwoThenMore(Do(Do(st, a), b), c, d, [e]);
    assert [a, b] + [c, d, e] == [a, b, c, d, e] && [c, d] + [e] == [c, d, e];
    var last := Do(Do(Do(Do(st, a), b), c), d);
    assert Run(last, [e]) == Run(Do(last, e), []);
  }

  lemma TwoThenMore(st: State, a: Step, b: Step, rest: seq<Step>)
    ensures Run(st, [a, b] + rest) == Run(Do(Do(st, a), b), rest)
  {
    assert ([a, b] + rest)[1..] == [b] + rest;
    assert ([b] + rest)[1..] == rest;
    assert Run(st, [a, b] + rest) == Run(Do(st, a), [b] + rest);
  }

  // ---------- The loop is such a run ----------

  function Copies(outcomes: seq<Outcome>): seq<Step> {
    seq(|outcomes|, i requires 0 <= i < |outcomes| => Copy(outcomes[i]))
  }

  lemma {:induction false} RunConcat(st: State, a: seq<Step>, b: seq<Step>)
    ensures Run(st, a + b) == Run(Run(st, a), b)
    decreases |a|
  {
    if a == [] {
      assert a + b == b;
    } else {
      RunConcat(Do(st, a[0]), a[1..], b);
      assert (a + b)[1..] == a[1..] + b;
    }
  }

  lemma {:induction false} CopiesRun(st: State, ids: seq<nat>, users: map<nat, User>, outcomes: seq<Outcome>)
    requires st.batch == Some(Batch(ids, [], users)) && |outcomes| <= |ids|
    ensures var st' := Run(st, Copies(outcomes));
            st'.batch == Some(Batch(ids, outcomes, users)) && st'.users == st.users && st'.row == st.row
    decreases |outcomes|
  {
    if outcomes != [] {
      var n := |outcomes| - 1;
      CopiesRun(st, ids, users, outcomes[..n]);
      assert Copies(outcomes) == Copies(outcomes[..n]) + [Copy(outcomes[n])];
      RunConcat(st, Copies(outcomes[..n]), [Copy(outcomes[n])]);
      var mid := Run(st, Copies(outcomes[..n]));
      assert Run(mid, [Copy(outcomes[n])]) == Do(mid, Copy(outcomes[n]));
      assert outcomes[..n] + [outcomes[n]] == outcomes;
    }
  }

  /** One uninterrupted call of `RunOneBatch` is a run of these steps: same row, same flags. */
  lemma BatchIsARun(st: State, ids: seq<nat>, telegram: nat -> Replies)
    requires st.batch.None? && st.row.status == Running && ids != []
             && IsBatch(st.users, st.row.cursor, BATCH_SIZE, ids)
    ensures var o := Outcomes(ids, telegram);
            var st' := Run(st, [BeginBatch(ids)] + Copies(o) + [CommitBatch]);
            && st'.row == Recorded(st.row, ids, o) && st'.users == Flagged(st.users, ids, o) && st'.batch.None?
  {
    var o := Outcomes(ids, telegram);
    var st1 := Do(st, BeginBatch(ids));
    RunConcat(st, [BeginBatch(ids)] + Copies(o), [CommitBatch]);
    RunConcat(st, [BeginBatch(ids)], Copies(o));
    assert Run(st, [BeginBatch(ids)]) == st1;
    CopiesRun(st1, ids, st.users, o);
    var st2 := Run(st1, Copies(o));
    assert Run(st2, [CommitBatch]) == Do(st2, CommitBatch);
  }
}
