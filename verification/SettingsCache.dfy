/**
 The settings cache (`app/services/settings_service.py`): a read-through cache with a 60 second
 lifetime that a write clears before its transaction commits.
 */
module SettingsCache {
  import opened Common

  const TTL: int := 60

  // ---------- One call at a time ----------

  datatype Entry = Entry(value: string, expires: int)

  class SettingsService {
    var table: map<string, string>
    var cache: map<string, Entry>

    constructor (table: map<string, string>)
      ensures Valid() && this.table == table
    {
      this.table := table;
      cache := map[];
    }

    /** What is cached, expired or not, is what the table holds. */
    ghost predicate Valid()
      reads this
    {
      forall k :: k in cache ==> k in table && cache[k].value == table[k]
    }

    method Get(key: string, now: int) returns (r: Option<string>)
      requires Valid()
      modifies this`cache
      ensures Valid()
      ensures r == if key in table then Some(table[key]) else None
      ensures cache == if key in old(cache) && now < old(cache)[key].expires then old(cache)
                       else if key in table then old(cache)[key := Entry(table[key], now + TTL)]
                       else old(cache)
    {
      if key in cache && now < cache[key].expires {
        return Some(cache[key].value);
      }
      if key in table {
        cache := cache[key := Entry(table[key], now + TTL)];
        return Some(table[key]);
      }
      return None;
    }

    /** `set`, with the commit that follows it; a rolled back `set` has cleared the cache all the same. */
    method Set(key: string, value: string, commits: bool)
      requires Valid()
      modifies this
      ensures Valid()
      ensures table == if commits then old(table)[key := value] else old(table)
      ensures cache == old(cache) - {key}
    {
      cache := cache - {key};
      if commits {
        table := table[key := value];
      }
    }
  }

  // ---------- Calls that overlap ----------

  /** The committed values of one key, each from its commit to the next one. */
  datatype Version = Version(since: int, value: Option<string>)

  /** A reader that missed the cache; `readAt` is the moment whose committed value it sees. */
  datatype Reader = Reader(readAt: int, value: Option<string>)

  datatype Cached = Cached(value: string, readAt: int, filledAt: int)

  /** One value given to a caller; `at - filledAt` is how long it had been in the cache. */
  datatype Returned = Returned(at: int, value: Option<string>, readAt: int, filledAt: int)

  datatype State = State(
    now: int,
    history: seq<Version>,
    cache: Option<Cached>,
    readers: map<nat, Reader>,
    writers: map<nat, string>,
    log: seq<Returned>)

  datatype Step =
    | Wait(seconds: nat)
    | Hit
    | Read(reader: nat)
    | Fill(reader: nat)
    | Write(writer: nat, value: string)
    | Invalidate(writer: nat)
    | Commit(writer: nat)
    | Abort(writer: nat)

  function Current(st: State): Option<string>
    requires st.history != []
  {
    st.history[|st.history| - 1].value
  }

  predicate Live(st: State) {
    st.cache.Some? && st.now < st.cache.value.filledAt + TTL
  }

  function Do(st: State, step: Step): State
    requires st.history != []
  {
    match step
    case Wait(seconds) => st.(now := st.now + seconds)
    case Hit =>
      if !Live(st) then st
      else
        var c := st.cache.value;
        st.(log := st.log + [Returned(st.now, Some(c.value), c.readAt, c.filledAt)])
    case Read(r) => st.(readers := st.readers[r := Reader(st.now, Current(st))])
    case Fill(r) =>
      if r !in st.readers then st
      else
        var reader := st.readers[r];
        st.(readers := st.readers - {r},
            cache := if reader.value.Some? then Some(Cached(reader.value.value, reader.readAt, st.now)) else st.cache,
            log := st.log + [Returned(st.now, reader.value, reader.readAt, st.now)])
    case Write(w, value) => st.(writers := st.writers[w := value])
    case Invalidate(w) => st.(cache := None)
    case Commit(w) =>
      if w !in st.writers then st
      else st.(writers := st.writers - {w}, history := st.history + [Version(st.now, Some(st.writers[w]))])
    case Abort(w) => st.(writers := st.writers - {w})
  }

  /** The value was the committed one at time u. */
  ghost predicate HeldAt(history: seq<Version>, value: Option<string>, u: int) {
    exists i :: 0 <= i < |history| && HeldBy(history, i, value, u)
  }

  predicate HeldBy(history: seq<Version>, i: nat, value: Option<string>, u: int)
    requires i < |history|
  {
    history[i].value == value && history[i].since <= u && (i + 1 < |history| ==> u <= history[i + 1].since)
  }

  /** Read, then filled, then returned within the lifetime of the entry; and true when it was read. */
  ghost predicate ReturnOk(st: State, r: Returned) {
    HeldAt(st.history, r.value, r.readAt) && r.readAt <= r.filledAt <= r.at < r.filledAt + TTL && r.at <= st.now
  }

  predicate Ordered(history: seq<Version>, now: int) {
    && history != [] && history[|history| - 1].since <= now
    && (forall i, j :: 0 <= i < j < |history| ==> history[i].since <= history[j].since)
  }

  ghost predicate Inv(st: State) {
    && Ordered(st.history, st.now)
    && (st.cache.Some? ==> var c := st.cache.value;
                           HeldAt(st.history, Some(c.value), c.readAt) && c.readAt <= c.filledAt <= st.now)
    && (forall r :: r in st.readers ==>
          HeldAt(st.history, st.readers[r].value, st.readers[r].readAt) && st.readers[r].readAt <= st.now)
    && (forall i :: 0 <= i < |st.log| ==> ReturnOk(st, st.log[i]))
  }

  function Run(st: State, steps: seq<Step>): (end: State)
    requires st.history != []
    ensures end.history != []
    decreases |steps|
  {
    if steps == [] then st else Run(Do(st, steps[0]), steps[1..])
  }

  function Initial(now: int, value: Option<string>): State {
    State(now, [Version(now, value)], None, map[], map[], [])
  }

  lemma HeldLater(history: seq<Version>, v: Version, value: Option<string>, u: int)
    requires HeldAt(history, value, u) && u <= v.since
    ensures HeldAt(history + [v], value, u)
  {
    var i :| 0 <= i < |history| && HeldBy(history, i, value, u);
    assert HeldBy(history + [v], i, value, u);
  }

  lemma CommitInv(st: State, w: nat)
    requires Inv(st) && w in st.writers
    ensures Inv(Do(st, Commit(w)))
  {
    var st' := Do(st, Commit(w));
    var v := Version(st.now, Some(st.writers[w]));
    if st.cache.Some? { HeldLater(st.history, v, Some(st.cache.value.value), st.cache.value.readAt); }
    forall r | r in st'.readers ensures HeldAt(st'.history, st'.readers[r].value, st'.readers[r].readAt) {
      HeldLater(st.history, v, st.readers[r].value, st.readers[r].readAt);
    }
    forall i | 0 <= i < |st'.log| ensures ReturnOk(st', st'.log[i]) {
      assert ReturnOk(st, st.log[i]);
      HeldLater(st.history, v, st.log[i].value, st.log[i].readAt);
    }
  }

  lemma StepInv(st: State, step: Step)
    requires Inv(st)
    ensures Inv(Do(st, step))
  {
    var st' := Do(st, step);
    match step
    case Commit(w) => if w in st.writers { CommitInv(st, w); }
    case Read(r) => {
      assert HeldBy(st.history, |st.history| - 1, Current(st), st.now);
    }
    case _ => {
      forall i | 0 <= i < |st.log| ensures ReturnOk(st', st.log[i]) { assert ReturnOk(st, st.log[i]); }
    }
  }

  lemma {:induction false} RunInv(st: State, steps: seq<Step>)
    requires Inv(st)
    ensures Inv(Run(st, steps))
    decreases |steps|
  {
    if steps != [] {
      StepInv(st, steps[0]);
      RunInv(Do(st, steps[0]), steps[1..]);
    }
  }

  /** However calls, writes and expiries interleave: a value returned at time t was the committed one
      at some time no earlier than t - 60 less the delay between that value's read and its caching. */
  lemma ReturnedWasCommitted(now: int, value: Option<string>, steps: seq<Step>, i: nat)
    requires i < |Run(Initial(now, value), steps).log|
    ensures var st := Run(Initial(now, value), steps);
            var r := st.log[i];
            HeldAt(st.history, r.value, r.readAt) && r.at - TTL - (r.filledAt - r.readAt) < r.readAt <= r.at
  {
    var st := Initial(now, value);
    assert HeldBy(st.history, 0, value, now);
    RunInv(st, steps);
    assert ReturnOk(Run(st, steps), Run(st, steps).log[i]);
  }

  /** An edit shows once the cache lifetime and the slowest read have passed since it committed. */
  lemma FreshOnceQuiet(now: int, value: Option<string>, steps: seq<Step>, i: nat, delay: nat)
    requires i < |Run(Initial(now, value), steps).log|
    requires var st := Run(Initial(now, value), steps);
             var r := st.log[i];
             r.filledAt - r.readAt <= delay && st.history[|st.history| - 1].since <= r.at - TTL - delay
    ensures var st := Run(Initial(now, value), steps); st.log[i].value == Current(st)
  {
    var st := Run(Initial(now, value), steps);
    ReturnedWasCommitted(now, value, steps, i);
    assert HeldBy(Initial(now, value).history, 0, value, now);
    RunInv(Initial(now, value), steps);
    LastHeld(st.history, st.log[i].value, st.log[i].readAt, st.now);
  }

  lemma LastHeld(history: seq<Version>, value: Option<string>, u: int, now: int)
    requires Ordered(history, now) && HeldAt(history, value, u) && history[|history| - 1].since < u
    ensures value == history[|history| - 1].value
  {
    var k :| 0 <= k < |history| && HeldBy(history, k, value, u);
    assert k == |history| - 1;
  }

  // ---------- When an edit shows at once ----------

  predicate NoCommit(steps: seq<Step>) {
    forall i :: 0 <= i < |steps| ==> !steps[i].Commit?
  }

  /** Whatever happens until the next commit, callers get the committed value. */
  ghost predicate ShowsFrom(st: State, value: string)
    requires st.history != []
  {
    forall steps, i :: NoCommit(steps) && |st.log| <= i < |Run(st, steps).log| ==>
        Run(st, steps).log[i].value == Some(value)
  }

  /** Nobody can still hand out another value: not the cache, and no reader that is about to fill it. */
  predicate NothingElseHeld(st: State, value: string) {
    && (Live(st) ==> st.cache.value.value == value)
    && (forall r :: r in st.readers ==> st.readers[r].value == Some(value))
  }

  lemma StepHolds(st: State, step: Step, value: string)
    requires st.history != [] && Current(st) == Some(value) && NothingElseHeld(st, value) && !step.Commit?
    ensures var st' := Do(st, step);
            && Current(st') == Some(value) && NothingElseHeld(st', value) && st.log <= st'.log
            && (forall i :: |st.log| <= i < |st'.log| ==> st'.log[i].value == Some(value))
  {
  }

  lemma {:induction false} RunHolds(st: State, steps: seq<Step>, value: string)
    requires st.history != [] && Current(st) == Some(value) && NothingElseHeld(st, value) && NoCommit(steps)
    ensures st.log <= Run(st, steps).log
    ensures forall i :: |st.log| <= i < |Run(st, steps).log| ==> Run(st, steps).log[i].value == Some(value)
    decreases |steps|
  {
    if steps != [] {
      assert !steps[0].Commit?;
      StepHolds(st, steps[0], value);
      RunHolds(Do(st, steps[0]), steps[1..], value);
    }
  }

  lemma RunOne(st: State, step: Step)
    requires st.history != []
    ensures Run(st, [step]) == Do(st, step)
  {
    assert [step][1..] == [];
  }

  /** An edit shows at once, in every continuation until the next commit, if and only if when it commits
      the entry in the cache, if still alive, and every reader that has not filled it yet hold the new
      value already. */
  lemma EditShowsAtOnceIff(st: State, w: nat)
    requires st.history != [] && w in st.writers
    ensures ShowsFrom(Do(st, Commit(w)), st.writers[w]) <==> NothingElseHeld(st, st.writers[w])
  {
    var v, st' := st.writers[w], Do(st, Commit(w));
    if NothingElseHeld(st, v) {
      forall steps, i | NoCommit(steps) && |st'.log| <= i < |Run(st', steps).log|
        ensures Run(st', steps).log[i].value == Some(v)
      {
        RunHolds(st', steps, v);
      }
    } else {
      var r: nat :| (Live(st) && st.cache.value.value != v) || (r in st.readers && st.readers[r].value != Some(v));
      var step := if Live(st) && st.cache.value.value != v then Hit else Fill(r);
      RunOne(st', step);
      assert NoCommit([step]) && Run(st', [step]).log[|st'.log|].value != Some(v);
    }
  }

  /** So an edit that no other read overlaps shows at once. */
  lemma QuietEditShows(st: State, w: nat, value: string)
    requires st.history != [] && st.readers == map[]
    ensures ShowsFrom(Run(st, [Write(w, value), Invalidate(w), Commit(w)]), value)
  {
    var st1 := Do(st, Write(w, value));
    var st2 := Do(st1, Invalidate(w));
    EditShowsAtOnceIff(st2, w);
    var rest := [Invalidate(w), Commit(w)];
    assert [Write(w, value), Invalidate(w), Commit(w)][1..] == rest && rest[1..] == [Commit(w)];
    RunOne(st2, Commit(w));
  }

  /** Clearing before the commit leaves a gap: a reader in it caches the old value, and callers keep
      getting that one after the commit. */
  lemma EditCanStayHidden()
    ensures var st := Run(Initial(0, Some("old")),
              [Write(1, "new"), Invalidate(1), Read(2), Fill(2), Commit(1), Wait(59), Hit]);
            && Current(st) == Some("new")
            && st.log[|st.log| - 1] == Returned(59, Some("old"), 0, 0)
  {
  }
}
