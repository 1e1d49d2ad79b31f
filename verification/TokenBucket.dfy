/**
 The token bucket that paces broadcasts (`app/utils/rate_limiter.py`), over real numbers.

 The lock makes each check of the balance one step, so concurrent `acquire` calls are a sequence of
 checks, in clock order. A call that fails a check sleeps and checks again later.
 */
module TokenBucket {
  import opened Common

  datatype Config = Config(rate: real, capacity: real) {
    predicate Valid() {
      rate > 0.0 && capacity > 0.0
    }
  }

  datatype Balance = Balance(tokens: real, last: real)

  datatype BucketError = RateNotPositive | CapacityNotPositive | TokensNotPositive | MoreThanCapacity

  function RMin(x: real, y: real): real {
    if x <= y then x else y
  }

  function RMax(x: real, y: real): real {
    if x >= y then x else y
  }

  function Refill(c: Config, b: Balance, now: real): Balance {
    Balance(RMin(c.capacity, b.tokens + RMax(0.0, now - b.last) * c.rate), now)
  }

  function Spend(b: Balance, tokens: real): Balance {
    if b.tokens >= tokens then b.(tokens := b.tokens - tokens) else b
  }

  // ---------- The object ----------

  class Bucket {
    const config: Config
    var tokens: real
    var last: real

    constructor (config: Config, now: real)
      ensures this.config == config && Now() == Balance(config.capacity, now)
    {
      this.config := config;
      tokens, last := config.capacity, now;
    }

    function Now(): Balance
      reads this
    {
      Balance(tokens, last)
    }

    ghost predicate Valid()
      reads this
    {
      config.Valid() && 0.0 <= tokens <= config.capacity
    }

    /** One pass of the loop in `acquire`: granted, or how long to sleep. */
    method Check(amount: real, now: real) returns (wait: Option<real>)
      requires Valid() && 0.0 < amount
      modifies this
      ensures Valid()
      ensures wait == None <==> Refill(config, old(Now()), now).tokens >= amount
      ensures Now() == Spend(Refill(config, old(Now()), now), amount)
      ensures wait.Some? ==> wait.value > 0.0 && tokens + wait.value * config.rate == amount
    {
      var elapsed := RMax(0.0, now - last);
      last := now;
      assert elapsed * config.rate >= 0.0;
      tokens := RMin(config.capacity, tokens + elapsed * config.rate);
      if tokens >= amount {
        tokens := tokens - amount;
        return None;
      }
      var deficit := amount - tokens;
      PositiveQuotient(deficit, config.rate);
      return Some(deficit / config.rate);
    }

    /** `acquire` by a caller that nobody competes with. The k-th sleep ends `lag(k)` late. */
    method AcquireAlone(amount: real, now: real, lag: nat -> real)
      returns (r: Result<nat, BucketError>, end: real)
      requires Valid() && forall k :: lag(k) >= 0.0
      modifies this
      ensures Valid()
      ensures r == Err(TokensNotPositive) <==> amount <= 0.0
      ensures r == Err(MoreThanCapacity) <==> 0.0 < amount && config.capacity < amount
      ensures r.Err? ==> Now() == old(Now()) && end == now
      ensures r.Ok? ==> r.value == if Refill(config, old(Now()), now).tokens >= amount then 1 else 2
      ensures r == Ok(1) ==> end == now && Now() == Spend(Refill(config, old(Now()), now), amount)
      ensures r == Ok(2) ==> now < end && Now() == Spend(Refill(config, Refill(config, old(Now()), now), end), amount)
                              && Refill(config, Refill(config, old(Now()), now), end).tokens >= amount
    {
      end := now;
      if amount <= 0.0 {
        return Err(TokensNotPositive), end;
      }
      if amount > config.capacity {
        return Err(MoreThanCapacity), end;
      }
      var checks := 0;
      ghost var first := Refill(config, Now(), now).tokens >= amount;
      ghost var slept := 0.0;
      while true
        invariant Valid() && checks <= 1 && end >= now
        invariant checks == 0 ==> Now() == old(Now()) && end == now
        invariant checks == 1 ==> Now() == Refill(config, old(Now()), now)
        invariant checks == 1 ==> !first && now < end && slept > 0.0
                                  && end >= last + slept && tokens + slept * config.rate == amount
        decreases 1 - checks
      {
        if checks == 1 {
          SleptEnough(config, Now(), amount, slept, end);
        }
        var wait := Check(amount, end);
        checks := checks + 1;
        if wait.None? {
          return Ok(checks), end;
        }
        slept := wait.value;
        end := end + wait.value + lag(checks - 1);
      }
    }
  }

  /** `AsyncTokenBucket(rate, capacity)`: a missing capacity is one second's worth. */
  method NewBucket(rate: real, capacity: Option<real>, now: real) returns (r: Result<Bucket, BucketError>)
    ensures r == Err(RateNotPositive) <==> rate <= 0.0
    ensures r == Err(CapacityNotPositive) <==> rate > 0.0 && capacity.Some? && capacity.value <= 0.0
    ensures r.Ok? ==> fresh(r.value) && r.value.Valid()
                      && r.value.config == Config(rate, if capacity.Some? then capacity.value else rate)
                      && r.value.Now() == Balance(r.value.config.capacity, now)
  {
    if rate <= 0.0 {
      return Err(RateNotPositive);
    }
    var cap := if capacity.Some? then capacity.value else rate;
    if cap <= 0.0 {
      return Err(CapacityNotPositive);
    }
    var bucket := new Bucket(Config(rate, cap), now);
    return Ok(bucket);
  }

  lemma PositiveQuotient(x: real, y: real)
    requires x > 0.0 && y > 0.0
    ensures x / y > 0.0 && (x / y) * y == x
  {
  }

  /** Sleeping deficit/rate or longer refills the bucket to what the caller wants. */
  lemma SleptEnough(c: Config, b: Balance, amount: real, slept: real, now: real)
    requires c.Valid() && amount <= c.capacity && slept > 0.0
    requires b.tokens + slept * c.rate == amount && now >= b.last + slept
    ensures Refill(c, b, now).tokens >= amount
  {
    MulMonotone(slept, now - b.last, c.rate);
  }

  lemma MulMonotone(x: real, y: real, z: real)
    requires x <= y && z >= 0.0
    ensures x * z <= y * z
  {
    assert (y - x) * z >= 0.0;
  }

  // ---------- Traces ----------

  /** One check by some `acquire` call. */
  datatype CheckEvent = CheckEvent(at: real, amount: real)

  predicate Grants(c: Config, b: Balance, e: CheckEvent) {
    Refill(c, b, e.at).tokens >= e.amount
  }

  function After(c: Config, b: Balance, e: CheckEvent): Balance {
    Spend(Refill(c, b, e.at), e.amount)
  }

  function AfterAll(c: Config, b: Balance, es: seq<CheckEvent>): Balance
    decreases |es|
  {
    if es == [] then b else AfterAll(c, After(c, b, es[0]), es[1..])
  }

  /** Checks that `acquire` lets through its argument tests, on a clock that does not step back. */
  ghost predicate Trace(c: Config, last: real, es: seq<CheckEvent>)
    decreases |es|
  {
    es == [] || (last <= es[0].at && 0.0 < es[0].amount <= c.capacity && Trace(c, es[0].at, es[1..]))
  }

  /** The tokens handed out from time s to time t. */
  function Granted(c: Config, b: Balance, es: seq<CheckEvent>, s: real, t: real): real
    decreases |es|
  {
    if es == [] then 0.0
    else
      (if Grants(c, b, es[0]) && s <= es[0].at <= t then es[0].amount else 0.0)
      + Granted(c, After(c, b, es[0]), es[1..], s, t)
  }

  predicate InRange(c: Config, b: Balance) {
    0.0 <= b.tokens <= c.capacity
  }

  lemma StaysInRange(c: Config, b: Balance, e: CheckEvent)
    requires c.Valid() && InRange(c, b) && 0.0 < e.amount
    ensures InRange(c, After(c, b, e))
  {
    assert RMax(0.0, e.at - b.last) * c.rate >= 0.0;
  }

  /** After any trace the balance lies between nothing and the capacity. */
  lemma {:induction false} BalanceInRange(c: Config, b: Balance, es: seq<CheckEvent>)
    requires c.Valid() && InRange(c, b) && Trace(c, b.last, es)
    ensures InRange(c, AfterAll(c, b, es))
    decreases |es|
  {
    if es != [] {
      StaysInRange(c, b, es[0]);
      BalanceInRange(c, After(c, b, es[0]), es[1..]);
    }
  }

  lemma {:induction false} NothingAfter(c: Config, b: Balance, es: seq<CheckEvent>, s: real, t: real)
    requires Trace(c, b.last, es) && t < b.last
    ensures Granted(c, b, es, s, t) == 0.0
    decreases |es|
  {
    if es != [] { NothingAfter(c, After(c, b, es[0]), es[1..], s, t); }
  }

  /** What flows in from time u to time v. */
  function Inflow(c: Config, u: real, v: real): real {
    c.rate * (v - u)
  }

  lemma InflowAdds(c: Config, u: real, v: real, w: real)
    ensures Inflow(c, u, w) == Inflow(c, u, v) + Inflow(c, v, w)
  {
  }

  lemma InflowPositive(c: Config, u: real, v: real)
    requires c.Valid() && u <= v
    ensures Inflow(c, u, v) >= 0.0
  {
  }

  /** A check hands out nothing that was not there or did not flow in. */
  lemma CheckConserves(c: Config, b: Balance, e: CheckEvent)
    requires c.Valid() && InRange(c, b) && b.last <= e.at
    ensures var out := if Grants(c, b, e) then e.amount else 0.0;
            && After(c, b, e).tokens + out <= b.tokens + Inflow(c, b.last, e.at)
            && After(c, b, e).tokens + out <= c.capacity
            && After(c, b, e).last == e.at
  {
  }

  /** What can be handed out by time t is what is there now and what flows in. */
  lemma {:induction false} GrantedFromBalance(c: Config, b: Balance, es: seq<CheckEvent>, s: real, t: real)
    requires c.Valid() && InRange(c, b) && Trace(c, b.last, es)
    requires b.last <= t
    ensures Granted(c, b, es, s, t) <= b.tokens + Inflow(c, b.last, t)
    decreases |es|
  {
    InflowPositive(c, b.last, t);
    if es != [] {
      var e, b' := es[0], After(c, b, es[0]);
      StaysInRange(c, b, e);
      CheckConserves(c, b, e);
      if t < e.at {
        NothingAfter(c, b', es[1..], s, t);
      } else {
        GrantedFromBalance(c, b', es[1..], s, t);
        InflowAdds(c, b.last, e.at, t);
      }
    }
  }

  /** The rate limit: however the calls interleave, no window of any length is handed more than one
      full bucket and what flows in during the window. */
  lemma {:induction false} WindowBound(c: Config, b: Balance, es: seq<CheckEvent>, s: real, t: real)
    requires c.Valid() && InRange(c, b) && Trace(c, b.last, es) && s <= t
    ensures Granted(c, b, es, s, t) <= c.capacity + Inflow(c, s, t)
    decreases |es|
  {
    InflowPositive(c, s, t);
    if es != [] {
      var e, b' := es[0], After(c, b, es[0]);
      StaysInRange(c, b, e);
      CheckConserves(c, b, e);
      if e.at < s {
        WindowBound(c, b', es[1..], s, t);
      } else if t < e.at {
        NothingAfter(c, b', es[1..], s, t);
      } else {
        GrantedFromBalance(c, b', es[1..], s, t);
        InflowAdds(c, s, e.at, t);
        InflowPositive(c, s, e.at);
      }
    }
  }

  function Wanted(es: seq<CheckEvent>): real
    decreases |es|
  {
    if es == [] then 0.0 else es[0].amount + Wanted(es[1..])
  }

  lemma {:induction false} WantedPositive(c: Config, last: real, es: seq<CheckEvent>)
    requires Trace(c, last, es)
    ensures Wanted(es) >= 0.0
    decreases |es|
  {
    if es != [] { WantedPositive(c, es[0].at, es[1..]); }
  }

  /** Calls that together want no more than the balance all pass without waiting. */
  lemma {:induction false} BurstPasses(c: Config, b: Balance, es: seq<CheckEvent>, i: nat)
    requires c.Valid() && InRange(c, b) && Trace(c, b.last, es)
    requires Wanted(es) <= b.tokens && i < |es|
    ensures Grants(c, AfterAll(c, b, es[..i]), es[i])
    decreases |es|
  {
    var e, b' := es[0], After(c, b, es[0]);
    assert RMax(0.0, e.at - b.last) * c.rate >= 0.0;
    WantedPositive(c, e.at, es[1..]);
    StaysInRange(c, b, e);
    if i == 0 {
      assert es[..i] == [];
    } else {
      BurstPasses(c, b', es[1..], i - 1);
      assert es[..i][0] == e && es[..i][1..] == es[1..][..i - 1];
    }
  }

  // ---------- How much one second can see ----------

  function Burst(at: real, n: nat): seq<CheckEvent> {
    if n == 0 then [] else [CheckEvent(at, 1.0)] + Burst(at, n - 1)
  }

  /** Equal checks at equal distances. */
  function Drip(gap: real, amount: real, from: real, n: nat): seq<CheckEvent>
    decreases n
  {
    if n == 0 then [] else [CheckEvent(from + gap, amount)] + Drip(gap, amount, from + gap, n - 1)
  }

  /** Between two checks exactly what one of them wants flows in. */
  predicate Paced(c: Config, gap: real, amount: real) {
    gap > 0.0 && 0.0 < amount <= c.capacity && gap * c.rate == amount
  }

  lemma {:induction false} DripTrace(c: Config, gap: real, amount: real, from: real, n: nat)
    requires c.Valid() && Paced(c, gap, amount)
    ensures Trace(c, from, Drip(gap, amount, from, n))
    decreases n
  {
    if n > 0 {
      DripTrace(c, gap, amount, from + gap, n - 1);
      assert Drip(gap, amount, from, n)[1..] == Drip(gap, amount, from + gap, n - 1);
    }
  }

  lemma {:induction false} BurstTrace(c: Config, at: real, n: nat, rest: seq<CheckEvent>)
    requires c.Valid() && 1.0 <= c.capacity && Trace(c, at, rest)
    ensures Trace(c, at, Burst(at, n) + rest)
  {
    if n == 0 {
      assert Burst(at, n) + rest == rest;
    } else {
      BurstTrace(c, at, n - 1, rest);
      assert (Burst(at, n) + rest)[1..] == Burst(at, n - 1) + rest;
    }
  }

  lemma {:induction false} BurstGranted(c: Config, b: Balance, n: nat, rest: seq<CheckEvent>, s: real, t: real)
    requires c.Valid() && InRange(c, b) && n as real <= b.tokens && s <= b.last <= t
    ensures Granted(c, b, Burst(b.last, n) + rest, s, t)
            == n as real + Granted(c, Balance(b.tokens - n as real, b.last), rest, s, t)
    decreases n
  {
    if n == 0 {
      assert Burst(b.last, n) + rest == rest;
    } else {
      var b' := Balance(b.tokens - 1.0, b.last);
      assert After(c, b, CheckEvent(b.last, 1.0)) == b';
      BurstGranted(c, b', n - 1, rest, s, t);
      assert (Burst(b.last, n) + rest)[1..] == Burst(b.last, n - 1) + rest;
    }
  }

  lemma DripCheck(c: Config, gap: real, amount: real, last: real)
    requires c.Valid() && Paced(c, gap, amount)
    ensures var e := CheckEvent(last + gap, amount);
            && gap > 0.0 && Grants(c, Balance(0.0, last), e) && After(c, Balance(0.0, last), e) == Balance(0.0, e.at)
  {
    assert (last + gap) - last == gap;
  }

  /** The same amount n times. */
  function Times(x: real, n: nat): real {
    if n == 0 then 0.0 else x + Times(x, n - 1)
  }

  lemma {:induction false} TimesIsProduct(x: real, n: nat)
    ensures Times(x, n) == x * n as real
  {
    if n > 0 {
      TimesIsProduct(x, n - 1);
      OneMore(x, (n - 1) as real);
    }
  }

  lemma OneMore(x: real, y: real)
    ensures x * (y + 1.0) == x + x * y
  {
  }

  lemma {:induction false} TimesPositive(x: real, n: nat)
    requires x > 0.0
    ensures Times(x, n) >= 0.0
  {
    if n > 0 { TimesPositive(x, n - 1); }
  }

  /** An empty bucket hands out whatever flows in, if it is asked for often enough. */
  lemma {:induction false} DripGranted(c: Config, gap: real, amount: real, last: real, n: nat, s: real, t: real)
    requires c.Valid() && Paced(c, gap, amount)
    requires s <= last && last + Times(gap, n) <= t
    ensures Granted(c, Balance(0.0, last), Drip(gap, amount, last, n), s, t) == Times(amount, n)
    decreases n
  {
    hide Grants, After, Paced;
    if n > 0 {
      DripCheck(c, gap, amount, last);
      TimesPositive(gap, n - 1);
      DripGranted(c, gap, amount, last + gap, n - 1, s, t);
      assert Drip(gap, amount, last, n)[1..] == Drip(gap, amount, last + gap, n - 1);
    }
  }

  // ---------- Exactly which limits are kept ----------

  /** What a new bucket hands out from time s on, for a time of length d. */
  function InWindow(c: Config, start: real, es: seq<CheckEvent>, s: real, d: real): real {
    Granted(c, Balance(c.capacity, start), es, s, s + d)
  }

  ghost predicate Units(es: seq<CheckEvent>) {
    forall i :: 0 <= i < |es| ==> es[i].amount == 1.0
  }

  /** No window of length d of any trace of a new bucket is handed more than the limit. */
  ghost predicate KeepsLimit(c: Config, d: real, limit: real) {
    forall start, es, s :: Trace(c, start, es) ==> InWindow(c, start, es, s, d) <= limit
  }

  /** The same where every call takes one token, as the senders do. */
  ghost predicate KeepsCount(c: Config, d: real, limit: int) {
    forall start, es, s :: Trace(c, start, es) && Units(es) ==> InWindow(c, start, es, s, d) <= limit as real
  }

  /** The bound is tight for every window length: some trace is handed a full bucket and all that
      flows in. */
  lemma BoundIsReached(c: Config, now: real, d: real)
    requires c.Valid() && d >= 0.0
    ensures exists es :: Trace(c, now, es) && InWindow(c, now, es, now, d) == c.capacity + Inflow(c, now, now + d)
  {
    if d == 0.0 {
      FullThenDrip(c, 0.0, c.capacity, 0, now, d);
    } else {
      PositiveQuotient(d * c.rate, c.capacity);
      var k := Pieces(d * c.rate / c.capacity);
      PiecesPaced(c, d, k);
      FullThenDrip(c, d / k as real, d * c.rate / k as real, k, now, d);
      assert (now + d) - now == d;
    }
  }

  lemma FullThenDrip(c: Config, gap: real, amount: real, k: nat, now: real, d: real)
    requires c.Valid() && (k > 0 ==> Paced(c, gap, amount)) && gap * k as real == d >= 0.0
    ensures var es := [CheckEvent(now, c.capacity)] + Drip(gap, amount, now, k);
            Trace(c, now, es) && InWindow(c, now, es, now, d) == c.capacity + amount * k as real
  {
    var full, drip := CheckEvent(now, c.capacity), Drip(gap, amount, now, k);
    if k > 0 {
      DripTrace(c, gap, amount, now, k);
      TimesIsProduct(gap, k);
      TimesIsProduct(amount, k);
      DripGranted(c, gap, amount, now, k, now, now + d);
    }
    FullGranted(c, now);
    assert ([full] + drip)[1..] == drip;
    var empty := Balance(0.0, now);
    assert Granted(c, empty, drip, now, now + d) == amount * k as real;
  }

  lemma FullGranted(c: Config, now: real)
    requires c.Valid()
    ensures var e := CheckEvent(now, c.capacity);
            && Grants(c, Balance(c.capacity, now), e) && After(c, Balance(c.capacity, now), e) == Balance(0.0, now)
  {
  }

  /** In how many pieces an inflow is asked for, so that each fits into a bucket that it would fill q times. */
  function Pieces(q: real): nat
    requires q >= 0.0
  {
    q.Floor + 1
  }

  lemma PiecesPaced(c: Config, d: real, k: nat)
    requires c.Valid() && d > 0.0 && d * c.rate / c.capacity >= 0.0 && k == Pieces(d * c.rate / c.capacity)
    ensures Paced(c, d / k as real, d * c.rate / k as real)
    ensures d / k as real * k as real == d && d * c.rate / k as real * k as real == d * c.rate
  {
    var y, x := k as real, d * c.rate;
    assert x > 0.0;
    PositiveQuotient(d, y);
    PositiveQuotient(x, y);
    PositiveQuotient(x, c.capacity);
    var q := x / c.capacity;
    MulMonotone(q, y, c.capacity);
    SmallerQuotient(x, y, c.capacity);
    assert d / y * c.rate == x / y;
  }

  lemma SmallerQuotient(x: real, y: real, z: real)
    requires y > 0.0 && x <= y * z
    ensures x / y <= z
  {
    var r := x / y;
    assert r * y == x;
    if r > z { assert (r - z) * y > 0.0; }
  }

  /** A limit on the tokens of a window is kept if and only if a full bucket and the inflow of the window
      stay within it. */
  lemma LimitKeptIff(c: Config, d: real, limit: real)
    requires c.Valid() && d >= 0.0
    ensures KeepsLimit(c, d, limit) <==> c.capacity + c.rate * d <= limit
  {
    if c.capacity + c.rate * d <= limit {
      forall start, es, s | Trace(c, start, es) ensures InWindow(c, start, es, s, d) <= limit {
        NewWindowBound(c, start, es, s, d);
      }
    }
    if KeepsLimit(c, d, limit) {
      BoundIsReached(c, 0.0, d);
    }
  }

  lemma NewWindowBound(c: Config, start: real, es: seq<CheckEvent>, s: real, d: real)
    requires c.Valid() && d >= 0.0 && Trace(c, start, es)
    ensures InWindow(c, start, es, s, d) <= c.capacity + c.rate * d
  {
    WindowBound(c, Balance(c.capacity, start), es, s, s + d);
    assert (s + d) - s == d;
  }

  /** Single tokens add up to a whole number. */
  lemma {:induction false} WholeTokens(c: Config, b: Balance, es: seq<CheckEvent>, s: real, t: real) returns (k: nat)
    requires Units(es)
    ensures Granted(c, b, es, s, t) == k as real
    decreases |es|
  {
    if es == [] {
      k := 0;
    } else {
      var rest := WholeTokens(c, After(c, b, es[0]), es[1..], s, t);
      k := rest + if Grants(c, b, es[0]) && s <= es[0].at <= t then 1 else 0;
    }
  }

  /** With calls of one token and a bucket of n, the limit that windows of length d keep is exactly n
      and the whole tokens that flow in. */
  lemma CountKeptIff(rate: real, n: nat, d: real, limit: int)
    requires rate > 0.0 && n >= 1 && d >= 0.0
    ensures KeepsCount(Config(rate, n as real), d, limit) <==> n + (rate * d).Floor <= limit
  {
    var c, whole := Config(rate, n as real), (rate * d).Floor;
    if n + whole <= limit {
      forall start, es, s | Trace(c, start, es) && Units(es) ensures InWindow(c, start, es, s, d) <= limit as real {
        CountBound(rate, n, d, start, es, s);
      }
    }
    if KeepsCount(c, d, limit) {
      CountIsReached(rate, n, d);
      assert InWindow(c, 0.0, MostUnits(rate, n, d), 0.0, d) == (n + whole) as real;
    }
  }

  lemma CountBound(rate: real, n: nat, d: real, start: real, es: seq<CheckEvent>, s: real)
    requires rate > 0.0 && n >= 1 && d >= 0.0
    requires Trace(Config(rate, n as real), start, es) && Units(es)
    ensures InWindow(Config(rate, n as real), start, es, s, d) <= (n + (rate * d).Floor) as real
  {
    var c := Config(rate, n as real);
    NewWindowBound(c, start, es, s, d);
    var k := WholeTokens(c, Balance(c.capacity, start), es, s, s + d);
    WholeWithin(k, n, rate * d);
  }

  lemma WholeWithin(k: nat, n: nat, x: real)
    requires k as real <= n as real + x
    ensures k <= n + x.Floor
  {
  }

  /** A burst of the whole bucket, and then one token as soon as it is there. */
  function MostUnits(rate: real, n: nat, d: real): seq<CheckEvent>
    requires rate > 0.0 && d >= 0.0
  {
    assert rate * d >= 0.0;
    Burst(0.0, n) + Drip(1.0 / rate, 1.0, 0.0, (rate * d).Floor)
  }

  lemma CountIsReached(rate: real, n: nat, d: real)
    requires rate > 0.0 && n >= 1 && d >= 0.0
    ensures var c, es := Config(rate, n as real), MostUnits(rate, n, d);
            && Trace(c, 0.0, es) && Units(es)
            && InWindow(c, 0.0, es, 0.0, d) == (n + (rate * d).Floor) as real
  {
    assert rate * d >= 0.0;
    var m := (rate * d).Floor;
    var fits := FloorFits(rate, d, m);
    BurstThenDrip(rate, n, m, 0.0, d);
    UnitsOfBoth(1.0 / rate, n, m);
  }

  lemma FloorFits(rate: real, d: real, m: nat) returns (gap: real)
    requires rate > 0.0 && m as real <= rate * d
    ensures gap == 1.0 / rate && gap * m as real <= d
  {
    gap := 1.0 / rate;
    MulMonotone(m as real, rate * d, gap);
    assert gap * (rate * d) == d by { assert gap * rate == 1.0; assert gap * (rate * d) == (gap * rate) * d; }
  }

  lemma UnitsOfBoth(gap: real, n: nat, m: nat)
    ensures Units(Burst(0.0, n) + Drip(gap, 1.0, 0.0, m))
  {
    UnitBurst(0.0, n);
    UnitDrip(gap, 0.0, m);
  }

  lemma {:induction false} UnitBurst(at: real, n: nat)
    ensures Units(Burst(at, n))
  {
    if n > 0 { UnitBurst(at, n - 1); }
  }

  lemma {:induction false} UnitDrip(gap: real, from: real, n: nat)
    ensures Units(Drip(gap, 1.0, from, n))
    decreases n
  {
    if n > 0 { UnitDrip(gap, from + gap, n - 1); }
  }

  lemma BurstThenDrip(rate: real, n: nat, m: nat, now: real, d: real)
    requires rate > 0.0 && n >= 1 && 1.0 / rate * m as real <= d
    ensures var c, es := Config(rate, n as real), Burst(now, n) + Drip(1.0 / rate, 1.0, now, m);
            && Trace(c, now, es)
            && InWindow(c, now, es, now, d) == (n + m) as real
  {
    var c, gap := Config(rate, n as real), 1.0 / rate;
    var drip := Drip(gap, 1.0, now, m);
    UnitsPaced(c, gap);
    TimesIsProduct(gap, m);
    TimesIsProduct(1.0, m);
    TimesPositive(gap, m);
    hide Paced;
    DripTrace(c, gap, 1.0, now, m);
    BurstTrace(c, now, n, drip);
    BurstGranted(c, Balance(c.capacity, now), n, drip, now, now + d);
    DripGranted(c, gap, 1.0, now, m, now, now + d);
  }

  lemma UnitsPaced(c: Config, gap: real)
    requires c.Valid() && c.capacity >= 1.0 && gap == 1.0 / c.rate
    ensures Paced(c, gap, 1.0)
  {
    PositiveQuotient(1.0, c.rate);
  }

  /** A bucket of n per second that may also save up n can hand out 2n within one second: at the
      configured 25, fifty messages, which is more than the 30 the limiter is documented to keep. */
  lemma TwiceTheRate(n: nat, now: real)
    requires n >= 1
    ensures var c := Config(n as real, n as real);
            var es := Burst(now, n) + Drip(1.0 / c.rate, 1.0, now, n);
            && Trace(c, now, es)
            && Granted(c, Balance(c.capacity, now), es, now, now + 1.0) == (2 * n) as real
  {
    BurstThenDrip(n as real, n, n, now, 1.0);
  }

  /** So a limit for one second is kept by n per second with the default capacity if and only if it
      is at least twice n. */
  lemma SecondKeptIff(n: nat, limit: int)
    requires n >= 1
    ensures KeepsCount(Config(n as real, n as real), 1.0, limit) <==> 2 * n <= limit
  {
    CountKeptIff(n as real, n, 1.0, limit);
  }
}
