/**
 Similarity of 64-bit image hashes (`app/services/image_hasher.py`).

 Python integers are unbounded two's complement: bit i of a negative number exists for every i.
 `Bit`, `Xor` and `Mask` follow that reading.
 */
module Hamming {
  import opened Common
  import opened Sections

  const WIDTH: nat := 64

  function Pow2(w: nat): (p: int)
    ensures p >= 1
  {
    if w == 0 then 1 else 2 * Pow2(w - 1)
  }

  /** How far a number is from running out of bits that differ from its sign. */
  function Magnitude(x: int): nat {
    if x >= 0 then x else -x - 1
  }

  function Bit(x: int, i: nat): (bit: int)
    ensures bit == 0 || bit == 1
    decreases i
  {
    if i == 0 then x % 2 else Bit(x / 2, i - 1)
  }

  function Xor(a: int, b: int): int
    decreases Magnitude(a) + Magnitude(b)
  {
    if Magnitude(a) == 0 && Magnitude(b) == 0 then (if a == b then 0 else -1)
    else 2 * Xor(a / 2, b / 2) + (a + b) % 2
  }

  /** `& (2**w - 1)`. */
  function Mask(x: int, w: nat): nat {
    x % Pow2(w)
  }

  function BitCount(x: nat): nat {
    if x == 0 then 0 else x % 2 + BitCount(x / 2)
  }

  /** `((a ^ b) & mask).bit_count()` for a mask of w ones. */
  function DistanceIn(a: int, b: int, w: nat): nat {
    BitCount(Mask(Xor(a, b), w))
  }

  function Distance(a: int, b: int): nat {
    DistanceIn(a, b, WIDTH)
  }

  datatype HashError = NegativeThreshold

  function IsSimilar(a: int, b: int, threshold: int): Result<bool, HashError> {
    if threshold < 0 then Err(NegativeThreshold) else Ok(Distance(a, b) <= threshold)
  }

  function ToSigned64(unsigned: int): int {
    if unsigned >= Pow2(63) then unsigned - Pow2(64) else unsigned
  }

  /** What `hash` stores for a hash of any width. */
  function StoredHash(raw: nat): int {
    ToSigned64(Mask(raw, WIDTH))
  }

  // ---------- Bits ----------

  lemma {:induction false} XorBit(a: int, b: int, i: nat)
    ensures Bit(Xor(a, b), i) == (Bit(a, i) + Bit(b, i)) % 2
    decreases i
  {
    if Magnitude(a) == 0 && Magnitude(b) == 0 {
      SignBit(a, i);
      SignBit(b, i);
      SignBit(Xor(a, b), i);
    } else {
      var rest := Xor(a / 2, b / 2);
      assert Xor(a, b) / 2 == rest && Xor(a, b) % 2 == (a + b) % 2;
      if i > 0 { XorBit(a / 2, b / 2, i - 1); }
    }
  }

  lemma {:induction false} SignBit(x: int, i: nat)
    requires x == 0 || x == -1
    ensures Bit(x, i) == -x
  {
    if i > 0 { SignBit(x / 2, i - 1); }
  }

  /** Taking the low bits of a half is halving the low bits. */
  lemma HalfMask(x: int, w: nat)
    requires w > 0
    ensures Mask(x, w) / 2 == Mask(x / 2, w - 1) && Mask(x, w) % 2 == x % 2
  {
    var p := Pow2(w - 1);
    var q, r := (x / 2) / p, (x / 2) % p;
    assert x / 2 == q * p + r;
    var m := 2 * r + x % 2;
    assert x == q * (2 * p) + m by { Regroup(q, p); }
    assert 0 <= m < 2 * p;
    DivMod(x, 2 * p, q, m);
  }

  lemma Regroup(q: int, p: int)
    ensures 2 * (q * p) == q * (2 * p)
  {
  }

  lemma DivMod(x: int, d: int, q: int, m: int)
    requires d > 0 && 0 <= m < d && x == q * d + m
    ensures x % d == m && x / d == q
  {
    var q', m' := x / d, x % d;
    assert x == q' * d + m';
    Distribute(q, q', d);
    SmallMultiple(q - q', d);
  }

  lemma Distribute(q: int, q': int, d: int)
    ensures (q - q') * d == q * d - q' * d
  {
  }

  lemma SmallMultiple(k: int, d: int)
    requires d > 0 && -d < k * d < d
    ensures k == 0
  {
    if k >= 1 {
      AtLeast(k, d);
    } else if k <= -1 {
      Distribute(0, k, d);
      AtLeast(-k, d);
    }
  }

  lemma AtLeast(k: int, d: int)
    requires k >= 1 && d > 0
    ensures k * d >= d
  {
    assert (k - 1) * d >= 0;
  }

  /** The low bits of x, one for each power of two. */
  function Ones(x: int, w: nat): set<nat> {
    set i | 0 <= i < w && Bit(x, i) == 1
  }

  lemma {:induction false} CountIsOnes(x: int, w: nat)
    ensures BitCount(Mask(x, w)) == |Ones(x, w)|
    decreases w
  {
    if w == 0 {
      assert Ones(x, w) == {};
    } else {
      HalfMask(x, w);
      CountIsOnes(x / 2, w - 1);
      OnesOfHalf(x, w);
      CountHalf(Mask(x, w));
    }
  }

  lemma CountHalf(m: nat)
    ensures BitCount(m) == m % 2 + BitCount(m / 2)
  {
  }

  lemma OnesOfHalf(x: int, w: nat)
    requires w > 0
    ensures |Ones(x, w)| == x % 2 + |Ones(x / 2, w - 1)|
  {
    var low, rest := Ones(x / 2, w - 1), set i | i in Ones(x, w) && i > 0;
    Shifted(low, rest, x, w);
    if x % 2 == 1 {
      assert Ones(x, w) == rest + {0};
    } else {
      assert Ones(x, w) == rest;
    }
  }

  lemma Shifted(low: set<nat>, rest: set<nat>, x: int, w: nat)
    requires w > 0 && low == Ones(x / 2, w - 1)
    requires rest == set i | i in Ones(x, w) && i > 0
    ensures |rest| == |low|
  {
    forall i | i in rest ensures i - 1 in low {}
    forall i | i in low ensures i + 1 in rest {}
    ShiftSize(low, rest);
  }

  lemma {:induction false} ShiftSize(low: set<nat>, high: set<nat>)
    requires forall i: nat :: i in low ==> i + 1 in high
    requires forall i :: i in high ==> i > 0 && i - 1 in low
    ensures |high| == |low|
    decreases |low|
  {
    if low == {} {
      assert high == {};
    } else {
      var i :| i in low;
      ShiftSize(low - {i}, high - {i + 1});
    }
  }

  /** The places among the first w where two numbers differ. */
  function Differ(a: int, b: int, w: nat): set<nat> {
    set i | 0 <= i < w && Bit(a, i) != Bit(b, i)
  }

  /** The distance is the number of places where the hashes differ. */
  lemma DistanceCounts(a: int, b: int, w: nat)
    ensures DistanceIn(a, b, w) == |Differ(a, b, w)| <= w
  {
    CountIsOnes(Xor(a, b), w);
    forall i | 0 <= i < w ensures i in Ones(Xor(a, b), w) <==> i in Differ(a, b, w) { XorBit(a, b, i); }
    assert Ones(Xor(a, b), w) == Differ(a, b, w);
    AllBelow(Differ(a, b, w), w);
  }

  lemma {:induction false} AllBelow(s: set<nat>, w: nat)
    requires forall i :: i in s ==> i < w
    ensures |s| <= w
  {
    if w == 0 {
      assert s == {};
    } else {
      AllBelow(s - {w - 1}, w - 1);
    }
  }

  // ---------- A metric ----------

  lemma Symmetric(a: int, b: int, w: nat)
    ensures DistanceIn(a, b, w) == DistanceIn(b, a, w)
  {
    DistanceCounts(a, b, w);
    DistanceCounts(b, a, w);
    assert Differ(a, b, w) == Differ(b, a, w);
  }

  lemma Triangle(a: int, b: int, c: int, w: nat)
    ensures DistanceIn(a, c, w) <= DistanceIn(a, b, w) + DistanceIn(b, c, w)
  {
    DistanceCounts(a, c, w);
    DistanceCounts(a, b, w);
    DistanceCounts(b, c, w);
    var ab, bc := Differ(a, b, w), Differ(b, c, w);
    SubsetSize(Differ(a, c, w), ab + bc);
    assert |ab + bc| <= |ab| + |bc| by { assert ab + bc == ab + (bc - ab); SubsetSize(bc - ab, bc); }
  }

  ghost predicate SameLow(a: int, b: int, w: nat) {
    forall i: nat :: i < w ==> Bit(a, i) == Bit(b, i)
  }

  lemma NoneDiffer(a: int, b: int, w: nat)
    ensures |Differ(a, b, w)| == 0 <==> SameLow(a, b, w)
  {
    if SameLow(a, b, w) {
      assert Differ(a, b, w) == {};
    } else {
      var i: nat :| i < w && Bit(a, i) != Bit(b, i);
      assert i in Differ(a, b, w);
    }
  }

  /** Distance zero means the same low bits. */
  lemma ZeroIffSameBits(a: int, b: int, w: nat)
    ensures DistanceIn(a, b, w) == 0 <==> Mask(a, w) == Mask(b, w)
  {
    DistanceCounts(a, b, w);
    NoneDiffer(a, b, w);
    SameBits(a, b, w);
  }

  /** The masked numbers are equal exactly when their low bits are. */
  lemma {:induction false} SameBits(a: int, b: int, w: nat)
    ensures Mask(a, w) == Mask(b, w) <==> SameLow(a, b, w)
    decreases w
  {
    if w > 0 {
      HalfMask(a, w);
      HalfMask(b, w);
      SameBits(a / 2, b / 2, w - 1);
      SameHalves(a, b, w);
    }
  }

  lemma SameHalves(a: int, b: int, w: nat)
    requires w > 0
    ensures SameLow(a, b, w) <==> a % 2 == b % 2 && SameLow(a / 2, b / 2, w - 1)
  {
    if SameLow(a, b, w) {
      assert Bit(a, 0) == Bit(b, 0);
      forall i: nat | i < w - 1 ensures Bit(a / 2, i) == Bit(b / 2, i) { assert Bit(a, i + 1) == Bit(b, i + 1); }
    }
    if a % 2 == b % 2 && SameLow(a / 2, b / 2, w - 1) {
      forall i: nat | i < w ensures Bit(a, i) == Bit(b, i) {
        if i > 0 { assert Bit(a / 2, i - 1) == Bit(b / 2, i - 1); }
      }
    }
  }

  lemma SameDiffer(a: int, a': int, b: int, b': int, w: nat)
    requires SameLow(a, a', w) && SameLow(b, b', w)
    ensures Differ(a, b, w) == Differ(a', b', w)
  {
    forall i: nat | i < w ensures i in Differ(a, b, w) <==> i in Differ(a', b', w) {
      assert Bit(a, i) == Bit(a', i) && Bit(b, i) == Bit(b', i);
    }
  }

  // ---------- Signed and unsigned forms ----------

  /** The stored form fits a signed 64-bit column and is the original with the same 64 bits. */
  lemma SignedKeepsBits(u: int)
    requires 0 <= u < Pow2(WIDTH)
    ensures -Pow2(63) <= ToSigned64(u) < Pow2(63)
    ensures Mask(ToSigned64(u), WIDTH) == u == Mask(u, WIDTH)
    ensures SameLow(ToSigned64(u), u, WIDTH)
  {
    var p := Pow2(WIDTH);
    assert p == 2 * Pow2(63);
    DivMod(u, p, 0, u);
    if u >= Pow2(63) { DivMod(u - p, p, -1, u); }
    SameBits(ToSigned64(u), u, WIDTH);
  }

  lemma SignedInjective(u: int, v: int)
    requires 0 <= u < Pow2(WIDTH) && 0 <= v < Pow2(WIDTH)
    ensures ToSigned64(u) == ToSigned64(v) <==> u == v
  {
    SignedKeepsBits(u);
    SignedKeepsBits(v);
  }

  /** Only the low bits matter to the distance. */
  lemma OnlyLowBits(a: int, a': int, b: int, b': int, w: nat)
    requires Mask(a, w) == Mask(a', w) && Mask(b, w) == Mask(b', w)
    ensures DistanceIn(a, b, w) == DistanceIn(a', b', w)
  {
    SameBits(a, a', w);
    SameBits(b, b', w);
    DistanceCounts(a, b, w);
    DistanceCounts(a', b', w);
    SameDiffer(a, a', b, b', w);
  }

  /** `is_similar` does not care which of its arguments are stored signed. */
  lemma SimilarInAnyForm(u: int, v: int, threshold: int)
    requires 0 <= u < Pow2(WIDTH) && 0 <= v < Pow2(WIDTH)
    ensures IsSimilar(u, v, threshold) == IsSimilar(ToSigned64(u), v, threshold)
    ensures IsSimilar(u, v, threshold) == IsSimilar(u, ToSigned64(v), threshold)
    ensures IsSimilar(u, v, threshold) == IsSimilar(ToSigned64(u), ToSigned64(v), threshold)
  {
    SimilarSigned(u, v, threshold);
    SimilarSigned(v, u, threshold);
    SimilarSigned(v, ToSigned64(u), threshold);
    SimilarCounts(u, v, threshold);
    SimilarCounts(u, ToSigned64(v), threshold);
    SimilarCounts(ToSigned64(u), v, threshold);
    SimilarCounts(ToSigned64(u), ToSigned64(v), threshold);
  }

  lemma SimilarSigned(u: int, b: int, threshold: int)
    requires 0 <= u < Pow2(WIDTH)
    ensures IsSimilar(u, b, threshold) == IsSimilar(ToSigned64(u), b, threshold)
  {
    SignedKeepsBits(u);
    OnlyLowBits(u, ToSigned64(u), b, b, WIDTH);
  }

  /** Two stored hashes are as far apart as the hashes that were computed. */
  lemma StoredDistance(raw: nat, raw': nat)
    ensures Distance(StoredHash(raw), StoredHash(raw')) == Distance(raw, raw')
  {
    SignedKeepsBits(Mask(raw, WIDTH));
    SignedKeepsBits(Mask(raw', WIDTH));
    OnlyLowBits(StoredHash(raw), raw, StoredHash(raw'), raw', WIDTH);
  }

  /** What `is_similar` decides: how many of the 64 places may differ. */
  lemma SimilarCounts(a: int, b: int, threshold: int)
    ensures IsSimilar(a, b, threshold).Err? <==> threshold < 0
    ensures threshold >= 0 ==> IsSimilar(a, b, threshold) == Ok(|Differ(a, b, WIDTH)| <= threshold)
    ensures threshold >= 64 ==> IsSimilar(a, b, threshold) == Ok(true)
    ensures IsSimilar(a, b, threshold) == IsSimilar(b, a, threshold)
  {
    DistanceCounts(a, b, WIDTH);
    Symmetric(a, b, WIDTH);
  }
}
