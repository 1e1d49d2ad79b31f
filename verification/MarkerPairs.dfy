/**
 The substitution performed by the two lazy patterns `MM(.+?)MM` with DOTALL: scan from the left,
 and at the first position that opens a match, replace it and continue right after it.
 Everything is generic in the element type, so that the same pass can be run on the characters of
 a string and on a sequence of glyphs.
 */
module MarkerPairs {

  datatype Cut<T> = NoCut | Cut(before: seq<T>, after: seq<T>)

  function Prepend<T>(x: seq<T>, r: Cut<T>): Cut<T> {
    match r
    case NoCut => NoCut
    case Cut(b, a) => Cut(x + b, a)
  }

  /** What lies around the leftmost two adjacent markers. */
  function FirstPair<T(==)>(s: seq<T>, m: T): (r: Cut<T>)
    ensures r.Cut? ==> s == r.before + [m, m] + r.after
  {
    if |s| < 2 then NoCut
    else if s[0] == m && s[1] == m then Cut([], s[2..])
    else Prepend([s[0]], FirstPair(s[1..], m))
  }

  /** What the pattern captures at the first position: the group and the text after the match.
      The group takes at least one element before the closing pair is looked for. */
  function Match<T(==)>(s: seq<T>, m: T): (r: Cut<T>)
    ensures r.Cut? ==> s == [m, m] + r.before + [m, m] + r.after && r.before != []
  {
    if |s| >= 3 && s[0] == m && s[1] == m then
      assert s == [m, m] + [s[2]] + s[3..];
      Prepend([s[2]], FirstPair(s[3..], m))
    else NoCut
  }

  /** `re.sub`: every match becomes `o`, the group, `c`. */
  function Replace<T(==)>(s: seq<T>, m: T, o: seq<T>, c: seq<T>): seq<T>
    decreases |s|
  {
    if s == [] then []
    else
      match Match(s, m)
      case Cut(group, rest) => o + group + c + Replace(rest, m, o, c)
      case NoCut => [s[0]] + Replace(s[1..], m, o, c)
  }

  /** The groups of the successive matches, as `re.finditer` yields them. */
  function Groups<T(==)>(s: seq<T>, m: T): seq<seq<T>>
    decreases |s|
  {
    if s == [] then []
    else
      match Match(s, m)
      case Cut(group, rest) => [group] + Groups(rest, m)
      case NoCut => Groups(s[1..], m)
  }

  /** `str.count`: adjacent marker pairs, counted left to right without overlap. */
  function CountPairs<T(==)>(s: seq<T>, m: T): nat {
    if |s| < 2 then 0
    else if s[0] == m && s[1] == m then 1 + CountPairs(s[2..], m)
    else CountPairs(s[1..], m)
  }

  /** Nowhere do four markers stand in a row. */
  predicate NoRunOfFour<T(==)>(s: seq<T>, m: T) {
    |s| < 4 || (!(s[0] == m && s[1] == m && s[2] == m && s[3] == m) && NoRunOfFour(s[1..], m))
  }

  function FlatMap<T, U>(h: T -> seq<U>, s: seq<T>): seq<U> {
    if s == [] then [] else h(s[0]) + FlatMap(h, s[1..])
  }

  /** `h` shows the marker `m` as exactly `[n]` and never shows `n` otherwise. */
  ghost predicate Shows<T, U>(h: T -> seq<U>, s: seq<T>, m: T, n: U) {
    forall x :: x in s ==> if x == m then h(x) == [n] else |h(x)| >= 1 && n !in h(x)
  }

  // ---------- Sequences ----------

  lemma Associate<T>(a: seq<T>, b: seq<T>, c: seq<T>)
    ensures (a + b) + c == a + (b + c)
  {
  }

  lemma Uncons<T>(s: seq<T>)
    requires s != []
    ensures s == [s[0]] + s[1..]
  {
  }

  lemma DropPrefix<T>(a: seq<T>, b: seq<T>)
    ensures (a + b)[|a|..] == b
  {
  }

  // ---------- Flattening ----------

  lemma {:induction false} FlatMapAppend<T, U>(h: T -> seq<U>, a: seq<T>, b: seq<T>)
    ensures FlatMap(h, a + b) == FlatMap(h, a) + FlatMap(h, b)
  {
    if a == [] {
      assert a + b == b;
    } else {
      FlatMapAppend(h, a[1..], b);
      assert (a + b)[1..] == a[1..] + b;
    }
  }

  lemma FlatMapCons<T, U>(h: T -> seq<U>, x: T, b: seq<T>)
    ensures FlatMap(h, [x] + b) == h(x) + FlatMap(h, b)
  {
    assert ([x] + b)[1..] == b;
  }

  lemma FlatMapOne<T, U>(h: T -> seq<U>, x: T)
    ensures FlatMap(h, [x]) == h(x)
  {
    assert [x][1..] == [];
  }

  // ---------- Skipping and locating ----------

  lemma PrependNone<T>(r: Cut<T>)
    ensures Prepend([], r) == r
  {
    if r.Cut? { assert [] + r.before == r.before; }
  }

  lemma PrependTwice<T>(a: seq<T>, r: Cut<T>)
    requires a != []
    ensures Prepend([a[0]], Prepend(a[1..], r)) == Prepend(a, r)
  {
    if r.Cut? { assert [a[0]] + (a[1..] + r.before) == a + r.before; }
  }

  /** Elements that are not the marker do not start a pair. */
  lemma {:induction false} FirstPairSkip<T>(a: seq<T>, b: seq<T>, m: T)
    requires m !in a
    ensures FirstPair(a + b, m) == Prepend(a, FirstPair(b, m))
  {
    if a == [] {
      assert a + b == b;
      PrependNone(FirstPair(b, m));
    } else {
      var t := a[1..];
      FirstPairSkip(t, b, m);
      assert (a + b)[1..] == t + b;
      assert a[0] in a;
      PrependTwice(a, FirstPair(b, m));
    }
  }

  /** The pair search commutes with a map that shows the marker faithfully. */
  lemma {:induction false} FirstPairFlatMap<T, U>(h: T -> seq<U>, s: seq<T>, m: T, n: U)
    requires Shows(h, s, m, n)
    ensures FirstPair(FlatMap(h, s), n) ==
            match FirstPair(s, m) case NoCut => NoCut case Cut(x, y) => Cut(FlatMap(h, x), FlatMap(h, y))
  {
    if s != [] {
      assert s[0] in s;
      var t := s[1..];
      var w := FlatMap(h, t);
      assert Shows(h, t, m, n) by { assert forall x :: x in t ==> x in s; }
      FirstPairFlatMap(h, t, m, n);
      if FirstPair(t, m).Cut? { FlatMapCons(h, s[0], FirstPair(t, m).before); }
      if s[0] != m {
        FirstPairSkip(h(s[0]), w, n);
      } else if t != [] {
        assert t[0] in s;
        assert w == h(t[0]) + FlatMap(h, t[1..]);
        assert ([n] + w)[1..] == w && w[0] == h(t[0])[0];
        if t[0] == m {
          assert ([n] + w)[2..] == FlatMap(h, t[1..]);
          assert t[1..] == s[2..];
        }
      }
    }
  }

  /** A match after an opening pair followed by something that hides no marker. */
  lemma MatchOpened<T>(a: seq<T>, v: seq<T>, m: T)
    requires a != [] && (a == [m] || m !in a)
    ensures Match([m, m] + (a + v), m) == Prepend(a, FirstPair(v, m))
  {
    var s := [m, m] + (a + v);
    var d := a[1..];
    assert s[3..] == d + v && s[2] == a[0];
    FirstPairSkip(d, v, m);
    PrependTwice(a, FirstPair(v, m));
  }

  /** So does the match at the first position. */
  lemma MatchFlatMap<T, U>(h: T -> seq<U>, s: seq<T>, m: T, n: U)
    requires Shows(h, s, m, n)
    ensures Match(FlatMap(h, s), n) ==
            match Match(s, m) case NoCut => NoCut case Cut(x, y) => Cut(FlatMap(h, x), FlatMap(h, y))
  {
    if |s| >= 3 && s[0] == m && s[1] == m {
      var x, v := s[2], s[3..];
      assert m in s && x in s && h(m) == [n];
      assert Shows(h, v, m, n) by { assert forall y :: y in v ==> y in s; }
      assert s == [m, m] + ([x] + v);
      FlatMapOpened(h, x, v, m, n);
      MatchOpened(h(x), FlatMap(h, v), n);
      FirstPairFlatMap(h, v, m, n);
      if FirstPair(v, m).Cut? { FlatMapCons(h, x, FirstPair(v, m).before); }
    } else {
      NoMatchFlatMap(h, s, m, n);
    }
  }

  lemma FlatMapOpened<T, U>(h: T -> seq<U>, x: T, v: seq<T>, m: T, n: U)
    requires h(m) == [n]
    ensures FlatMap(h, [m, m] + ([x] + v)) == [n, n] + (h(x) + FlatMap(h, v))
  {
    assert [m, m] + ([x] + v) == [m] + ([m] + ([x] + v));
    FlatMapCons(h, m, [m] + ([x] + v));
    FlatMapCons(h, m, [x] + v);
    FlatMapCons(h, x, v);
  }

  lemma NoMatchFlatMap<T, U>(h: T -> seq<U>, s: seq<T>, m: T, n: U)
    requires Shows(h, s, m, n)
    requires !(|s| >= 3 && s[0] == m && s[1] == m)
    ensures Match(FlatMap(h, s), n).NoCut?
  {
    if s != [] {
      var t := s[1..];
      assert s[0] in s;
      if s[0] != m {
        assert FlatMap(h, s)[0] == h(s[0])[0];
      } else if t != [] {
        assert t[0] in s;
        assert FlatMap(h, t) == h(t[0]) + FlatMap(h, t[1..]);
        assert FlatMap(h, s)[1] == h(t[0])[0];
        if t[0] == m { assert t[1..] == []; }
      }
    }
  }

  // ---------- The pass commutes with a faithful map ----------

  /** Elements that are not the marker pass through unchanged. */
  lemma {:induction false} ReplaceSkip<T>(a: seq<T>, b: seq<T>, m: T, o: seq<T>, c: seq<T>)
    requires m !in a
    ensures Replace(a + b, m, o, c) == a + Replace(b, m, o, c)
  {
    if a == [] {
      assert a + b == b;
    } else {
      assert (a + b)[0] == a[0] && a[0] in a;
      assert (a + b)[1..] == a[1..] + b;
      ReplaceSkip(a[1..], b, m, o, c);
    }
  }

  /** Running the pass before or after a faithful map gives the same result. */
  lemma {:induction false} ReplaceFlatMap<T, U>(h: T -> seq<U>, s: seq<T>, m: T, n: U, o: seq<T>, c: seq<T>)
    requires Shows(h, s, m, n)
    ensures Replace(FlatMap(h, s), n, FlatMap(h, o), FlatMap(h, c)) == FlatMap(h, Replace(s, m, o, c))
    decreases |s|
  {
    if s != [] {
      var ho, hc := FlatMap(h, o), FlatMap(h, c);
      assert s[0] in s;
      MatchFlatMap(h, s, m, n);
      match Match(s, m)
      case Cut(group, rest) =>
        assert Shows(h, rest, m, n) by { assert forall x :: x in rest ==> x in s; }
        ReplaceFlatMap(h, rest, m, n, o, c);
        FlatMapAppend(h, o + group + c, Replace(rest, m, o, c));
        FlatMapAppend(h, o + group, c);
        FlatMapAppend(h, o, group);
      case NoCut =>
        var t := s[1..];
        assert Shows(h, t, m, n) by { assert forall x :: x in t ==> x in s; }
        ReplaceFlatMap(h, t, m, n, o, c);
        FlatMapCons(h, s[0], Replace(t, m, o, c));
        var w := FlatMap(h, s);
        if s[0] == m {
          assert w == [n] + FlatMap(h, t) && w[1..] == FlatMap(h, t);
        } else {
          ReplaceSkip(h(s[0]), FlatMap(h, t), n, ho, hc);
        }
    }
  }

  // ---------- Counting pairs ----------

  /** Counting splits wherever the two sides cannot form a pair across the cut. */
  lemma {:induction false} CountAppend<T>(a: seq<T>, b: seq<T>, m: T)
    requires a == [] || b == [] || a[|a| - 1] != m || b[0] != m
    ensures CountPairs(a + b, m) == CountPairs(a, m) + CountPairs(b, m)
    decreases |a|
  {
    if a == [] {
      assert a + b == b;
    } else if b == [] {
      assert a + b == a;
    } else if |a| == 1 {
      assert (a + b)[1..] == b;
    } else if a[0] == m && a[1] == m {
      assert (a + b)[2..] == a[2..] + b;
      CountAppend(a[2..], b, m);
    } else {
      assert (a + b)[1..] == a[1..] + b;
      CountAppend(a[1..], b, m);
    }
  }

  /** No pair is counted exactly when none is there. */
  lemma {:induction false} CountZero<T>(s: seq<T>, m: T)
    ensures CountPairs(s, m) == 0 <==> FirstPair(s, m).NoCut?
    ensures CountPairs(s, m) == 0 ==> forall i :: 0 <= i && i + 1 < |s| ==> !(s[i] == m && s[i + 1] == m)
  {
    if |s| >= 2 && !(s[0] == m && s[1] == m) {
      var t := s[1..];
      CountZero(t, m);
      if CountPairs(t, m) == 0 {
        forall i | 0 <= i && i + 1 < |s| ensures !(s[i] == m && s[i + 1] == m) {
          if i > 0 { assert t[i - 1] == s[i] && t[i - 1 + 1] == s[i + 1]; }
        }
      }
    }
  }

  lemma {:induction false} CountNone<T>(s: seq<T>, m: T)
    requires m !in s
    ensures CountPairs(s, m) == 0
  {
    if |s| >= 2 {
      assert s[0] in s;
      CountNone(s[1..], m);
    }
  }

  /** The leftmost pair has no pair before it, and no marker right before it. */
  lemma {:induction false} BeforeFirstPair<T>(s: seq<T>, m: T)
    requires FirstPair(s, m).Cut?
    ensures var r := FirstPair(s, m);
            && CountPairs(r.before, m) == 0
            && (r.before != [] ==> r.before[|r.before| - 1] != m)
  {
    if !(s[0] == m && s[1] == m) {
      var r := FirstPair(s[1..], m);
      BeforeFirstPair(s[1..], m);
      if r.before == [] {
        assert s[1..] == [m, m] + r.after;
      } else {
        assert s[1..][0] == r.before[0];
        assert ([s[0]] + r.before)[1..] == r.before;
      }
    }
  }

  /** A separator: not empty and free of the marker. */
  predicate Separates<T(==)>(o: seq<T>, m: T) {
    o != [] && m !in o
  }

  lemma CountAround<T>(o: seq<T>, a: seq<T>, c: seq<T>, b: seq<T>, m: T)
    requires Separates(o, m) && Separates(c, m)
    ensures CountPairs(o + a + c + b, m) == CountPairs(a, m) + CountPairs(b, m)
  {
    assert o[|o| - 1] in o && c[0] in c && c[|c| - 1] in c;
    CountNone(o, m);
    CountNone(c, m);
    CountAppend(o + a + c, b, m);
    CountAppend(o + a, c, m);
    CountAppend(o, a, m);
  }

  lemma AfterMatch<T>(s: seq<T>, m: T)
    requires NoRunOfFour(s, m) && Match(s, m).Cut?
    ensures NoRunOfFour(Match(s, m).after, m)
  {
    var rest := Match(s, m).after;
    NoRunOfFourDrop(s, m, |s| - |rest|);
    assert s[|s| - |rest|..] == rest;
  }

  /** Without runs of four, the group of a match holds no pair, and the match used up two. */
  lemma MatchCounts<T>(s: seq<T>, m: T)
    requires Match(s, m).Cut? && NoRunOfFour(s, m)
    ensures CountPairs(Match(s, m).before, m) == 0
    ensures CountPairs(s, m) == 2 + CountPairs(Match(s, m).after, m)
  {
    var x, v := s[2], s[3..];
    assert s == [m, m] + ([x] + v);
    MatchCountsAt(x, v, m);
  }

  lemma MatchCountsAt<T>(x: T, v: seq<T>, m: T)
    requires FirstPair(v, m).Cut? && NoRunOfFour([m, m] + ([x] + v), m)
    ensures var f := FirstPair(v, m);
            && CountPairs([x] + f.before, m) == 0
            && CountPairs([m, m] + ([x] + v), m) == 2 + CountPairs(f.after, m)
  {
    var f := FirstPair(v, m);
    BeforeFirstPair(v, m);
    NotFour(x, v, m);
    GroupCounts(x, f.before, f.after, m);
    Associate(f.before, [m, m], f.after);
    Associate([x], f.before, [m, m] + f.after);
  }

  lemma NotFour<T>(x: T, v: seq<T>, m: T)
    requires NoRunOfFour([m, m] + ([x] + v), m) && FirstPair(v, m).Cut?
    ensures x == m ==> FirstPair(v, m).before != [] && FirstPair(v, m).before[0] != m
  {
    var s := [m, m] + ([x] + v);
    assert s[2] == x && s[3] == v[0];
  }

  lemma GroupCounts<T>(x: T, b: seq<T>, a: seq<T>, m: T)
    requires CountPairs(b, m) == 0 && (b != [] ==> b[|b| - 1] != m)
    requires x == m ==> b != [] && b[0] != m
    ensures CountPairs([x] + b, m) == 0
    ensures CountPairs([m, m] + ([x] + b + ([m, m] + a)), m) == 2 + CountPairs(a, m)
  {
    CountAppend([x], b, m);
    CountOpened(a, m);
    CountAppend([x] + b, [m, m] + a, m);
    CountOpened([x] + b + ([m, m] + a), m);
  }

  lemma CountOpened<T>(a: seq<T>, m: T)
    ensures CountPairs([m, m] + a, m) == 1 + CountPairs(a, m)
  {
    assert ([m, m] + a)[2..] == a;
  }

  /** Without a closing pair the pass leaves the text alone. */
  lemma {:induction false} ReplaceNoClose<T>(s: seq<T>, m: T, o: seq<T>, c: seq<T>)
    requires |s| < 3 || FirstPair(s[3..], m).NoCut?
    ensures Replace(s, m, o, c) == s
  {
    if s != [] {
      var t := s[1..];
      if |s| >= 4 {
        assert t[3..] == s[3..][1..];
        if |s[3..]| < 2 { assert |t[3..]| < 2; }
      }
      ReplaceNoClose(t, m, o, c);
    }
  }

  lemma {:induction false} NoRunOfFourDrop<T>(s: seq<T>, m: T, k: nat)
    requires NoRunOfFour(s, m) && k <= |s|
    ensures NoRunOfFour(s[k..], m)
  {
    if k > 0 {
      if |s| >= 4 { NoRunOfFourDrop(s[1..], m, k - 1); }
      assert s[1..][k - 1..] == s[k..];
    } else {
      assert s[k..] == s;
    }
  }

  /** In a text without four markers in a row, the pass leaves exactly the odd pair over. */
  lemma {:induction false} LeftoverPairs<T>(s: seq<T>, m: T, o: seq<T>, c: seq<T>)
    requires NoRunOfFour(s, m) && Separates(o, m) && Separates(c, m)
    ensures CountPairs(Replace(s, m, o, c), m) == CountPairs(s, m) % 2
    decreases |s|
  {
    if s != [] {
      match Match(s, m)
      case Cut(_, rest) =>
        AfterMatch(s, m);
        LeftoverPairs(rest, m, o, c);
        LeftoverMatch(s, m, o, c);
      case NoCut =>
        if |s| >= 2 && s[0] == m && s[1] == m {
          LeftoverLone(s, m, o, c);
        } else {
          LeftoverStep(s, m, o, c);
          LeftoverPairs(s[1..], m, o, c);
        }
    }
  }

  lemma LeftoverLone<T>(s: seq<T>, m: T, o: seq<T>, c: seq<T>)
    requires NoRunOfFour(s, m) && |s| >= 2 && s[0] == m && s[1] == m && Match(s, m).NoCut?
    ensures CountPairs(Replace(s, m, o, c), m) == 1 && CountPairs(s, m) == 1
  {
    ReplaceNoClose(s, m, o, c);
    LonePair(s, m);
  }

  lemma LeftoverMatch<T>(s: seq<T>, m: T, o: seq<T>, c: seq<T>)
    requires NoRunOfFour(s, m) && Separates(o, m) && Separates(c, m) && Match(s, m).Cut?
    ensures var rest := Match(s, m).after;
            && CountPairs(Replace(s, m, o, c), m) == CountPairs(Replace(rest, m, o, c), m)
            && CountPairs(s, m) == 2 + CountPairs(rest, m)
  {
    MatchCounts(s, m);
    var group, rest := Match(s, m).before, Match(s, m).after;
    CountAround(o, group, c, Replace(rest, m, o, c), m);
  }

  lemma LeftoverStep<T>(s: seq<T>, m: T, o: seq<T>, c: seq<T>)
    requires s != [] && Match(s, m).NoCut? && !(|s| >= 2 && s[0] == m && s[1] == m) && NoRunOfFour(s, m)
    ensures NoRunOfFour(s[1..], m)
    ensures CountPairs(Replace(s, m, o, c), m) == CountPairs(Replace(s[1..], m, o, c), m)
    ensures CountPairs(s, m) == CountPairs(s[1..], m)
  {
    var t := s[1..];
    var r := Replace(t, m, o, c);
    NoRunOfFourDrop(s, m, 1);
    if s[0] == m && t != [] { assert Match(t, m).NoCut? && r[0] == t[0]; }
    CountAppend([s[0]], r, m);
  }

  /** An opening pair that finds no partner is the only pair. */
  lemma LonePair<T>(s: seq<T>, m: T)
    requires NoRunOfFour(s, m) && |s| >= 2 && s[0] == m && s[1] == m && Match(s, m).NoCut?
    ensures CountPairs(s, m) == 1
  {
    var t := s[2..];
    if |t| >= 1 {
      CountZero(s[3..], m);
      assert t == [t[0]] + s[3..];
      if |t| >= 2 { assert t[1] == s[3]; }
      CountAppend([t[0]], s[3..], m);
    }
  }

  // ---------- Which pairs are left over ----------

  /** Two markers stand side by side. */
  predicate HasPair<T(==)>(s: seq<T>, m: T) {
    exists i :: 0 <= i && i + 1 < |s| && s[i] == m && s[i + 1] == m
  }

  /** What follows the last match; the whole text if there is none. */
  function Tail<T(==)>(s: seq<T>, m: T): seq<T>
    decreases |s|
  {
    if s == [] || Groups(s, m) == [] then s
    else
      match Match(s, m)
      case Cut(_, rest) => Tail(rest, m)
      case NoCut => Tail(s[1..], m)
  }

  predicate PairInGroup<T(==)>(s: seq<T>, m: T) {
    exists g :: g in Groups(s, m) && HasPair(g, m)
  }

  lemma PairIsCounted<T>(s: seq<T>, m: T)
    ensures HasPair(s, m) <==> CountPairs(s, m) > 0
  {
    CountZero(s, m);
    if CountPairs(s, m) > 0 {
      var before := FirstPair(s, m).before;
      assert s[|before|] == m && s[|before| + 1] == m;
    }
  }

  lemma {:induction false} NoGroupNoChange<T>(s: seq<T>, m: T, o: seq<T>, c: seq<T>)
    requires Groups(s, m) == []
    ensures Replace(s, m, o, c) == s
  {
    if s != [] { NoGroupNoChange(s[1..], m, o, c); }
  }

  lemma {:induction false} NoCloseNoGroup<T>(s: seq<T>, m: T)
    requires |s| < 3 || FirstPair(s[3..], m).NoCut?
    ensures Groups(s, m) == []
  {
    if s != [] {
      var t := s[1..];
      if |s| >= 4 {
        assert t[3..] == s[3..][1..];
        if |s[3..]| < 2 { assert |t[3..]| < 2; }
      }
      NoCloseNoGroup(t, m);
    }
  }

  /** An element passed over before a match makes no pair with what follows it. */
  lemma PassedOver<T>(s: seq<T>, m: T, o: seq<T>, c: seq<T>)
    requires Separates(o, m) && s != [] && Match(s, m).NoCut? && Groups(s, m) != []
    ensures CountPairs(Replace(s, m, o, c), m) == CountPairs(Replace(s[1..], m, o, c), m)
  {
    var t := s[1..];
    var r := Replace(t, m, o, c);
    if s[0] == m && t != [] && t[0] == m { NoCloseNoGroup(s, m); }
    if t != [] && Match(t, m).Cut? { assert o[0] in o && r[0] == o[0]; }
    CountAppend([s[0]], r, m);
  }

  /** For every text: the pass leaves a pair behind if and only if a group or the text after the last
      match holds one. */
  lemma {:induction false} PairsLeftIff<T>(s: seq<T>, m: T, o: seq<T>, c: seq<T>)
    requires Separates(o, m) && Separates(c, m)
    ensures HasPair(Replace(s, m, o, c), m) <==> PairInGroup(s, m) || HasPair(Tail(s, m), m)
    decreases |s|
  {
    if Groups(s, m) == [] {
      NoGroupNoChange(s, m, o, c);
    } else {
      var out := Replace(s, m, o, c);
      PairIsCounted(out, m);
      match Match(s, m)
      case Cut(group, rest) =>
        PairsLeftIff(rest, m, o, c);
        CountAround(o, group, c, Replace(rest, m, o, c), m);
        PairIsCounted(group, m);
        PairIsCounted(Replace(rest, m, o, c), m);
        assert Groups(s, m) == [group] + Groups(rest, m);
      case NoCut =>
        PairsLeftIff(s[1..], m, o, c);
        PassedOver(s, m, o, c);
        PairIsCounted(Replace(s[1..], m, o, c), m);
    }
  }

  /** The pass for one marker does not change the pairs of another. */
  lemma {:induction false} OtherPairsKept<T>(s: seq<T>, m: T, o: seq<T>, c: seq<T>, n: T)
    requires n != m && Separates(o, n) && Separates(c, n)
    ensures CountPairs(Replace(s, m, o, c), n) == CountPairs(s, n)
    ensures s != [] && s[0] != n ==> Replace(s, m, o, c)[..1] != [n]
    decreases |s|
  {
    if s != [] {
      match Match(s, m)
      case Cut(group, rest) =>
        assert o[0] in o;
        OtherPairsKept(rest, m, o, c, n);
        CountAround(o, group, c, Replace(rest, m, o, c), n);
        assert (o + group + c + Replace(rest, m, o, c))[0] == o[0];
        CountAround([m, m], group, [m, m], rest, n);
      case NoCut =>
        var t := s[1..];
        var r := Replace(t, m, o, c);
        if |s| >= 2 && s[0] == n && s[1] == n {
          var u := s[2..];
          assert t == [n] + u && t[1..] == u && Match(t, m).NoCut?;
          OtherPairsKept(u, m, o, c, n);
          assert Replace(s, m, o, c) == [n, n] + Replace(u, m, o, c);
          assert ([n, n] + Replace(u, m, o, c))[2..] == Replace(u, m, o, c);
        } else {
          OtherPairsKept(t, m, o, c, n);
          if s[0] == n && t != [] && r != [] { assert r[..1] == [r[0]]; }
          CountAppend([s[0]], t, n);
          assert [s[0]] + t == s;
          CountAppend([s[0]], r, n);
        }
    }
  }

  // ---------- Runs ----------

  function Lead<T(==)>(s: seq<T>, m: T): nat {
    if s == [] || s[0] != m then 0 else 1 + Lead(s[1..], m)
  }

  lemma LeadFour<T>(s: seq<T>, m: T)
    ensures Lead(s, m) >= 4 <==> |s| >= 4 && s[0] == m && s[1] == m && s[2] == m && s[3] == m
  {
    if |s| >= 1 && s[0] == m {
      var a := s[1..];
      if |a| >= 1 && a[0] == m {
        var b := a[1..];
        if |b| >= 1 && b[0] == m {
          var d := b[1..];
          assert d != [] ==> d[0] == s[3];
        }
      }
    }
  }

  lemma {:induction false} NoRunAppend<T>(a: seq<T>, b: seq<T>, m: T)
    requires a == [] || b == [] || a[|a| - 1] != m || b[0] != m
    requires NoRunOfFour(a, m) && NoRunOfFour(b, m)
    ensures NoRunOfFour(a + b, m)
  {
    if a == [] {
      assert a + b == b;
    } else {
      var t := a[1..];
      if |a| >= 4 { assert NoRunOfFour(t, m); }
      NoRunAppend(t, b, m);
      assert (a + b)[1..] == t + b;
      if b != [] && |a| < 4 && |a + b| >= 4 { assert (a + b)[|a|] == b[0] && (a + b)[|a| - 1] == a[|a| - 1]; }
      if b == [] { assert a + b == a; }
    }
  }

  lemma {:induction false} NoRunNone<T>(s: seq<T>, m: T)
    requires m !in s
    ensures NoRunOfFour(s, m)
  {
    if |s| >= 4 {
      assert s[0] in s;
      NoRunNone(s[1..], m);
    }
  }

  /** The pass for one marker does not lengthen or create runs of another. */
  lemma {:induction false} OtherRunsKept<T>(s: seq<T>, m: T, o: seq<T>, c: seq<T>, n: T)
    requires n != m && Separates(o, n) && Separates(c, n) && NoRunOfFour(s, n)
    ensures NoRunOfFour(Replace(s, m, o, c), n)
    ensures Lead(Replace(s, m, o, c), n) == Lead(s, n)
    decreases |s|
  {
    if s != [] {
      match Match(s, m)
      case Cut(group, rest) =>
        NoRunOfFourDrop(s, n, |s| - |rest|);
        assert s[|s| - |rest|..] == rest;
        OtherRunsKept(rest, m, o, c, n);
        var r := Replace(rest, m, o, c);
        assert o[|o| - 1] in o && c[|c| - 1] in c && c[0] in c && o[0] in o;
        NoRunNone(o, n);
        NoRunNone(c, n);
        NoRunSlice(s, n, 2, 2 + |group|);
        assert s[2..2 + |group|] == group;
        NoRunAppend(o, group, n);
        NoRunAppend(o + group, c, n);
        NoRunAppend(o + group + c, r, n);
        assert (o + group + c + r)[0] == o[0];
      case NoCut =>
        var t := s[1..];
        NoRunOfFourDrop(s, n, 1);
        OtherRunsKept(t, m, o, c, n);
        var r := [s[0]] + Replace(t, m, o, c);
        assert r[1..] == Replace(t, m, o, c);
        LeadFour(s, n);
        LeadFour(r, n);
    }
  }

  lemma {:induction false} NoRunSlice<T>(s: seq<T>, m: T, lo: nat, hi: nat)
    requires lo <= hi <= |s| && NoRunOfFour(s, m)
    ensures NoRunOfFour(s[lo..hi], m)
    decreases hi - lo
  {
    if hi - lo >= 4 {
      NoRunOfFourDrop(s, m, lo);
      NoRunSlice(s, m, lo + 1, hi);
      assert s[lo..hi][1..] == s[lo + 1..hi];
      assert s[lo..][0] == s[lo] && s[lo..][1] == s[lo + 1] && s[lo..][2] == s[lo + 2] && s[lo..][3] == s[lo + 3];
    }
  }

  // ---------- Counts and runs through a faithful map ----------

  lemma {:induction false} CountFlatMap<T, U>(h: T -> seq<U>, s: seq<T>, m: T, n: U)
    requires Shows(h, s, m, n)
    ensures CountPairs(FlatMap(h, s), n) == CountPairs(s, m)
  {
    if s != [] {
      var t := s[1..];
      var w := FlatMap(h, t);
      assert s[0] in s;
      assert Shows(h, t, m, n) by { assert forall x :: x in t ==> x in s; }
      if s[0] != m {
        var a := h(s[0]);
        assert a[|a| - 1] in a;
        CountNone(a, n);
        CountAppend(a, w, n);
        CountFlatMap(h, t, m, n);
      } else if t == [] {
      } else {
        var u := t[1..];
        assert t[0] in s && w == h(t[0]) + FlatMap(h, u);
        assert w[0] == h(t[0])[0];
        if t[0] == m {
          assert Shows(h, u, m, n) by { assert forall x :: x in u ==> x in s; }
          CountFlatMap(h, u, m, n);
          assert ([n] + w)[2..] == FlatMap(h, u);
          assert s[2..] == u;
        } else {
          CountFlatMap(h, t, m, n);
          assert ([n] + w)[1..] == w;
        }
      }
    }
  }

  lemma {:induction false} RunsFlatMap<T, U>(h: T -> seq<U>, s: seq<T>, m: T, n: U)
    requires Shows(h, s, m, n) && NoRunOfFour(s, m)
    ensures NoRunOfFour(FlatMap(h, s), n) && Lead(FlatMap(h, s), n) == Lead(s, m)
  {
    if s != [] {
      var t := s[1..];
      var w := FlatMap(h, t);
      assert s[0] in s;
      assert Shows(h, t, m, n) by { assert forall x :: x in t ==> x in s; }
      NoRunOfFourDrop(s, m, 1);
      RunsFlatMap(h, t, m, n);
      var a := h(s[0]);
      if s[0] != m {
        assert a[|a| - 1] in a && a[0] in a;
        NoRunNone(a, n);
        NoRunAppend(a, w, n);
      } else {
        assert ([n] + w)[1..] == w;
        LeadFour(s, m);
        LeadFour([n] + w, n);
      }
    }
  }

  lemma {:induction false} NoPairNoGroup<T>(s: seq<T>, m: T)
    requires CountPairs(s, m) == 0
    ensures Groups(s, m) == []
  {
    if s != [] {
      if |s| >= 2 { assert !(s[0] == m && s[1] == m); }
      NoPairNoGroup(s[1..], m);
    }
  }
}
