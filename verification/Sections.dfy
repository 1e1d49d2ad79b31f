/** The fixed 35/10/5 layout of a test (`app/services/question_validation.py`). */
module Sections {
  import opened Common

  const EXPECTED_ROW_COUNT: nat := 50

  /** What may be answered and what may be the key; the tables allow nothing else. */
  const OPTIONS: seq<string> := ["A", "B", "C", "D"]

  datatype Section = RusTili | Pedagogik | Kasbiy

  function Name(s: Section): string {
    match s
    case RusTili => "rus_tili"
    case Pedagogik => "pedagogik"
    case Kasbiy => "kasbiy"
  }

  /** Membership in VALID_SECTIONS. */
  function FromName(name: string): (r: Option<Section>)
    ensures r.Some? ==> Name(r.value) == name
  {
    if name == "rus_tili" then Some(RusTili)
    else if name == "pedagogik" then Some(Pedagogik)
    else if name == "kasbiy" then Some(Kasbiy)
    else None
  }

  function Lo(s: Section): nat {
    match s case RusTili => 1 case Pedagogik => 36 case Kasbiy => 46
  }

  function Hi(s: Section): nat {
    match s case RusTili => 35 case Pedagogik => 45 case Kasbiy => 50
  }

  function Expected(s: Section): nat {
    match s case RusTili => 35 case Pedagogik => 10 case Kasbiy => 5
  }

  function SectionForPosition(position: int): Option<Section> {
    if Lo(RusTili) <= position <= Hi(RusTili) then Some(RusTili)
    else if Lo(Pedagogik) <= position <= Hi(Pedagogik) then Some(Pedagogik)
    else if Lo(Kasbiy) <= position <= Hi(Kasbiy) then Some(Kasbiy)
    else None
  }

  /** The ranges tile 1..50: a position belongs to one section, the one whose range holds it. */
  lemma RangesTile(position: int, s: Section)
    ensures SectionForPosition(position) == Some(s) <==> Lo(s) <= position <= Hi(s)
    ensures SectionForPosition(position) == None <==> !(1 <= position <= EXPECTED_ROW_COUNT)
    ensures Hi(s) - Lo(s) + 1 == Expected(s)
  {
  }

  // ---------- Counting positions ----------

  ghost predicate Distinct<T>(s: seq<T>) {
    forall i, j :: 0 <= i < j < |s| ==> s[i] != s[j]
  }

  function Range(lo: int, hi: int): (r: set<int>)
    requires lo <= hi + 1
    ensures forall i :: i in r <==> lo <= i <= hi
    ensures |r| == hi - lo + 1
    decreases hi - lo + 1
  {
    if lo > hi then {} else Range(lo, hi - 1) + {hi}
  }

  lemma SubsetSize<T>(a: set<T>, b: set<T>)
    requires a <= b
    ensures |a| <= |b|
    ensures |a| == |b| ==> a == b
  {
    assert |b| == |a| + |b - a| by { assert a + (b - a) == b; }
  }

  function CountIn(ps: seq<int>, lo: int, hi: int): nat {
    if ps == [] then 0
    else CountIn(ps[..|ps| - 1], lo, hi) + if lo <= ps[|ps| - 1] <= hi then 1 else 0
  }

  function Elements(ps: seq<int>): set<int> {
    set p | p in ps
  }

  lemma {:induction false} CountIsSize(ps: seq<int>, lo: int, hi: int)
    requires Distinct(ps) && lo <= hi + 1
    ensures CountIn(ps, lo, hi) == |Elements(ps) * Range(lo, hi)|
    ensures |Elements(ps)| == |ps|
  {
    if ps != [] {
      var n := |ps| - 1;
      var q, p := ps[..n], ps[n];
      CountIsSize(q, lo, hi);
      assert p !in q;
      assert ps == q + [p];
      AddOne(Elements(q), p, lo, hi);
      assert Elements(ps) == Elements(q) + {p};
    }
  }

  lemma AddOne(s: set<int>, p: int, lo: int, hi: int)
    requires p !in s && lo <= hi + 1
    ensures |s + {p}| == |s| + 1
    ensures |(s + {p}) * Range(lo, hi)| == |s * Range(lo, hi)| + if lo <= p <= hi then 1 else 0
  {
    var r := Range(lo, hi);
    if lo <= p <= hi { assert (s + {p}) * r == s * r + {p}; } else { assert (s + {p}) * r == s * r; }
  }

  /** As many different positions as a range holds, all inside it, are the whole range. */
  lemma FullRange(ps: seq<int>, n: nat, lo: int, hi: int)
    requires |ps| == n && Distinct(ps)
    requires forall i :: 0 <= i < |ps| ==> 1 <= ps[i] <= n
    requires 1 <= lo <= hi + 1 <= n + 1
    ensures forall p :: p in ps <==> 1 <= p <= n
    ensures CountIn(ps, lo, hi) == hi - lo + 1
  {
    CountIsSize(ps, 1, n);
    forall p | p in Elements(ps) ensures p in Range(1, n) {
      var i :| 0 <= i < |ps| && ps[i] == p;
    }
    SubsetSize(Elements(ps), Range(1, n));
    CountIsSize(ps, lo, hi);
    Within(Range(1, n), Range(lo, hi));
    forall p ensures p in ps <==> 1 <= p <= n { assert p in Elements(ps) <==> p in Range(1, n); }
  }

  /** The positions are 1 to 50. */
  ghost predicate AllPositions(ps: seq<int>) {
    forall p :: p in ps <==> 1 <= p <= EXPECTED_ROW_COUNT
  }

  /** Fifty distinct positions within 1..50 are all of 1..50, so every section is full. */
  lemma Pigeonhole(ps: seq<int>, s: Section)
    requires |ps| == EXPECTED_ROW_COUNT && Distinct(ps)
    requires forall i :: 0 <= i < |ps| ==> 1 <= ps[i] <= EXPECTED_ROW_COUNT
    ensures AllPositions(ps)
    ensures CountIn(ps, Lo(s), Hi(s)) == Expected(s)
  {
    hide Distinct, CountIn;
    RangesTile(Lo(s), s);
    FullRange(ps, EXPECTED_ROW_COUNT, Lo(s), Hi(s));
  }

  lemma Within(all: set<int>, part: set<int>)
    requires part <= all
    ensures all * part == part
  {
  }

  /** Positions that differ and lie in a section are at most as many as the section holds. */
  lemma AtMostExpected(positions: set<int>, s: Section)
    requires forall p :: p in positions ==> Lo(s) <= p <= Hi(s)
    ensures |positions| <= Expected(s)
  {
    SubsetSize(positions, Range(Lo(s), Hi(s)));
  }
}
