/** Ascending sort and the interpolated percentile of src/trace/schema.js. */
module Percentiles {
  import opened Prelude
  import opened Reals
  import opened Rounding

  predicate Ascending(s: seq<real>) {
    forall i, j :: 0 <= i <= j < |s| ==> s[i] <= s[j]
  }

  lemma Below(low: real, s: seq<real>, x: real, r: seq<real>)
    requires multiset(r) == multiset(s) + multiset{x} && low <= x && forall i :: 0 <= i < |s| ==> low <= s[i]
    ensures forall i :: 0 <= i < |r| ==> low <= r[i]
  {
    forall i | 0 <= i < |r| ensures low <= r[i] {
      assert r[i] in multiset(r);
      assert r[i] in multiset(s) || r[i] == x;
    }
  }

  function Insert(x: real, s: seq<real>): (r: seq<real>)
    requires Ascending(s)
    ensures Ascending(r) && multiset(r) == multiset(s) + multiset{x}
  {
    if s == [] then [x]
    else if x <= s[0] then [x] + s
    else
      var rest := Insert(x, s[1..]);
      assert s == [s[0]] + s[1..];
      Below(s[0], s[1..], x, rest);
      [s[0]] + rest
  }

  function Sort(s: seq<real>): (r: seq<real>)
    ensures Ascending(r) && multiset(r) == multiset(s) && |r| == |s|
  {
    if s == [] then []
    else
      var r := Insert(s[|s| - 1], Sort(s[..|s| - 1]));
      assert s == s[..|s| - 1] + [s[|s| - 1]];
      assert |multiset(r)| == |multiset(s)|;
      r
  }

  function Interpolated(a: real, b: real, f: real): real {
    a * (1.0 - f) + b * f
  }

  /** The value at fractional rank `(n - 1) * q`, interpolated and rounded. */
  function Percentile(sorted: seq<real>, q: real): (r: Option<real>)
    requires 0.0 <= q <= 1.0
    ensures r.None? <==> sorted == []
  {
    if sorted == [] then None
    else if |sorted| == 1 then Some(Round4(sorted[0]))
    else
      var pos := (|sorted| - 1) as real * q;
      RankInRange(|sorted|, q);
      Some(Round4(Interpolated(sorted[pos.Floor], sorted[-(-pos).Floor], pos - pos.Floor as real)))
  }

  lemma RankInRange(n: nat, q: real)
    requires n >= 2 && 0.0 <= q <= 1.0
    ensures var pos := (n - 1) as real * q;
      0 <= pos.Floor <= -(-pos).Floor <= n - 1 && 0.0 <= pos - pos.Floor as real < 1.0
  {
    var pos := (n - 1) as real * q;
    Scaled((n - 1) as real, q, pos);
    FloorCeiling(pos, n - 1);
  }

  lemma FloorCeiling(pos: real, last: nat)
    requires 0.0 <= pos <= last as real
    ensures 0 <= pos.Floor <= -(-pos).Floor <= last && 0.0 <= pos - pos.Floor as real < 1.0
  {
  }

  lemma Scaled(x: real, q: real, pos: real)
    requires 0.0 <= x && 0.0 <= q <= 1.0 && pos == x * q
    ensures 0.0 <= pos <= x
  {
    NonNegativeProduct(x, q);
    NonNegativeProduct(x, 1.0 - q);
  }

  lemma Mix(a: real, b: real, f: real)
    ensures a * (1.0 - f) + b * f == a + (b - a) * f
    ensures a * (1.0 - f) + b * f == b - (b - a) * (1.0 - f)
  {
  }

  lemma Between(a: real, b: real, f: real)
    requires a <= b && 0.0 <= f <= 1.0
    ensures a <= Interpolated(a, b, f) <= b
  {
    Mix(a, b, f);
    NonNegativeProduct(b - a, f);
    NonNegativeProduct(b - a, 1.0 - f);
  }

  /** The two ranks a percentile interpolates between, and the fraction. */
  lemma PercentileIs(sorted: seq<real>, q: real) returns (lo: nat, hi: nat, frac: real)
    requires |sorted| > 1 && 0.0 <= q <= 1.0
    ensures lo <= hi < |sorted| && 0.0 <= frac < 1.0
    ensures lo as real + frac == (|sorted| - 1) as real * q && hi == if frac == 0.0 then lo else lo + 1
    ensures Percentile(sorted, q) == Some(Round4(Interpolated(sorted[lo], sorted[hi], frac)))
  {
    hide Round4, Interpolated;
    var pos := (|sorted| - 1) as real * q;
    RankInRange(|sorted|, q);
    lo, hi, frac := pos.Floor, -(-pos).Floor, pos - pos.Floor as real;
  }

  /** A percentile lies between the rounded least and greatest samples. */
  lemma PercentileInRange(sorted: seq<real>, q: real)
    requires sorted != [] && Ascending(sorted) && 0.0 <= q <= 1.0
    ensures Round4(sorted[0]) <= Percentile(sorted, q).value <= Round4(sorted[|sorted| - 1])
  {
    if |sorted| > 1 {
      hide Percentile, Round4, Interpolated;
      var lo, hi, frac := PercentileIs(sorted, q);
      InRange(sorted[0], sorted[lo], sorted[hi], sorted[|sorted| - 1], frac);
    }
  }

  lemma FartherIn(a: real, b: real, f: real, g: real)
    requires a <= b && f <= g
    ensures Interpolated(a, b, f) <= Interpolated(a, b, g)
  {
    Mix(a, b, f);
    Mix(a, b, g);
    NonNegativeProduct(b - a, g - f);
  }

  lemma EarlierRank(sorted: seq<real>, lo: nat, hi: nat, f: real, lo2: nat, hi2: nat, g: real)
    requires Ascending(sorted) && hi < |sorted| && hi2 < |sorted| && 0.0 <= f < 1.0 && 0.0 <= g < 1.0
    requires hi == (if f == 0.0 then lo else lo + 1) && hi2 == if g == 0.0 then lo2 else lo2 + 1
    requires lo as real + f <= lo2 as real + g
    ensures Interpolated(sorted[lo], sorted[hi], f) <= Interpolated(sorted[lo2], sorted[hi2], g)
  {
    hide Interpolated;
    Between(sorted[lo], sorted[hi], f);
    Between(sorted[lo2], sorted[hi2], g);
    if lo == lo2 && f > 0.0 {
      FartherIn(sorted[lo], sorted[hi], f, g);
    } else {
      assert f == 0.0 || lo < lo2;
    }
  }

  /** A higher quantile never gives a smaller percentile. */
  lemma PercentileOrder(sorted: seq<real>, q: real, r: real)
    requires sorted != [] && Ascending(sorted) && 0.0 <= q <= r <= 1.0
    ensures Percentile(sorted, q).value <= Percentile(sorted, r).value
  {
    if |sorted| > 1 {
      var lo, hi, f := PercentileIs(sorted, q);
      var lo2, hi2, g := PercentileIs(sorted, r);
      var n := (|sorted| - 1) as real;
      NonNegativeProduct(n, r - q);
      hide Percentile, Round4, Interpolated, Ascending;
      EarlierRank(sorted, lo, hi, f, lo2, hi2, g);
      Round4Order(Interpolated(sorted[lo], sorted[hi], f), Interpolated(sorted[lo2], sorted[hi2], g));
    }
  }

  lemma InRange(least: real, a: real, b: real, greatest: real, f: real)
    requires least <= a <= b <= greatest && 0.0 <= f <= 1.0
    ensures Round4(least) <= Round4(Interpolated(a, b, f)) <= Round4(greatest)
  {
    hide Round4, Interpolated;
    var x := Interpolated(a, b, f);
    Between(a, b, f);
    Round4Order(least, x);
    Round4Order(x, greatest);
  }
}
