/** Shares rounded to millionths that still sum to exactly one: the residual of the rounding goes to
    the first greatest entry. A rounded entry is held as its whole number of millionths. */
module ShareRounding {
  import opened Integers
  import opened Reals
  import opened Rounding

  const MILLION := 1000000

  /** Each share divided by the total. */
  function Shares(w: seq<real>, total: real): (s: seq<real>)
    requires total != 0.0
    ensures |s| == |w|
  {
    if w == [] then [] else Shares(w[..|w| - 1], total) + [w[|w| - 1] / total]
  }

  lemma {:induction false} ShareAt(w: seq<real>, total: real, i: nat)
    requires total != 0.0 && i < |w|
    ensures Shares(w, total)[i] == w[i] / total
  {
    if i < |w| - 1 {
      ShareAt(w[..|w| - 1], total, i);
    }
  }

  function Millionths(s: seq<real>): (r: seq<int>)
    ensures |r| == |s| && forall i :: 0 <= i < |s| ==> r[i] == Nearest(s[i] * 1000000.0)
  {
    if s == [] then [] else Millionths(s[..|s| - 1]) + [Nearest(s[|s| - 1] * 1000000.0)]
  }

  /** The first greatest of the first `n` entries. */
  function Top(r: seq<int>, n: nat): (t: nat)
    requires 1 <= n <= |r|
    ensures t < n
    ensures forall j :: 0 <= j < n ==> r[j] <= r[t] && (j < t ==> r[j] < r[t])
  {
    if n == 1 then 0
    else
      var best := Top(r, n - 1);
      if r[n - 1] > r[best] then n - 1 else best
  }

  /** Give the rounding residual to the first greatest entry. */
  function Fold(r: seq<int>): (f: seq<int>)
    requires r != []
    ensures |f| == |r|
  {
    var t := Top(r, |r|);
    r[t := r[t] + MILLION - Total(r)]
  }

  lemma {:induction false} TotalUpdate(r: seq<int>, i: nat, x: int)
    requires i < |r|
    ensures Total(r[i := x]) == Total(r) - r[i] + x
  {
    var n := |r| - 1;
    if i < n {
      TotalUpdate(r[..n], i, x);
      assert r[i := x][..n] == r[..n][i := x];
    } else {
      assert r[i := x][..n] == r[..n];
    }
  }

  /** Rounding `n` entries moves their sum by at most `n` halves. */
  lemma {:induction false} TotalNear(s: seq<real>)
    ensures Sum(s) * 1000000.0 - |s| as real * 0.5 <= Total(Millionths(s)) as real
      <= Sum(s) * 1000000.0 + |s| as real * 0.5
  {
    if s != [] {
      TotalNear(s[..|s| - 1]);
      NearestIs(s[|s| - 1] * 1000000.0);
    }
  }

  lemma {:induction false} TotalAtMost(r: seq<int>, top: int)
    requires forall i :: 0 <= i < |r| ==> r[i] <= top
    ensures Total(r) <= |r| * top
  {
    if r != [] {
      TotalAtMost(r[..|r| - 1], top);
      assert (|r| - 1) * top + top == |r| * top;
    }
  }

  predicate Scales(x: real, k: real, y: real) {
    x * k == y
  }

  /** Sums scale like their terms. */
  lemma {:induction false} ScaledSum(s: seq<real>, w: seq<real>, k: real)
    requires |s| == |w| && forall i :: 0 <= i < |s| ==> Scales(s[i], k, w[i])
    ensures Scales(Sum(s), k, Sum(w))
  {
    if s != [] {
      var n := |s| - 1;
      ScaledSum(s[..n], w[..n], k);
      assert Scales(s[n], k, w[n]);
    } else {
      assert 0.0 * k == 0.0;
    }
  }

  predicate IsShares(s: seq<real>) {
    s != [] && Sum(s) == 1.0 && forall i :: 0 <= i < |s| ==> s[i] >= 0.0
  }

  predicate Within(x: int, y: real, bound: real) {
    y - bound <= x as real <= y + bound
  }

  lemma FoldSums(r: seq<int>)
    requires r != []
    ensures Total(Fold(r)) == MILLION
  {
    var t := Top(r, |r|);
    TotalUpdate(r, t, r[t] + MILLION - Total(r));
  }

  /** The excess is at most half the number of entries, and a greatest entry below it would keep the
      total under a million. */
  lemma FoldedTop(n: nat, top: int, total: int)
    requires FewOptions(n) && total <= n * top && 2 * (total - MILLION) <= n
    ensures top + MILLION - total >= 0
  {
    if top < total - MILLION {
      if top < 0 {
        MulOrder(top, 0, n - 1);
      } else {
        MulOrder(top, 706, n);
      }
    }
  }

  predicate FewOptions(n: nat) {
    1 <= n <= 1415
  }

  /** `f` is a distribution in millionths: non-negative, summing to exactly one, each entry within
      (n + 1) / 2 millionths of its exact share. */
  predicate Rounds(f: seq<int>, s: seq<real>) {
    && |f| == |s| && Total(f) == MILLION
    && forall i :: 0 <= i < |s| ==> EntryRounds(f[i], s[i], |s|)
  }

  predicate EntryRounds(x: int, share: real, n: nat) {
    x >= 0 && Within(x, share * 1000000.0, (n + 1) as real * 0.5)
  }

  lemma Entry(s: seq<real>, i: nat)
    requires IsShares(s) && i < |s|
    ensures Millionths(s)[i] >= 0 && Within(Millionths(s)[i], s[i] * 1000000.0, 0.5)
    ensures Within(Millionths(s)[i], s[i] * 1000000.0, (|s| + 1) as real * 0.5)
  {
    NearestIs(s[i] * 1000000.0);
    hide Millionths, Sum, Nearest;
  }

  lemma TopEntry(s: seq<real>)
    requires IsShares(s) && FewOptions(|s|)
    ensures var r := Millionths(s);
      var t := Top(r, |r|);
      r[t] + MILLION - Total(r) >= 0
      && Within(r[t] + MILLION - Total(r), s[t] * 1000000.0, (|s| + 1) as real * 0.5)
  {
    var r := Millionths(s);
    var t := Top(r, |r|);
    TotalNear(s);
    TotalAtMost(r, r[t]);
    Entry(s, t);
    hide Millionths, Sum, Total, Top, Nearest;
    assert Sum(s) == 1.0;
    hide IsShares;
    FoldedTop(|s|, r[t], Total(r));
  }

  lemma FoldedEntry(s: seq<real>, i: nat)
    requires IsShares(s) && FewOptions(|s|) && i < |s|
    ensures EntryRounds(Fold(Millionths(s))[i], s[i], |s|)
    ensures i != Top(Millionths(s), |s|) ==> Within(Fold(Millionths(s))[i], s[i] * 1000000.0, 0.5)
  {
    hide Total, Sum, Millionths, FewOptions, IsShares, Top, Within;
    TopEntry(s);
    Entry(s, i);
  }

  /** For up to 1415 options the rounded shares are a distribution close to the exact shares. */
  lemma RoundedShares(s: seq<real>)
    requires IsShares(s) && FewOptions(|s|)
    ensures Rounds(Fold(Millionths(s)), s)
  {
    FoldSums(Millionths(s));
    hide Total, Sum, Fold, Millionths, FewOptions, IsShares, EntryRounds;
    forall i | 0 <= i < |s| ensures EntryRounds(Fold(Millionths(s))[i], s[i], |s|) {
      FoldedEntry(s, i);
    }
  }

  /** `f` is a distribution in millionths close to the exact shares of the weights `e`. */
  predicate ExactTo(f: seq<int>, e: seq<real>) {
    Sum(e) > 0.0 && Rounds(f, Shares(e, Sum(e)))
  }

  lemma PositiveShares(e: seq<real>, total: real)
    requires e != [] && total > 0.0 && total == Sum(e) && forall i :: 0 <= i < |e| ==> e[i] >= 0.0
    ensures IsShares(Shares(e, total))
  {
    hide Sum, Shares;
    var s := Shares(e, total);
    forall i | 0 <= i < |e| ensures s[i] >= 0.0 && Scales(s[i], total, e[i]) {
      ShareAt(e, total, i);
      NonNegativeQuotient(e[i], total);
    }
    ScaledSum(s, e, total);
    Whole(Sum(s), total);
  }

  lemma Whole(x: real, total: real)
    requires total > 0.0 && Scales(x, total, total)
    ensures x == 1.0
  {
    assert (x - 1.0) * total == 0.0;
  }

  lemma SumSnoc(w: seq<real>, x: real)
    ensures Sum(w + [x]) == Sum(w) + x
  {
  }

  lemma TopSteps(r: seq<int>, n: nat)
    requires 1 <= n <= |r|
    ensures Top(r, n) == if n == 1 then 0 else if r[n - 1] > r[Top(r, n - 1)] then n - 1 else Top(r, n - 1)
  {
  }

  /** Divide by the total, round, and find where the residual goes. */
  method RoundAndFold(w: seq<real>, sum: real) returns (out: seq<int>)
    requires w != [] && sum != 0.0
    ensures out == Fold(Millionths(Shares(w, sum)))
  {
    hide Total, Nearest, Shares, Millionths, Top;
    out := [];
    for i := 0 to |w|
      invariant |out| == i && forall k :: 0 <= k < i ==> out[k] == Nearest(w[k] / sum * 1000000.0)
    {
      out := out + [Nearest(w[i] / sum * 1000000.0)];
    }
    forall i | 0 <= i < |w| ensures Shares(w, sum)[i] == w[i] / sum {
      ShareAt(w, sum, i);
    }
    assert out == Millionths(Shares(w, sum));
    var residual := MILLION - Total(out);
    var top := 0;
    TopSteps(out, 1);
    for i := 1 to |out|
      invariant top < i && top == Top(out, i)
    {
      TopSteps(out, i + 1);
      if out[i] > out[top] {
        top := i;
      }
    }
    if residual != 0 {
      out := out[top := out[top] + residual];
    } else {
      assert out == out[top := out[top]];
    }
  }
}
