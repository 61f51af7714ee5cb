/** `softmax` and `expectedScore` of src/decision/questions.js. */
module Questions {
  import opened Integers
  import opened Reals
  import opened Rounding
  import opened ShareRounding

  function Greatest(scores: seq<real>): (m: real)
    requires scores != []
    ensures forall i :: 0 <= i < |scores| ==> scores[i] <= m
    ensures exists i :: 0 <= i < |scores| && scores[i] == m
  {
    if |scores| == 1 then scores[0]
    else
      var m := Greatest(scores[..|scores| - 1]);
      if scores[|scores| - 1] > m then scores[|scores| - 1] else m
  }

  function Exps(scores: seq<real>, max: real, temperature: real, exp: real -> real): (e: seq<real>)
    requires temperature != 0.0
    ensures |e| == |scores| && forall i :: 0 <= i < |scores| ==> e[i] == exp((scores[i] - max) / temperature)
  {
    if scores == [] then []
    else
      Exps(scores[..|scores| - 1], max, temperature, exp) + [exp((scores[|scores| - 1] - max) / temperature)]
  }

  function ScoreExps(scores: seq<real>, temperature: real, exp: real -> real): (e: seq<real>)
    requires scores != [] && temperature != 0.0
    ensures |e| == |scores|
  {
    Exps(scores, Greatest(scores), temperature, exp)
  }

  function OrOne(x: real): real {
    if x == 0.0 then 1.0 else x
  }

  function Softmax(scores: seq<real>, temperature: real, exp: real -> real): seq<int>
    requires temperature != 0.0
  {
    if scores == [] then []
    else
      var e := ScoreExps(scores, temperature, exp);
      Fold(Millionths(Shares(e, OrOne(Sum(e)))))
  }

  lemma NoTotal()
    ensures Sum([]) == 0.0
  {
  }

  method SoftmaxLoop(scores: seq<real>, temperature: real, exp: real -> real) returns (out: seq<int>)
    requires temperature != 0.0
    ensures out == Softmax(scores, temperature, exp)
  {
    hide Sum, Exps, Fold, Millionths, Shares;
    if scores == [] {
      return [];
    }
    NoTotal();
    var max := Greatest(scores);
    var exps: seq<real> := [];
    var sum := 0.0;
    for i := 0 to |scores|
      invariant |exps| == i && sum == Sum(exps)
      invariant forall k :: 0 <= k < i ==> exps[k] == exp((scores[k] - max) / temperature)
    {
      SumSnoc(exps, exp((scores[i] - max) / temperature));
      exps := exps + [exp((scores[i] - max) / temperature)];
      sum := sum + exps[i];
    }
    assert exps == Exps(scores, max, temperature, exp);
    out := RoundAndFold(exps, OrOne(sum));
  }

  lemma {:induction false} SumPositive(w: seq<real>)
    requires forall i :: 0 <= i < |w| ==> w[i] > 0.0
    ensures Sum(w) >= 0.0 && (w != [] ==> Sum(w) > 0.0)
  {
    if w != [] {
      SumPositive(w[..|w| - 1]);
    }
  }

  lemma ExpsPositive(scores: seq<real>, temperature: real, exp: real -> real)
    requires temperature != 0.0 && IsExp(exp) && scores != []
    ensures forall i :: 0 <= i < |scores| ==> ScoreExps(scores, temperature, exp)[i] > 0.0
  {
    hide Exps, Greatest;
  }

  /** The folded shares of positive weights. */
  lemma FoldedShares(e: seq<real>)
    requires FewOptions(|e|) && forall i :: 0 <= i < |e| ==> e[i] > 0.0
    ensures Sum(e) > 0.0 && ExactTo(Fold(Millionths(Shares(e, Sum(e)))), e)
  {
    SumPositive(e);
    hide Sum, Fold, Rounds, IsShares, Shares, Millionths;
    PositiveShares(e, Sum(e));
    RoundedShares(Shares(e, Sum(e)));
  }

  /** The rounded softmax of up to 1415 scores is a distribution: non-negative, summing to exactly
      one, each entry close to its exact share of the exponentials. */
  lemma SoftmaxIsExact(scores: seq<real>, temperature: real, exp: real -> real)
    requires temperature != 0.0 && IsExp(exp) && FewOptions(|scores|)
    ensures ExactTo(Softmax(scores, temperature, exp), ScoreExps(scores, temperature, exp))
  {
    assert scores != [];
    ExpsPositive(scores, temperature, exp);
    hide Sum, Fold, ScoreExps, IsExp, Shares, Millionths, ExactTo, FewOptions;
    FoldedShares(ScoreExps(scores, temperature, exp));
  }

  lemma ExpOrder(exp: real -> real, x: real, y: real)
    requires IsExp(exp) && x <= y
    ensures exp(x) <= exp(y)
  {
  }

  lemma ExpBelowOne(exp: real -> real, x: real)
    requires IsExp(exp) && x <= 0.0
    ensures exp(x) <= 1.0
  {
    ExpOrder(exp, x, 0.0);
  }

  function Exponent(scores: seq<real>, temperature: real, i: nat): real
    requires temperature != 0.0 && i < |scores|
  {
    (scores[i] - Greatest(scores)) / temperature
  }

  lemma ExponentOrder(scores: seq<real>, temperature: real, i: nat, j: nat)
    requires temperature > 0.0 && i < |scores| && j < |scores| && scores[i] <= scores[j]
    ensures Exponent(scores, temperature, i) <= Exponent(scores, temperature, j)
  {
    hide Greatest;
    QuotientOrder(scores[i] - Greatest(scores), scores[j] - Greatest(scores), temperature);
  }

  lemma ExponentAtMostZero(scores: seq<real>, temperature: real, i: nat)
    requires temperature > 0.0 && i < |scores|
    ensures Exponent(scores, temperature, i) <= 0.0
  {
    hide Greatest;
    NonNegativeQuotient(Greatest(scores) - scores[i], temperature);
    QuotientSum(Greatest(scores) - scores[i], scores[i] - Greatest(scores), temperature);
  }

  lemma ScoreExpIs(scores: seq<real>, temperature: real, exp: real -> real, i: nat)
    requires temperature != 0.0 && i < |scores|
    ensures ScoreExps(scores, temperature, exp)[i] == exp(Exponent(scores, temperature, i))
  {
    hide Exps, Greatest;
  }

  /** A higher score never gets a smaller exact share. */
  lemma SoftmaxOrder(scores: seq<real>, temperature: real, exp: real -> real, i: nat, j: nat)
    requires temperature > 0.0 && IsExp(exp) && i < |scores| && j < |scores| && scores[i] <= scores[j]
    ensures ScoreExps(scores, temperature, exp)[i] <= ScoreExps(scores, temperature, exp)[j] <= 1.0
  {
    hide *;
    ScoreExpIs(scores, temperature, exp, i);
    ScoreExpIs(scores, temperature, exp, j);
    ExponentOrder(scores, temperature, i, j);
    ExponentAtMostZero(scores, temperature, j);
    ExpOrder(exp, Exponent(scores, temperature, i), Exponent(scores, temperature, j));
    ExpBelowOne(exp, Exponent(scores, temperature, j));
  }

  /** The sum of each entry times its level. */
  function Moment(p: seq<int>): int {
    if p == [] then 0 else Moment(p[..|p| - 1]) + (|p| - 1) * p[|p| - 1]
  }

  /** The mean level in millionths, or 0 without any mass. */
  function Expected(p: seq<int>): int {
    if Total(p) > 0 then Nearest(Moment(p) as real / Total(p) as real * 1000000.0) else 0
  }

  method ExpectedScore(p: seq<int>) returns (score: int)
    ensures score == Expected(p)
  {
    hide Nearest;
    var sum, mass := 0, 0;
    for i := 0 to |p|
      invariant sum == Moment(p[..i]) && mass == Total(p[..i])
    {
      assert p[..i + 1][..i] == p[..i];
      sum := sum + i * p[i];
      mass := mass + p[i];
    }
    assert p[..|p|] == p;
    score := if mass > 0 then Nearest(sum as real / mass as real * 1000000.0) else 0;
  }

  lemma {:induction false} MomentBound(p: seq<int>, n: nat)
    requires |p| <= n && forall i :: 0 <= i < |p| ==> p[i] >= 0
    ensures 0 <= Total(p) && 0 <= Moment(p) <= (n - 1) * Total(p)
  {
    if p != [] {
      var init, last := p[..|p| - 1], p[|p| - 1];
      MomentBound(init, n);
      MulOrder(|p| - 1, n - 1, last);
      assert (n - 1) * Total(p) == (n - 1) * Total(init) + (n - 1) * last;
    }
  }

  lemma MeanBound(moment: int, mass: int, top: int)
    requires mass > 0 && 0 <= moment <= top * mass
    ensures 0.0 <= moment as real / mass as real <= top as real
  {
    NonNegativeQuotient(moment as real, mass as real);
    QuotientOrder(moment as real, top as real * mass as real, mass as real);
    assert top as real * mass as real / mass as real == top as real;
  }

  /** The expected score of non-negative entries lies between the first and the last level. */
  lemma ExpectedInRange(p: seq<int>)
    requires p != [] && forall i :: 0 <= i < |p| ==> p[i] >= 0
    ensures 0 <= Expected(p) <= (|p| - 1) * MILLION
  {
    MomentBound(p, |p|);
    hide Moment, Total, Nearest;
    if Total(p) > 0 {
      var top := |p| - 1;
      MeanBound(Moment(p), Total(p), top);
      var x := Moment(p) as real / Total(p) as real * 1000000.0;
      NearestOrder(0.0, x);
      NearestOrder(x, (top * MILLION) as real);
      NearestUnique(0.0, 0);
      NearestUnique((top * MILLION) as real, top * MILLION);
    }
  }
}
