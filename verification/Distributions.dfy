/** `normalizeDistribution` of src/decision/jev.js. */
module Distributions {
  import opened Integers
  import opened Reals
  import opened Rounding
  import opened ShareRounding

  function Weight(dist: map<string, real>, option: string): real {
    if option in dist && dist[option] > 0.0 then dist[option] else 0.0
  }

  function Weights(dist: map<string, real>, options: seq<string>): (w: seq<real>)
    ensures |w| == |options| && forall i :: 0 <= i < |options| ==> w[i] == Weight(dist, options[i])
  {
    if options == [] then []
    else Weights(dist, options[..|options| - 1]) + [Weight(dist, options[|options| - 1])]
  }

  function Ones(n: nat): (w: seq<real>)
    ensures |w| == n && forall i :: 0 <= i < n ==> w[i] == 1.0
  {
    if n == 0 then [] else Ones(n - 1) + [1.0]
  }

  /** The weights the shares are taken of: equal ones when nothing has any weight. */
  function Effective(w: seq<real>): (e: seq<real>)
    ensures |e| == |w|
  {
    if Sum(w) <= 0.0 then Ones(|w|) else w
  }

  lemma {:induction false} OnesTotal(n: nat)
    ensures Sum(Ones(n)) == n as real
  {
    if n > 0 {
      OnesTotal(n - 1);
      assert Ones(n)[..n - 1] == Ones(n - 1);
    }
  }

  lemma EffectiveTotal(w: seq<real>)
    requires w != [] && forall i :: 0 <= i < |w| ==> w[i] >= 0.0
    ensures Sum(Effective(w)) > 0.0 && forall i :: 0 <= i < |w| ==> Effective(w)[i] >= 0.0
  {
    hide Sum;
    OnesTotal(|w|);
  }

  lemma EffectiveShares(w: seq<real>)
    requires w != [] && forall i :: 0 <= i < |w| ==> w[i] >= 0.0
    ensures Sum(Effective(w)) > 0.0 && IsShares(Shares(Effective(w), Sum(Effective(w))))
  {
    hide Sum, Effective, IsShares;
    EffectiveTotal(w);
    PositiveShares(Effective(w), Sum(Effective(w)));
  }

  function Normalized(dist: map<string, real>, options: seq<string>): seq<int> {
    var w := Weights(dist, options);
    if options == [] then []
    else
      EffectiveShares(w);
      Fold(Millionths(Shares(Effective(w), Sum(Effective(w)))))
  }

  /** Every option gets a non-negative entry, the entries sum to exactly one, and each is close to
      the option's share of the weight, or to an equal share when nothing has weight. */
  lemma NormalizedIsExact(dist: map<string, real>, options: seq<string>)
    requires FewOptions(|options|)
    ensures ExactTo(Normalized(dist, options), Effective(Weights(dist, options)))
  {
    hide Sum, Fold, Effective, Rounds, IsShares, Shares, Millionths;
    var w := Weights(dist, options);
    EffectiveShares(w);
    RoundedShares(Shares(Effective(w), Sum(Effective(w))));
  }

  lemma NoWeights(dist: map<string, real>)
    ensures Sum([]) == 0.0 && Weights(dist, []) == []
  {
  }

  lemma WeightsNext(dist: map<string, real>, options: seq<string>, i: nat)
    requires i < |options|
    ensures Weights(dist, options[..i + 1]) == Weights(dist, options[..i]) + [Weight(dist, options[i])]
  {
  }

  method NormalizeDistribution(dist: map<string, real>, options: seq<string>) returns (out: seq<int>)
    ensures out == Normalized(dist, options)
  {
    hide Total, Sum, Nearest, Weights, Fold, Millionths, Shares, Weight;
    NoWeights(dist);
    var w: seq<real> := [];
    var sum := 0.0;
    for i := 0 to |options|
      invariant w == Weights(dist, options[..i]) && sum == Sum(w)
    {
      WeightsNext(dist, options, i);
      SumSnoc(w, Weight(dist, options[i]));
      w := w + [Weight(dist, options[i])];
      sum := sum + Weight(dist, options[i]);
    }
    assert options[..|options|] == options;
    if options == [] {
      return [];
    }
    if sum <= 0.0 {
      var p := Nearest(1.0 / |options| as real * 1000000.0);
      out := Repeat(|options|, p);
      var residual := MILLION - Total(out);
      UniformFold(|options|, p);
      out := out[0 := out[0] + residual];
    } else {
      out := RoundAndFold(w, sum);
    }
  }

  function Repeat(n: nat, p: int): (r: seq<int>)
    ensures |r| == n && forall i :: 0 <= i < n ==> r[i] == p
  {
    if n == 0 then [] else Repeat(n - 1, p) + [p]
  }

  lemma FoldRepeated(n: nat, p: int)
    requires n >= 1
    ensures Fold(Repeat(n, p)) == Repeat(n, p)[0 := p + MILLION - Total(Repeat(n, p))]
  {
    var r := Repeat(n, p);
    var t := Top(r, n);
    assert r[0] == p && r[t] == p;
    hide Total, Top, Repeat;
  }

  /** Folding a uniform distribution gives the residual to the first option. */
  lemma UniformFold(n: nat, p: int)
    requires n >= 1 && p == Nearest(1.0 / n as real * 1000000.0)
    ensures Sum(Ones(n)) == n as real
    ensures Fold(Millionths(Shares(Ones(n), n as real))) == Repeat(n, p)[0 := p + MILLION - Total(Repeat(n, p))]
  {
    OnesTotal(n);
    FoldRepeated(n, p);
    hide Total, Nearest, Sum, Fold, Ones, Shares, Millionths, Repeat;
    var shares := Shares(Ones(n), n as real);
    forall i | 0 <= i < n ensures shares[i] == 1.0 / n as real {
      ShareAt(Ones(n), n as real, i);
    }
    assert Millionths(shares) == Repeat(n, p);
  }

  /** With too many options the fold can drive an entry below zero: 1998 equal options. */
  lemma ManyOptionsGoNegative(dist: map<string, real>, options: seq<string>)
    requires |options| == 1998 && Sum(Weights(dist, options)) <= 0.0
    ensures Normalized(dist, options)[0] == -497
  {
    var p := Nearest(1.0 / 1998 as real * 1000000.0);
    assert p == 501 by {
      NearestUnique(1.0 / 1998 as real * 1000000.0, 501);
    }
    UniformFold(1998, p);
    UniformTotal(1998, p);
    hide Total, Sum, Weights, Fold, Millionths, Shares, Nearest, Ones;
  }

  lemma {:induction false} UniformTotal(n: nat, p: int)
    ensures Total(Repeat(n, p)) == n * p
  {
    if n > 0 {
      UniformTotal(n - 1, p);
      assert Repeat(n, p)[..n - 1] == Repeat(n - 1, p);
      assert (n - 1) * p + p == n * p;
    }
  }
}
