/** The capped weighted score of src/gate/atlas-score.js. */
module AtlasScore {
  import opened Prelude
  import opened Reals
  import opened Rounding

  /** Measured over budget; `Infinite` also stands for a ratio that is not a number. */
  datatype Ratio = Infinite | Finite(value: real)

  /** What a trace shows: the facts and the ratios that were measurable. */
  datatype Evidence = Evidence(
    reachedEndState: bool,
    steps: Option<Ratio>,
    firstFrameNonBlank: Option<bool>,
    focalCoverage: Option<Ratio>,
    edgeDrift: Option<Ratio>,
    orderingOk: bool,
    p95Interaction: Option<Ratio>,
    droppedFrames: Option<Ratio>,
    pacing: Option<Ratio>,
    xrFallback: Option<bool>,
    responsiveness: Option<Response>)

  /** A responsiveness dimension without a positive budget has no ratio, only a verdict. */
  datatype Response = Graded(ratio: Ratio) | HeldOnly(held: bool)

  // ---- the curve ----------------------------------------------------------------------------

  function Grade(r: Ratio, exp: real -> real): real {
    if r.Infinite? then 0.0
    else if r.value <= 0.0 then 1.0
    else if r.value <= 1.0 then 1.0 - 0.2 * r.value
    else Max(0.0, 0.8 * exp(-(r.value - 1.0)))
  }

  predicate NoWorse(a: Ratio, b: Ratio) {
    b.Infinite? || (a.Finite? && a.value <= b.value)
  }

  /** The curve lies in [0, 1], never rises, and its three pieces meet at 0 and at 1. */
  lemma GradeFalls(a: Ratio, b: Ratio, exp: real -> real)
    requires IsExp(exp) && NoWorse(a, b)
    ensures 0.0 <= Grade(b, exp) <= Grade(a, exp) <= 1.0
    ensures Grade(Finite(0.0), exp) == 1.0 == 1.0 - 0.2 * 0.0
    ensures Grade(Finite(1.0), exp) == 0.8 == 0.8 * exp(-(1.0 - 1.0))
  {
    if a.Finite? && a.value > 1.0 {
      assert exp(-(a.value - 1.0)) <= exp(0.0);
    }
    if b.Finite? && b.value > 1.0 {
      assert exp(-(b.value - 1.0)) <= exp(0.0);
      if a.value > 1.0 {
        assert exp(-(b.value - 1.0)) <= exp(-(a.value - 1.0));
      }
    }
  }

  // ---- the four dimensions ------------------------------------------------------------------

  function Flag(b: bool): real {
    if b then 1.0 else 0.0
  }

  function BusinessScore(e: Evidence, exp: real -> real): real {
    if !e.reachedEndState then 0.0
    else Round4(0.75 + 0.25 * (if e.steps.Some? then Grade(e.steps.value, exp) else 1.0))
  }

  function Part(r: Option<Ratio>, exp: real -> real): seq<real> {
    if r.Some? then [Grade(r.value, exp)] else []
  }

  function VisualParts(e: Evidence, exp: real -> real): seq<real> {
    (if e.firstFrameNonBlank.Some? then [Flag(e.firstFrameNonBlank.value)] else [])
    + Part(e.focalCoverage, exp) + Part(e.edgeDrift, exp)
  }

  function InteractionParts(e: Evidence, exp: real -> real): seq<real> {
    [Flag(e.orderingOk)] + Part(e.p95Interaction, exp) + Part(e.droppedFrames, exp)
  }

  function ResponsePart(r: Option<Response>, exp: real -> real): seq<real> {
    match r
    case None => []
    case Some(Graded(ratio)) => [Grade(ratio, exp)]
    case Some(HeldOnly(held)) => [Flag(held)]
  }

  function ComfortParts(e: Evidence, exp: real -> real): seq<real> {
    Part(e.pacing, exp)
    + (if e.xrFallback.Some? then [Flag(e.xrFallback.value)] else [])
    + ResponsePart(e.responsiveness, exp)
  }

  function Least(parts: seq<real>): (m: real)
    requires parts != []
    ensures m in parts && forall i :: 0 <= i < |parts| ==> m <= parts[i]
  {
    if |parts| == 1 then parts[0]
    else
      var m := Least(parts[..|parts| - 1]);
      assert parts == parts[..|parts| - 1] + [parts[|parts| - 1]];
      if parts[|parts| - 1] < m then parts[|parts| - 1] else m
  }

  function Mean(parts: seq<real>): real
    requires parts != []
  {
    Sum(parts) / |parts| as real
  }

  function VisualScore(e: Evidence, exp: real -> real): Option<real> {
    var parts := VisualParts(e, exp);
    if parts == [] then None else Some(Round4(Least(parts)))
  }

  function InteractionScore(e: Evidence, exp: real -> real): real {
    Round4(Mean(InteractionParts(e, exp)))
  }

  function ComfortScore(e: Evidence, exp: real -> real): Option<real> {
    var parts := ComfortParts(e, exp);
    if parts == [] then None else Some(Round4(Mean(parts)))
  }

  // ---- the weighted mean --------------------------------------------------------------------

  datatype Dimension = Dimension(weight: real, score: Option<real>)

  function Dimensions(e: Evidence, exp: real -> real): (ds: seq<Dimension>)
    ensures |ds| == 4
  {
    [Dimension(0.35, Some(BusinessScore(e, exp))),
     Dimension(0.25, VisualScore(e, exp)),
     Dimension(0.22, Some(InteractionScore(e, exp))),
     Dimension(0.18, ComfortScore(e, exp))]
  }

  function Counted(d: Dimension): real {
    if d.score.Some? then d.weight else 0.0
  }

  /** The declared weight of the dimensions that had evidence. */
  function Mass(ds: seq<Dimension>): real {
    if ds == [] then 0.0 else Mass(ds[..|ds| - 1]) + Counted(ds[|ds| - 1])
  }

  function Contribution(d: Dimension, mass: real): real
    requires mass > 0.0
  {
    if d.score.Some? then d.weight / mass * d.score.value else 0.0
  }

  /** The weighted sum, each weight renormalised by `mass`. */
  function Weighted(ds: seq<Dimension>, mass: real): real
    requires mass > 0.0
  {
    if ds == [] then 0.0 else Weighted(ds[..|ds| - 1], mass) + Contribution(ds[|ds| - 1], mass)
  }

  predicate Weights(ds: seq<Dimension>) {
    forall i :: 0 <= i < |ds| ==> ds[i].weight >= 0.0
  }

  lemma {:induction false} MassHolds(ds: seq<Dimension>, i: nat)
    requires Weights(ds) && i <= |ds|
    ensures Mass(ds) >= Mass(ds[..i]) >= 0.0
    decreases |ds|
  {
    if ds != [] {
      var init := ds[..|ds| - 1];
      if i < |ds| {
        MassHolds(init, i);
        assert init[..i] == ds[..i];
      } else {
        MassHolds(init, |init|);
        assert init[..|init|] == init && ds[..i] == ds;
      }
    }
  }

  /** Business always counts, so there is always something to score. */
  lemma MassPositive(e: Evidence, exp: real -> real)
    ensures Weights(Dimensions(e, exp)) && Mass(Dimensions(e, exp)) >= 0.35
  {
    var ds := Dimensions(e, exp);
    MassHolds(ds, 1);
    assert ds[..1][..0] == [] && Counted(ds[0]) == 0.35;
    assert Mass(ds[..1]) == Mass([]) + Counted(ds[..1][0]);
  }

  /** `c` times the part `x` is of the mass. */
  function Portion(c: real, x: real, mass: real): real
    requires mass > 0.0
  {
    c * (x / mass)
  }

  predicate Inside(d: Dimension, lo: real, hi: real) {
    d.score.Some? ==> lo <= d.score.value <= hi
  }

  lemma ContributionInside(d: Dimension, mass: real, lo: real, hi: real)
    requires mass > 0.0 && d.weight >= 0.0 && Inside(d, lo, hi)
    ensures Portion(lo, Counted(d), mass) <= Contribution(d, mass) <= Portion(hi, Counted(d), mass)
  {
    if d.score.Some? {
      var w := d.weight / mass;
      NonNegativeQuotient(d.weight, mass);
      NonNegativeProduct(w, d.score.value - lo);
      NonNegativeProduct(w, hi - d.score.value);
    }
  }

  lemma PortionSum(c: real, x: real, y: real, mass: real)
    requires mass > 0.0
    ensures Portion(c, x, mass) + Portion(c, y, mass) == Portion(c, x + y, mass)
  {
    QuotientSum(x, y, mass);
  }

  lemma {:induction false} WeightedInside(ds: seq<Dimension>, mass: real, lo: real, hi: real)
    requires mass > 0.0 && Weights(ds) && forall i :: 0 <= i < |ds| ==> Inside(ds[i], lo, hi)
    ensures Portion(lo, Mass(ds), mass) <= Weighted(ds, mass) <= Portion(hi, Mass(ds), mass)
  {
    if ds != [] {
      var init, last := ds[..|ds| - 1], ds[|ds| - 1];
      WeightedInside(init, mass, lo, hi);
      ContributionInside(last, mass, lo, hi);
      PortionSum(lo, Mass(init), Counted(last), mass);
      PortionSum(hi, Mass(init), Counted(last), mass);
      hide Counted, Contribution, Inside, Portion;
    }
  }

  predicate NoLower(x: Dimension, y: Dimension) {
    && x.weight == y.weight && (x.score.Some? <==> y.score.Some?)
    && (x.score.Some? ==> x.score.value >= y.score.value)
  }

  lemma ContributionOrder(x: Dimension, y: Dimension, mass: real)
    requires mass > 0.0 && y.weight >= 0.0 && NoLower(x, y)
    ensures Counted(x) == Counted(y) && Contribution(x, mass) >= Contribution(y, mass)
  {
    if x.score.Some? {
      NonNegativeQuotient(x.weight, mass);
      NonNegativeProduct(x.weight / mass, x.score.value - y.score.value);
    }
  }

  lemma {:induction false} WeightedOrder(ds: seq<Dimension>, es: seq<Dimension>, mass: real)
    requires mass > 0.0 && |ds| == |es| && Weights(es) && forall i :: 0 <= i < |ds| ==> NoLower(ds[i], es[i])
    ensures Mass(ds) == Mass(es) && Weighted(ds, mass) >= Weighted(es, mass)
  {
    if ds != [] {
      WeightedOrder(ds[..|ds| - 1], es[..|es| - 1], mass);
      ContributionOrder(ds[|ds| - 1], es[|es| - 1], mass);
      hide Counted, Contribution, NoLower;
    }
  }

  // ---- the caps and the score ---------------------------------------------------------------

  function Caps(e: Evidence): seq<int> {
    (if !e.reachedEndState then [40] else [])
    + (if e.firstFrameNonBlank == Some(false) then [35] else [])
    + (if !e.orderingOk then [45] else [])
    + (if e.xrFallback == Some(false) then [55] else [])
  }

  /** The least of the caps and 100. */
  function Ceiling(caps: seq<int>): (c: int)
    ensures c <= 100 && (forall i :: 0 <= i < |caps| ==> c <= caps[i]) && (c == 100 || c in caps)
  {
    if caps == [] then 100
    else
      assert caps == caps[..|caps| - 1] + [caps[|caps| - 1]];
      var c := Ceiling(caps[..|caps| - 1]);
      if caps[|caps| - 1] < c then caps[|caps| - 1] else c
  }

  /** The score before capping, out of 100 and not yet rounded. */
  function Uncapped(e: Evidence, exp: real -> real): real {
    MassPositive(e, exp);
    Weighted(Dimensions(e, exp), Mass(Dimensions(e, exp))) * 100.0
  }

  function Capped(e: Evidence, exp: real -> real): real {
    Min(Uncapped(e, exp), Ceiling(Caps(e)) as real)
  }

  /** The displayed score. */
  function Score(e: Evidence, exp: real -> real): int {
    Nearest(Capped(e, exp))
  }

  method ScoreTrace(e: Evidence, exp: real -> real) returns (score: int, uncappedScore: int, capsApplied: seq<int>)
    ensures score == Score(e, exp) && uncappedScore == Nearest(Uncapped(e, exp)) && capsApplied == Caps(e)
  {
    hide BusinessScore, VisualScore, InteractionScore, ComfortScore, Contribution, Caps, Nearest;
    MassPositive(e, exp);
    var ds := Dimensions(e, exp);
    hide Dimensions;
    var declaredMass := 0.0;
    for i := 0 to |ds|
      invariant declaredMass == Mass(ds[..i])
    {
      assert ds[..i + 1][..i] == ds[..i];
      if ds[i].score.Some? {
        declaredMass := declaredMass + ds[i].weight;
      }
    }
    assert ds[..|ds|] == ds;
    var acc := 0.0;
    for i := 0 to |ds|
      invariant acc == Weighted(ds[..i], declaredMass)
    {
      assert ds[..i + 1][..i] == ds[..i];
      acc := acc + Contribution(ds[i], declaredMass);
    }
    var uncapped := acc * 100.0;
    capsApplied := Caps(e);
    score := Nearest(Min(uncapped, Ceiling(capsApplied) as real));
    uncappedScore := Nearest(uncapped);
  }

  // ---- what the score guarantees ------------------------------------------------------------

  predicate InUnit(x: real) {
    0.0 <= x <= 1.0
  }

  lemma {:induction false} SumInUnit(parts: seq<real>)
    requires forall i :: 0 <= i < |parts| ==> InUnit(parts[i])
    ensures 0.0 <= Sum(parts) <= |parts| as real
  {
    if parts != [] {
      SumInUnit(parts[..|parts| - 1]);
    }
  }

  lemma MeanInUnit(parts: seq<real>)
    requires parts != [] && forall i :: 0 <= i < |parts| ==> InUnit(parts[i])
    ensures InUnit(Mean(parts))
  {
    SumInUnit(parts);
    hide Sum;
    var n := |parts| as real;
    NonNegativeQuotient(Sum(parts), n);
    QuotientOrder(Sum(parts), n, n);
    assert n / n == 1.0;
  }

  lemma RoundInUnit(x: real)
    requires InUnit(x)
    ensures InUnit(Round4(x))
  {
    Round4Order(0.0, x);
    Round4Order(x, 1.0);
    assert Round4(0.0) == 0.0 && Round4(1.0) == 1.0;
  }

  lemma GradeInUnit(r: Ratio, exp: real -> real)
    requires IsExp(exp)
    ensures InUnit(Grade(r, exp))
  {
  }

  lemma PartInUnit(r: Option<Ratio>, exp: real -> real)
    requires IsExp(exp)
    ensures forall i :: 0 <= i < |Part(r, exp)| ==> InUnit(Part(r, exp)[i])
  {
  }

  lemma VisualInUnit(e: Evidence, exp: real -> real)
    requires IsExp(exp)
    ensures VisualScore(e, exp).Some? ==> InUnit(VisualScore(e, exp).value)
  {
    PartInUnit(e.focalCoverage, exp);
    PartInUnit(e.edgeDrift, exp);
    hide Part, IsExp;
    var parts := VisualParts(e, exp);
    assert forall i :: 0 <= i < |parts| ==> InUnit(parts[i]);
    if parts != [] {
      RoundInUnit(Least(parts));
    }
  }

  lemma InteractionInUnit(e: Evidence, exp: real -> real)
    requires IsExp(exp)
    ensures InUnit(InteractionScore(e, exp))
  {
    PartInUnit(e.p95Interaction, exp);
    PartInUnit(e.droppedFrames, exp);
    hide Part, IsExp, Mean;
    var parts := InteractionParts(e, exp);
    assert forall i :: 0 <= i < |parts| ==> InUnit(parts[i]);
    MeanInUnit(parts);
    RoundInUnit(Mean(parts));
  }

  lemma ComfortInUnit(e: Evidence, exp: real -> real)
    requires IsExp(exp)
    ensures ComfortScore(e, exp).Some? ==> InUnit(ComfortScore(e, exp).value)
  {
    PartInUnit(e.pacing, exp);
    if e.responsiveness.Some? && e.responsiveness.value.Graded? {
      GradeInUnit(e.responsiveness.value.ratio, exp);
    }
    hide Part, IsExp, Mean, Grade;
    var parts := ComfortParts(e, exp);
    assert forall i :: 0 <= i < |parts| ==> InUnit(parts[i]);
    if parts != [] {
      MeanInUnit(parts);
      RoundInUnit(Mean(parts));
    }
  }

  lemma BusinessInUnit(e: Evidence, exp: real -> real)
    requires IsExp(exp)
    ensures InUnit(BusinessScore(e, exp))
  {
  }

  lemma DimensionsInside(e: Evidence, exp: real -> real)
    requires IsExp(exp)
    ensures forall i :: 0 <= i < 4 ==> Inside(Dimensions(e, exp)[i], 0.0, 1.0)
  {
    BusinessInUnit(e, exp);
    VisualInUnit(e, exp);
    InteractionInUnit(e, exp);
    ComfortInUnit(e, exp);
    hide BusinessScore, VisualScore, InteractionScore, ComfortScore, IsExp;
  }

  /** The uncapped score lies between the worst and the best applicable dimension. */
  lemma UncappedInside(e: Evidence, exp: real -> real, lo: real, hi: real)
    requires forall i :: 0 <= i < 4 ==> Inside(Dimensions(e, exp)[i], lo, hi)
    ensures lo * 100.0 <= Uncapped(e, exp) <= hi * 100.0
  {
    MassPositive(e, exp);
    var ds := Dimensions(e, exp);
    var mass := Mass(ds);
    hide Dimensions, Mass, Weighted;
    WeightedInside(ds, mass, lo, hi);
    assert mass / mass == 1.0;
  }

  function Counts(d: Option<real>, weight: real): real {
    if d.Some? then weight * d.value else 0.0
  }

  /** The uncapped score is the mean of the applicable dimensions, weighted 35, 25, 22 and 18. */
  lemma UncappedIs(e: Evidence, exp: real -> real)
    ensures var visual, comfort := VisualScore(e, exp), ComfortScore(e, exp);
      var mass := 57.0 + (if visual.Some? then 25.0 else 0.0) + (if comfort.Some? then 18.0 else 0.0);
      Uncapped(e, exp) * mass == 100.0 *
        (35.0 * BusinessScore(e, exp) + Counts(visual, 25.0) + 22.0 * InteractionScore(e, exp) + Counts(comfort, 18.0))
  {
    hide *;
    MassPositive(e, exp);
    var ds := Dimensions(e, exp);
    var mass := Mass(ds);
    FourOf(ds, mass);
    UncappedIsWeighted(e, exp);
    DimensionsAre(e, exp);
    Shared(ds[0], mass);
    Shared(ds[1], mass);
    Shared(ds[2], mass);
    Shared(ds[3], mass);
    Spread(Contribution(ds[0], mass), Contribution(ds[1], mass), Contribution(ds[2], mass), Contribution(ds[3], mass), mass);
  }

  lemma UncappedIsWeighted(e: Evidence, exp: real -> real)
    ensures Mass(Dimensions(e, exp)) > 0.0
    ensures Uncapped(e, exp) == Weighted(Dimensions(e, exp), Mass(Dimensions(e, exp))) * 100.0
  {
    MassPositive(e, exp);
    hide Mass, Weighted, Dimensions;
  }

  /** The four weights, in hundredths. */
  lemma DimensionsAre(e: Evidence, exp: real -> real)
    ensures var ds := Dimensions(e, exp);
      && ds[0].score == Some(BusinessScore(e, exp)) && ds[1].score == VisualScore(e, exp)
      && ds[2].score == Some(InteractionScore(e, exp)) && ds[3].score == ComfortScore(e, exp)
      && 100.0 * Counted(ds[0]) == 35.0 && 100.0 * Counted(ds[2]) == 22.0
      && 100.0 * Counted(ds[1]) == (if ds[1].score.Some? then 25.0 else 0.0)
      && 100.0 * Counted(ds[3]) == (if ds[3].score.Some? then 18.0 else 0.0)
      && 100.0 * Counts(ds[0].score, ds[0].weight) == 35.0 * BusinessScore(e, exp)
      && 100.0 * Counts(ds[1].score, ds[1].weight) == Counts(ds[1].score, 25.0)
      && 100.0 * Counts(ds[2].score, ds[2].weight) == 22.0 * InteractionScore(e, exp)
      && 100.0 * Counts(ds[3].score, ds[3].weight) == Counts(ds[3].score, 18.0)
  {
    hide BusinessScore, VisualScore, InteractionScore, ComfortScore;
  }

  lemma Spread(p: real, q: real, r: real, s: real, mass: real)
    ensures (p + q + r + s) * 100.0 * (100.0 * mass) == 10000.0 * (p * mass + q * mass + r * mass + s * mass)
  {
  }

  lemma Shared(d: Dimension, mass: real)
    requires mass > 0.0
    ensures Contribution(d, mass) * mass == Counts(d.score, d.weight)
  {
    if d.score.Some? {
      assert d.weight / mass * mass == d.weight;
    }
  }

  lemma FourOf(ds: seq<Dimension>, mass: real)
    requires |ds| == 4 && mass > 0.0
    ensures Mass(ds) == Counted(ds[0]) + Counted(ds[1]) + Counted(ds[2]) + Counted(ds[3])
    ensures Weighted(ds, mass) ==
      Contribution(ds[0], mass) + Contribution(ds[1], mass) + Contribution(ds[2], mass) + Contribution(ds[3], mass)
  {
    hide Counted, Contribution;
    assert ds[..3][..2] == ds[..2] && ds[..2][..1] == ds[..1] && ds[..1][..0] == [];
    assert Mass(ds[..1]) == Mass([]) + Counted(ds[0]);
    assert Weighted(ds[..1], mass) == Weighted([], mass) + Contribution(ds[0], mass);
    assert Mass(ds[..2]) == Mass(ds[..1]) + Counted(ds[1]);
    assert Weighted(ds[..2], mass) == Weighted(ds[..1], mass) + Contribution(ds[1], mass);
    assert Mass(ds[..3]) == Mass(ds[..2]) + Counted(ds[2]);
    assert Weighted(ds[..3], mass) == Weighted(ds[..2], mass) + Contribution(ds[2], mass);
  }

  lemma CapsApplied(e: Evidence)
    ensures !e.reachedEndState ==> 40 in Caps(e)
    ensures e.firstFrameNonBlank == Some(false) ==> 35 in Caps(e)
    ensures !e.orderingOk ==> 45 in Caps(e)
    ensures e.xrFallback == Some(false) ==> 55 in Caps(e)
  {
  }

  lemma CeilingOfCaps(e: Evidence)
    ensures 0 <= Ceiling(Caps(e)) <= 100 && forall c :: c in Caps(e) ==> Ceiling(Caps(e)) <= c
  {
  }

  lemma NearestOfMin(u: real, ceiling: int)
    requires 0.0 <= u && 0 <= ceiling
    ensures 0 <= Nearest(Min(u, ceiling as real)) <= ceiling
  {
    NearestOrder(Min(u, ceiling as real), ceiling as real);
    NearestOrder(0.0, Min(u, ceiling as real));
    NearestUnique(ceiling as real, ceiling);
  }

  /** The displayed score is a whole number from 0 to 100; at most 40 when the flow was not finished,
      35 when the first frame was blank, 45 after an illegal transition, 55 without an XR fallback. */
  lemma ScoreInRange(e: Evidence, exp: real -> real)
    requires IsExp(exp)
    ensures 0 <= Score(e, exp) <= 100
    ensures forall c :: c in Caps(e) ==> Score(e, exp) <= c
    ensures !e.reachedEndState ==> Score(e, exp) <= 40
    ensures e.firstFrameNonBlank == Some(false) ==> Score(e, exp) <= 35
    ensures !e.orderingOk ==> Score(e, exp) <= 45
    ensures e.xrFallback == Some(false) ==> Score(e, exp) <= 55
  {
    DimensionsInside(e, exp);
    UncappedInside(e, exp, 0.0, 1.0);
    CeilingOfCaps(e);
    CapsApplied(e);
    hide Uncapped, IsExp, Inside, Dimensions, Caps, Ceiling, Nearest;
    NearestOfMin(Uncapped(e, exp), Ceiling(Caps(e)));
  }

  // ---- improving a measurement never lowers the score ---------------------------------------

  predicate RatioNoWorse(a: Option<Ratio>, b: Option<Ratio>) {
    (a.Some? <==> b.Some?) && (a.Some? ==> NoWorse(a.value, b.value))
  }

  predicate ResponseNoWorse(a: Option<Response>, b: Option<Response>) {
    a == b || (a.Some? && b.Some? && a.value.Graded? && b.value.Graded? && NoWorse(a.value.ratio, b.value.ratio))
  }

  /** The same facts and the same measurements taken, each ratio at least as good. */
  predicate AtLeastAsGood(e: Evidence, f: Evidence) {
    && e.reachedEndState == f.reachedEndState && e.orderingOk == f.orderingOk
    && e.firstFrameNonBlank == f.firstFrameNonBlank && e.xrFallback == f.xrFallback
    && RatioNoWorse(e.steps, f.steps) && RatioNoWorse(e.focalCoverage, f.focalCoverage)
    && RatioNoWorse(e.edgeDrift, f.edgeDrift) && RatioNoWorse(e.p95Interaction, f.p95Interaction)
    && RatioNoWorse(e.droppedFrames, f.droppedFrames) && RatioNoWorse(e.pacing, f.pacing)
    && ResponseNoWorse(e.responsiveness, f.responsiveness)
  }

  predicate PartsNoLower(a: seq<real>, b: seq<real>) {
    |a| == |b| && forall i :: 0 <= i < |a| ==> a[i] >= b[i]
  }

  lemma PartOrder(a: Option<Ratio>, b: Option<Ratio>, exp: real -> real)
    requires IsExp(exp) && RatioNoWorse(a, b)
    ensures PartsNoLower(Part(a, exp), Part(b, exp))
  {
  }

  lemma Joined(a: seq<real>, b: seq<real>, c: seq<real>, d: seq<real>)
    requires PartsNoLower(a, b) && PartsNoLower(c, d)
    ensures PartsNoLower(a + c, b + d)
  {
  }

  lemma LeastOrder(a: seq<real>, b: seq<real>)
    requires PartsNoLower(a, b) && a != []
    ensures Least(a) >= Least(b)
  {
  }

  lemma {:induction false} SumOrder(a: seq<real>, b: seq<real>)
    requires PartsNoLower(a, b)
    ensures Sum(a) >= Sum(b)
  {
    if a != [] {
      SumOrder(a[..|a| - 1], b[..|b| - 1]);
    }
  }

  lemma MeanOrder(a: seq<real>, b: seq<real>)
    requires PartsNoLower(a, b) && a != []
    ensures Mean(a) >= Mean(b)
  {
    SumOrder(a, b);
    QuotientOrder(Sum(b), Sum(a), |a| as real);
  }

  lemma BusinessOrder(e: Evidence, f: Evidence, exp: real -> real)
    requires IsExp(exp) && AtLeastAsGood(e, f)
    ensures BusinessScore(e, exp) >= BusinessScore(f, exp)
  {
    if e.steps.Some? {
      GradeFalls(e.steps.value, f.steps.value, exp);
      hide Grade, Round4;
      Round4Order(0.75 + 0.25 * Grade(f.steps.value, exp), 0.75 + 0.25 * Grade(e.steps.value, exp));
    }
  }

  lemma VisualOrder(e: Evidence, f: Evidence, exp: real -> real)
    requires IsExp(exp) && AtLeastAsGood(e, f)
    ensures VisualScore(e, exp).Some? <==> VisualScore(f, exp).Some?
    ensures VisualScore(e, exp).Some? ==> VisualScore(e, exp).value >= VisualScore(f, exp).value
  {
    PartOrder(e.focalCoverage, f.focalCoverage, exp);
    PartOrder(e.edgeDrift, f.edgeDrift, exp);
    hide Part, Round4, Least;
    var flag := if e.firstFrameNonBlank.Some? then [Flag(e.firstFrameNonBlank.value)] else [];
    Joined(flag, flag, Part(e.focalCoverage, exp), Part(f.focalCoverage, exp));
    Joined(flag + Part(e.focalCoverage, exp), flag + Part(f.focalCoverage, exp),
           Part(e.edgeDrift, exp), Part(f.edgeDrift, exp));
    var a, b := VisualParts(e, exp), VisualParts(f, exp);
    if a != [] {
      LeastOrder(a, b);
      Round4Order(Least(b), Least(a));
    }
  }

  lemma InteractionOrder(e: Evidence, f: Evidence, exp: real -> real)
    requires IsExp(exp) && AtLeastAsGood(e, f)
    ensures InteractionScore(e, exp) >= InteractionScore(f, exp)
  {
    PartOrder(e.p95Interaction, f.p95Interaction, exp);
    PartOrder(e.droppedFrames, f.droppedFrames, exp);
    hide Part, Round4, Mean;
    var flag := [Flag(e.orderingOk)];
    Joined(flag, flag, Part(e.p95Interaction, exp), Part(f.p95Interaction, exp));
    Joined(flag + Part(e.p95Interaction, exp), flag + Part(f.p95Interaction, exp),
           Part(e.droppedFrames, exp), Part(f.droppedFrames, exp));
    var a, b := InteractionParts(e, exp), InteractionParts(f, exp);
    MeanOrder(a, b);
    Round4Order(Mean(b), Mean(a));
  }

  lemma ResponseOrder(a: Option<Response>, b: Option<Response>, exp: real -> real)
    requires IsExp(exp) && ResponseNoWorse(a, b)
    ensures PartsNoLower(ResponsePart(a, exp), ResponsePart(b, exp))
  {
  }

  lemma ComfortOrder(e: Evidence, f: Evidence, exp: real -> real)
    requires IsExp(exp) && AtLeastAsGood(e, f)
    ensures ComfortScore(e, exp).Some? <==> ComfortScore(f, exp).Some?
    ensures ComfortScore(e, exp).Some? ==> ComfortScore(e, exp).value >= ComfortScore(f, exp).value
  {
    PartOrder(e.pacing, f.pacing, exp);
    ResponseOrder(e.responsiveness, f.responsiveness, exp);
    hide Part, ResponsePart, Round4, Mean, ResponseNoWorse, RatioNoWorse;
    var flag := if e.xrFallback.Some? then [Flag(e.xrFallback.value)] else [];
    Joined(Part(e.pacing, exp), Part(f.pacing, exp), flag, flag);
    Joined(Part(e.pacing, exp) + flag, Part(f.pacing, exp) + flag,
           ResponsePart(e.responsiveness, exp), ResponsePart(f.responsiveness, exp));
    var a, b := ComfortParts(e, exp), ComfortParts(f, exp);
    if a != [] {
      MeanOrder(a, b);
      Round4Order(Mean(b), Mean(a));
    }
  }

  lemma DimensionsOrder(e: Evidence, f: Evidence, exp: real -> real)
    requires IsExp(exp) && AtLeastAsGood(e, f)
    ensures forall i :: 0 <= i < 4 ==> NoLower(Dimensions(e, exp)[i], Dimensions(f, exp)[i])
  {
    BusinessOrder(e, f, exp);
    VisualOrder(e, f, exp);
    InteractionOrder(e, f, exp);
    ComfortOrder(e, f, exp);
    hide BusinessScore, VisualScore, InteractionScore, ComfortScore, IsExp, AtLeastAsGood, Part;
  }

  /** Improving any measured ratios, alone or together, never lowers the score. */
  lemma ImprovingNeverLowers(e: Evidence, f: Evidence, exp: real -> real)
    requires IsExp(exp) && AtLeastAsGood(e, f)
    ensures Score(e, exp) >= Score(f, exp)
  {
    DimensionsOrder(e, f, exp);
    MassPositive(f, exp);
    assert Caps(e) == Caps(f);
    hide Dimensions, IsExp, AtLeastAsGood, Caps, Nearest, NoLower;
    WeightedOrder(Dimensions(e, exp), Dimensions(f, exp), Mass(Dimensions(f, exp)));
    assert Uncapped(e, exp) >= Uncapped(f, exp);
    NearestOrder(Capped(f, exp), Capped(e, exp));
  }

  // ---- the label ----------------------------------------------------------------------------

  function Label(score: real): string {
    if score >= 90.0 then "comfortable everywhere measured"
    else if score >= 75.0 then "solid, with margin to lose"
    else if score >= 60.0 then "usable but visibly compromised"
    else if score >= 40.0 then "degraded — real users will notice"
    else "broken on this profile"
  }

  /** The label is chosen before rounding: it is the label of the displayed score unless the score
      lies in the half point below a threshold. */
  lemma LabelAgrees(score: real)
    ensures Label(score) == Label(Nearest(score) as real) <==>
      !(39.5 <= score < 40.0 || 59.5 <= score < 60.0 || 74.5 <= score < 75.0 || 89.5 <= score < 90.0)
  {
  }
}
