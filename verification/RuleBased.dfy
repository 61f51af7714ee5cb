/** The deterministic engine's cost model and tier choice (src/decision/rule-based.js). */
module RuleBased {
  import opened Prelude
  import opened Reals
  import opened Rounding
  import opened Capability

  const STATIC_FALLBACK_SCORE := -3.0

  /** `Rounded` is the program's arithmetic, rounding to six decimals where it does. `Smooth` leaves
      out the roundings of the transfer time, the first frame and the score, the ones a link's speed
      passes through; `Exact` leaves out all of them. */
  datatype Arithmetic = Rounded | Smooth | Exact

  /** A value that depends on the link. */
  function Keep(a: Arithmetic, x: real): real {
    if a.Rounded? then Round6(x) else x
  }

  /** A value that does not. */
  function KeepFixed(a: Arithmetic, x: real): real {
    if a.Exact? then x else Round6(x)
  }

  function Clamp(v: real, lo: real, hi: real): real {
    Max(lo, Min(hi, v))
  }

  // ---- the numbers a tier declares ----------------------------------------------------------

  datatype TierNumbers = TierNumbers(
    particleCount: real,
    textureSize: real,
    shaderPasses: real,
    targetFps: real,
    perFrameWorkMs: real,
    assetBytes: seq<real>)

  function Present(xs: seq<Number>): Option<seq<real>> {
    if xs == [] then Some([])
    else
      var init, last := Present(xs[..|xs| - 1]), xs[|xs| - 1];
      if init.None? || last.None? then None else Some(init.value + [last.value])
  }

  /** A missing number makes some term of the prediction not a number, and a frame rate of zero makes
      the frame budget infinite and its headroom not a number: then there is nothing to score with. */
  function Numbers(spec: TierSpec): (n: Option<TierNumbers>)
    ensures n.Some? ==> n.value.targetFps != 0.0
  {
    var bytes := Present(spec.assetBytes);
    if spec.particleCount.None? || spec.textureSize.None? || spec.shaderPasses.None? || spec.perFrameWorkMs.None?
      || bytes.None? || spec.targetFps.None? || spec.targetFps.value == 0.0
    then None
    else
      Some(TierNumbers(spec.particleCount.value, spec.textureSize.value, spec.shaderPasses.value,
                       spec.targetFps.value, spec.perFrameWorkMs.value, bytes.value))
  }

  /** The first declared tier of this name; an object is the name of none. */
  function FindTier(tiers: seq<TierSpec>, id: Tier): Option<TierSpec> {
    if tiers == [] then None
    else if tiers[0].id == id && !id.Textless? then Some(tiers[0])
    else FindTier(tiers[1..], id)
  }

  lemma {:induction false} TextlessIsUnlisted(tiers: seq<TierSpec>)
    ensures FindTier(tiers, Textless).None?
  {
    if tiers != [] {
      TextlessIsUnlisted(tiers[1..]);
    }
  }

  function NumbersOf(m: Manifest, tier: Tier): (n: Option<TierNumbers>)
    ensures n.Some? ==> n.value.targetFps != 0.0
  {
    if FindTier(m.tiers, tier).None? then None else Numbers(FindTier(m.tiers, tier).value)
  }

  // ---- the cost model -----------------------------------------------------------------------

  function CpuFactor(a: Arithmetic, s: Snapshot): real {
    var cores, mem := OrElse(s.hardwareConcurrency, 4.0), OrElse(s.deviceMemoryGB, 4.0);
    var byCores := Max(1.0, 8.0 / Max(1.0, cores));
    var byMem := if mem <= 2.0 then 1.8 else if mem <= 4.0 then 1.3 else 1.0;
    var byGpu := match s.gpuTier
      case GpuLow => 1.6
      case GpuMid => 1.15
      case GpuNone => 2.2
      case _ => 1.0;
    KeepFixed(a, byCores * byMem * byGpu)
  }

  /** The link speed used, never below 0.05 Mbps. */
  function Mbps(s: Snapshot): (m: real)
    ensures m >= 0.05
  {
    var guess := match s.effectiveConnectionType
      case FourG => 9.0
      case ThreeG => 1.4
      case _ => 5.0;
    Max(0.05, OrElse(s.downlinkMbps, guess))
  }

  function Rtt(s: Snapshot): real {
    OrElse(s.rttMs, if s.effectiveConnectionType == ThreeG then 300.0 else 90.0)
  }

  function ThroughputMs(s: Snapshot, bytes: real): real {
    bytes * 8.0 / Mbps(s) / 1000000.0 * 1000.0
  }

  function LatencyMs(s: Snapshot, requestCount: nat): real {
    Rtt(s) * (1.0 + Min(requestCount as real, 4.0) * 0.5)
  }

  function TransferMs(a: Arithmetic, s: Snapshot, bytes: real, requestCount: nat): real {
    Keep(a, ThroughputMs(s, bytes) + LatencyMs(s, requestCount))
  }

  /** Runtime boot, shader compilation and texture decoding. */
  function CpuMs(n: TierNumbers, cpu: real): real {
    var side := n.textureSize / 256.0;
    110.0 * cpu + n.shaderPasses * 45.0 * cpu + side * side * 18.0 * cpu
  }

  function FirstFrameMs(a: Arithmetic, s: Snapshot, n: TierNumbers): real {
    Keep(a, TransferMs(a, s, Sum(n.assetBytes), |n.assetBytes|) + CpuMs(n, CpuFactor(a, s)))
  }

  function FrameWorkMs(n: TierNumbers, cpu: real): real {
    n.perFrameWorkMs * cpu + n.particleCount / 900.0 * cpu
  }

  function FrameTimeMs(a: Arithmetic, s: Snapshot, n: TierNumbers): real {
    KeepFixed(a, FrameWorkMs(n, CpuFactor(a, s)))
  }

  /** Every requirement is satisfied; of a tier without a requirement list nothing is known. */
  predicate TierRenderable(s: Snapshot, m: Manifest, tier: Tier) {
    || tier == StaticFallback
    || (FindTier(m.tiers, tier).Some? && FindTier(m.tiers, tier).value.needs.Some?
        && Meets(s, FindTier(m.tiers, tier).value.needs.value))
  }

  /** Asking whether the tier can be rendered does not throw. */
  predicate Askable(m: Manifest, tier: Tier) {
    tier == StaticFallback || FindTier(m.tiers, tier).None? || FindTier(m.tiers, tier).value.needs.Some?
  }

  /** No tier the engine asks about is declared without a requirement list. */
  predicate Routable(m: Manifest) {
    Askable(m, High) && Askable(m, Mid) && Askable(m, Low)
  }

  /** The budget is positive, as manifest validation demands. */
  predicate Budgeted(m: Manifest) {
    m.firstFrameBudgetMs > 0.0
  }

  function Richness(tier: Tier): real {
    match tier
    case High => 4.4
    case Mid => 2.4
    case _ => 0.3
  }

  function Headroom(budget: real, used: real): real
    requires budget != 0.0
  {
    (budget - used) / budget
  }

  function FrameHeadroom(a: Arithmetic, s: Snapshot, n: TierNumbers): real
    requires n.targetFps != 0.0
  {
    Headroom(1000.0 / n.targetFps, FrameTimeMs(a, s, n))
  }

  /** Accessibility and no-GPU penalties; the poster has none. */
  function Penalty(s: Snapshot, tier: Tier): real {
    (if s.reducedMotionPreferred && tier != StaticFallback then 12.0 else 0.0)
    + (if s.gpuTier == GpuNone && tier == High then 4.0 else 0.0)
  }

  function Quality(a: Arithmetic, s: Snapshot, budget: real, tier: Tier, n: TierNumbers): real
    requires budget > 0.0 && n.targetFps != 0.0
  {
    Richness(tier) + 2.4 * Clamp(Headroom(budget, FirstFrameMs(a, s, n)), -8.0, 1.0)
      + 1.6 * Clamp(FrameHeadroom(a, s, n), -2.0, 1.0)
  }

  /** A tier's score before the penalties. */
  function BaseScore(a: Arithmetic, s: Snapshot, m: Manifest, tier: Tier): Number
    requires Budgeted(m)
  {
    if tier == StaticFallback then Some(STATIC_FALLBACK_SCORE)
    else if !TierRenderable(s, m, tier) then Some(-12.0)
    else if NumbersOf(m, tier).None? then None
    else Some(Keep(a, Quality(a, s, m.firstFrameBudgetMs, tier, NumbersOf(m, tier).value)))
  }

  function Less(x: Number, penalty: real): Number {
    if x.None? then None else Some(x.value - penalty)
  }

  function Score(a: Arithmetic, s: Snapshot, m: Manifest, tier: Tier): Number
    requires Budgeted(m)
  {
    Less(BaseScore(a, s, m, tier), Penalty(s, tier))
  }

  /** The candidates, richest first. */
  function Candidate(i: nat): Tier
    requires i < 4
  {
    if i == 0 then High else if i == 1 then Mid else if i == 2 then Low else StaticFallback
  }

  /** A comparison with something that is not a number is false. */
  predicate Greater(x: Number, y: Number) {
    x.Some? && y.Some? && x.value > y.value
  }

  /** Among the first `n` candidates `i` is the first of the greatest score; but when the richest has
      no score, no comparison displaces it. */
  predicate FirstBest(a: Arithmetic, s: Snapshot, m: Manifest, i: nat, n: nat)
    requires Budgeted(m) && i < n <= 4
  {
    if Score(a, s, m, High).None? then i == 0
    else
      && Score(a, s, m, Candidate(i)).Some?
      && forall j :: 0 <= j < n && j != i ==>
        && !Greater(Score(a, s, m, Candidate(j)), Score(a, s, m, Candidate(i)))
        && (j < i && Score(a, s, m, Candidate(j)).Some? ==>
          Greater(Score(a, s, m, Candidate(i)), Score(a, s, m, Candidate(j))))
  }

  /** The index the running comparison ends with. */
  function Best(a: Arithmetic, s: Snapshot, m: Manifest, n: nat): (i: nat)
    requires Budgeted(m) && 1 <= n <= 4
    ensures i < n && FirstBest(a, s, m, i, n)
  {
    if n == 1 then 0
    else
      var best := Best(a, s, m, n - 1);
      if Greater(Score(a, s, m, Candidate(n - 1)), Score(a, s, m, Candidate(best))) then n - 1 else best
  }

  function Pick(a: Arithmetic, s: Snapshot, m: Manifest): Tier
    requires Budgeted(m)
  {
    Candidate(Best(a, s, m, 4))
  }

  datatype RouteError = NoRequirementList

  method RouteTier(s: Snapshot, m: Manifest) returns (r: Result<(Tier, string), RouteError>)
    requires Budgeted(m)
    ensures r.Ok? <==> Routable(m)
    ensures r.Ok? ==> r.value == (Pick(Rounded, s, m), ResolvePath(s, m, Pick(Rounded, s, m)))
  {
    hide BaseScore, ResolvePath, FirstBest, Penalty;
    PenaltyIs(s);
    var scores: map<Tier, Number> := map[];
    for i := 0 to 4
      invariant forall k :: 0 <= k < i ==> Candidate(k) in scores && Askable(m, Candidate(k))
      invariant forall k :: 0 <= k < i ==> scores[Candidate(k)] == BaseScore(Rounded, s, m, Candidate(k))
    {
      if !Askable(m, Candidate(i)) {
        return Err(NoRequirementList);
      }
      scores := scores[Candidate(i) := BaseScore(Rounded, s, m, Candidate(i))];
    }
    assert Candidate(0) == High && Candidate(1) == Mid && Candidate(2) == Low && Candidate(3) == StaticFallback;
    if s.reducedMotionPreferred {
      scores := scores[High := Less(scores[High], 12.0)];
      scores := scores[Mid := Less(scores[Mid], 12.0)];
      scores := scores[Low := Less(scores[Low], 12.0)];
    }
    if s.gpuTier == GpuNone {
      scores := scores[High := Less(scores[High], 4.0)];
    }
    assert forall k :: 0 <= k < 4 ==> Candidate(k) in scores && scores[Candidate(k)] == Score(Rounded, s, m, Candidate(k));
    var best := 0;
    for i := 1 to 4
      invariant best == Best(Rounded, s, m, i)
    {
      if Greater(scores[Candidate(i)], scores[Candidate(best)]) {
        best := i;
      }
    }
    return Ok((Candidate(best), ResolvePath(s, m, Candidate(best))));
  }

  lemma PenaltyIs(s: Snapshot)
    ensures Penalty(s, StaticFallback) == 0.0
    ensures Penalty(s, Mid) == Penalty(s, Low) == if s.reducedMotionPreferred then 12.0 else 0.0
    ensures Penalty(s, High) == Penalty(s, Mid) + if s.gpuTier == GpuNone then 4.0 else 0.0
  {
  }

  // ---- what the choice guarantees -----------------------------------------------------------

  lemma ClampIs(v: real, lo: real, hi: real)
    requires lo <= hi
    ensures lo <= Clamp(v, lo, hi) <= hi
    ensures v <= hi ==> v <= Clamp(v, lo, hi)
    ensures Clamp(v, lo, hi) > lo ==> Clamp(v, lo, hi) <= v
    ensures lo <= v <= hi ==> Clamp(v, lo, hi) == v
  {
  }

  lemma KeepNear(a: Arithmetic, x: real)
    ensures x - Slack(a) <= Keep(a, x) <= x + Slack(a)
  {
    Round6Near(x);
  }

  function Slack(a: Arithmetic): real {
    if a.Rounded? then 0.0000005 else 0.0
  }

  /** The richest tier is renderable, but its declared numbers give no score. */
  predicate Unscored(s: Snapshot, m: Manifest) {
    TierRenderable(s, m, High) && NumbersOf(m, High).None?
  }

  /** The score of an interactive tier, when it has one: at most the sum of its three terms, less the
      penalties. */
  lemma ScoreBound(a: Arithmetic, s: Snapshot, m: Manifest, tier: Tier)
    requires Budgeted(m) && tier != StaticFallback
    ensures Score(a, s, m, tier).Some? ==> Score(a, s, m, tier).value <= 8.4 + Slack(a) - Penalty(s, tier)
    ensures !TierRenderable(s, m, tier) ==>
      Score(a, s, m, tier).Some? && Score(a, s, m, tier).value == -12.0 - Penalty(s, tier)
    ensures Score(a, s, m, tier).None? <==> TierRenderable(s, m, tier) && NumbersOf(m, tier).None?
  {
    hide TierRenderable, FirstFrameMs, FrameHeadroom, Keep, Clamp, Headroom, NumbersOf, Penalty;
    if TierRenderable(s, m, tier) && NumbersOf(m, tier).Some? {
      var n := NumbersOf(m, tier).value;
      ClampIs(Headroom(m.firstFrameBudgetMs, FirstFrameMs(a, s, n)), -8.0, 1.0);
      ClampIs(FrameHeadroom(a, s, n), -2.0, 1.0);
      KeepNear(a, Quality(a, s, m.firstFrameBudgetMs, tier, n));
    }
  }

  lemma PenaltyBound(s: Snapshot, tier: Tier)
    ensures Penalty(s, tier) >= 0.0
    ensures s.reducedMotionPreferred && tier != StaticFallback ==> Penalty(s, tier) >= 12.0
    ensures !s.reducedMotionPreferred && tier != High ==> Penalty(s, tier) == 0.0
  {
  }

  /** The pick scores at least as well as the poster, unless the richest tier has no score: then that
      tier is picked. */
  lemma BeatsPoster(a: Arithmetic, s: Snapshot, m: Manifest)
    requires Budgeted(m)
    ensures Unscored(s, m) <==> Score(a, s, m, High).None?
    ensures Unscored(s, m) ==> Pick(a, s, m) == High
    ensures !Unscored(s, m) ==>
      Score(a, s, m, Pick(a, s, m)).Some? && Score(a, s, m, Pick(a, s, m)).value >= STATIC_FALLBACK_SCORE
  {
    ScoreBound(a, s, m, High);
    assert Score(a, s, m, Candidate(3)) == Some(STATIC_FALLBACK_SCORE);
    var i := Best(a, s, m, 4);
    hide Score, Best, TierRenderable, NumbersOf;
    if !Unscored(s, m) && i != 3 {
      assert !Greater(Score(a, s, m, Candidate(3)), Score(a, s, m, Candidate(i)));
    }
  }

  /** A tier the device cannot render is never picked. */
  lemma NeverUnrenderable(a: Arithmetic, s: Snapshot, m: Manifest)
    requires Budgeted(m)
    ensures TierRenderable(s, m, Pick(a, s, m))
  {
    assert TierRenderable(s, m, StaticFallback);
    hide Score, TierRenderable, Best, NumbersOf, Penalty;
    BeatsPoster(a, s, m);
    var tier := Pick(a, s, m);
    if tier != StaticFallback {
      ScoreBound(a, s, m, tier);
      PenaltyBound(s, tier);
    }
  }

  /** A stated preference for reduced motion gets the poster on the static path exactly when the
      richest tier is not renderable or its declared numbers give a score. */
  lemma ReducedMotion(a: Arithmetic, s: Snapshot, m: Manifest)
    requires Budgeted(m) && s.reducedMotionPreferred
    ensures Pick(a, s, m) == StaticFallback <==> !TierRenderable(s, m, High) || NumbersOf(m, High).Some?
    ensures Pick(a, s, m) == StaticFallback ==> ResolvePath(s, m, Pick(a, s, m)) == "static-safe"
    ensures Pick(a, s, m) != StaticFallback ==> Pick(a, s, m) == High
  {
    hide Score, Best, TierRenderable, NumbersOf, Penalty;
    BeatsPoster(a, s, m);
    var tier := Pick(a, s, m);
    if !Unscored(s, m) && tier != StaticFallback {
      ScoreBound(a, s, m, tier);
      PenaltyBound(s, tier);
    }
  }

  /** A scored pick that is not the poster keeps its headroom off the lower clamp. */
  lemma PickedHeadroom(a: Arithmetic, s: Snapshot, m: Manifest, tier: Tier)
    requires Budgeted(m) && tier == Pick(a, s, m) && tier != StaticFallback && !Unscored(s, m)
    ensures NumbersOf(m, tier).Some?
    ensures var n := NumbersOf(m, tier).value;
      && 2.4 * Headroom(m.firstFrameBudgetMs, FirstFrameMs(a, s, n)) >= -4.6 - Richness(tier) - Slack(a)
      && 2.4 * Headroom(m.firstFrameBudgetMs, FirstFrameMs(a, s, n))
        >= -3.0 - Richness(tier) - Slack(a) - 1.6 * Clamp(FrameHeadroom(a, s, n), -2.0, 1.0)
  {
    hide Best, FirstFrameMs, FrameHeadroom, Clamp, Headroom, TierRenderable, NumbersOf, Penalty, Keep;
    BeatsPoster(a, s, m);
    NeverUnrenderable(a, s, m);
    ScoreBound(a, s, m, tier);
    PenaltyBound(s, tier);
    var n := NumbersOf(m, tier).value;
    KeepNear(a, Quality(a, s, m.firstFrameBudgetMs, tier, n));
    ClampIs(Headroom(m.firstFrameBudgetMs, FirstFrameMs(a, s, n)), -8.0, 1.0);
    ClampIs(FrameHeadroom(a, s, n), -2.0, 1.0);
  }

  lemma HeadroomIs(budget: real, used: real, c: real)
    requires budget > 0.0 && Headroom(budget, used) >= c
    ensures used <= budget * (1.0 - c)
  {
    var h := Headroom(budget, used);
    assert h * budget == budget - used;
    assert (h - c) * budget >= 0.0;
  }

  /** A scored interactive tier is picked only when its predicted first frame is at most
      (7 + richness) / 2.4 budgets, up to half a millionth of score; only `high` is picked unscored. */
  lemma FirstFrameBound(a: Arithmetic, s: Snapshot, m: Manifest, tier: Tier)
    requires Budgeted(m) && tier == Pick(a, s, m) && tier != StaticFallback
    ensures NumbersOf(m, tier).None? <==> Unscored(s, m)
    ensures NumbersOf(m, tier).None? ==> tier == High
    ensures NumbersOf(m, tier).Some? ==>
      FirstFrameMs(a, s, NumbersOf(m, tier).value) <= m.firstFrameBudgetMs * ((7.0 + Richness(tier) + Slack(a)) / 2.4)
  {
    hide FirstFrameMs, Headroom, Pick, NumbersOf, TierRenderable;
    BeatsPoster(a, s, m);
    if !Unscored(s, m) {
      PickedHeadroom(a, s, m, tier);
      var ff := FirstFrameMs(a, s, NumbersOf(m, tier).value);
      var c := (-4.6 - Richness(tier) - Slack(a)) / 2.4;
      HeadroomIs(m.firstFrameBudgetMs, ff, c);
      assert 1.0 - c == (7.0 + Richness(tier) + Slack(a)) / 2.4;
    }
  }

  /** The bound of 4.75 budgets holds of the program's own arithmetic whenever the pick is not `high`,
      or its frame headroom leaves half a millionth of score to spare. */
  lemma WithinBound(s: Snapshot, m: Manifest, tier: Tier)
    requires Budgeted(m) && tier == Pick(Rounded, s, m) && tier != StaticFallback && NumbersOf(m, tier).Some?
    requires tier != High || FrameHeadroom(Rounded, s, NumbersOf(m, tier).value) <= 1.0 - 0.0000005 / 1.6
    ensures FirstFrameMs(Rounded, s, NumbersOf(m, tier).value) <= m.firstFrameBudgetMs * 4.75
  {
    FirstFrameBound(Rounded, s, m, tier);
    hide FirstFrameMs, Headroom, Pick, NumbersOf, TierRenderable, FrameHeadroom;
    PickedHeadroom(Rounded, s, m, tier);
    var n := NumbersOf(m, tier).value;
    assert 1.6 * Clamp(FrameHeadroom(Rounded, s, n), -2.0, 1.0) <= if tier == High then 1.6 - 0.0000005 else 1.6;
    assert Richness(tier) <= if tier == High then 4.4 else 2.4;
    HeadroomIs(m.firstFrameBudgetMs, FirstFrameMs(Rounded, s, n), -3.75);
  }
}
