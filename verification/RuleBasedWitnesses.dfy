/** Concrete inputs at which the tier choice parts from what is said of it, and the check of declared
    tiers (src/decision/rule-based.js, src/manifest/validate.js). */
module RuleBasedWitnesses {
  import opened Prelude
  import opened Reals
  import opened Rounding
  import opened Capability
  import opened RuleBased
  import opened LinkSpeed

  // ---- validation lets a richest tier without a score pass ----------------------------------

  predicate AtLeast(x: Number, y: Number) {
    x.Some? && y.Some? && x.value >= y.value
  }

  /** A missing weight counts as zero here. */
  function DeclaredBytes(assets: seq<Number>): real {
    if assets == [] then 0.0 else DeclaredBytes(assets[..|assets| - 1]) + OrElse(assets[|assets| - 1], 0.0)
  }

  predicate KnownRequirements(needs: seq<string>) {
    forall i :: 0 <= i < |needs| ==> needs[i] in {"webgl1", "webgl2", "webgpu", "webcodecs", "camera", "motion"}
  }

  predicate AcceptedTier(spec: TierSpec, maxTransferBytes: real) {
    && spec.assetBytes != []
    && (spec.needs.Some? ==> KnownRequirements(spec.needs.value))
    && DeclaredBytes(spec.assetBytes) <= maxTransferBytes
  }

  predicate Descends(above: TierSpec, below: TierSpec) {
    && !AtLeast(below.particleCount, above.particleCount)
    && !Greater(below.textureSize, above.textureSize)
    && !AtLeast(below.perFrameWorkMs, above.perFrameWorkMs)
  }

  /** What validation demands of the tiers and of the first-frame budget. */
  predicate AcceptedTiers(m: Manifest, maxTransferBytes: real) {
    && Budgeted(m)
    && |m.tiers| == 3
    && FindTier(m.tiers, High).Some? && FindTier(m.tiers, Mid).Some? && FindTier(m.tiers, Low).Some?
    && Descends(FindTier(m.tiers, High).value, FindTier(m.tiers, Mid).value)
    && Descends(FindTier(m.tiers, Mid).value, FindTier(m.tiers, Low).value)
    && (forall i :: 0 <= i < 3 ==> AcceptedTier(m.tiers[i], maxTransferBytes))
    && OrElse(FindTier(m.tiers, Low).value.needs, []) == []
  }

  /** What it demands of the fallback paths. */
  predicate AcceptedPaths(paths: seq<FallbackPath>) {
    && |paths| >= 3
    && (forall i, j :: 0 <= i < j < |paths| ==> paths[i].priority != paths[j].priority)
    && (forall i :: 0 <= i < |paths| && (forall j :: 0 <= j < |paths| ==> paths[j].priority <= paths[i].priority) ==>
      paths[i].needs == [])
    && forall i :: 0 <= i < |paths| ==> KnownRequirements(paths[i].needs)
  }

  predicate Accepted(m: Manifest, maxTransferBytes: real) {
    AcceptedTiers(m, maxTransferBytes) && AcceptedPaths(m.fallbackPaths)
  }

  const PATHS: seq<FallbackPath> := [
    FallbackPath("camera-xr", ["camera", "webgl1"], 1), FallbackPath("interactive-2d", ["webgl1"], 2),
    FallbackPath("static-safe", [], 3)]

  lemma TwoKnown(x: string, y: string)
    requires x in ["camera", "webgl1"] && y in ["camera", "webgl1"]
    ensures KnownRequirements([x, y]) && KnownRequirements([y]) && KnownRequirements([])
  {
  }

  lemma PathsAccepted()
    ensures AcceptedPaths(PATHS)
  {
    TwoKnown("camera", "webgl1");
    hide KnownRequirements;
    assert PATHS[2].priority > PATHS[1].priority > PATHS[0].priority;
  }

  /** The frame rate or the asset's weight of the richest tier is up to the caller. */
  function Trio(fps: Number, bytes: Number): Manifest {
    Manifest(
      [ TierSpec(High, Some(3.0), Some(512.0), Some(2.0), fps, Some(3.0), [bytes], Some(["webgl2"])),
        TierSpec(Mid, Some(2.0), Some(256.0), Some(1.0), Some(60.0), Some(2.0), [Some(2000.0)], Some(["webgl1"])),
        TierSpec(Low, Some(1.0), Some(128.0), Some(0.0), Some(30.0), Some(1.0), [Some(1000.0)], Some([])) ],
      PATHS, 2500.0)
  }

  lemma TrioTiers(fps: Number, bytes: Number)
    ensures var m := Trio(fps, bytes);
      && FindTier(m.tiers, High) == Some(m.tiers[0]) && FindTier(m.tiers, Mid) == Some(m.tiers[1])
      && FindTier(m.tiers, Low) == Some(m.tiers[2])
  {
    var tiers := Trio(fps, bytes).tiers;
    assert FindTier(tiers[1..], Mid) == Some(tiers[1]);
    assert FindTier(tiers[2..], Low) == Some(tiers[2]);
  }

  lemma PresentOne(x: Number)
    ensures Present([x]) == (if x.None? then None else Some([x.value]))
    ensures DeclaredBytes([x]) == OrElse(x, 0.0)
  {
    assert [x][..0] == [] && Present([]) == Some([]);
    if x.Some? {
      assert [] + [x.value] == [x.value];
    }
  }

  /** Validation accepts the richest tier with any frame rate, none included, and with an asset of
      unknown weight; without a frame rate other than zero or without a weight it has no score, and
      then it is what reduced motion is served. */
  lemma ValidatedButUnscored(s: Snapshot, fps: Number, bytes: Number)
    requires s.reducedMotionPreferred && s.webglVersion >= 2 && OrElse(bytes, 0.0) <= 2500.0
    ensures Accepted(Trio(fps, bytes), 2500.0)
    ensures Pick(Rounded, s, Trio(fps, bytes)) ==
      if fps.None? || fps == Some(0.0) || bytes.None? then High else StaticFallback
  {
    var m := Trio(fps, bytes);
    TrioTiers(fps, bytes);
    PresentOne(bytes);
    PresentOne(Some(2000.0));
    PresentOne(Some(1000.0));
    PathsAccepted();
    hide PATHS, AcceptedPaths, FindTier, Present, DeclaredBytes, Pick, TierRenderable;
    assert TierRenderable(s, m, High) by { HighRenderable(s, fps, bytes); }
    ReducedMotion(Rounded, s, m);
  }

  lemma HighRenderable(s: Snapshot, fps: Number, bytes: Number)
    requires s.webglVersion >= 2
    ensures TierRenderable(s, Trio(fps, bytes), High)
  {
    TrioTiers(fps, bytes);
    hide FindTier;
  }

  // ---- plain ladders ------------------------------------------------------------------------

  /** A fast machine with a link of speed `mbps` and no round trip. */
  function Desktop(mbps: real): Snapshot {
    Snapshot(Some(8.0), Some(8.0), GpuHigh, 2, false, false, Granted, FourG, Some(mbps), Some(0.0), false, None)
  }

  /** What a tier without textures, shader passes or requirements declares. */
  datatype Plain = Plain(bytes: real, fps: real, particles: real, work: real)

  function PlainTier(id: Tier, p: Plain): TierSpec {
    TierSpec(id, Some(p.particles), Some(0.0), Some(0.0), Some(p.fps), Some(p.work), [Some(p.bytes)], Some([]))
  }

  function PlainNumbers(p: Plain): TierNumbers {
    TierNumbers(p.particles, 0.0, 0.0, p.fps, p.work, [p.bytes])
  }

  function PlainLadder(high: Plain, mid: Plain, low: Plain, budget: real): Manifest {
    Manifest([PlainTier(High, high), PlainTier(Mid, mid), PlainTier(Low, low)], PATHS, budget)
  }

  function Choose(tier: Tier, high: Plain, mid: Plain, low: Plain): Plain {
    if tier == High then high else if tier == Mid then mid else low
  }

  lemma PlainTiers(high: Plain, mid: Plain, low: Plain, budget: real, tier: Tier)
    requires tier in [High, Mid, Low]
    ensures FindTier(PlainLadder(high, mid, low, budget).tiers, tier) == Some(PlainTier(tier, Choose(tier, high, mid, low)))
  {
    var tiers := PlainLadder(high, mid, low, budget).tiers;
    assert FindTier(tiers[2..], Low) == Some(tiers[2]);
    assert FindTier(tiers[1..], Mid) == Some(tiers[1]);
  }

  lemma PlainTierNumbers(m: Manifest, id: Tier, p: Plain)
    requires FindTier(m.tiers, id) == Some(PlainTier(id, p)) && p.fps != 0.0
    ensures NumbersOf(m, id) == Some(PlainNumbers(p))
  {
    PresentOne(Some(p.bytes));
    hide FindTier, Present;
  }

  /** A plain ladder whose work and particles fall is accepted when its weights fit. */
  lemma PlainAccepted(high: Plain, mid: Plain, low: Plain, budget: real, bytes: real)
    requires budget > 0.0 && high.bytes <= bytes && mid.bytes <= bytes && low.bytes <= bytes
    requires high.particles > mid.particles > low.particles && high.work > mid.work > low.work
    ensures Accepted(PlainLadder(high, mid, low, budget), bytes)
  {
    var m := PlainLadder(high, mid, low, budget);
    PlainTiers(high, mid, low, budget, High);
    PlainTiers(high, mid, low, budget, Mid);
    PlainTiers(high, mid, low, budget, Low);
    PathsAccepted();
    hide FindTier, DeclaredBytes, PATHS, AcceptedPaths;
    forall i | 0 <= i < 3 ensures AcceptedTier(m.tiers[i], bytes) {
      PresentOne(Some(high.bytes));
      PresentOne(Some(mid.bytes));
      PresentOne(Some(low.bytes));
    }
  }

  lemma PlainIsLadder(high: Plain, mid: Plain, low: Plain, budget: real)
    requires high.fps != 0.0 && mid.fps != 0.0 && low.fps != 0.0 && high.bytes >= mid.bytes >= low.bytes >= 0.0
    ensures Ladder(PlainLadder(high, mid, low, budget))
  {
    var m := PlainLadder(high, mid, low, budget);
    forall i: nat | i < 3
      ensures NumbersOf(m, Candidate(i)) == Some(PlainNumbers(Choose(Candidate(i), high, mid, low)))
    {
      PlainTiers(high, mid, low, budget, Candidate(i));
      PlainTierNumbers(m, Candidate(i), Choose(Candidate(i), high, mid, low));
    }
    SumOne(high.bytes);
    SumOne(mid.bytes);
    SumOne(low.bytes);
    hide FindTier, NumbersOf, Sum;
    assert Candidate(0) == High && Candidate(1) == Mid && Candidate(2) == Low;
  }

  lemma SumOne(x: real)
    ensures Sum([x]) == x
  {
    assert [x][..0] == [];
  }

  lemma DesktopIs(mbps: real)
    requires mbps >= 0.05
    ensures CpuFactor(Rounded, Desktop(mbps)) == 1.0 && Mbps(Desktop(mbps)) == mbps && Rtt(Desktop(mbps)) == 0.0
    ensures forall tier :: Penalty(Desktop(mbps), tier) == 0.0
  {
  }

  predicate RoundsTo(n: int, x: real) {
    n as real - 0.5 <= x * 1000000.0 < n as real + 0.5
  }

  lemma FrameShare(fps: real, frame: real)
    requires fps != 0.0
    ensures 1000.0 / fps != 0.0 && Headroom(1000.0 / fps, frame) == 1.0 - frame * fps / 1000.0
  {
    var x := 1000.0 / fps;
    assert x * fps == 1000.0;
    assert frame / x * x == frame;
    assert frame / x == frame * fps / 1000.0 by {
      assert frame / x * (x * fps) == frame * fps;
    }
    assert (x - frame) / x == 1.0 - frame / x;
  }

  lemma PlainHeadroom(mbps: real, p: Plain, frame: real, g: real)
    requires p.fps != 0.0 && FrameTimeMs(Rounded, Desktop(mbps), PlainNumbers(p)) == frame
    requires Clamp(1.0 - frame * p.fps / 1000.0, -2.0, 1.0) == g
    ensures Clamp(FrameHeadroom(Rounded, Desktop(mbps), PlainNumbers(p)), -2.0, 1.0) == g
  {
    hide FrameTimeMs, Clamp, Headroom;
    FrameShare(p.fps, frame);
  }

  /** The predictions for a plain tier: `k` and `w` are its transfer and frame time in millionths. */
  lemma PlainPrediction(mbps: real, p: Plain, transfer: real, k: int, frame: real, w: int)
    requires mbps >= 0.05 && RoundsTo(k, p.bytes * 8.0 / mbps / 1000000.0 * 1000.0) && transfer * 1000000.0 == k as real
    requires RoundsTo(w, p.work + p.particles / 900.0) && frame * 1000000.0 == w as real
    ensures FirstFrameMs(Rounded, Desktop(mbps), PlainNumbers(p)) == transfer + 110.0
    ensures FrameTimeMs(Rounded, Desktop(mbps), PlainNumbers(p)) == frame
  {
    var s, n := Desktop(mbps), PlainNumbers(p);
    DesktopIs(mbps);
    SumOne(p.bytes);
    hide CpuFactor, Sum, Round6, Mbps, Rtt;
    assert LatencyMs(s, 1) == 0.0;
    Round6Is(ThroughputMs(s, p.bytes) + LatencyMs(s, 1), k, transfer);
    assert CpuMs(n, 1.0) == 110.0;
    Round6Is(transfer + 110.0, k + 110000000, transfer + 110.0);
    assert FrameWorkMs(n, 1.0) == p.work + p.particles / 900.0;
    Round6Is(p.work + p.particles / 900.0, w, frame);
  }

  /** A tier's headrooms, and its score `r` of `n` millionths, off the transfer time's clamps. */
  lemma PlainScore(mbps: real, m: Manifest, tier: Tier, p: Plain, h: real, g: real, n: int, r: real)
    requires mbps >= 0.05 && Budgeted(m) && tier != StaticFallback && p.fps != 0.0
    requires FindTier(m.tiers, tier) == Some(PlainTier(tier, p))
    requires Headroom(m.firstFrameBudgetMs, FirstFrameMs(Rounded, Desktop(mbps), PlainNumbers(p))) == h && -8.0 <= h <= 1.0
    requires Clamp(FrameHeadroom(Rounded, Desktop(mbps), PlainNumbers(p)), -2.0, 1.0) == g
    requires RoundsTo(n, Richness(tier) + 2.4 * h + 1.6 * g) && r * 1000000.0 == n as real
    ensures Score(Rounded, Desktop(mbps), m, tier) == Some(r)
  {
    var s := Desktop(mbps);
    PlainTierNumbers(m, tier, p);
    DesktopIs(mbps);
    assert TierRenderable(s, m, tier);
    ClampIs(h, -8.0, 1.0);
    hide FirstFrameMs, FrameHeadroom, Headroom, Round6, NumbersOf, TierRenderable, Penalty, Richness, Clamp, FindTier;
    assert Quality(Rounded, s, m.firstFrameBudgetMs, tier, PlainNumbers(p)) == Richness(tier) + 2.4 * h + 1.6 * g;
    Round6Is(Richness(tier) + 2.4 * h + 1.6 * g, n, r);
  }

  lemma PickOf(s: Snapshot, m: Manifest, i: nat, high: real, mid: real, low: real)
    requires Budgeted(m) && Score(Rounded, s, m, High) == Some(high) && Score(Rounded, s, m, Mid) == Some(mid)
    requires Score(Rounded, s, m, Low) == Some(low)
    requires (i == 0 && high >= mid && high >= low && high >= -3.0) || (i == 1 && high < mid && mid >= low && mid >= -3.0)
    ensures Best(Rounded, s, m, 4) == i && Pick(Rounded, s, m) == Candidate(i)
  {
    PosterScore(Rounded, s, m);
    hide Score, Best;
    assert Candidate(0) == High && Candidate(1) == Mid && Candidate(2) == Low;
    var best := Best(Rounded, s, m, 4);
  }

  // ---- where the six-decimal rounding shows -------------------------------------------------

  const TIE_HIGH := Plain(890800.0, 50.0, 1800.0, 25.000005)
  const TIE_MID := Plain(890800.0, 50.0, 900.0, 1.0)
  const TIE_LOW := Plain(890800.0, 50.0, 0.0, 0.0)

  /** Tiers of equal weight, the scores of the richest two 0.0000004 apart before the rounding. */
  function NearTie(): Manifest {
    PlainLadder(TIE_HIGH, TIE_MID, TIE_LOW, 2400000.0)
  }

  /** The predictions on one link. */
  ghost predicate TiePredicted(mbps: real, frame: real)
    requires mbps >= 0.05
  {
    && (forall p :: p in [TIE_HIGH, TIE_MID, TIE_LOW] ==>
      FirstFrameMs(Rounded, Desktop(mbps), PlainNumbers(p)) == frame)
    && Clamp(FrameHeadroom(Rounded, Desktop(mbps), PlainNumbers(TIE_HIGH)), -2.0, 1.0) == -0.35000025
    && Clamp(FrameHeadroom(Rounded, Desktop(mbps), PlainNumbers(TIE_MID)), -2.0, 1.0) == 0.9
    && Clamp(FrameHeadroom(Rounded, Desktop(mbps), PlainNumbers(TIE_LOW)), -2.0, 1.0) == 1.0
  }

  lemma TieFrames(mbps: real, transfer: real, k: int)
    requires mbps >= 0.05 && 890800.0 * 8.0 / mbps / 1000000.0 * 1000.0 == transfer && transfer * 1000000.0 == k as real
    ensures TiePredicted(mbps, transfer + 110.0)
  {
    PlainPrediction(mbps, TIE_HIGH, transfer, k, 27.000005, 27000005);
    PlainPrediction(mbps, TIE_MID, transfer, k, 2.0, 2000000);
    PlainPrediction(mbps, TIE_LOW, transfer, k, 0.0, 0);
    hide FirstFrameMs, FrameTimeMs, FrameHeadroom;
    PlainHeadroom(mbps, TIE_HIGH, 27.000005, -0.35000025);
    PlainHeadroom(mbps, TIE_MID, 2.0, 0.9);
    PlainHeadroom(mbps, TIE_LOW, 0.0, 1.0);
  }

  lemma TieArithmetic(frame: real, n: int, l: int)
    requires || (frame == 1000.8 && n == 6238999 && l == 4298999)
      || (frame == 1000.4 && n == 6239000 && l == 4299000)
    ensures var h := Headroom(2400000.0, frame);
      && -8.0 <= h <= 1.0 && RoundsTo(6238999, Richness(High) + 2.4 * h + 1.6 * -0.35000025)
      && RoundsTo(n, Richness(Mid) + 2.4 * h + 1.6 * 0.9) && RoundsTo(l, Richness(Low) + 2.4 * h + 1.6 * 1.0)
  {
  }

  lemma TieScores(mbps: real, frame: real, n: int, r: real, l: int, low: real)
    requires mbps >= 0.05 && TiePredicted(mbps, frame)
    requires || (frame == 1000.8 && n == 6238999 && r == 6.238999 && l == 4298999 && low == 4.298999)
      || (frame == 1000.4 && n == 6239000 && r == 6.239 && l == 4299000 && low == 4.299)
    ensures Score(Rounded, Desktop(mbps), NearTie(), High) == Some(6.238999)
    ensures Score(Rounded, Desktop(mbps), NearTie(), Mid) == Some(r)
    ensures Score(Rounded, Desktop(mbps), NearTie(), Low) == Some(low)
  {
    var m := NearTie();
    PlainTiers(TIE_HIGH, TIE_MID, TIE_LOW, 2400000.0, High);
    PlainTiers(TIE_HIGH, TIE_MID, TIE_LOW, 2400000.0, Mid);
    PlainTiers(TIE_HIGH, TIE_MID, TIE_LOW, 2400000.0, Low);
    TieArithmetic(frame, n, l);
    hide FirstFrameMs, FrameHeadroom, Clamp, FindTier, Score, Headroom, RoundsTo, Richness;
    var h := Headroom(2400000.0, frame);
    PlainScore(mbps, m, High, TIE_HIGH, h, -0.35000025, 6238999, 6.238999);
    PlainScore(mbps, m, Mid, TIE_MID, h, 0.9, n, r);
    PlainScore(mbps, m, Low, TIE_LOW, h, 1.0, l, low);
  }

  /** On rounded scores a near-tie can flip, on a manifest that validation accepts: here the faster link
      gets `mid` and the slower `high`. */
  lemma RoundingCanFlip()
    ensures var s, t, m := Desktop(8.0), Desktop(7126400.0 / 890400.0), NearTie();
      && Accepted(m, 890800.0) && Ladder(m) && Faster(s, t) && Mbps(s) < Mbps(t)
      && Pick(Rounded, s, m) == High && Pick(Rounded, t, m) == Mid
  {
    var s, t, m := Desktop(8.0), Desktop(7126400.0 / 890400.0), NearTie();
    PlainAccepted(TIE_HIGH, TIE_MID, TIE_LOW, 2400000.0, 890800.0);
    PlainIsLadder(TIE_HIGH, TIE_MID, TIE_LOW, 2400000.0);
    TieFrames(8.0, 890.8, 890800000);
    TieFrames(7126400.0 / 890400.0, 890.4, 890400000);
    DesktopIs(8.0);
    DesktopIs(7126400.0 / 890400.0);
    hide Score, Pick, Ladder, Mbps, Rtt, Best, Accepted, PlainLadder, TiePredicted;
    TieScores(8.0, 1000.8, 6238999, 6.238999, 4298999, 4.298999);
    TieScores(7126400.0 / 890400.0, 1000.4, 6239000, 6.239, 4299000, 4.299);
    PickOf(s, m, 0, 6.238999, 6.238999, 4.298999);
    PickOf(t, m, 1, 6.238999, 6.239, 4.299);
  }

  const HEAVY_HIGH := Plain(4749890100.0, 0.00001, 1800.0, 3.0)
  const HEAVY_MID := Plain(4749890100.0, 0.00001, 900.0, 2.0)
  const HEAVY_LOW := Plain(4749890100.0, 0.00001, 0.0, 1.0)

  function Heavy(): Manifest {
    PlainLadder(HEAVY_HIGH, HEAVY_MID, HEAVY_LOW, 1000000.0)
  }

  lemma HeavyFrames()
    ensures forall p :: p in [HEAVY_HIGH, HEAVY_MID, HEAVY_LOW] ==>
      FirstFrameMs(Rounded, Desktop(8.0), PlainNumbers(p)) == 4750000.1
    ensures Clamp(FrameHeadroom(Rounded, Desktop(8.0), PlainNumbers(HEAVY_HIGH)), -2.0, 1.0) == 0.99999995
    ensures Clamp(FrameHeadroom(Rounded, Desktop(8.0), PlainNumbers(HEAVY_MID)), -2.0, 1.0) == 0.99999997
    ensures Clamp(FrameHeadroom(Rounded, Desktop(8.0), PlainNumbers(HEAVY_LOW)), -2.0, 1.0) == 0.99999999
  {
    PlainPrediction(8.0, HEAVY_HIGH, 4749890.1, 4749890100000, 5.0, 5000000);
    PlainPrediction(8.0, HEAVY_MID, 4749890.1, 4749890100000, 3.0, 3000000);
    PlainPrediction(8.0, HEAVY_LOW, 4749890.1, 4749890100000, 1.0, 1000000);
    hide FirstFrameMs, FrameTimeMs, FrameHeadroom;
    PlainHeadroom(8.0, HEAVY_HIGH, 5.0, 0.99999995);
    PlainHeadroom(8.0, HEAVY_MID, 3.0, 0.99999997);
    PlainHeadroom(8.0, HEAVY_LOW, 1.0, 0.99999999);
  }

  /** The bound of 4.75 budgets is missed by the half unit of the rounded score, on a manifest that
      validation accepts: here `high` is picked at 4.7500001 budgets. */
  lemma BoundNeedsSlack()
    ensures var s, m := Desktop(8.0), Heavy();
      && Accepted(m, 4749890100.0) && Pick(Rounded, s, m) == High
      && NumbersOf(m, High).Some?
      && FirstFrameMs(Rounded, s, NumbersOf(m, High).value) == m.firstFrameBudgetMs * 4.7500001
  {
    var s, m := Desktop(8.0), Heavy();
    PlainAccepted(HEAVY_HIGH, HEAVY_MID, HEAVY_LOW, 1000000.0, 4749890100.0);
    PlainTiers(HEAVY_HIGH, HEAVY_MID, HEAVY_LOW, 1000000.0, High);
    PlainTiers(HEAVY_HIGH, HEAVY_MID, HEAVY_LOW, 1000000.0, Mid);
    PlainTiers(HEAVY_HIGH, HEAVY_MID, HEAVY_LOW, 1000000.0, Low);
    PlainTierNumbers(m, High, HEAVY_HIGH);
    HeavyFrames();
    hide FirstFrameMs, FrameHeadroom, Clamp, FindTier, Score, Pick, Best, Accepted, NumbersOf;
    PlainScore(8.0, m, High, HEAVY_HIGH, -3.7500001, 0.99999995, -3000000, -3.0);
    PlainScore(8.0, m, Mid, HEAVY_MID, -3.7500001, 0.99999997, -5000000, -5.0);
    PlainScore(8.0, m, Low, HEAVY_LOW, -3.7500001, 0.99999999, -7100000, -7.1);
    PickOf(s, m, 0, -3.0, -5.0, -7.1);
  }
}
