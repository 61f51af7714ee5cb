/** How the tier choice follows the speed of the link (src/decision/rule-based.js). */
module LinkSpeed {
  import opened Prelude
  import opened Reals
  import opened Rounding
  import opened Capability
  import opened RuleBased

  predicate SameButLink(s: Snapshot, t: Snapshot) {
    t == s.(downlinkMbps := t.downlinkMbps)
  }

  function TierBytes(m: Manifest, tier: Tier): real {
    if NumbersOf(m, tier).Some? then Sum(NumbersOf(m, tier).value.assetBytes) else 0.0
  }

  /** Among the tiers with usable numbers weight does not grow down the ladder, and neither weight
      nor shader passes are negative. */
  predicate Ladder(m: Manifest) {
    forall i, j :: 0 <= i <= j < 3 && NumbersOf(m, Candidate(i)).Some? && NumbersOf(m, Candidate(j)).Some? ==>
      && TierBytes(m, Candidate(i)) >= TierBytes(m, Candidate(j)) >= 0.0
      && NumbersOf(m, Candidate(j)).value.shaderPasses >= 0.0
  }

  /** `t` is the same device on a link at least as fast, and its round trip is not negative. */
  predicate Faster(s: Snapshot, t: Snapshot) {
    SameButLink(s, t) && Mbps(s) <= Mbps(t) && Rtt(s) >= 0.0
  }

  /** An interactive tier whose score comes from its predicted times. */
  predicate Competes(s: Snapshot, m: Manifest, tier: Tier) {
    tier != StaticFallback && TierRenderable(s, m, tier) && NumbersOf(m, tier).Some?
  }

  // ---- the transfer time a faster link saves ------------------------------------------------

  lemma Reciprocals(d: real, e: real)
    requires 0.0 < d <= e
    ensures 1.0 / d >= 1.0 / e
  {
  }

  lemma Quotients(x: real, y: real, d: real, e: real)
    requires x >= y >= 0.0 && 0.0 < d <= e
    ensures x / d - x / e >= y / d - y / e >= 0.0
  {
    var p, q := 1.0 / d, 1.0 / e;
    Reciprocals(d, e);
    assert x / d == x * p && x / e == x * q && y / d == y * p && y / e == y * q;
    assert x * (p - q) >= y * (p - q) >= 0.0;
  }

  lemma Saved(s: Snapshot, t: Snapshot, heavy: real, light: real)
    requires Faster(s, t) && heavy >= light >= 0.0
    ensures ThroughputMs(s, heavy) - ThroughputMs(t, heavy) >= ThroughputMs(s, light) - ThroughputMs(t, light) >= 0.0
  {
    hide Mbps;
    Quotients(heavy * 8.0, light * 8.0, Mbps(s), Mbps(t));
  }

  function SavedMs(s: Snapshot, t: Snapshot, m: Manifest, tier: Tier): real {
    ThroughputMs(s, TierBytes(m, tier)) - ThroughputMs(t, TierBytes(m, tier))
  }

  lemma CpuIsPositive(n: TierNumbers, cpu: real)
    requires n.shaderPasses >= 0.0 && cpu >= 0.0
    ensures CpuMs(n, cpu) >= 0.0
  {
    var side := n.textureSize / 256.0;
    assert side * side >= 0.0;
    NonNegativeProduct(side * side * 18.0, cpu);
    NonNegativeProduct(n.shaderPasses * 45.0, cpu);
    NonNegativeProduct(110.0, cpu);
  }

  lemma FactorIsPositive(a: Arithmetic, s: Snapshot)
    ensures CpuFactor(a, s) >= 0.0
  {
  }

  lemma SameCpu(a: Arithmetic, s: Snapshot, t: Snapshot)
    requires SameButLink(s, t)
    ensures CpuFactor(a, s) == CpuFactor(a, t)
  {
    hide KeepFixed, Max;
  }

  /** Two links that differ only in speed: everything else is the same. */
  lemma SameDevice(a: Arithmetic, s: Snapshot, t: Snapshot, n: TierNumbers)
    requires SameButLink(s, t)
    ensures CpuFactor(a, s) == CpuFactor(a, t) && FrameTimeMs(a, s, n) == FrameTimeMs(a, t, n)
    ensures LatencyMs(s, |n.assetBytes|) == LatencyMs(t, |n.assetBytes|)
  {
    hide CpuFactor;
    SameCpu(a, s, t);
  }

  lemma FirstFrameSaved(a: Arithmetic, s: Snapshot, t: Snapshot, n: TierNumbers)
    requires SameButLink(s, t) && !a.Rounded?
    ensures FirstFrameMs(a, s, n) - FirstFrameMs(a, t, n)
      == ThroughputMs(s, Sum(n.assetBytes)) - ThroughputMs(t, Sum(n.assetBytes))
  {
    hide ThroughputMs, Mbps, Sum, CpuMs, CpuFactor, FrameTimeMs, LatencyMs;
    SameDevice(a, s, t, n);
  }

  lemma FrameIsPositive(a: Arithmetic, s: Snapshot, n: TierNumbers)
    requires n.shaderPasses >= 0.0 && Sum(n.assetBytes) >= 0.0 && Rtt(s) >= 0.0 && !a.Rounded?
    ensures FirstFrameMs(a, s, n) >= 0.0
  {
    FactorIsPositive(a, s);
    CpuIsPositive(n, CpuFactor(a, s));
    hide CpuMs, CpuFactor, Mbps, Rtt, Sum;
    assert ThroughputMs(s, Sum(n.assetBytes)) >= 0.0;
    NonNegativeProduct(Rtt(s), 1.0 + Min(|n.assetBytes| as real, 4.0) * 0.5);
  }

  // ---- without the roundings on the link's path ---------------------------------------------

  lemma HeadroomGain(budget: real, before: real, after: real)
    requires budget > 0.0
    ensures Headroom(budget, after) - Headroom(budget, before) == (before - after) / budget
  {
  }

  lemma ClampGain(h: real, g: real)
    requires h <= g
    ensures 0.0 <= Clamp(g, -8.0, 1.0) - Clamp(h, -8.0, 1.0) <= g - h
    ensures -8.0 <= h && g <= 1.0 ==> Clamp(g, -8.0, 1.0) - Clamp(h, -8.0, 1.0) == g - h
  {
  }

  lemma AtMostOne(budget: real, used: real)
    requires budget > 0.0 && used >= 0.0
    ensures Headroom(budget, used) <= 1.0
  {
    NonNegativeQuotient(used, budget);
    assert budget / budget == 1.0;
    QuotientOrder(budget - used, budget, budget);
  }

  function LinkHeadroom(a: Arithmetic, s: Snapshot, m: Manifest, tier: Tier): real
    requires Budgeted(m) && NumbersOf(m, tier).Some?
  {
    Headroom(m.firstFrameBudgetMs, FirstFrameMs(a, s, NumbersOf(m, tier).value))
  }

  lemma SameGate(s: Snapshot, t: Snapshot, m: Manifest, tier: Tier)
    requires SameButLink(s, t)
    ensures TierRenderable(s, m, tier) == TierRenderable(t, m, tier) && Penalty(s, tier) == Penalty(t, tier)
  {
  }

  /** A tier is scored on both links or on neither; unrenderable tiers and the poster score the same
      on both, and the others move with their clamped headroom alone. */
  lemma ScoreMoves(a: Arithmetic, s: Snapshot, t: Snapshot, m: Manifest, tier: Tier)
    requires Budgeted(m) && SameButLink(s, t)
    ensures Score(a, s, m, tier).Some? <==> Score(a, t, m, tier).Some?
    ensures tier == StaticFallback || !TierRenderable(s, m, tier) ==> Score(a, s, m, tier) == Score(a, t, m, tier)
    ensures !a.Rounded? && Competes(s, m, tier) ==>
      Score(a, s, m, tier).Some?
      && Score(a, t, m, tier).value - Score(a, s, m, tier).value
        == 2.4 * Clamp(LinkHeadroom(a, t, m, tier), -8.0, 1.0) - 2.4 * Clamp(LinkHeadroom(a, s, m, tier), -8.0, 1.0)
  {
    SameGate(s, t, m, tier);
    hide FirstFrameMs, FrameTimeMs, Clamp, Headroom, NumbersOf, TierRenderable, Penalty, Round6;
    if NumbersOf(m, tier).Some? {
      SameDevice(a, s, t, NumbersOf(m, tier).value);
    }
  }

  lemma KeepOrder(a: Arithmetic, x: real, y: real)
    requires x <= y
    ensures Keep(a, x) <= Keep(a, y)
  {
    Round6Order(x, y);
  }

  lemma FrameFalls(a: Arithmetic, s: Snapshot, t: Snapshot, n: TierNumbers)
    requires Faster(s, t) && Sum(n.assetBytes) >= 0.0
    ensures FirstFrameMs(a, t, n) <= FirstFrameMs(a, s, n)
  {
    SameDevice(a, s, t, n);
    var bytes, requests := Sum(n.assetBytes), |n.assetBytes|;
    Saved(s, t, bytes, bytes);
    hide ThroughputMs, LatencyMs, CpuMs, CpuFactor, Keep, Sum;
    KeepOrder(a, ThroughputMs(t, bytes) + LatencyMs(t, requests), ThroughputMs(s, bytes) + LatencyMs(s, requests));
    KeepOrder(a, TransferMs(a, t, bytes, requests) + CpuMs(n, CpuFactor(a, t)),
      TransferMs(a, s, bytes, requests) + CpuMs(n, CpuFactor(a, s)));
  }

  lemma HeadroomOrder(budget: real, x: real, y: real)
    requires budget > 0.0 && y <= x
    ensures Headroom(budget, x) <= Headroom(budget, y)
  {
    QuotientOrder(budget - x, budget - y, budget);
  }

  /** A faster link never lowers a score, roundings and all. */
  lemma ScoreRises(a: Arithmetic, s: Snapshot, t: Snapshot, m: Manifest, tier: Tier)
    requires Budgeted(m) && Faster(s, t) && TierBytes(m, tier) >= 0.0 && Score(a, s, m, tier).Some?
    ensures Score(a, t, m, tier).Some?
    ensures Score(a, t, m, tier).value >= Score(a, s, m, tier).value
  {
    ScoreMoves(a, s, t, m, tier);
    SameGate(s, t, m, tier);
    hide FirstFrameMs, FrameTimeMs, Clamp, Headroom, NumbersOf, TierRenderable, Keep, Richness, Mbps, Rtt, Penalty, Sum;
    if tier != StaticFallback && TierRenderable(s, m, tier) {
      var n, budget := NumbersOf(m, tier).value, m.firstFrameBudgetMs;
      SameDevice(a, s, t, n);
      FrameFalls(a, s, t, n);
      HeadroomOrder(budget, FirstFrameMs(a, s, n), FirstFrameMs(a, t, n));
      ClampGain(LinkHeadroom(a, s, m, tier), LinkHeadroom(a, t, m, tier));
      KeepOrder(a, Quality(a, s, budget, tier, n), Quality(a, t, budget, tier, n));
    }
  }

  /** No tier gains more than its saved transfer time in budgets. */
  lemma GainAtMost(a: Arithmetic, s: Snapshot, t: Snapshot, m: Manifest, tier: Tier)
    requires Budgeted(m) && !a.Rounded? && Faster(s, t) && TierBytes(m, tier) >= 0.0
    requires Competes(s, m, tier)
    ensures Score(a, s, m, tier).Some? && Score(a, t, m, tier).Some?
    ensures Score(a, t, m, tier).value - Score(a, s, m, tier).value <= 2.4 * (SavedMs(s, t, m, tier) / m.firstFrameBudgetMs)
  {
    Saved(s, t, TierBytes(m, tier), TierBytes(m, tier));
    hide FirstFrameMs, Score, Clamp, Headroom, Mbps, ThroughputMs, Rtt, NumbersOf, Sum;
    ScoreMoves(a, s, t, m, tier);
    NonNegativeQuotient(SavedMs(s, t, m, tier), m.firstFrameBudgetMs);
    var n := NumbersOf(m, tier).value;
    FirstFrameSaved(a, s, t, n);
    HeadroomGain(m.firstFrameBudgetMs, FirstFrameMs(a, s, n), FirstFrameMs(a, t, n));
    ClampGain(LinkHeadroom(a, s, m, tier), LinkHeadroom(a, t, m, tier));
  }

  /** A tier whose headroom is not clamped on the slower link gains all of its saved transfer time. */
  lemma GainUnclamped(a: Arithmetic, s: Snapshot, t: Snapshot, m: Manifest, tier: Tier)
    requires Budgeted(m) && !a.Rounded? && Faster(s, t) && TierBytes(m, tier) >= 0.0
    requires Competes(s, m, tier)
    requires NumbersOf(m, tier).value.shaderPasses >= 0.0 && LinkHeadroom(a, s, m, tier) >= -8.0
    ensures Score(a, s, m, tier).Some? && Score(a, t, m, tier).Some?
    ensures Score(a, t, m, tier).value - Score(a, s, m, tier).value == 2.4 * (SavedMs(s, t, m, tier) / m.firstFrameBudgetMs)
  {
    Saved(s, t, TierBytes(m, tier), TierBytes(m, tier));
    assert Rtt(t) == Rtt(s);
    hide FirstFrameMs, Score, Clamp, Mbps, ThroughputMs, Rtt, NumbersOf, Sum, Headroom;
    ScoreMoves(a, s, t, m, tier);
    var n, budget := NumbersOf(m, tier).value, m.firstFrameBudgetMs;
    FirstFrameSaved(a, s, t, n);
    FrameIsPositive(a, t, n);
    var x, y := FirstFrameMs(a, s, n), FirstFrameMs(a, t, n);
    HeadroomGain(budget, x, y);
    NonNegativeQuotient(x - y, budget);
    AtMostOne(budget, y);
    ClampGain(LinkHeadroom(a, s, m, tier), LinkHeadroom(a, t, m, tier));
  }

  /** A richer tier whose headroom is not clamped gains at least what a poorer one does. */
  lemma RicherGainsMore(a: Arithmetic, s: Snapshot, t: Snapshot, m: Manifest, i: nat, j: nat)
    requires Budgeted(m) && Ladder(m) && !a.Rounded? && Faster(s, t) && i <= j < 3
    requires Competes(s, m, Candidate(i)) && Competes(s, m, Candidate(j))
    requires LinkHeadroom(a, s, m, Candidate(i)) >= -8.0
    ensures Score(a, s, m, Candidate(i)).Some? && Score(a, t, m, Candidate(i)).Some?
    ensures Score(a, s, m, Candidate(j)).Some? && Score(a, t, m, Candidate(j)).Some?
    ensures Score(a, t, m, Candidate(j)).value - Score(a, s, m, Candidate(j)).value
      <= Score(a, t, m, Candidate(i)).value - Score(a, s, m, Candidate(i)).value
  {
    var rich, poor := Candidate(i), Candidate(j);
    assert TierBytes(m, rich) >= TierBytes(m, poor) >= 0.0 && NumbersOf(m, rich).value.shaderPasses >= 0.0 by {
      hide NumbersOf, TierBytes;
    }
    hide Score, Mbps, Rtt, ThroughputMs, LinkHeadroom, NumbersOf, TierRenderable, TierBytes, Ladder;
    GainUnclamped(a, s, t, m, rich);
    GainAtMost(a, s, t, m, poor);
    Saved(s, t, TierBytes(m, rich), TierBytes(m, poor));
    QuotientOrder(SavedMs(s, t, m, poor), SavedMs(s, t, m, rich), m.firstFrameBudgetMs);
  }

  /** Without those roundings, and with everything else fixed, a faster link never picks a poorer
      tier. */
  lemma FasterLinkNeverPoorer(a: Arithmetic, s: Snapshot, t: Snapshot, m: Manifest)
    requires Budgeted(m) && Ladder(m) && !a.Rounded? && Faster(s, t)
    ensures Best(a, t, m, 4) <= Best(a, s, m, 4)
  {
    hide Score, Best, Headroom, FirstFrameMs, Clamp, NumbersOf, TierRenderable, Mbps, Rtt, Sum;
    var i, k := Best(a, s, m, 4), Best(a, t, m, 4);
    if i < k {
      Contenders(a, s, t, m, i, k);
      ScoreRises(a, s, t, m, Candidate(i));
      if k < 3 {
        PickedHeadroom(a, s, m, Candidate(i));
        RicherGainsMore(a, s, t, m, i, k);
      }
    }
  }

  lemma PosterScore(a: Arithmetic, s: Snapshot, m: Manifest)
    requires Budgeted(m)
    ensures Score(a, s, m, Candidate(3)) == Some(STATIC_FALLBACK_SCORE)
  {
  }

  /** When the faster link's choice is poorer, both choices are renderable and scored, and the slower
      link's is not beaten there. */
  lemma Contenders(a: Arithmetic, s: Snapshot, t: Snapshot, m: Manifest, i: nat, k: nat)
    requires Budgeted(m) && SameButLink(s, t) && i < k < 4
    requires i == Best(a, s, m, 4) && k == Best(a, t, m, 4)
    ensures !Unscored(s, m)
    ensures forall j :: j == i || j == k ==> Score(a, s, m, Candidate(j)).Some? && Score(a, t, m, Candidate(j)).Some?
    ensures Score(a, s, m, Candidate(i)).value >= STATIC_FALLBACK_SCORE
    ensures Score(a, s, m, Candidate(i)).value >= Score(a, s, m, Candidate(k)).value
    ensures Score(a, t, m, Candidate(k)).value > Score(a, t, m, Candidate(i)).value
    ensures Competes(s, m, Candidate(i))
    ensures Score(a, t, m, Candidate(k)).value > STATIC_FALLBACK_SCORE ==>
      k < 3 && Competes(s, m, Candidate(k))
  {
    hide Score, Best, NumbersOf, TierRenderable, SameButLink, Penalty;
    BeatsPoster(a, s, m);
    BeatsPoster(a, t, m);
    ScoreMoves(a, s, t, m, High);
    ScoreMoves(a, s, t, m, Candidate(i));
    ScoreMoves(a, s, t, m, Candidate(k));
    assert k == 3 ==> Score(a, t, m, Candidate(k)) == Some(STATIC_FALLBACK_SCORE) by { PosterScore(a, t, m); }
    NeverUnrenderable(a, s, m);
    ScoreBound(a, s, m, Candidate(i));
    if k < 3 {
      ScoreBound(a, s, m, Candidate(k));
      ScoreBound(a, t, m, Candidate(k));
      PenaltyBound(t, Candidate(k));
      SameGate(s, t, m, Candidate(k));
    }
  }

  // ---- with the program's own roundings -----------------------------------------------------

  /** How far the program's score of a tier can lie from the one without the roundings of the
      transfer time, the first frame and the score. */
  function Error(budget: real): real
    requires budget > 0.0
  {
    0.0000005 + 0.0000024 / budget
  }

  lemma RoundedFrame(s: Snapshot, n: TierNumbers)
    ensures -0.000001 <= FirstFrameMs(Rounded, s, n) - FirstFrameMs(Smooth, s, n) <= 0.000001
    ensures FrameTimeMs(Rounded, s, n) == FrameTimeMs(Smooth, s, n)
  {
    assert CpuFactor(Rounded, s) == CpuFactor(Smooth, s) by { hide Round6, Max, Min; }
    hide CpuFactor, CpuMs, FrameWorkMs, Round6, ThroughputMs, LatencyMs, Sum;
    var bytes, requests := Sum(n.assetBytes), |n.assetBytes|;
    Round6Near(ThroughputMs(s, bytes) + LatencyMs(s, requests));
    Round6Near(TransferMs(Rounded, s, bytes, requests) + CpuMs(n, CpuFactor(Rounded, s)));
  }

  lemma HeadroomNear(budget: real, x: real, y: real)
    requires budget > 0.0 && -0.000001 <= x - y <= 0.000001
    ensures -0.000001 / budget <= Headroom(budget, y) - Headroom(budget, x) <= 0.000001 / budget
    ensures 2.4 * (0.000001 / budget) == 0.0000024 / budget
  {
    HeadroomGain(budget, x, y);
    QuotientOrder(-0.000001, x - y, budget);
    QuotientOrder(x - y, 0.000001, budget);
  }

  lemma ClampNear(h: real, g: real, e: real)
    requires -e <= g - h <= e
    ensures -e <= Clamp(g, -8.0, 1.0) - Clamp(h, -8.0, 1.0) <= e
  {
  }

  /** A competing tier's score before its own rounding. */
  function Merit(a: Arithmetic, s: Snapshot, m: Manifest, tier: Tier): real
    requires Budgeted(m) && Competes(s, m, tier)
  {
    Quality(a, s, m.firstFrameBudgetMs, tier, NumbersOf(m, tier).value) - Penalty(s, tier)
  }

  lemma MeritScores(s: Snapshot, m: Manifest, tier: Tier)
    requires Budgeted(m) && Competes(s, m, tier)
    ensures Score(Smooth, s, m, tier) == Some(Merit(Smooth, s, m, tier))
    ensures Score(Rounded, s, m, tier) == Some(Round6(Merit(Rounded, s, m, tier) + Penalty(s, tier)) - Penalty(s, tier))
  {
    hide Quality, Round6, Penalty, TierRenderable, NumbersOf;
  }

  lemma NearMerit(s: Snapshot, m: Manifest, tier: Tier)
    requires Budgeted(m) && Competes(s, m, tier)
    ensures Merit(Rounded, s, m, tier) - Merit(Smooth, s, m, tier) <= 0.0000024 / m.firstFrameBudgetMs
    ensures Merit(Smooth, s, m, tier) - Merit(Rounded, s, m, tier) <= 0.0000024 / m.firstFrameBudgetMs
  {
    hide FirstFrameMs, FrameTimeMs, Clamp, Headroom, NumbersOf, TierRenderable, Penalty, Round6, Richness;
    var n, budget := NumbersOf(m, tier).value, m.firstFrameBudgetMs;
    RoundedFrame(s, n);
    HeadroomNear(budget, FirstFrameMs(Rounded, s, n), FirstFrameMs(Smooth, s, n));
    ClampNear(LinkHeadroom(Rounded, s, m, tier), LinkHeadroom(Smooth, s, m, tier), 0.000001 / budget);
  }

  lemma NearSmooth(s: Snapshot, m: Manifest, tier: Tier)
    requires Budgeted(m) && Competes(s, m, tier)
    ensures Score(Rounded, s, m, tier).Some? && Score(Smooth, s, m, tier).Some?
    ensures Score(Rounded, s, m, tier).value - Score(Smooth, s, m, tier).value <= Error(m.firstFrameBudgetMs)
    ensures Score(Smooth, s, m, tier).value - Score(Rounded, s, m, tier).value <= Error(m.firstFrameBudgetMs)
  {
    hide Merit, Score, Penalty, Round6, Competes;
    MeritScores(s, m, tier);
    NearMerit(s, m, tier);
    Round6Near(Merit(Rounded, s, m, tier) + Penalty(s, tier));
  }

  /** The choice leads every poorer interactive tier that competes by this much. */
  predicate LeadsBy(s: Snapshot, m: Manifest, i: nat, lead: real)
    requires Budgeted(m) && i < 4
  {
    forall j :: i < j < 3 && Competes(s, m, Candidate(j)) && Score(Rounded, s, m, Candidate(i)).Some? ==>
      Score(Rounded, s, m, Candidate(j)).Some?
      && Score(Rounded, s, m, Candidate(i)).value - Score(Rounded, s, m, Candidate(j)).value >= lead
  }

  /** One unit of the score, and four roundings of a time in budgets. */
  function Margin(budget: real): real
    requires budget > 0.0
  {
    0.000001 + 0.0000096 / budget
  }

  /** Two interactive scores are at most 31 apart, so such a lead means a budget that keeps the rounding
      of the headroom below four. */
  lemma LeadNeedsBudget(s: Snapshot, m: Manifest, i: nat, j: nat)
    requires Budgeted(m) && i < j < 3 && i == Best(Rounded, s, m, 4) && !Unscored(s, m)
    requires Competes(s, m, Candidate(j))
    requires LeadsBy(s, m, i, Margin(m.firstFrameBudgetMs))
    ensures 0.000001 / m.firstFrameBudgetMs <= 4.0
  {
    var rich, poor := Candidate(i), Candidate(j);
    hide FirstFrameMs, FrameTimeMs, FrameHeadroom, Clamp, Headroom, NumbersOf, TierRenderable, Penalty, Round6, Best;
    BeatsPoster(Rounded, s, m);
    ScoreBound(Rounded, s, m, rich);
    PenaltyBound(s, rich);
    PenaltyBound(s, poor);
    ScoreFloor(Rounded, s, m, poor);
    Multiples(m.firstFrameBudgetMs);
  }

  lemma Multiples(budget: real)
    requires budget > 0.0
    ensures 0.0000024 / budget == 2.4 * (0.000001 / budget) && 0.0000096 / budget == 9.6 * (0.000001 / budget)
  {
  }

  lemma ScoreFloor(a: Arithmetic, s: Snapshot, m: Manifest, tier: Tier)
    requires Budgeted(m) && Competes(s, m, tier)
    ensures Score(a, s, m, tier).Some?
    ensures Score(a, s, m, tier).value >= -22.1 - Slack(a) - Penalty(s, tier)
  {
    hide FirstFrameMs, FrameHeadroom, Keep, Clamp, Headroom, NumbersOf, Penalty, TierRenderable;
    var n := NumbersOf(m, tier).value;
    ClampIs(Headroom(m.firstFrameBudgetMs, FirstFrameMs(a, s, n)), -8.0, 1.0);
    ClampIs(FrameHeadroom(a, s, n), -2.0, 1.0);
    KeepNear(a, Quality(a, s, m.firstFrameBudgetMs, tier, n));
  }

  lemma WholePenalty(s: Snapshot, tier: Tier) returns (k: int)
    ensures Penalty(s, tier) == k as real
  {
    k := (if s.reducedMotionPreferred && tier != StaticFallback then 12 else 0)
      + (if s.gpuTier == GpuNone && tier == High then 4 else 0);
  }

  /** A lead of scores leaves a lead of merits, less one unit of the score. */
  lemma LeadOfMerits(s: Snapshot, m: Manifest, rich: Tier, poor: Tier)
    requires Budgeted(m) && Competes(s, m, rich) && Competes(s, m, poor)
    ensures Score(Rounded, s, m, rich).Some? && Score(Rounded, s, m, poor).Some?
    ensures Merit(Rounded, s, m, rich) - Merit(Rounded, s, m, poor)
      >= Score(Rounded, s, m, rich).value - Score(Rounded, s, m, poor).value - 0.000001
  {
    hide Merit, Score, Penalty, Round6, Competes;
    MeritScores(s, m, rich);
    MeritScores(s, m, poor);
    Round6Near(Merit(Rounded, s, m, rich) + Penalty(s, rich));
    Round6Near(Merit(Rounded, s, m, poor) + Penalty(s, poor));
  }

  /** Rounding keeps the order of merits: penalties are whole numbers. */
  lemma MeritsOrderScores(s: Snapshot, m: Manifest, rich: Tier, poor: Tier)
    requires Budgeted(m) && Competes(s, m, rich) && Competes(s, m, poor)
    requires Merit(Rounded, s, m, rich) >= Merit(Rounded, s, m, poor)
    ensures Score(Rounded, s, m, rich).Some? && Score(Rounded, s, m, poor).Some?
    ensures Score(Rounded, s, m, rich).value >= Score(Rounded, s, m, poor).value
  {
    hide Merit, Score, Penalty, Round6, Competes;
    MeritScores(s, m, rich);
    MeritScores(s, m, poor);
    var k := WholePenalty(s, rich);
    var l := WholePenalty(s, poor);
    Round6Shift(Merit(Rounded, s, m, rich), k);
    Round6Shift(Merit(Rounded, s, m, poor), l);
    Round6Order(Merit(Rounded, s, m, poor), Merit(Rounded, s, m, rich));
  }

  /** A lead that covers the roundings on the slower link leaves the merits in order on the faster. */
  lemma MeritsStayInOrder(s: Snapshot, t: Snapshot, m: Manifest, i: nat, k: nat)
    requires Budgeted(m) && Ladder(m) && Faster(s, t) && i < k < 3
    requires Competes(s, m, Candidate(i)) && Competes(s, m, Candidate(k))
    requires Competes(t, m, Candidate(i)) && Competes(t, m, Candidate(k))
    requires LinkHeadroom(Smooth, s, m, Candidate(i)) >= -8.0
    requires Merit(Rounded, s, m, Candidate(i)) - Merit(Rounded, s, m, Candidate(k)) >= 0.0000096 / m.firstFrameBudgetMs
    ensures Merit(Rounded, t, m, Candidate(i)) >= Merit(Rounded, t, m, Candidate(k))
  {
    hide Score, Merit, LinkHeadroom, Competes, Ladder, Faster;
    Multiples(m.firstFrameBudgetMs);
    RicherGainsMore(Smooth, s, t, m, i, k);
    MeritScores(s, m, Candidate(i));
    MeritScores(s, m, Candidate(k));
    MeritScores(t, m, Candidate(i));
    MeritScores(t, m, Candidate(k));
    NearMerit(s, m, Candidate(i));
    NearMerit(s, m, Candidate(k));
    NearMerit(t, m, Candidate(i));
    NearMerit(t, m, Candidate(k));
  }

  /** Roundings and all: when the slower link's choice leads every poorer interactive tier that
      competes with it by the margin, no faster link chooses a poorer tier. Against the poster, an
      unrenderable tier or a tier without a score no lead is needed. */
  lemma LeadingChoiceStays(s: Snapshot, t: Snapshot, m: Manifest)
    requires Budgeted(m) && Ladder(m) && Faster(s, t)
    requires LeadsBy(s, m, Best(Rounded, s, m, 4), Margin(m.firstFrameBudgetMs))
    ensures Best(Rounded, t, m, 4) <= Best(Rounded, s, m, 4)
  {
    var i, k := Best(Rounded, s, m, 4), Best(Rounded, t, m, 4);
    hide Score, Best, Headroom, FirstFrameMs, Clamp, NumbersOf, TierRenderable, Mbps, Rtt, Sum, Merit;
    if i < k {
      Contenders(Rounded, s, t, m, i, k);
      assert TierBytes(m, Candidate(i)) >= 0.0;
      ScoreRises(Rounded, s, t, m, Candidate(i));
      if k < 3 {
        LeadNeedsBudget(s, m, i, k);
        PickedHeadroom(Rounded, s, m, Candidate(i));
        UnclampedSmooth(s, m, Candidate(i));
        SameGate(s, t, m, Candidate(i));
        SameGate(s, t, m, Candidate(k));
        LeadOfMerits(s, m, Candidate(i), Candidate(k));
        MeritsStayInOrder(s, t, m, i, k);
        MeritsOrderScores(t, m, Candidate(i), Candidate(k));
      }
    }
  }

  /** Scores lie on a grid of millionths. */
  lemma OnGrid(s: Snapshot, m: Manifest, tier: Tier) returns (n: int)
    requires Budgeted(m) && Competes(s, m, tier)
    ensures Score(Rounded, s, m, tier) == Some(n as real / 1000000.0)
  {
    hide Merit, Score, Penalty, Competes;
    MeritScores(s, m, tier);
    var k := WholePenalty(s, tier);
    n := Nearest((Merit(Rounded, s, m, tier) + Penalty(s, tier)) * 1000000.0) - k * 1000000;
  }

  lemma GridGap(x: int, y: int, lead: real)
    requires x as real / 1000000.0 - y as real / 1000000.0 >= lead > 0.000001
    ensures x as real / 1000000.0 - y as real / 1000000.0 >= 0.000002
  {
    assert x - y >= 2;
  }

  lemma SmallMargin(budget: real)
    requires budget >= 9.6
    ensures Margin(budget) <= 0.000002
  {
    QuotientOrder(0.0000096, 0.000001 * budget, budget);
    assert 0.000001 * budget / budget == 0.000001;
  }

  /** The choice competes, if it is interactive and has a score. */
  lemma ChoiceCompetes(s: Snapshot, m: Manifest, i: nat)
    requires Budgeted(m) && i == Best(Rounded, s, m, 4) && i < 3 && Score(Rounded, s, m, Candidate(i)).Some?
    ensures Competes(s, m, Candidate(i))
  {
    hide Score, Best, NumbersOf, TierRenderable;
    NeverUnrenderable(Rounded, s, m);
    ScoreBound(Rounded, s, m, Candidate(i));
  }

  /** For a budget of at least 9.6 ms that is every lead of more than a millionth. */
  lemma LeadAboveOneMillionth(s: Snapshot, t: Snapshot, m: Manifest, lead: real)
    requires Budgeted(m) && m.firstFrameBudgetMs >= 9.6 && Ladder(m) && Faster(s, t)
    requires lead > 0.000001 && LeadsBy(s, m, Best(Rounded, s, m, 4), lead)
    ensures Best(Rounded, t, m, 4) <= Best(Rounded, s, m, 4)
  {
    hide Score, Best, Competes, Faster, Ladder, Margin;
    var i, budget := Best(Rounded, s, m, 4), m.firstFrameBudgetMs;
    SmallMargin(budget);
    forall j | i < j < 3 && Competes(s, m, Candidate(j)) && Score(Rounded, s, m, Candidate(i)).Some?
      ensures Score(Rounded, s, m, Candidate(j)).Some?
      ensures Score(Rounded, s, m, Candidate(i)).value - Score(Rounded, s, m, Candidate(j)).value >= Margin(budget)
    {
      ChoiceCompetes(s, m, i);
      var x := OnGrid(s, m, Candidate(i));
      var y := OnGrid(s, m, Candidate(j));
      GridGap(x, y, lead);
    }
    LeadingChoiceStays(s, t, m);
  }

  lemma UnclampedSmooth(s: Snapshot, m: Manifest, tier: Tier)
    requires Budgeted(m) && NumbersOf(m, tier).Some? && 0.000001 / m.firstFrameBudgetMs <= 4.0
    requires 2.4 * LinkHeadroom(Rounded, s, m, tier) >= -4.6 - Richness(tier) - Slack(Rounded)
    ensures LinkHeadroom(Smooth, s, m, tier) >= -8.0
  {
    hide FirstFrameMs, Headroom, NumbersOf;
    var n := NumbersOf(m, tier).value;
    RoundedFrame(s, n);
    HeadroomNear(m.firstFrameBudgetMs, FirstFrameMs(Rounded, s, n), FirstFrameMs(Smooth, s, n));
  }
}
