/** The conditions under which the rounded scores keep their promises cannot be relaxed
    (src/decision/rule-based.js). */
module Sharpness {
  import opened Prelude
  import opened Reals
  import opened Rounding
  import opened Capability
  import opened RuleBased
  import opened LinkSpeed
  import opened RuleBasedWitnesses

  // ---- the first-frame bound ----------------------------------------------------------------

  /** An accepted manifest of which this device is given `high` with this frame headroom. */
  predicate PicksHigh(s: Snapshot, m: Manifest, maxBytes: real, f: real) {
    && Accepted(m, maxBytes) && Pick(Rounded, s, m) == High && NumbersOf(m, High).Some?
    && FrameHeadroom(Rounded, s, NumbersOf(m, High).value) == f
  }

  /** Then its first frame is always within 4.75 budgets. */
  ghost predicate BoundHolds(f: real) {
    forall s, m, maxBytes :: PicksHigh(s, m, maxBytes, f) ==>
      FirstFrameMs(Rounded, s, NumbersOf(m, High).value) <= m.firstFrameBudgetMs * 4.75
  }

  const LIMIT := 1.0 - 0.0000005 / 1.6

  /** A frame headroom of `f` on the desktop: a frame of 5 ms at a fitting rate, or one that rounds away. */
  function HighFor(f: real, bytes: real): Plain {
    if f == 1.0 then Plain(bytes, 50.0, 0.00009, 0.0000002) else Plain(bytes, 200.0 * (1.0 - f), 1800.0, 3.0)
  }

  function PoorFor(p: Plain, part: real): Plain {
    Plain(p.bytes, 50.0, p.particles * part, p.work * part)
  }

  function HeavyFor(f: real, k: nat): Manifest {
    var high := HighFor(f, (19.0 * k as real - 109.0) * 1000.0);
    PlainLadder(high, PoorFor(high, 0.5), PoorFor(high, 0.25), 4.0 * k as real)
  }

  lemma HighHeadroom(f: real, bytes: real, k: int, transfer: real)
    requires f > LIMIT && bytes == transfer * 1000.0 && transfer * 1000000.0 == k as real
    ensures FirstFrameMs(Rounded, Desktop(8.0), PlainNumbers(HighFor(f, bytes))) == transfer + 110.0
    ensures HighFor(f, bytes).fps != 0.0
    ensures FrameHeadroom(Rounded, Desktop(8.0), PlainNumbers(HighFor(f, bytes))) == f
  {
    var p := HighFor(f, bytes);
    assert bytes * 8.0 / 8.0 / 1000000.0 * 1000.0 == transfer;
    if f == 1.0 {
      PlainPrediction(8.0, p, transfer, k, 0.0, 0);
      hide FirstFrameMs, FrameTimeMs, Headroom;
      FrameShare(p.fps, 0.0);
    } else {
      PlainPrediction(8.0, p, transfer, k, 5.0, 5000000);
      hide FirstFrameMs, FrameTimeMs, Headroom;
      FrameShare(p.fps, 5.0);
    }
  }

  lemma PoorFrame(f: real, bytes: real, k: int, transfer: real, part: real)
    requires bytes == transfer * 1000.0 && transfer * 1000000.0 == k as real
    ensures FirstFrameMs(Rounded, Desktop(8.0), PlainNumbers(PoorFor(HighFor(f, bytes), part))) == transfer + 110.0
  {
    var p := PoorFor(HighFor(f, bytes), part);
    assert bytes * 8.0 / 8.0 / 1000000.0 * 1000.0 == transfer;
    var frame := p.work + p.particles / 900.0;
    var w := Nearest(frame * 1000000.0);
    NearestIs(frame * 1000000.0);
    PlainPrediction(8.0, p, transfer, k, w as real / 1000000.0, w);
  }

  lemma OverBudget(b: real)
    requires b > 0.0
    ensures Headroom(b, 4.75 * b + 1.0) == -3.75 - 1.0 / b
  {
    assert 1.0 / b * b == 1.0;
    assert (-3.75 - 1.0 / b) * b == b - (4.75 * b + 1.0);
  }

  /** A budget of `4 * k` that one millisecond over the bound costs at most `d` of the score. */
  lemma BigBudget(d: real) returns (k: nat)
    requires d > 0.0
    ensures k >= 6 && 2.4 * (1.0 / (4.0 * k as real)) <= d
  {
    k := (0.6 / d).Floor + 7;
    var b := 4.0 * k as real;
    assert b >= 2.4 / d && 2.4 / d * d == 2.4;
    assert b * d >= 2.4 by { ProductOrder(2.4 / d, b, d); }
    QuotientOrder(2.4, b * d, b);
    assert b * d / b == d && 2.4 / b == 2.4 * (1.0 / b);
  }

  lemma ProductOrder(x: real, y: real, d: real)
    requires x <= y && d >= 0.0
    ensures x * d <= y * d
  {
    NonNegativeProduct(y - x, d);
  }

  /** The score of a plain tier is at most its richness, its clamped headroom and a full frame bonus. */
  lemma PlainAtMost(m: Manifest, tier: Tier, p: Plain, h: real)
    requires Budgeted(m) && tier != StaticFallback && p.fps != 0.0
    requires FindTier(m.tiers, tier) == Some(PlainTier(tier, p))
    requires Headroom(m.firstFrameBudgetMs, FirstFrameMs(Rounded, Desktop(8.0), PlainNumbers(p))) == h && -8.0 <= h <= 1.0
    ensures Score(Rounded, Desktop(8.0), m, tier).Some?
    ensures Score(Rounded, Desktop(8.0), m, tier).value <= Richness(tier) + 2.4 * h + 1.6 + 0.0000005
  {
    var s := Desktop(8.0);
    PlainTierNumbers(m, tier, p);
    DesktopIs(8.0);
    assert TierRenderable(s, m, tier);
    ClampIs(h, -8.0, 1.0);
    hide FirstFrameMs, FrameHeadroom, Headroom, Round6, NumbersOf, TierRenderable, Penalty, Richness, Clamp, FindTier;
    ClampIs(FrameHeadroom(Rounded, s, PlainNumbers(p)), -2.0, 1.0);
    Round6Near(Quality(Rounded, s, m.firstFrameBudgetMs, tier, PlainNumbers(p)));
  }

  lemma HeavyFrames(f: real, k: nat, p: Plain)
    requires f > LIMIT
    requires var high := HighFor(f, (19.0 * k as real - 109.0) * 1000.0);
      p == high || p == PoorFor(high, 0.5) || p == PoorFor(high, 0.25)
    ensures FirstFrameMs(Rounded, Desktop(8.0), PlainNumbers(p)) == 4.75 * (4.0 * k as real) + 1.0 && p.fps != 0.0
    ensures p == HighFor(f, (19.0 * k as real - 109.0) * 1000.0) ==>
      FrameHeadroom(Rounded, Desktop(8.0), PlainNumbers(p)) == f
  {
    var transfer := 19.0 * k as real - 109.0;
    var bytes, millionths := transfer * 1000.0, (19 * k - 109) * 1000000;
    HighHeadroom(f, bytes, millionths, transfer);
    PoorFrame(f, bytes, millionths, transfer, 0.5);
    PoorFrame(f, bytes, millionths, transfer, 0.25);
    hide FirstFrameMs, FrameHeadroom, HighFor;
  }

  lemma HeavyIsAccepted(f: real, k: nat)
    requires f > LIMIT && k >= 6
    ensures Accepted(HeavyFor(f, k), (19.0 * k as real - 109.0) * 1000.0)
  {
    var high := HighFor(f, (19.0 * k as real - 109.0) * 1000.0);
    PlainAccepted(high, PoorFor(high, 0.5), PoorFor(high, 0.25), 4.0 * k as real, high.bytes);
  }

  /** Beyond the limit `high` is picked although its first frame is over 4.75 budgets. */
  lemma BoundFails(f: real)
    requires f > LIMIT
    ensures !BoundHolds(f)
  {
    var g := if f > 1.0 then 1.0 else f;
    var k := BigBudget(0.0000005 - 1.6 * (1.0 - g));
    var b, bytes := 4.0 * k as real, (19.0 * k as real - 109.0) * 1000.0;
    var s, m, high := Desktop(8.0), HeavyFor(f, k), HighFor(f, bytes);
    var mid, low := PoorFor(high, 0.5), PoorFor(high, 0.25);
    hide FirstFrameMs, FrameHeadroom, NumbersOf, Pick, Accepted, HighFor, PoorFor;
    HeavyIsAccepted(f, k);
    HeavyFrames(f, k, high);
    HeavyFrames(f, k, mid);
    HeavyFrames(f, k, low);
    PlainTiers(high, mid, low, b, High);
    PlainTierNumbers(m, High, high);
    HeavyScores(m, high, mid, low, f, g, b);
    assert PicksHigh(s, m, bytes, f) && FirstFrameMs(Rounded, s, PlainNumbers(high)) == 4.75 * b + 1.0;
  }

  lemma HeavyScores(m: Manifest, high: Plain, mid: Plain, low: Plain, f: real, g: real, b: real)
    requires m == PlainLadder(high, mid, low, b) && b >= 24.0 && high.fps != 0.0 && mid.fps != 0.0 && low.fps != 0.0
    requires forall p :: p in [high, mid, low] ==> FirstFrameMs(Rounded, Desktop(8.0), PlainNumbers(p)) == 4.75 * b + 1.0
    requires FrameHeadroom(Rounded, Desktop(8.0), PlainNumbers(high)) == f
    requires f > LIMIT && g == (if f > 1.0 then 1.0 else f) && 2.4 * (1.0 / b) <= 0.0000005 - 1.6 * (1.0 - g)
    ensures Pick(Rounded, Desktop(8.0), m) == High
  {
    OverBudget(b);
    QuotientOrder(1.0, b, b);
    NonNegativeQuotient(1.0, b);
    var h := -3.75 - 1.0 / b;
    PlainTiers(high, mid, low, b, High);
    PlainTiers(high, mid, low, b, Mid);
    PlainTiers(high, mid, low, b, Low);
    assert Clamp(f, -2.0, 1.0) == g;
    hide FirstFrameMs, FrameHeadroom, Headroom, FindTier, Score, Pick, Best, Clamp, PlainLadder;
    PlainScore(8.0, m, High, high, h, g, -3000000, -3.0);
    PlainAtMost(m, Mid, mid, h);
    PlainAtMost(m, Low, low, h);
    PickOf(Desktop(8.0), m, 0, -3.0, Score(Rounded, Desktop(8.0), m, Mid).value, Score(Rounded, Desktop(8.0), m, Low).value);
  }

  /** On accepted manifests the bound of 4.75 budgets holds for every pick of `high` with a given frame
      headroom exactly when that is at most 1 - 0.0000005 / 1.6. */
  lemma BoundIsExact(f: real)
    ensures BoundHolds(f) <==> f <= LIMIT
  {
    hide FirstFrameMs, FrameHeadroom, NumbersOf, Pick, AcceptedPaths;
    if f <= LIMIT {
      forall s, m, maxBytes | PicksHigh(s, m, maxBytes, f)
        ensures FirstFrameMs(Rounded, s, NumbersOf(m, High).value) <= m.firstFrameBudgetMs * 4.75
      {
        WithinBound(s, m, High);
      }
    } else {
      BoundFails(f);
    }
  }

  // ---- the lead -----------------------------------------------------------------------------

  /** An accepted manifest with a budget of at least 9.6 ms on two links: on the slower one the choice leads
      every poorer tier that competes by this much. */
  predicate Led(s: Snapshot, t: Snapshot, m: Manifest, maxBytes: real, lead: real) {
    && Accepted(m, maxBytes) && m.firstFrameBudgetMs >= 9.6 && Ladder(m) && Faster(s, t)
    && LeadsBy(s, m, Best(Rounded, s, m, 4), lead)
  }

  /** Then it is never given up for a poorer tier on the faster link. */
  ghost predicate LeadSuffices(lead: real) {
    forall s, t, m, maxBytes :: Led(s, t, m, maxBytes, lead) ==> Best(Rounded, t, m, 4) <= Best(Rounded, s, m, 4)
  }

  const LEAD_HIGH := Plain(2726500001.0, 54.000012495, 1800.0, 23.0)
  const LEAD_MID := Plain(2726500000.0, 50.0001563125, 900.0, 1.0)
  const LEAD_LOW := Plain(2726500000.0, 50.0, 0.0, 0.0)

  /** The richest tier weighs a byte more; on the faster link its transfer rounds up and the others' down. */
  function OneByteMore(): Manifest {
    PlainLadder(LEAD_HIGH, LEAD_MID, LEAD_LOW, 2401.2)
  }

  /** The predictions on one link. */
  ghost predicate LeadPredicted(mbps: real, high: real, poor: real)
    requires mbps >= 0.05
  {
    && FirstFrameMs(Rounded, Desktop(mbps), PlainNumbers(LEAD_HIGH)) == high
    && FirstFrameMs(Rounded, Desktop(mbps), PlainNumbers(LEAD_MID)) == poor
    && FirstFrameMs(Rounded, Desktop(mbps), PlainNumbers(LEAD_LOW)) == poor
    && Clamp(FrameHeadroom(Rounded, Desktop(mbps), PlainNumbers(LEAD_HIGH)), -2.0, 1.0) == -0.350000312375
    && Clamp(FrameHeadroom(Rounded, Desktop(mbps), PlainNumbers(LEAD_MID)), -2.0, 1.0) == 0.899999687375
    && Clamp(FrameHeadroom(Rounded, Desktop(mbps), PlainNumbers(LEAD_LOW)), -2.0, 1.0) == 1.0
  }

  lemma LeadFrames(mbps: real, high: real, k: int, poor: real, l: int)
    requires mbps >= 0.05
    requires RoundsTo(k, 2726500001.0 * 8.0 / mbps / 1000000.0 * 1000.0) && high * 1000000.0 == k as real
    requires RoundsTo(l, 2726500000.0 * 8.0 / mbps / 1000000.0 * 1000.0) && poor * 1000000.0 == l as real
    ensures LeadPredicted(mbps, high + 110.0, poor + 110.0)
  {
    PlainPrediction(mbps, LEAD_HIGH, high, k, 25.0, 25000000);
    PlainPrediction(mbps, LEAD_MID, poor, l, 2.0, 2000000);
    PlainPrediction(mbps, LEAD_LOW, poor, l, 0.0, 0);
    hide FirstFrameMs, FrameTimeMs, FrameHeadroom;
    PlainHeadroom(mbps, LEAD_HIGH, 25.0, -0.350000312375);
    PlainHeadroom(mbps, LEAD_MID, 2.0, 0.899999687375);
    PlainHeadroom(mbps, LEAD_LOW, 0.0, 1.0);
  }

  lemma LeadArithmetic(high: real, poor: real, mid: int, low: int)
    requires || (high == poor == 1200.6 && mid == 5039999 && low == 3100000)
      || (high == 1200.599 && poor == 1200.598999 && mid == 5040001 && low == 3100001)
    ensures -8.0 <= Headroom(2401.2, high) <= 1.0 && -8.0 <= Headroom(2401.2, poor) <= 1.0
    ensures RoundsTo(5040000, Richness(High) + 2.4 * Headroom(2401.2, high) + 1.6 * -0.350000312375)
    ensures RoundsTo(mid, Richness(Mid) + 2.4 * Headroom(2401.2, poor) + 1.6 * 0.899999687375)
    ensures RoundsTo(low, Richness(Low) + 2.4 * Headroom(2401.2, poor) + 1.6 * 1.0)
  {
  }

  lemma LeadScores(mbps: real, high: real, poor: real, mid: int, low: int)
    requires mbps >= 0.05 && LeadPredicted(mbps, high, poor)
    requires || (high == poor == 1200.6 && mid == 5039999 && low == 3100000)
      || (high == 1200.599 && poor == 1200.598999 && mid == 5040001 && low == 3100001)
    ensures Score(Rounded, Desktop(mbps), OneByteMore(), High) == Some(5.04)
    ensures Score(Rounded, Desktop(mbps), OneByteMore(), Mid) == Some(mid as real / 1000000.0)
    ensures Score(Rounded, Desktop(mbps), OneByteMore(), Low) == Some(low as real / 1000000.0)
  {
    var m := OneByteMore();
    PlainTiers(LEAD_HIGH, LEAD_MID, LEAD_LOW, 2401.2, High);
    PlainTiers(LEAD_HIGH, LEAD_MID, LEAD_LOW, 2401.2, Mid);
    PlainTiers(LEAD_HIGH, LEAD_MID, LEAD_LOW, 2401.2, Low);
    LeadArithmetic(high, poor, mid, low);
    hide FirstFrameMs, FrameHeadroom, Clamp, FindTier, Score, Headroom, RoundsTo, Richness;
    var h, i := Headroom(2401.2, high), Headroom(2401.2, poor);
    PlainScore(mbps, m, High, LEAD_HIGH, h, -0.350000312375, 5040000, 5.04);
    PlainScore(mbps, m, Mid, LEAD_MID, i, 0.899999687375, mid, mid as real / 1000000.0);
    PlainScore(mbps, m, Low, LEAD_LOW, i, 1.0, low, low as real / 1000000.0);
  }

  const FAST := 43624000016000.0 / 2181197999.0

  lemma LinksOf(x: real, y: real)
    requires 0.05 <= x <= y
    ensures Faster(Desktop(x), Desktop(y))
  {
    DesktopIs(x);
    DesktopIs(y);
    hide Mbps, Rtt;
  }

  lemma SlowScores()
    ensures Budgeted(OneByteMore())
    ensures Score(Rounded, Desktop(20000.0), OneByteMore(), High) == Some(5.04)
    ensures Score(Rounded, Desktop(20000.0), OneByteMore(), Mid) == Some(5.039999)
    ensures Score(Rounded, Desktop(20000.0), OneByteMore(), Low) == Some(3.1)
  {
    hide Score, LeadPredicted;
    assert RoundsTo(1090600000, 2726500001.0 * 8.0 / 20000.0 / 1000000.0 * 1000.0);
    assert RoundsTo(1090600000, 2726500000.0 * 8.0 / 20000.0 / 1000000.0 * 1000.0);
    LeadFrames(20000.0, 1090.6, 1090600000, 1090.6, 1090600000);
    LeadScores(20000.0, 1200.6, 1200.6, 5039999, 3100000);
  }

  lemma SlowChoice()
    ensures Budgeted(OneByteMore())
    ensures Best(Rounded, Desktop(20000.0), OneByteMore(), 4) == 0 && LeadsBy(Desktop(20000.0), OneByteMore(), 0, 0.000001)
  {
    hide Score, Pick, Best, Competes, OneByteMore, Desktop;
    SlowScores();
    PickOf(Desktop(20000.0), OneByteMore(), 0, 5.04, 5.039999, 3.1);
    assert Candidate(0) == High && Candidate(1) == Mid && Candidate(2) == Low;
  }

  lemma FastChoice()
    ensures Budgeted(OneByteMore()) && Best(Rounded, Desktop(FAST), OneByteMore(), 4) == 1
  {
    hide Score, Pick, Best, LeadPredicted;
    assert RoundsTo(1090599000, 2726500001.0 * 8.0 / FAST / 1000000.0 * 1000.0);
    assert RoundsTo(1090598999, 2726500000.0 * 8.0 / FAST / 1000000.0 * 1000.0);
    LeadFrames(FAST, 1090.599, 1090599000, 1090.598999, 1090598999);
    LeadScores(FAST, 1200.599, 1200.598999, 5040001, 3100001);
    PickOf(Desktop(FAST), OneByteMore(), 1, 5.04, 5.040001, 3.100001);
  }

  /** A lead of exactly one millionth is given up: `high` on the slower link, `mid` on the faster. */
  lemma OneMillionthFlips()
    ensures Led(Desktop(20000.0), Desktop(FAST), OneByteMore(), 2726500001.0, 0.000001)
    ensures Best(Rounded, Desktop(20000.0), OneByteMore(), 4) == 0 && Best(Rounded, Desktop(FAST), OneByteMore(), 4) == 1
  {
    PlainAccepted(LEAD_HIGH, LEAD_MID, LEAD_LOW, 2401.2, 2726500001.0);
    PlainIsLadder(LEAD_HIGH, LEAD_MID, LEAD_LOW, 2401.2);
    LinksOf(20000.0, FAST);
    hide Accepted, Ladder, Faster, Best, LeadsBy;
    SlowChoice();
    FastChoice();
  }

  /** That is so exactly for leads of more than a millionth. */
  lemma LeadIsExact(lead: real)
    ensures LeadSuffices(lead) <==> lead > 0.000001
  {
    hide Ladder, Best, LeadsBy, Faster;
    if lead > 0.000001 {
      forall s, t, m, maxBytes | Led(s, t, m, maxBytes, lead)
        ensures Best(Rounded, t, m, 4) <= Best(Rounded, s, m, 4)
      {
        LeadAboveOneMillionth(s, t, m, lead);
      }
    } else {
      OneMillionthFlips();
      SmallerLead(Desktop(20000.0), OneByteMore(), 0, 0.000001, lead);
      hide Accepted;
      assert Led(Desktop(20000.0), Desktop(FAST), OneByteMore(), 2726500001.0, lead);
    }
  }

  lemma SmallerLead(s: Snapshot, m: Manifest, i: nat, more: real, less: real)
    requires Budgeted(m) && i < 4 && less <= more && LeadsBy(s, m, i, more)
    ensures LeadsBy(s, m, i, less)
  {
    hide Score, Competes;
  }
}
