/** How the predicted times and the scores follow the device: its cores, its memory and its GPU
    (src/decision/rule-based.js). */
module DeviceSpeed {
  import opened Prelude
  import opened Reals
  import opened Rounding
  import opened Capability
  import opened RuleBased

  /** A device that does not tell counts as one with four cores and four gigabytes. */
  function Cores(s: Snapshot): real {
    OrElse(s.hardwareConcurrency, 4.0)
  }

  function Memory(s: Snapshot): real {
    OrElse(s.deviceMemoryGB, 4.0)
  }

  // ---- how much longer each part makes the work ---------------------------------------------

  /** Eight cores or more are the reference, and fewer than one count as one. */
  predicate CoresCost(cores: real, times: real) {
    if cores >= 8.0 then times == 1.0 else if cores <= 1.0 then times == 8.0 else times * cores == 8.0
  }

  predicate MemoryCosts(memory: real, times: real) {
    (memory > 4.0 && times == 1.0) || (2.0 < memory <= 4.0 && times == 1.3) || (memory <= 2.0 && times == 1.8)
  }

  /** An unknown GPU counts as a fast one. */
  predicate GpuCosts(gpu: GpuTier, times: real) {
    || (gpu in {GpuHigh, GpuUnknown} && times == 1.0) || (gpu == GpuMid && times == 1.15)
    || (gpu == GpuLow && times == 1.6) || (gpu == GpuNone && times == 2.2)
  }

  /** The work before the first frame, in milliseconds of the reference device. */
  function BootUnits(n: TierNumbers): real {
    110.0 + 45.0 * n.shaderPasses + 18.0 * ((n.textureSize / 256.0) * (n.textureSize / 256.0))
  }

  /** The work of every frame. */
  function FrameUnits(n: TierNumbers): real {
    n.perFrameWorkMs + n.particleCount / 900.0
  }

  lemma FactorIs(a: Arithmetic, s: Snapshot, byCores: real, byMemory: real, byGpu: real)
    requires CoresCost(Cores(s), byCores) && MemoryCosts(Memory(s), byMemory) && GpuCosts(s.gpuTier, byGpu)
    ensures CpuFactor(a, s) == KeepFixed(a, byCores * byMemory * byGpu)
  {
    hide KeepFixed;
    CoresFactor(Cores(s), byCores);
  }

  lemma CoresFactor(cores: real, times: real)
    requires CoresCost(cores, times)
    ensures times == Max(1.0, 8.0 / Max(1.0, cores))
  {
    if 1.0 < cores < 8.0 {
      assert times == 8.0 / cores;
      Over(cores);
    }
    if cores >= 8.0 {
      Under(cores);
    }
  }

  lemma Over(c: real)
    requires 1.0 < c < 8.0
    ensures 8.0 / c > 1.0
  {
    assert 8.0 / c * c == 8.0;
  }

  lemma Under(c: real)
    requires c >= 8.0
    ensures 8.0 / c <= 1.0
  {
    assert 8.0 / c * c == 8.0;
  }

  lemma WorkIs(n: TierNumbers, cpu: real)
    ensures CpuMs(n, cpu) == BootUnits(n) * cpu && FrameWorkMs(n, cpu) == FrameUnits(n) * cpu
  {
    var side := n.textureSize / 256.0;
    var area := side * side;
    assert area * 18.0 * cpu == 18.0 * area * cpu;
    assert n.shaderPasses * 45.0 * cpu == 45.0 * n.shaderPasses * cpu;
    Three(110.0, 45.0 * n.shaderPasses, 18.0 * area, cpu);
  }

  lemma Three(x: real, y: real, z: real, d: real)
    ensures (x + y + z) * d == x * d + y * d + z * d
  {
  }

  lemma TimesAre(a: Arithmetic, s: Snapshot, n: TierNumbers, cpu: real)
    requires cpu == CpuFactor(a, s)
    ensures FirstFrameMs(a, s, n) == Keep(a, TransferMs(a, s, Sum(n.assetBytes), |n.assetBytes|) + CpuMs(n, cpu))
    ensures FrameTimeMs(a, s, n) == KeepFixed(a, FrameWorkMs(n, cpu))
  {
    hide Keep, KeepFixed, CpuFactor, TransferMs, CpuMs, FrameWorkMs;
  }

  lemma TimesOf(a: Arithmetic, s: Snapshot, n: TierNumbers, times: real)
    requires times == CpuFactor(a, s)
    ensures FirstFrameMs(a, s, n) == Keep(a, TransferMs(a, s, Sum(n.assetBytes), |n.assetBytes|) + BootUnits(n) * times)
    ensures FrameTimeMs(a, s, n) == KeepFixed(a, FrameUnits(n) * times)
  {
    WorkIs(n, times);
    var boot, frame := BootUnits(n) * times, FrameUnits(n) * times;
    hide *;
    TimesAre(a, s, n, times);
    SameKept(a, TransferMs(a, s, Sum(n.assetBytes), |n.assetBytes|) + CpuMs(n, times),
             TransferMs(a, s, Sum(n.assetBytes), |n.assetBytes|) + boot);
    SameKept(a, FrameWorkMs(n, times), frame);
  }

  /** The predicted times: what the link needs, and the work times what each part of the device costs. */
  lemma ComputingPart(a: Arithmetic, s: Snapshot, n: TierNumbers, byCores: real, byMemory: real, byGpu: real, times: real)
    requires CoresCost(Cores(s), byCores) && MemoryCosts(Memory(s), byMemory) && GpuCosts(s.gpuTier, byGpu)
    requires times == KeepFixed(a, byCores * byMemory * byGpu)
    ensures FirstFrameMs(a, s, n) == Keep(a, TransferMs(a, s, Sum(n.assetBytes), |n.assetBytes|) + BootUnits(n) * times)
    ensures FrameTimeMs(a, s, n) == KeepFixed(a, FrameUnits(n) * times)
  {
    hide *;
    FactorIs(a, s, byCores, byMemory, byGpu);
    TimesOf(a, s, n, times);
  }

  lemma SameKept(a: Arithmetic, x: real, y: real)
    requires x == y
    ensures Keep(a, x) == Keep(a, y) && KeepFixed(a, x) == KeepFixed(a, y)
  {
  }

  /** The first frame less the transfer, without roundings. */
  function ComputingMs(s: Snapshot, n: TierNumbers): real {
    FirstFrameMs(Exact, s, n) - TransferMs(Exact, s, Sum(n.assetBytes), |n.assetBytes|)
  }

  lemma ComputingIs(s: Snapshot, n: TierNumbers, byCores: real, byMemory: real, byGpu: real)
    requires CoresCost(Cores(s), byCores) && MemoryCosts(Memory(s), byMemory) && GpuCosts(s.gpuTier, byGpu)
    ensures ComputingMs(s, n) == BootUnits(n) * (byCores * byMemory * byGpu)
  {
    hide FirstFrameMs, TransferMs, BootUnits, CoresCost, MemoryCosts, GpuCosts;
    ComputingPart(Exact, s, n, byCores, byMemory, byGpu, byCores * byMemory * byGpu);
  }

  lemma CostsOf(s: Snapshot) returns (byCores: real, byMemory: real, byGpu: real)
    ensures CoresCost(Cores(s), byCores) && MemoryCosts(Memory(s), byMemory) && GpuCosts(s.gpuTier, byGpu)
    ensures 1.0 <= byCores && 1.0 <= byMemory && 1.0 <= byGpu
  {
    var cores := Cores(s);
    byCores := if cores >= 8.0 then 1.0 else if cores <= 1.0 then 8.0 else 8.0 / cores;
    byMemory := if Memory(s) > 4.0 then 1.0 else if Memory(s) > 2.0 then 1.3 else 1.8;
    byGpu := match s.gpuTier case GpuMid => 1.15 case GpuLow => 1.6 case GpuNone => 2.2 case _ => 1.0;
    if 1.0 < cores < 8.0 {
      Over(cores);
      assert byCores * cores == 8.0;
    }
  }

  /** Halving the cores doubles the computing time between eight cores and one, whatever the tier. */
  lemma HalvedCores(s: Snapshot, n: TierNumbers)
    requires 2.0 <= Cores(s) <= 8.0
    ensures ComputingMs(s.(hardwareConcurrency := Some(Cores(s) / 2.0)), n) == 2.0 * ComputingMs(s, n)
  {
    hide ComputingMs, BootUnits, MemoryCosts, GpuCosts;
    var t := s.(hardwareConcurrency := Some(Cores(s) / 2.0));
    var byCores, byMemory, byGpu := CostsOf(s);
    assert byCores * Cores(s) == 8.0;
    assert 2.0 * byCores * (Cores(s) / 2.0) == 8.0;
    ComputingIs(s, n, byCores, byMemory, byGpu);
    ComputingIs(t, n, 2.0 * byCores, byMemory, byGpu);
    Doubled(BootUnits(n), byCores, byMemory, byGpu);
  }

  lemma Doubled(u: real, x: real, y: real, z: real)
    ensures u * (2.0 * x * y * z) == 2.0 * (u * (x * y * z))
  {
    var p := x * y * z;
    assert 2.0 * x * y * z == 2.0 * p;
  }

  /** Against the same device with more than four gigabytes: 1.3 times for more than two, 1.8 otherwise. */
  lemma MemoryScales(s: Snapshot, n: TierNumbers, memory: real)
    requires Memory(s) > 4.0
    ensures var t := s.(deviceMemoryGB := Some(memory));
      ComputingMs(t, n) == (if memory > 4.0 then 1.0 else if memory > 2.0 then 1.3 else 1.8) * ComputingMs(s, n)
  {
    hide ComputingMs, BootUnits, CoresCost, GpuCosts;
    var t := s.(deviceMemoryGB := Some(memory));
    var times := if memory > 4.0 then 1.0 else if memory > 2.0 then 1.3 else 1.8;
    var byCores, byMemory, byGpu := CostsOf(s);
    ComputingIs(s, n, byCores, 1.0, byGpu);
    ComputingIs(t, n, byCores, times, byGpu);
    Scaled(BootUnits(n), byCores, times, byGpu);
  }

  lemma Scaled(u: real, x: real, k: real, z: real)
    ensures u * (x * k * z) == k * (u * (x * 1.0 * z))
  {
    var p := x * z;
    assert x * k * z == k * p;
    assert u * (k * p) == k * (u * p);
  }

  /** Against the same device with a fast GPU, or an unknown one. */
  lemma GpuScales(s: Snapshot, n: TierNumbers, gpu: GpuTier)
    requires s.gpuTier in {GpuHigh, GpuUnknown}
    ensures var t := s.(gpuTier := gpu);
      ComputingMs(t, n) ==
        (match gpu case GpuMid => 1.15 case GpuLow => 1.6 case GpuNone => 2.2 case _ => 1.0) * ComputingMs(s, n)
  {
    hide ComputingMs, BootUnits, CoresCost, MemoryCosts;
    var t := s.(gpuTier := gpu);
    var times := match gpu case GpuMid => 1.15 case GpuLow => 1.6 case GpuNone => 2.2 case _ => 1.0;
    var byCores, byMemory, byGpu := CostsOf(s);
    ComputingIs(s, n, byCores, byMemory, 1.0);
    ComputingIs(t, n, byCores, byMemory, times);
    var u, p := BootUnits(n), byCores * byMemory;
    assert u * (p * times) == times * (u * (p * 1.0));
  }

  // ---- the link -----------------------------------------------------------------------------

  /** The speed reckoned with, in megabits per second: the measured one, or one for the connection type. */
  predicate Runs(s: Snapshot, mbps: real) {
    match s.downlinkMbps
    case Some(measured) => if measured >= 0.05 then mbps == measured else mbps == 0.05
    case None =>
      || (s.effectiveConnectionType.FourG? && mbps == 9.0) || (s.effectiveConnectionType.ThreeG? && mbps == 1.4)
      || (!s.effectiveConnectionType.FourG? && !s.effectiveConnectionType.ThreeG? && mbps == 5.0)
  }

  /** The round trip, in milliseconds. */
  predicate Answers(s: Snapshot, rtt: real) {
    match s.rttMs
    case Some(measured) => rtt == measured
    case None => rtt == if s.effectiveConnectionType.ThreeG? then 300.0 else 90.0
  }

  /** The bits at that speed, and a round trip with half of one more for each of the first four assets. */
  lemma TransferTakes(s: Snapshot, bytes: real, assets: nat, mbps: real, rtt: real)
    requires Runs(s, mbps) && Answers(s, rtt)
    ensures (TransferMs(Exact, s, bytes, assets) - rtt - rtt * (if assets < 4 then assets as real else 4.0) / 2.0)
      * (mbps * 1000.0) == bytes * 8.0
  {
    var half, more := 0.5, if assets < 4 then assets as real else 4.0;
    assert Mbps(s) == mbps && Rtt(s) == rtt;
    assert Min(assets as real, 4.0) == more;
    assert rtt * (1.0 + more * half) == rtt + rtt * more / 2.0;
    var q := bytes * 8.0 / mbps;
    assert q * mbps == bytes * 8.0;
    assert ThroughputMs(s, bytes) == q / 1000.0;
    assert q / 1000.0 * (mbps * 1000.0) == q * mbps;
  }

  // ---- a weaker device is never predicted faster --------------------------------------------

  /** Each class is at least as fast as itself and those after it: high or unknown, mid, low, none. */
  predicate AtLeastAsFast(g: GpuTier, h: GpuTier) {
    match g
    case GpuMid => h in {GpuMid, GpuLow, GpuNone}
    case GpuLow => h in {GpuLow, GpuNone}
    case GpuNone => h == GpuNone
    case _ => true
  }

  /** The same but for no more cores, no more memory and no faster a GPU. */
  predicate Weaker(strong: Snapshot, weak: Snapshot) {
    && weak == strong.(hardwareConcurrency := weak.hardwareConcurrency, deviceMemoryGB := weak.deviceMemoryGB,
                       gpuTier := weak.gpuTier)
    && Cores(weak) <= Cores(strong) && Memory(weak) <= Memory(strong)
    && AtLeastAsFast(strong.gpuTier, weak.gpuTier)
  }

  /** The amounts a tier declares. */
  predicate Declares(n: TierNumbers) {
    n.particleCount >= 0.0 && n.shaderPasses >= 0.0 && n.perFrameWorkMs >= 0.0
  }

  lemma KeepOrder(a: Arithmetic, x: real, y: real)
    requires x <= y
    ensures Keep(a, x) <= Keep(a, y) && KeepFixed(a, x) <= KeepFixed(a, y)
  {
    Round6Order(x, y);
  }

  lemma FewerCost(cores: real, more: real, times: real, less: real)
    requires cores <= more && CoresCost(cores, times) && CoresCost(more, less)
    ensures times >= less
  {
    if more >= 8.0 {
      if 1.0 < cores < 8.0 {
        LargerShare(cores, 8.0, times, 1.0);
      }
    } else if more > 1.0 {
      LargerShare(if cores <= 1.0 then 1.0 else cores, more, times, less);
    }
  }

  lemma LargerShare(x: real, y: real, p: real, q: real)
    requires 0.0 < x <= y && p * x == 8.0 && q * y == 8.0
    ensures p >= q
  {
    assert q == 8.0 / y;
    NonNegativeQuotient(8.0, y);
    NonNegativeProduct(q, y - x);
    assert (p - q) * x == q * (y - x);
    NonNegativeQuotient((p - q) * x, x);
    assert (p - q) * x / x == p - q;
  }

  lemma FactorRises(a: Arithmetic, strong: Snapshot, weak: Snapshot)
    requires Weaker(strong, weak)
    ensures CpuFactor(a, weak) >= CpuFactor(a, strong) >= 0.0
  {
    var c, m, g := CostsOf(strong);
    var c', m', g' := CostsOf(weak);
    FewerCost(Cores(weak), Cores(strong), c', c);
    assert m' >= m && g' >= g;
    FactorIs(a, strong, c, m, g);
    FactorIs(a, weak, c', m', g');
    hide KeepFixed, CpuFactor, CoresCost, MemoryCosts, GpuCosts;
    ProductRises(c, m, g, c', m', g');
    KeepOrder(a, c * m * g, c' * m' * g');
    KeepOrder(a, 0.0, c * m * g);
    KeepZero(a);
  }

  lemma KeepZero(a: Arithmetic)
    ensures KeepFixed(a, 0.0) == 0.0
  {
  }

  lemma ProductRises(x: real, y: real, z: real, x': real, y': real, z': real)
    requires 0.0 <= x <= x' && 0.0 <= y <= y' && 0.0 <= z <= z'
    ensures 0.0 <= x * y * z <= x' * y' * z'
  {
    Rises(x, x', y, y');
    Rises(x * y, x' * y', z, z');
  }

  lemma Rises(x: real, x': real, y: real, y': real)
    requires 0.0 <= x <= x' && 0.0 <= y <= y'
    ensures 0.0 <= x * y <= x' * y'
  {
    NonNegativeProduct(x, y);
    NonNegativeProduct(x' - x, y');
    NonNegativeProduct(x, y' - y);
  }

  lemma UnitsArePositive(n: TierNumbers)
    requires Declares(n)
    ensures BootUnits(n) >= 0.0 && FrameUnits(n) >= 0.0
  {
    var side := n.textureSize / 256.0;
    assert side * side >= 0.0;
  }

  /** Fewer cores, less memory or a weaker GPU never lower a predicted time, roundings and all. */
  lemma WeakerIsSlower(a: Arithmetic, strong: Snapshot, weak: Snapshot, n: TierNumbers)
    requires Weaker(strong, weak) && Declares(n)
    ensures FirstFrameMs(a, weak, n) >= FirstFrameMs(a, strong, n)
    ensures FrameTimeMs(a, weak, n) >= FrameTimeMs(a, strong, n)
  {
    hide *;
    var cpu, more := CpuFactor(a, strong), CpuFactor(a, weak);
    FactorRises(a, strong, weak);
    TimesAre(a, strong, n, cpu);
    TimesAre(a, weak, n, more);
    SameTransfer(a, strong, weak, n);
    WorkRises(n, cpu, more);
    var transfer := TransferMs(a, strong, Sum(n.assetBytes), |n.assetBytes|);
    KeepOrder(a, transfer + CpuMs(n, cpu), transfer + CpuMs(n, more));
    KeepOrder(a, FrameWorkMs(n, cpu), FrameWorkMs(n, more));
  }

  lemma WorkRises(n: TierNumbers, cpu: real, more: real)
    requires Declares(n) && 0.0 <= cpu <= more
    ensures CpuMs(n, cpu) <= CpuMs(n, more) && FrameWorkMs(n, cpu) <= FrameWorkMs(n, more)
  {
    WorkIs(n, cpu);
    WorkIs(n, more);
    UnitsArePositive(n);
    hide CpuMs, FrameWorkMs, BootUnits, FrameUnits;
    Rises(BootUnits(n), BootUnits(n), cpu, more);
    Rises(FrameUnits(n), FrameUnits(n), cpu, more);
  }

  lemma SameTransfer(a: Arithmetic, strong: Snapshot, weak: Snapshot, n: TierNumbers)
    requires Weaker(strong, weak)
    ensures TransferMs(a, strong, Sum(n.assetBytes), |n.assetBytes|) == TransferMs(a, weak, Sum(n.assetBytes), |n.assetBytes|)
  {
    hide Keep, Sum;
  }

  lemma HeadroomFalls(budget: real, used: real, more: real)
    requires budget > 0.0 && used <= more
    ensures Headroom(budget, more) <= Headroom(budget, used)
  {
    QuotientOrder(budget - more, budget - used, budget);
  }

  lemma ClampOrder(x: real, y: real, lo: real, hi: real)
    requires x <= y
    ensures Clamp(x, lo, hi) <= Clamp(y, lo, hi)
  {
  }

  lemma QualityFalls(a: Arithmetic, strong: Snapshot, weak: Snapshot, budget: real, tier: Tier, n: TierNumbers)
    requires Weaker(strong, weak) && Declares(n) && budget > 0.0 && n.targetFps > 0.0
    ensures Quality(a, weak, budget, tier, n) <= Quality(a, strong, budget, tier, n)
  {
    WeakerIsSlower(a, strong, weak, n);
    hide FirstFrameMs, FrameTimeMs, Headroom, Clamp, Weaker, Richness;
    assert 1000.0 / n.targetFps > 0.0;
    HeadroomFalls(budget, FirstFrameMs(a, strong, n), FirstFrameMs(a, weak, n));
    HeadroomFalls(1000.0 / n.targetFps, FrameTimeMs(a, strong, n), FrameTimeMs(a, weak, n));
    ClampOrder(Headroom(budget, FirstFrameMs(a, weak, n)), Headroom(budget, FirstFrameMs(a, strong, n)), -8.0, 1.0);
    ClampOrder(FrameHeadroom(a, weak, n), FrameHeadroom(a, strong, n), -2.0, 1.0);
  }

  /** And never raise a score. */
  lemma WeakerNeverScoresMore(a: Arithmetic, strong: Snapshot, weak: Snapshot, m: Manifest, tier: Tier)
    requires Weaker(strong, weak) && Budgeted(m)
    requires NumbersOf(m, tier).Some? ==> Declares(NumbersOf(m, tier).value) && NumbersOf(m, tier).value.targetFps > 0.0
    ensures Score(a, strong, m, tier).Some? <==> Score(a, weak, m, tier).Some?
    ensures Score(a, strong, m, tier).Some? ==> Score(a, weak, m, tier).value <= Score(a, strong, m, tier).value
  {
    assert TierRenderable(strong, m, tier) == TierRenderable(weak, m, tier);
    PenaltyRises(strong, weak, tier);
    hide TierRenderable, NumbersOf, Quality, Keep, Penalty, Weaker, Declares;
    if TierRenderable(strong, m, tier) && NumbersOf(m, tier).Some? {
      var n := NumbersOf(m, tier).value;
      QualityFalls(a, strong, weak, m.firstFrameBudgetMs, tier, n);
      KeepOrder(a, Quality(a, weak, m.firstFrameBudgetMs, tier, n), Quality(a, strong, m.firstFrameBudgetMs, tier, n));
    }
  }

  lemma PenaltyRises(strong: Snapshot, weak: Snapshot, tier: Tier)
    requires Weaker(strong, weak)
    ensures Penalty(weak, tier) >= Penalty(strong, tier)
  {
  }
}
