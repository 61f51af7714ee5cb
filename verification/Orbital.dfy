/** The decisions on the repository's own manifest and sample devices (src/manifest/atlas-orbital.manifest.js,
    src/decision/fixtures/states.js). */
module Orbital {
  import opened Prelude
  import opened Reals
  import opened Rounding
  import opened Capability
  import opened RuleBased
  import opened LinkSpeed
  import opened RuleBasedWitnesses
  import opened DeviceSpeed

  const HIGH_TIER := TierSpec(High, Some(2600.0), Some(1024.0), Some(3.0), Some(60.0), Some(5.5),
    [Some(900000.0), Some(420000.0)], Some(["webgl2"]))
  const MID_TIER := TierSpec(Mid, Some(900.0), Some(512.0), Some(2.0), Some(60.0), Some(2.4),
    [Some(240000.0), Some(96000.0)], Some(["webgl1"]))
  const LOW_TIER := TierSpec(Low, Some(160.0), Some(256.0), Some(1.0), Some(30.0), Some(0.8), [Some(62000.0)], Some([]))

  const ORBITAL := Manifest([HIGH_TIER, MID_TIER, LOW_TIER],
    [FallbackPath("camera-xr", ["camera", "webgl1"], 0), FallbackPath("interactive-2d", [], 1),
     FallbackPath("static-safe", [], 2)], 1200.0)

  // ---- the sample devices -------------------------------------------------------------------

  const DESKTOP_WIFI_STRONG := Snapshot(Some(16.0), Some(12.0), GpuHigh, 2, true, true, Granted, FourG,
    Some(45.0), Some(15.0), false, None)
  const FLAGSHIP_ANDROID_4G := Snapshot(Some(8.0), Some(8.0), GpuHigh, 2, false, true, Granted, FourG,
    Some(18.0), Some(40.0), false, None)
  const MID_ANDROID_4G := Snapshot(Some(4.0), Some(4.0), GpuMid, 2, false, true, Granted, FourG,
    Some(8.0), Some(70.0), false, None)
  const MID_ANDROID_3G := Snapshot(Some(4.0), Some(4.0), GpuMid, 2, false, true, Granted, ThreeG,
    Some(1.4), Some(300.0), false, None)
  const LOW_CPU_3G := Snapshot(Some(2.0), Some(2.0), GpuLow, 1, false, false, Granted, ThreeG,
    Some(1.1), Some(350.0), false, Some(48.0))
  const PACKET_LOSS_4G := Snapshot(Some(4.0), Some(4.0), GpuMid, 2, false, true, Granted, FourG,
    Some(6.0), Some(600.0), false, Some(22.0))
  const CAMERA_DENIED := Snapshot(Some(8.0), Some(8.0), GpuHigh, 2, false, true, Denied, FourG,
    Some(20.0), Some(35.0), false, None)
  const NO_WEBGL := Snapshot(Some(4.0), Some(4.0), GpuNone, 0, false, false, Denied, FourG,
    Some(10.0), Some(50.0), false, None)
  const REDUCED_MOTION := Snapshot(Some(8.0), Some(8.0), GpuHigh, 2, false, true, Granted, FourG,
    Some(25.0), Some(30.0), true, None)
  const SLOW_2G_MINIMAL := Snapshot(Some(1.0), Some(1.0), GpuNone, 0, false, false, Unavailable, Slow2g,
    Some(0.2), Some(1800.0), false, None)
  const UNKNOWN_EVERYTHING := Snapshot(None, None, GpuUnknown, 1, false, false, Prompt, ConnectionUnknown,
    None, None, false, None)
  const STALLING_MIDSESSION := Snapshot(Some(8.0), Some(8.0), GpuHigh, 2, false, true, Granted, FourG,
    Some(30.0), Some(25.0), false, Some(180.0))

  // ---- working out a score ------------------------------------------------------------------

  /** What the manifest's numbers come to: the weight, the round trips, the work before the first frame
      and of every frame on the reference device, the frame rate, and what richness is worth. */
  datatype Row = Row(bytes: real, trips: real, boot: real, frame: real, fps: real, richness: real)

  function RowOf(tier: Tier): Row {
    match tier
    case High => Row(1320000.0, 2.0, 533.0, 5.5 + 2600.0 / 900.0, 60.0, 4.4)
    case Mid => Row(336000.0, 2.0, 272.0, 3.4, 60.0, 2.4)
    case _ => Row(62000.0, 1.5, 173.0, 0.8 + 160.0 / 900.0, 30.0, 0.3)
  }

  /** The rounded steps in millionths: transfer, first frame, frame time and score. */
  datatype Working = Working(transfer: int, first: int, frame: int, score: int)

  function Millionths(n: int): real {
    n as real / 1000000.0
  }

  function TransferStep(r: Row, mbps: real, rtt: real): real
    requires mbps != 0.0
  {
    r.bytes * 8.0 / mbps / 1000.0 + rtt * r.trips
  }

  function FirstStep(r: Row, times: real, transfer: real): real {
    transfer + r.boot * times
  }

  function FrameStep(r: Row, times: real): real {
    r.frame * times
  }

  function ScoreStep(r: Row, first: real, frame: real): real {
    r.richness + 2.4 * Between(-8.0, (1200.0 - first) / 1200.0) + 1.6 * Between(-2.0, 1.0 - frame * r.fps / 1000.0)
  }

  predicate Works(r: Row, times: real, mbps: real, rtt: real, w: Working)
    requires mbps != 0.0
  {
    && RoundsTo(w.transfer, TransferStep(r, mbps, rtt))
    && RoundsTo(w.first, FirstStep(r, times, Millionths(w.transfer)))
    && RoundsTo(w.frame, FrameStep(r, times))
    && RoundsTo(w.score, ScoreStep(r, Millionths(w.first), Millionths(w.frame)))
  }

  function Between(lo: real, x: real): real {
    if x < lo then lo else if x > 1.0 then 1.0 else x
  }

  lemma PresentTwo(x: real, y: real)
    ensures Present([Some(x), Some(y)]) == Some([x, y]) && Sum([x, y]) == x + y && Sum([x]) == x
  {
    PresentOne(Some(x));
    SumOne(x);
    assert [Some(x), Some(y)][..1] == [Some(x)] && [x] + [y] == [x, y];
    assert [x, y][..1] == [x];
  }

  lemma TiersOf()
    ensures FindTier(ORBITAL.tiers, High) == Some(HIGH_TIER) && FindTier(ORBITAL.tiers, Mid) == Some(MID_TIER)
    ensures FindTier(ORBITAL.tiers, Low) == Some(LOW_TIER)
  {
    assert FindTier(ORBITAL.tiers[2..], Low) == Some(LOW_TIER);
    assert FindTier(ORBITAL.tiers[1..], Mid) == Some(MID_TIER);
  }

  lemma RowIs(tier: Tier)
    requires tier in [High, Mid, Low]
    ensures NumbersOf(ORBITAL, tier).Some?
    ensures var n, r := NumbersOf(ORBITAL, tier).value, RowOf(tier);
      && Sum(n.assetBytes) == r.bytes && 1.0 + Min(|n.assetBytes| as real, 4.0) * 0.5 == r.trips
      && BootUnits(n) == r.boot && FrameUnits(n) == r.frame && n.targetFps == r.fps && Richness(tier) == r.richness
  {
    TiersOf();
    PresentTwo(900000.0, 420000.0);
    PresentTwo(240000.0, 96000.0);
    PresentTwo(62000.0, 0.0);
    PresentOne(Some(62000.0));
    hide Present, Sum, FindTier;
  }

  lemma Kept(x: real, y: real, k: int)
    requires x == y && RoundsTo(k, y)
    ensures Keep(Rounded, x) == KeepFixed(Rounded, x) == Millionths(k)
  {
    Round6Is(y, k, Millionths(k));
  }

  lemma TransferIs(s: Snapshot, n: TierNumbers, r: Row, mbps: real, rtt: real, k: int)
    requires Mbps(s) == mbps && Rtt(s) == rtt && RoundsTo(k, TransferStep(r, mbps, rtt))
    requires Sum(n.assetBytes) == r.bytes && 1.0 + Min(|n.assetBytes| as real, 4.0) * 0.5 == r.trips
    ensures TransferMs(Rounded, s, Sum(n.assetBytes), |n.assetBytes|) == Millionths(k)
  {
    hide Mbps, Rtt, Keep, RoundsTo, Sum;
    Kept(ThroughputMs(s, r.bytes) + LatencyMs(s, |n.assetBytes|), TransferStep(r, mbps, rtt), k);
  }

  lemma FirstFrameIs(s: Snapshot, n: TierNumbers, r: Row, times: real, mbps: real, rtt: real, w: Working)
    requires mbps != 0.0
    requires CpuFactor(Rounded, s) == times && Mbps(s) == mbps && Rtt(s) == rtt && Works(r, times, mbps, rtt, w)
    requires Sum(n.assetBytes) == r.bytes && 1.0 + Min(|n.assetBytes| as real, 4.0) * 0.5 == r.trips && BootUnits(n) == r.boot
    ensures FirstFrameMs(Rounded, s, n) == Millionths(w.first)
  {
    hide Mbps, Rtt, CpuFactor, Keep, RoundsTo, FirstFrameMs, FrameTimeMs, TransferMs, BootUnits, Sum, Millionths, TransferStep;
    TransferIs(s, n, r, mbps, rtt, w.transfer);
    TimesOf(Rounded, s, n, times);
    Kept(TransferMs(Rounded, s, Sum(n.assetBytes), |n.assetBytes|) + BootUnits(n) * times,
         FirstStep(r, times, Millionths(w.transfer)), w.first);
  }

  lemma FrameTimeIs(s: Snapshot, n: TierNumbers, r: Row, times: real, k: int)
    requires CpuFactor(Rounded, s) == times && FrameUnits(n) == r.frame && RoundsTo(k, FrameStep(r, times))
    ensures FrameTimeMs(Rounded, s, n) == Millionths(k)
  {
    hide CpuFactor, KeepFixed, RoundsTo, FirstFrameMs, FrameTimeMs, FrameUnits, Millionths;
    TimesOf(Rounded, s, n, times);
    Kept(FrameUnits(n) * times, FrameStep(r, times), k);
  }

  lemma QualityIs(s: Snapshot, tier: Tier, n: TierNumbers, r: Row, first: real, frame: real)
    requires FirstFrameMs(Rounded, s, n) == first && FrameTimeMs(Rounded, s, n) == frame
    requires n.targetFps == r.fps != 0.0 && Richness(tier) == r.richness
    ensures Quality(Rounded, s, 1200.0, tier, n) == ScoreStep(r, first, frame)
  {
    hide FirstFrameMs, FrameTimeMs, Richness;
    FrameShare(r.fps, frame);
  }

  lemma ScoredFrom(s: Snapshot, tier: Tier, quality: real)
    requires tier in [High, Mid, Low] && TierRenderable(s, ORBITAL, tier) && NumbersOf(ORBITAL, tier).Some?
    requires quality == Quality(Rounded, s, 1200.0, tier, NumbersOf(ORBITAL, tier).value)
    ensures Score(Rounded, s, ORBITAL, tier) == Some(Keep(Rounded, quality) - Penalty(s, tier))
  {
    hide Keep, NumbersOf, TierRenderable, Penalty, Quality;
  }

  /** A tier's score on a device, from its rounded steps. */
  lemma TierScore(s: Snapshot, tier: Tier, times: real, mbps: real, rtt: real, w: Working)
    requires tier in [High, Mid, Low] && TierRenderable(s, ORBITAL, tier) && mbps != 0.0
    requires CpuFactor(Rounded, s) == times && Mbps(s) == mbps && Rtt(s) == rtt && Works(RowOf(tier), times, mbps, rtt, w)
    ensures Score(Rounded, s, ORBITAL, tier) == Some(Millionths(w.score) - Penalty(s, tier))
  {
    RowIs(tier);
    FrameRates(tier);
    WorksInSteps(RowOf(tier), times, mbps, rtt, w);
    hide *;
    var n, r := NumbersOf(ORBITAL, tier).value, RowOf(tier);
    FirstFrameIs(s, n, r, times, mbps, rtt, w);
    FrameTimeIs(s, n, r, times, w.frame);
    QualityIs(s, tier, n, r, Millionths(w.first), Millionths(w.frame));
    var quality := ScoreStep(r, Millionths(w.first), Millionths(w.frame));
    Kept(quality, quality, w.score);
    ScoredFrom(s, tier, quality);
  }

  lemma FrameRates(tier: Tier)
    ensures RowOf(tier).fps != 0.0
  {
  }

  lemma WorksInSteps(r: Row, times: real, mbps: real, rtt: real, w: Working)
    requires mbps != 0.0 && Works(r, times, mbps, rtt, w)
    ensures RoundsTo(w.frame, FrameStep(r, times))
    ensures RoundsTo(w.score, ScoreStep(r, Millionths(w.first), Millionths(w.frame)))
  {
  }

  function Winner(high: real, mid: real, low: real): Tier {
    if high >= mid && high >= low && high >= -3.0 then High
    else if mid >= low && mid >= -3.0 then Mid
    else if low >= -3.0 then Low
    else StaticFallback
  }

  predicate Decided(s: Snapshot, high: real, mid: real, low: real, tier: Tier, path: string) {
    && Score(Rounded, s, ORBITAL, High) == Some(high) && Score(Rounded, s, ORBITAL, Mid) == Some(mid)
    && Score(Rounded, s, ORBITAL, Low) == Some(low)
    && Pick(Rounded, s, ORBITAL) == tier && ResolvePath(s, ORBITAL, tier) == path
  }

  // ---- the devices, one by one --------------------------------------------------------------

  lemma DeviceIs(s: Snapshot, byCores: real, byMemory: real, byGpu: real, times: real)
    requires CoresCost(Cores(s), byCores) && MemoryCosts(Memory(s), byMemory) && GpuCosts(s.gpuTier, byGpu)
    requires byCores * byMemory * byGpu == times && times * 100.0 == (times * 100.0).Floor as real
    ensures CpuFactor(Rounded, s) == times
  {
    hide CpuFactor, CoresCost, MemoryCosts, GpuCosts;
    FactorIs(Rounded, s, byCores, byMemory, byGpu);
    Round6Is(times, (times * 100.0).Floor * 10000, times);
  }

  /** The tiers ask for a WebGL version at most. */
  lemma RenderableIff(s: Snapshot)
    ensures TierRenderable(s, ORBITAL, High) <==> s.webglVersion >= 2
    ensures TierRenderable(s, ORBITAL, Mid) <==> s.webglVersion >= 1
    ensures TierRenderable(s, ORBITAL, Low)
  {
    TiersOf();
    hide FindTier;
    assert "webgl2" in ["webgl2"] && "webgl1" in ["webgl1"];
  }

  lemma NotRenderable(s: Snapshot, tier: Tier)
    requires tier != StaticFallback && !TierRenderable(s, ORBITAL, tier)
    ensures Score(Rounded, s, ORBITAL, tier) == Some(-12.0 - Penalty(s, tier))
  {
    hide TierRenderable, Score;
    ScoreBound(Rounded, s, ORBITAL, tier);
  }

  lemma PathIs(s: Snapshot, tier: Tier)
    ensures ResolvePath(s, ORBITAL, tier) ==
      if tier == StaticFallback then "static-safe"
      else if s.cameraPermission == Granted && s.webglVersion >= 1 && !CameraUnsafe(s) then "camera-xr"
      else "interactive-2d"
  {
    hide CameraUnsafe;
    InOrder(ORBITAL.fallbackPaths);
    UsableIs(s);
    hide ByPriority, Usable;
    var paths := ORBITAL.fallbackPaths;
    assert FirstUsable(s, paths[1..]) == Some(paths[1]);
  }

  lemma UsableIs(s: Snapshot)
    ensures Usable(s, ORBITAL.fallbackPaths[0]) <==> s.cameraPermission == Granted && s.webglVersion >= 1 && !CameraUnsafe(s)
    ensures Usable(s, ORBITAL.fallbackPaths[1])
  {
    assert "camera" in ["camera", "webgl1"] && "webgl1" in ["camera", "webgl1"];
  }

  lemma {:induction false} InsertLast(paths: seq<FallbackPath>, p: FallbackPath)
    requires forall i :: 0 <= i < |paths| ==> paths[i].priority <= p.priority
    ensures Insert(paths, p) == paths + [p]
  {
    if paths != [] {
      InsertLast(paths[1..], p);
    }
  }

  lemma {:induction false} InOrder(paths: seq<FallbackPath>)
    requires Sorted(paths)
    ensures ByPriority(paths) == paths
  {
    if paths != [] {
      var init := paths[..|paths| - 1];
      InOrder(init);
      InsertLast(init, paths[|paths| - 1]);
    }
  }

  lemma Decides(s: Snapshot, high: real, mid: real, low: real)
    requires Score(Rounded, s, ORBITAL, High) == Some(high) && Score(Rounded, s, ORBITAL, Mid) == Some(mid)
    requires Score(Rounded, s, ORBITAL, Low) == Some(low)
    ensures Pick(Rounded, s, ORBITAL) == Winner(high, mid, low)
  {
    PosterScore(Rounded, s, ORBITAL);
    hide Score, Best, ORBITAL;
    assert Candidate(0) == High && Candidate(1) == Mid && Candidate(2) == Low && Candidate(3) == StaticFallback;
    var best := Best(Rounded, s, ORBITAL, 4);
  }

  lemma DesktopWifiStrong()
    ensures Decided(DESKTOP_WIFI_STRONG, 5.999333, 5.350133, 3.840022, High, "camera-xr")
  {
    hide TierRenderable, CpuFactor, Score, ResolvePath, Pick, FindTier;
    var s := DESKTOP_WIFI_STRONG;
    RenderableIff(s);
    PathIs(s, High);
    DeviceIs(s, 1.0, 1.0, 1.0, 1.0);
    TierScore(s, High, 1.0, 45.0, 15.0, Working(264666667, 797666667, 8388889, 5999333));
    TierScore(s, Mid, 1.0, 45.0, 15.0, Working(89733333, 361733333, 3400000, 5350133));
    TierScore(s, Low, 1.0, 45.0, 15.0, Working(33522222, 206522222, 977778, 3840022));
    Decides(s, 5.999333, 5.350133, 3.840022);
  }

  lemma FlagshipAndroid4g()
    ensures Decided(FLAGSHIP_ANDROID_4G, 5.195333, 5.070933, 3.731956, High, "camera-xr")
  {
    hide TierRenderable, CpuFactor, Score, ResolvePath, Pick, FindTier;
    var s := FLAGSHIP_ANDROID_4G;
    RenderableIff(s);
    PathIs(s, High);
    DeviceIs(s, 1.0, 1.0, 1.0, 1.0);
    TierScore(s, High, 1.0, 18.0, 40.0, Working(666666667, 1199666667, 8388889, 5195333));
    TierScore(s, Mid, 1.0, 18.0, 40.0, Working(229333333, 501333333, 3400000, 5070933));
    TierScore(s, Low, 1.0, 18.0, 40.0, Working(87555556, 260555556, 977778, 3731956));
    Decides(s, 5.195333, 5.070933, 3.731956);
  }

  lemma MidAndroid4g()
    ensures Decided(MID_ANDROID_4G, -0.115287, 2.845504, 2.791129, Mid, "camera-xr")
  {
    hide TierRenderable, CpuFactor, Score, ResolvePath, Pick, FindTier;
    var s := MID_ANDROID_4G;
    RenderableIff(s);
    PathIs(s, Mid);
    DeviceIs(s, 2.0, 1.3, 1.15, 2.99);
    TierScore(s, High, 2.99, 8.0, 70.0, Working(1460000000, 3053670000, 25082778, -115287));
    TierScore(s, Mid, 2.99, 8.0, 70.0, Working(476000000, 1289280000, 10166000, 2845504));
    TierScore(s, Low, 2.99, 8.0, 70.0, Working(167000000, 684270000, 2923556, 2791129));
    Decides(s, -0.115287, 2.845504, 2.791129);
  }

  lemma MidAndroid3g()
    ensures Decided(MID_ANDROID_3G, -13.481001, -1.242496, 1.516558, Low, "camera-xr")
  {
    hide TierRenderable, CpuFactor, Score, ResolvePath, Pick, FindTier;
    var s := MID_ANDROID_3G;
    RenderableIff(s);
    PathIs(s, Low);
    DeviceIs(s, 2.0, 1.3, 1.15, 2.99);
    TierScore(s, High, 2.99, 1.4, 300.0, Working(8142857143, 9736527143, 25082778, -13481001));
    TierScore(s, Mid, 2.99, 1.4, 300.0, Working(2520000000, 3333280000, 10166000, -1242496));
    TierScore(s, Low, 2.99, 1.4, 300.0, Working(804285714, 1321555714, 2923556, 1516558));
    Decides(s, -13.481001, -1.242496, 1.516558);
  }

  lemma LowCpu3g()
    ensures Decided(LOW_CPU_3G, -12.0, -9.914281, -2.17841, Low, "interactive-2d")
  {
    hide TierRenderable, CpuFactor, Score, ResolvePath, Pick, FindTier;
    var s := LOW_CPU_3G;
    RenderableIff(s);
    PathIs(s, Low);
    DeviceIs(s, 4.0, 1.8, 1.6, 11.52);
    NotRenderable(s, High);
    TierScore(s, Mid, 11.52, 1.1, 350.0, Working(3143636364, 6277076364, 39168000, -9914281));
    TierScore(s, Low, 11.52, 1.1, 350.0, Working(975909091, 2968869091, 11264000, -2178410));
    Decides(s, -12.0, -9.914281, -2.17841);
  }

  lemma PacketLoss4g()
    ensures Decided(PACKET_LOSS_4G, -3.115287, 0.501504, 1.159796, Low, "camera-xr")
  {
    hide TierRenderable, CpuFactor, Score, ResolvePath, Pick, FindTier;
    var s := PACKET_LOSS_4G;
    RenderableIff(s);
    PathIs(s, Low);
    DeviceIs(s, 2.0, 1.3, 1.15, 2.99);
    TierScore(s, High, 2.99, 6.0, 600.0, Working(2960000000, 4553670000, 25082778, -3115287));
    TierScore(s, Mid, 2.99, 6.0, 600.0, Working(1648000000, 2461280000, 10166000, 501504));
    TierScore(s, Low, 2.99, 6.0, 600.0, Working(982666667, 1499936667, 2923556, 1159796));
    Decides(s, -3.115287, 0.501504, 1.159796);
  }

  lemma CameraDenied()
    ensures Decided(CAMERA_DENIED, 5.332667, 5.1208, 3.752467, High, "interactive-2d")
  {
    hide TierRenderable, CpuFactor, Score, ResolvePath, Pick, FindTier;
    var s := CAMERA_DENIED;
    RenderableIff(s);
    PathIs(s, High);
    DeviceIs(s, 1.0, 1.0, 1.0, 1.0);
    TierScore(s, High, 1.0, 20.0, 35.0, Working(598000000, 1131000000, 8388889, 5332667));
    TierScore(s, Mid, 1.0, 20.0, 35.0, Working(204400000, 476400000, 3400000, 5120800));
    TierScore(s, Low, 1.0, 20.0, 35.0, Working(77300000, 250300000, 977778, 3752467));
    Decides(s, 5.332667, 5.1208, 3.752467);
  }

  lemma NoWebgl()
    ensures Decided(NO_WEBGL, -16.0, -12.0, 1.803221, Low, "interactive-2d")
  {
    hide TierRenderable, CpuFactor, Score, ResolvePath, Pick, FindTier;
    var s := NO_WEBGL;
    RenderableIff(s);
    PathIs(s, Low);
    DeviceIs(s, 2.0, 1.3, 2.2, 5.72);
    NotRenderable(s, High);
    NotRenderable(s, Mid);
    TierScore(s, Low, 5.72, 10.0, 50.0, Working(124600000, 1114160000, 5592889, 1803221));
    Decides(s, -16.0, -12.0, 1.803221);
  }

  lemma ReducedMotion()
    ensures Decided(REDUCED_MOTION, -6.436133, -6.80544, -8.222613, StaticFallback, "static-safe")
  {
    hide TierRenderable, CpuFactor, Score, ResolvePath, Pick, FindTier;
    var s := REDUCED_MOTION;
    RenderableIff(s);
    PathIs(s, StaticFallback);
    DeviceIs(s, 1.0, 1.0, 1.0, 1.0);
    TierScore(s, High, 1.0, 25.0, 30.0, Working(482400000, 1015400000, 8388889, 5563867));
    TierScore(s, Mid, 1.0, 25.0, 30.0, Working(167520000, 439520000, 3400000, 5194560));
    TierScore(s, Low, 1.0, 25.0, 30.0, Working(64840000, 237840000, 977778, 3777387));
    Decides(s, -6.436133, -6.80544, -8.222613);
  }

  lemma Slow2gMinimal()
    ensures Decided(SLOW_2G_MINIMAL, -16.0, -12.0, -18.508128, StaticFallback, "static-safe")
  {
    hide TierRenderable, CpuFactor, Score, ResolvePath, Pick, FindTier;
    var s := SLOW_2G_MINIMAL;
    RenderableIff(s);
    PathIs(s, StaticFallback);
    DeviceIs(s, 8.0, 1.8, 2.2, 31.68);
    NotRenderable(s, High);
    NotRenderable(s, Mid);
    TierScore(s, Low, 31.68, 0.2, 1800.0, Working(5180000000, 10660640000, 30976000, -18508128));
    Decides(s, -16.0, -12.0, -18.508128);
  }

  lemma UnknownEverything()
    ensures Decided(UNKNOWN_EVERYTHING, -12.0, 2.70176, 2.809973, Low, "interactive-2d")
  {
    hide TierRenderable, CpuFactor, Score, ResolvePath, Pick, FindTier;
    var s := UNKNOWN_EVERYTHING;
    RenderableIff(s);
    PathIs(s, Low);
    DeviceIs(s, 2.0, 1.3, 1.0, 2.6);
    NotRenderable(s, High);
    TierScore(s, Mid, 2.6, 5.0, 90.0, Working(717600000, 1424800000, 8840000, 2701760));
    TierScore(s, Low, 2.6, 5.0, 90.0, Working(234200000, 684000000, 2542222, 2809973));
    Decides(s, -12.0, 2.70176, 2.809973);
  }

  lemma StallingMidsession()
    ensures Decided(STALLING_MIDSESSION, 5.724667, 5.2504, 3.799, High, "interactive-2d")
  {
    hide TierRenderable, CpuFactor, Score, ResolvePath, Pick, FindTier;
    var s := STALLING_MIDSESSION;
    RenderableIff(s);
    PathIs(s, High);
    DeviceIs(s, 1.0, 1.0, 1.0, 1.0);
    TierScore(s, High, 1.0, 30.0, 25.0, Working(402000000, 935000000, 8388889, 5724667));
    TierScore(s, Mid, 1.0, 30.0, 25.0, Working(139600000, 411600000, 3400000, 5250400));
    TierScore(s, Low, 1.0, 30.0, 25.0, Working(54033333, 227033333, 977778, 3799000));
    Decides(s, 5.724667, 5.2504, 3.799);
  }

  /** The scores, the tier and the path of each sample device. The tier is the one the device is labelled
      with, but for the last: a contested label of `low`, where recent frame times do not enter a score. */
  lemma SampleDevices()
    ensures Decided(DESKTOP_WIFI_STRONG, 5.999333, 5.350133, 3.840022, High, "camera-xr")
    ensures Decided(FLAGSHIP_ANDROID_4G, 5.195333, 5.070933, 3.731956, High, "camera-xr")
    ensures Decided(MID_ANDROID_4G, -0.115287, 2.845504, 2.791129, Mid, "camera-xr")
    ensures Decided(MID_ANDROID_3G, -13.481001, -1.242496, 1.516558, Low, "camera-xr")
    ensures Decided(LOW_CPU_3G, -12.0, -9.914281, -2.17841, Low, "interactive-2d")
    ensures Decided(PACKET_LOSS_4G, -3.115287, 0.501504, 1.159796, Low, "camera-xr")
    ensures Decided(CAMERA_DENIED, 5.332667, 5.1208, 3.752467, High, "interactive-2d")
    ensures Decided(NO_WEBGL, -16.0, -12.0, 1.803221, Low, "interactive-2d")
    ensures Decided(REDUCED_MOTION, -6.436133, -6.80544, -8.222613, StaticFallback, "static-safe")
    ensures Decided(SLOW_2G_MINIMAL, -16.0, -12.0, -18.508128, StaticFallback, "static-safe")
    ensures Decided(UNKNOWN_EVERYTHING, -12.0, 2.70176, 2.809973, Low, "interactive-2d")
    ensures Decided(STALLING_MIDSESSION, 5.724667, 5.2504, 3.799, High, "interactive-2d")
  {
    hide *;
    DesktopWifiStrong();
    FlagshipAndroid4g();
    MidAndroid4g();
    MidAndroid3g();
    LowCpu3g();
    PacketLoss4g();
    CameraDenied();
    NoWebgl();
    ReducedMotion();
    Slow2gMinimal();
    UnknownEverything();
    StallingMidsession();
  }
}
