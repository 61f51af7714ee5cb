/** Capability snapshots and fallback-path resolution (src/capability/buckets.js). */
module Capability {
  import opened Prelude

  datatype GpuTier = GpuUnknown | GpuNone | GpuLow | GpuMid | GpuHigh

  datatype CameraPermission = Granted | Denied | Prompt | Unavailable

  datatype Connection = Slow2g | TwoG | ThreeG | FourG | ConnectionUnknown

  datatype Snapshot = Snapshot(
    deviceMemoryGB: Option<real>,
    hardwareConcurrency: Option<real>,
    gpuTier: GpuTier,
    webglVersion: nat,
    webgpuAvailable: bool,
    webcodecsAvailable: bool,
    cameraPermission: CameraPermission,
    effectiveConnectionType: Connection,
    downlinkMbps: Option<real>,
    rttMs: Option<real>,
    reducedMotionPreferred: bool,
    recentFrameTimeMsP95: Option<real>)

  /** `Unlisted` stands for any name outside the four the system serves, `Textless` for an object that
      cannot be turned into text. */
  datatype Tier = High | Mid | Low | StaticFallback | Unlisted(name: string) | Textless

  /** A tier as declared; validation leaves any of its numbers, and its requirement list, optional. */
  datatype TierSpec = TierSpec(
    id: Tier,
    particleCount: Number,
    textureSize: Number,
    shaderPasses: Number,
    targetFps: Number,
    perFrameWorkMs: Number,
    assetBytes: seq<Number>,
    needs: Option<seq<string>>)

  datatype FallbackPath = FallbackPath(id: string, needs: seq<string>, priority: int)

  datatype Manifest = Manifest(tiers: seq<TierSpec>, fallbackPaths: seq<FallbackPath>, firstFrameBudgetMs: real)

  function OrElse<T>(x: Option<T>, d: T): T {
    if x.Some? then x.value else d
  }

  function SatisfiedRequirements(s: Snapshot): set<string> {
    (if s.webglVersion >= 1 then {"webgl1"} else {})
    + (if s.webglVersion >= 2 then {"webgl2"} else {})
    + (if s.webgpuAvailable then {"webgpu"} else {})
    + (if s.webcodecsAvailable then {"webcodecs"} else {})
    + (if s.cameraPermission == Granted then {"camera"} else {})
    + (if s.reducedMotionPreferred then {} else {"motion"})
  }

  predicate Meets(s: Snapshot, required: seq<string>) {
    forall i :: 0 <= i < |required| ==> required[i] in SatisfiedRequirements(s)
  }

  predicate CameraUnsafe(s: Snapshot) {
    || (s.gpuTier == GpuLow && OrElse(s.deviceMemoryGB, 4.0) <= 2.0)
    || OrElse(s.recentFrameTimeMsP95, 0.0) > 60.0
  }

  predicate Usable(s: Snapshot, p: FallbackPath) {
    !(p.id == "camera-xr" && CameraUnsafe(s)) && Meets(s, p.needs)
  }

  /** What a device has, by the name a tier or a path asks for it; nothing else can be asked for. */
  predicate Has(s: Snapshot, need: string) {
    || (need == "webgl1" && s.webglVersion != 0) || (need == "webgl2" && s.webglVersion > 1)
    || (need == "webgpu" && s.webgpuAvailable) || (need == "webcodecs" && s.webcodecsAvailable)
    || (need == "camera" && s.cameraPermission.Granted?) || (need == "motion" && !s.reducedMotionPreferred)
  }

  lemma HasIff(s: Snapshot, need: string)
    ensures need in SatisfiedRequirements(s) <==> Has(s, need)
  {
  }

  lemma MeetsIff(s: Snapshot, required: seq<string>)
    ensures Meets(s, required) <==> forall i :: 0 <= i < |required| ==> Has(s, required[i])
  {
    hide SatisfiedRequirements, Has;
    forall i | 0 <= i < |required| ensures required[i] in SatisfiedRequirements(s) <==> Has(s, required[i]) {
      HasIff(s, required[i]);
    }
  }

  /** A path is usable when the device has all it needs, but never the camera path on a weak GPU with a
      known memory of two gigabytes or less, or when frames recently took more than 60 ms. */
  lemma UsableIff(s: Snapshot, p: FallbackPath)
    ensures Usable(s, p) <==>
      && (forall i :: 0 <= i < |p.needs| ==> Has(s, p.needs[i]))
      && (p.id == "camera-xr" ==>
            && (s.gpuTier.GpuLow? && s.deviceMemoryGB.Some? ==> s.deviceMemoryGB.value > 2.0)
            && (s.recentFrameTimeMsP95.Some? ==> s.recentFrameTimeMsP95.value <= 60.0))
  {
    hide Meets, Has;
    MeetsIff(s, p.needs);
  }

  /** Insert after every path of the same or a smaller priority. */
  function Insert(paths: seq<FallbackPath>, p: FallbackPath): seq<FallbackPath> {
    if paths == [] || p.priority < paths[0].priority then [p] + paths
    else [paths[0]] + Insert(paths[1..], p)
  }

  /** The paths by ascending priority, equal priorities in their declared order. */
  function ByPriority(paths: seq<FallbackPath>): seq<FallbackPath> {
    if paths == [] then [] else Insert(ByPriority(paths[..|paths| - 1]), paths[|paths| - 1])
  }

  function FirstUsable(s: Snapshot, ordered: seq<FallbackPath>): Option<FallbackPath> {
    if ordered == [] then None
    else if Usable(s, ordered[0]) then Some(ordered[0])
    else FirstUsable(s, ordered[1..])
  }

  function ResolvePath(s: Snapshot, m: Manifest, tier: Tier): string {
    if tier == StaticFallback then "static-safe"
    else
      var path := FirstUsable(s, ByPriority(m.fallbackPaths));
      if path.Some? then path.value.id else "static-safe"
  }

  predicate Sorted(paths: seq<FallbackPath>) {
    forall i, j :: 0 <= i <= j < |paths| ==> paths[i].priority <= paths[j].priority
  }

  lemma {:induction false} InsertSorted(paths: seq<FallbackPath>, p: FallbackPath)
    requires Sorted(paths)
    ensures Sorted(Insert(paths, p))
    ensures forall i :: 0 <= i < |Insert(paths, p)| ==>
      Insert(paths, p)[i] == p || exists j :: 0 <= j < |paths| && Insert(paths, p)[i] == paths[j]
  {
    if paths != [] && p.priority >= paths[0].priority {
      InsertSorted(paths[1..], p);
      var rest := Insert(paths[1..], p);
      forall i | 0 <= i < |rest| ensures paths[0].priority <= rest[i].priority {
        if rest[i] != p {
          var j :| 0 <= j < |paths[1..]| && rest[i] == paths[1..][j];
          assert paths[1..][j] == paths[j + 1];
        }
      }
    }
  }

  /** A new path wins exactly when it is usable and of strictly smaller priority. */
  function Better(s: Snapshot, best: Option<FallbackPath>, p: FallbackPath): Option<FallbackPath> {
    if Usable(s, p) && (best.None? || p.priority < best.value.priority) then Some(p) else best
  }

  lemma {:induction false} FirstUsableIn(s: Snapshot, paths: seq<FallbackPath>)
    ensures FirstUsable(s, paths).Some? ==>
      Usable(s, FirstUsable(s, paths).value) && FirstUsable(s, paths).value in paths
  {
    if paths != [] && !Usable(s, paths[0]) {
      FirstUsableIn(s, paths[1..]);
    }
  }

  lemma {:induction false} InsertFirst(s: Snapshot, paths: seq<FallbackPath>, p: FallbackPath)
    requires Sorted(paths)
    ensures FirstUsable(s, Insert(paths, p)) == Better(s, FirstUsable(s, paths), p)
  {
    hide Usable;
    if paths == [] || p.priority < paths[0].priority {
      FirstUsableIn(s, paths);
      assert ([p] + paths)[1..] == paths;
    } else {
      InsertFirst(s, paths[1..], p);
      assert ([paths[0]] + Insert(paths[1..], p))[1..] == Insert(paths[1..], p);
    }
  }

  /** `paths[i]` is the first usable path of the least priority. */
  predicate Wins(s: Snapshot, paths: seq<FallbackPath>, i: nat)
    requires i < |paths|
  {
    && Usable(s, paths[i])
    && forall j :: 0 <= j < |paths| && Usable(s, paths[j]) ==>
      paths[i].priority < paths[j].priority || (paths[i].priority == paths[j].priority && i <= j)
  }

  lemma NoPaths(s: Snapshot)
    ensures FirstUsable(s, []) == None && Sorted([])
  {
  }

  lemma {:induction false} FirstByPriority(s: Snapshot, paths: seq<FallbackPath>)
    ensures Sorted(ByPriority(paths))
    ensures var r := FirstUsable(s, ByPriority(paths));
      if r.None? then forall i :: 0 <= i < |paths| ==> !Usable(s, paths[i])
      else exists i :: 0 <= i < |paths| && paths[i] == r.value && Wins(s, paths, i)
  {
    hide Usable, Insert, FirstUsable, Sorted;
    if paths == [] {
      NoPaths(s);
    } else {
      var init, last := paths[..|paths| - 1], paths[|paths| - 1];
      FirstByPriority(s, init);
      InsertSorted(ByPriority(init), last);
      InsertFirst(s, ByPriority(init), last);
      var before := FirstUsable(s, ByPriority(init));
      if Better(s, before, last) == before && before.Some? {
        var i :| 0 <= i < |init| && init[i] == before.value && Wins(s, init, i);
        assert paths[i] == before.value && Wins(s, paths, i);
      } else if before.None? && !Usable(s, last) {
        assert forall i :: 0 <= i < |init| ==> paths[i] == init[i];
      } else {
        BestIsLast(s, init, last);
      }
    }
  }

  lemma BestIsLast(s: Snapshot, init: seq<FallbackPath>, last: FallbackPath)
    requires Usable(s, last)
    requires (forall i :: 0 <= i < |init| ==> !Usable(s, init[i]))
      || exists i :: 0 <= i < |init| && Wins(s, init, i) && last.priority < init[i].priority
    ensures Wins(s, init + [last], |init|)
  {
  }

  /** A non-poster tier resolves to the first usable path of the least priority, or to the static
      path when none is usable; the poster always resolves to the static path. */
  lemma ResolvesFirst(s: Snapshot, m: Manifest, tier: Tier)
    ensures tier == StaticFallback ==> ResolvePath(s, m, tier) == "static-safe"
    ensures tier != StaticFallback && (forall i :: 0 <= i < |m.fallbackPaths| ==> !Usable(s, m.fallbackPaths[i])) ==>
      ResolvePath(s, m, tier) == "static-safe"
    ensures tier != StaticFallback && (exists i :: 0 <= i < |m.fallbackPaths| && Usable(s, m.fallbackPaths[i])) ==>
      exists i :: 0 <= i < |m.fallbackPaths| && Wins(s, m.fallbackPaths, i) && m.fallbackPaths[i].id == ResolvePath(s, m, tier)
  {
    hide Usable, ByPriority;
    FirstByPriority(s, m.fallbackPaths);
  }
}
