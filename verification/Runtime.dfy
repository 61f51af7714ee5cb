/** The experience state machine of experience/runtime.js, for every outcome of its environment:
    what is decided, what loads, what throws and what is clicked. */
module Runtime {
  import opened Prelude
  import opened Capability

  datatype Phase =
    | Boot | Probing | Routing | Loading | FirstFrame | Degraded | Interactive
    | ProductDetail | Cart | CheckoutComplete | Error

  /** The transitions the manifest declares. */
  const DECLARED: seq<(Phase, Phase)> := [
    (Boot, Probing), (Probing, Routing), (Routing, Loading), (Loading, FirstFrame), (Loading, Error),
    (FirstFrame, Interactive), (FirstFrame, Degraded), (Interactive, ProductDetail), (Interactive, Degraded),
    (ProductDetail, Interactive), (ProductDetail, Cart), (Cart, ProductDetail), (Cart, CheckoutComplete),
    (Degraded, Interactive), (Degraded, ProductDetail), (Degraded, Error)]

  /** A tier of the ladder; any other decided name, the poster's included, is served the poster. */
  type Rung = t: Tier | IsRung(t) witness High

  predicate IsRung(t: Tier) {
    t.High? || t.Mid? || t.Low?
  }

  datatype Path = CameraXr | Interactive2d | StaticSafe

  datatype Decision = Decision(choice: Tier, path: Path)

  /** Everything the runtime does not control. `second` is absent when no frame was measured. An
      exception while interactive comes from the checkpoint there, after `clicksBefore` of the clicks;
      `paid` tells whether the checkout's own checkpoint succeeds. */
  datatype Env = Env(
    forced: bool, first: Decision, second: Option<Decision>,
    loadable: set<Rung>, reloadable: set<Rung>, poster: bool, camera: bool, scene: bool, secondScene: bool,
    throwsIn: Option<Phase>, clicksBefore: nat, paid: bool)

  datatype Ending = Ready | Failed | Threw

  datatype Button = Product | Back | AddToCart | CartBack | Checkout

  function LadderIndex(t: Rung): nat {
    if t.High? then 0 else if t.Mid? then 1 else 2
  }

  function PathIndex(p: Path): nat {
    match p case CameraXr => 0 case Interactive2d => 1 case StaticSafe => 2
  }

  /** The phases `setState` itself records. */
  predicate Lifecycle(p: Phase) {
    !p.ProductDetail? && !p.Cart? && !p.CheckoutComplete? && !p.Error?
  }

  /** The phases that declare a way to the error state, or are it. */
  predicate MayFail(p: Phase) {
    p.Loading? || p.Degraded? || p.Error?
  }

  predicate Declared(from: Phase, to: Phase) {
    from == to || (from, to) in DECLARED
  }

  predicate Legal(states: seq<Phase>) {
    forall i: nat :: 0 < i < |states| ==> Declared(states[i - 1], states[i])
  }

  lemma Push(states: seq<Phase>, next: Phase)
    requires states != []
    ensures Legal(states + [next]) <==> Legal(states) && Declared(states[|states| - 1], next)
  {
    var more := states + [next];
    if Legal(more) {
      assert Declared(more[|states| - 1], more[|states|]);
      assert forall i: nat :: 0 < i < |states| ==> Declared(more[i - 1], more[i]) == Declared(states[i - 1], states[i]);
    }
  }

  lemma Twice(states: seq<Phase>, next: Phase)
    requires states != []
    ensures Legal(states + [next] + [next]) <==> Legal(states) && Declared(states[|states| - 1], next)
    ensures Legal(states + [next]) <==> Legal(states) && Declared(states[|states| - 1], next)
  {
    Push(states, next);
    Push(states + [next], next);
  }

  /** The boot sequence's own steps. */
  lemma BootSteps()
    ensures Declared(Boot, Probing) && Declared(Probing, Routing) && Declared(Routing, Loading)
    ensures Declared(Loading, FirstFrame) && Declared(FirstFrame, Degraded)
    ensures Declared(FirstFrame, Interactive) && Declared(Degraded, Interactive)
    ensures forall p :: Lifecycle(p) <==> p !in {ProductDetail, Cart, CheckoutComplete, Error}
    ensures forall p :: MayFail(p) <==> p in {Loading, Degraded, Error}
  {
  }

  /** Only two phases declare a way to the error state. */
  lemma ErrorSteps(p: Phase)
    ensures Declared(p, Error) <==> MayFail(p)
  {
  }

  lemma Start()
    ensures Legal([] + [Boot])
  {
  }

  /** What is served at one moment: a rank that grows as the tier and the path get poorer. */
  datatype Serving = Serving(tier: int, path: nat)

  /** Poorer tiers rank higher, and no tier yet ranks lowest. */
  function Rank(t: Option<Rung>): int {
    if t.None? then -1 else LadderIndex(t.value)
  }

  predicate Descends(trail: seq<Serving>) {
    forall i: nat :: 0 < i < |trail| ==> trail[i - 1].tier <= trail[i].tier && trail[i - 1].path <= trail[i].path
  }

  /** The part of the page the button belongs to, named by the phase that shows it. */
  function ShownIn(b: Button): Phase {
    match b
    case Product => Interactive
    case Back => ProductDetail
    case AddToCart => ProductDetail
    case CartBack => Cart
    case Checkout => Cart
  }

  function Leads(b: Button): Phase {
    match b
    case Product => ProductDetail
    case Back => Interactive
    case AddToCart => Cart
    case CartBack => ProductDetail
    case Checkout => CheckoutComplete
  }

  lemma ClickSteps(b: Button)
    ensures Declared(ShownIn(b), Leads(b))
    ensures Leads(b) in {Interactive, ProductDetail, Cart, CheckoutComplete}
    ensures Leads(b) == CheckoutComplete <==> b == Checkout
    ensures ShownIn(b) != CheckoutComplete
  {
  }

  lemma Ranks(p: Path)
    ensures PathIndex(CameraXr) <= PathIndex(Interactive2d) && PathIndex(p) <= PathIndex(StaticSafe)
    ensures Rank(None) == -1 && forall t: Rung :: Rank(Some(t)) == LadderIndex(t) >= 0
  {
  }

  // ---- what is served, said of the environment ----------------------------------------------

  /** The ladder: `high`, then `mid`, then `low`. */
  predicate Poorer(t: Rung, than: Rung) {
    (than.High? && !t.High?) || (than.Mid? && t.Low?)
  }

  /** The rung is declared, not richer than the choice, and its assets load. */
  predicate Loads(env: Env, tiers: seq<Rung>, choice: Rung, t: Rung) {
    t in tiers && t in env.loadable && !Poorer(choice, t)
  }

  ghost predicate SomeLoads(env: Env, tiers: seq<Rung>, choice: Rung) {
    exists t: Rung :: Loads(env, tiers, choice, t)
  }

  ghost predicate RichestLoading(env: Env, tiers: seq<Rung>, choice: Rung, t: Rung) {
    Loads(env, tiers, choice, t) && forall u: Rung :: Loads(env, tiers, choice, u) ==> !Poorer(t, u)
  }

  /** What is loaded for a choice on a path, and on which path then: on the static path, or for a choice
      off the ladder, the poster; otherwise the richest rung that loads, on the same path; and only when
      none does, the poster on the static path. The poster comes with the last tier's settings. */
  ghost predicate LoadsAs(env: Env, tiers: seq<Rung>, choice: Tier, before: Path, loaded: Option<Rung>, after: Path)
    requires tiers != []
  {
    var poster: Option<Rung> := if env.poster then Some(tiers[|tiers| - 1]) else None;
    if before == StaticSafe || !IsRung(choice) then loaded == poster && after == before
    else if SomeLoads(env, tiers, choice) then
      loaded.Some? && RichestLoading(env, tiers, choice, loaded.value) && after == before
    else loaded == poster && after == StaticSafe
  }

  /** The second decision asks for a poorer tier of the ladder than the loaded one. */
  predicate AsksLower(env: Env, path: Path, loaded: Rung) {
    && !env.forced && path != StaticSafe && env.second.Some?
    && IsRung(env.second.value.choice) && Poorer(env.second.value.choice, loaded)
  }

  /** How the second decision ends and which tier it leaves: the poorer one as soon as its assets have
      loaded, which an undeclared one never does. */
  predicate LowersAs(env: Env, tiers: seq<Rung>, path: Path, loaded: Rung, end: Ending, tier: Rung) {
    if !AsksLower(env, path, loaded) then end == Ready && tier == loaded
    else
      var lower := env.second.value.choice;
      if env.throwsIn == Some(Degraded) then end == Threw && tier == loaded
      else if lower !in tiers then end == Ready && tier == loaded
      else if lower in env.reloadable then tier == lower && end == (if env.secondScene then Ready else Failed)
      else tier == loaded && end == Failed
  }

  lemma LowersWhen(env: Env, tiers: seq<Rung>, path: Path, loaded: Rung)
    ensures AsksLower(env, path, loaded) <==>
      && !env.forced && path != StaticSafe && env.second.Some?
      && IsRung(env.second.value.choice) && LadderIndex(env.second.value.choice) > LadderIndex(loaded)
    ensures forall end, t: Rung :: LowersAs(env, tiers, path, loaded, end, t) <==>
      if !AsksLower(env, path, loaded) then end == Ready && t == loaded
      else if env.throwsIn == Some(Degraded) then end == Threw && t == loaded
      else if env.second.value.choice !in tiers then end == Ready && t == loaded
      else if env.second.value.choice in env.reloadable then
        t == env.second.value.choice && end == (if env.secondScene then Ready else Failed)
      else end == Failed && t == loaded
  {
  }

  /** From loaded assets to the end of the boot: a refused camera leaves its path for the flat one, and
      only the static path needs no scene. */
  predicate EntersAs(env: Env, tiers: seq<Rung>, loaded: Rung, before: Path, end: Ending, tier: Rung, after: Path) {
    && after == (if before == CameraXr && !env.camera then Interactive2d else before)
    && (if before != StaticSafe && !env.scene then end == Failed && tier == loaded
        else if env.throwsIn == Some(FirstFrame) then end == Threw && tier == loaded
        else LowersAs(env, tiers, after, loaded, end, tier))
  }

  lemma EntersWhen(env: Env, tiers: seq<Rung>, loaded: Rung, before: Path, after: Path)
    requires after == if before == CameraXr && !env.camera then Interactive2d else before
    ensures forall end, t: Rung :: EntersAs(env, tiers, loaded, before, end, t, after) <==>
      if before != StaticSafe && !env.scene then end == Failed && t == loaded
      else if env.throwsIn == Some(FirstFrame) then end == Threw && t == loaded
      else LowersAs(env, tiers, after, loaded, end, t)
  {
  }

  /** The whole boot. */
  ghost predicate ServesAs(env: Env, tiers: seq<Rung>, end: Ending, tier: Option<Rung>, path: Path)
    requires tiers != []
  {
    if env.throwsIn in {Some(Boot), Some(Probing), Some(Routing)} then end == Threw && tier == None
    else if env.throwsIn == Some(Loading) then end == Threw && tier == None && path == env.first.path
    else
      exists loaded, from ::
        && LoadsAs(env, tiers, env.first.choice, env.first.path, loaded, from)
        && BootsAs(env, tiers, loaded, from, end, tier, path)
  }

  predicate BootsAs(env: Env, tiers: seq<Rung>, loaded: Option<Rung>, from: Path, end: Ending, tier: Option<Rung>, path: Path) {
    if loaded.None? then end == Failed && tier == None && path == from
    else tier.Some? && EntersAs(env, tiers, loaded.value, from, end, tier.value, path)
  }

  lemma ThrownBefore(env: Env, tiers: seq<Rung>, path: Path)
    requires tiers != []
    requires env.throwsIn in {Some(Boot), Some(Probing), Some(Routing)}
      || (env.throwsIn == Some(Loading) && path == env.first.path)
    ensures ServesAs(env, tiers, Threw, None, path)
  {
  }

  lemma Booted(env: Env, tiers: seq<Rung>, loaded: Option<Rung>, from: Path, end: Ending, tier: Option<Rung>, path: Path)
    requires tiers != [] && env.throwsIn !in {Some(Boot), Some(Probing), Some(Routing), Some(Loading)}
    requires LoadsAs(env, tiers, env.first.choice, env.first.path, loaded, from)
    requires if loaded.None? then end == Failed && tier == None && path == from
      else tier.Some? && EntersAs(env, tiers, loaded.value, from, end, tier.value, path)
    ensures ServesAs(env, tiers, end, tier, path)
  {
    assert BootsAs(env, tiers, loaded, from, end, tier, path);
  }

  /** Where clicks lead from the interactive page; one on a button that is not on screen does nothing. */
  function Walk(clicks: seq<Button>): Phase {
    if clicks == [] then Interactive
    else
      var at, b := Walk(clicks[..|clicks| - 1]), clicks[|clicks| - 1];
      if ShownIn(b) == at then Leads(b) else at
  }

  lemma WalkNext(clicks: seq<Button>, i: nat)
    requires i < |clicks|
    ensures Walk(clicks[..i + 1]) == if ShownIn(clicks[i]) == Walk(clicks[..i]) then Leads(clicks[i]) else Walk(clicks[..i])
    ensures Walk(clicks[..i]) in {Interactive, ProductDetail, Cart, CheckoutComplete}
    decreases i
  {
    assert clicks[..i + 1][..i] == clicks[..i];
    if i > 0 {
      WalkNext(clicks, i - 1);
    }
  }

  lemma WalkStart(clicks: seq<Button>)
    ensures Walk(clicks[..0]) == Interactive
  {
  }

  /** Each way back undoes a way forward, and the way forward ends at the finished checkout. */
  lemma ClicksLead()
    ensures Walk([Product]) == ProductDetail && Walk([Product, AddToCart]) == Cart
    ensures Walk([Product, AddToCart, Checkout]) == CheckoutComplete
    ensures Walk([Product, Back]) == Interactive && Walk([Product, AddToCart, CartBack]) == ProductDetail
    ensures forall b :: ShownIn(b) != CheckoutComplete
  {
    assert [Product][..0] == [] && [Product, Back][..1] == [Product] && [Product, AddToCart][..1] == [Product];
    assert [Product, AddToCart, Checkout][..2] == [Product, AddToCart];
    assert [Product, AddToCart, CartBack][..2] == [Product, AddToCart];
    assert Walk([]) == Interactive;
  }

  class App {
    var state: Phase
    var states: seq<Phase>
    var tier: Option<Rung>
    var path: Path
    var shown: Phase
    var finished: bool
    const tiers: seq<Rung>
    ghost var trail: seq<Serving>

    constructor (tiers: seq<Rung>)
      requires tiers != []
      ensures this.tiers == tiers && state == Boot && states == [] && tier == None && path == StaticSafe
      ensures shown == Interactive && !finished && trail == []
    {
      this.tiers := tiers;
      state, states, tier, path, shown, finished, trail := Boot, [], None, StaticSafe, Interactive, false, [];
    }

    /** The recorder's last state is the current one. */
    ghost predicate Recorded()
      reads `state, `states
    {
      tiers != [] && states != [] && states[|states| - 1] == state
    }

    ghost function Now(): Serving
      reads `tier, `path
    {
      Serving(Rank(tier), PathIndex(path))
    }

    /** After routing: the trail starts with the routed path and no tier, only descends, and ends with
        what is served now. */
    ghost predicate Tracked(env: Env)
      reads `trail, `tier, `path
    {
      && trail != [] && Descends(trail)
      && trail[0] == Serving(-1, PathIndex(env.first.path))
      && trail[|trail| - 1] == Now()
    }

    /** The path routing decided on, with no tier yet: where the trail starts. */
    method SetPath(env: Env)
      requires tier == None
      modifies `path, `trail
      ensures Tracked(env) && path == env.first.path
    {
      path, trail := env.first.path, [Serving(-1, PathIndex(env.first.path))];
    }

    /** A tier and path change, noted on the trail. */
    method SetServing(env: Env, t: Option<Rung>, p: Path)
      requires Tracked(env) && PathIndex(path) <= PathIndex(p) && Rank(tier) <= Rank(t)
      modifies `tier, `path, `trail
      ensures Tracked(env) && tier == t && path == p && trail == old(trail) + [Now()]
    {
      tier, path := t, p;
      trail := trail + [Now()];
    }

    method SetState(next: Phase)
      modifies `state, `states
      requires states == [] || Recorded()
      ensures state == next
      ensures Lifecycle(next) ==>
                states == old(states) + (if old(states) != [] && old(state) == next then [] else [next])
      ensures !Lifecycle(next) ==> states == old(states)
    {
      state := next;
      if Lifecycle(next) {
        if states == [] || states[|states| - 1] != next {
          states := states + [next];
        }
      }
    }

    /** The first recorded state. */
    method Open()
      requires tiers != [] && states == []
      modifies `state, `states
      ensures state == Boot && Recorded() && Legal(states)
    {
      Start();
      hide Legal;
      SetState(Boot);
    }

    /** A step of the boot sequence. */
    method Advance(next: Phase)
      modifies `state, `states
      requires Recorded() && Legal(states) && Declared(state, next)
      requires Lifecycle(next)
      ensures state == next && Recorded() && Legal(states)
    {
      hide Legal, Declared;
      Push(states, next);
      assert states + [] == states;
      SetState(next);
    }

    /** The error path: recorded from whatever state the runtime is in. */
    method Fail()
      modifies `state, `states, `finished
      requires Recorded()
      ensures state == Error && finished && Recorded() && states == old(states) + [Error]
      ensures Legal(states) <==> old(Legal(states)) && MayFail(old(state))
    {
      ErrorSteps(state);
      hide Legal, Declared;
      Push(states, Error);
      SetState(Error);
      states := states + [Error];
      finished := true;
    }

    function LastTier(): Rung
      requires tiers != []
    {
      tiers[|tiers| - 1]
    }

    /** The poster with the last tier's settings, or the error path. */
    method LoadPoster(env: Env) returns (loaded: Option<Rung>)
      requires Recorded() && Legal(states) && Tracked(env) && state == Loading && tier.None?
      modifies `state, `states, `tier, `path, `finished, `trail
      ensures Recorded() && Legal(states) && Tracked(env) && old(trail) <= trail && path == old(path)
      ensures loaded == (if env.poster then Some(LastTier()) else None) && tier == loaded
      ensures loaded.Some? ==> state == Loading && finished == old(finished)
      ensures loaded.None? ==> state == Error && finished
    {
      hide Legal, Declared, Tracked;
      if !env.poster {
        Fail();
        return None;
      }
      SetServing(env, Some(LastTier()), path);
      return Some(LastTier());
    }

    /** Loads the richest tier at or below the requested one that will load, or else the poster. */
    method LoadForTier(env: Env, choice: Tier) returns (loaded: Option<Rung>)
      requires Recorded() && Legal(states) && Tracked(env) && state == Loading && tier.None?
      modifies `state, `states, `tier, `path, `finished, `trail
      ensures Recorded() && Legal(states) && Tracked(env) && old(trail) <= trail
      ensures LoadsAs(env, tiers, choice, old(path), loaded, path) && tier == loaded
      ensures loaded.Some? ==> state == Loading && finished == old(finished)
      ensures loaded.None? ==> state == Error && finished
    {
      hide Legal, Declared, Tracked, Recorded;
      if path == StaticSafe || !IsRung(choice) {
        loaded := LoadPoster(env);
        return;
      }
      for i := LadderIndex(choice) to 3
        invariant unchanged(this)
        invariant forall t: Rung :: Loads(env, tiers, choice, t) ==> LadderIndex(t) >= i
      {
        var rung := if i == 0 then High else if i == 1 then Mid else Low;
        if rung in tiers && rung in env.loadable {
          SetServing(env, Some(rung), path);
          assert RichestLoading(env, tiers, choice, rung);
          return Some(rung);
        }
      }
      SetServing(env, tier, StaticSafe);
      loaded := LoadPoster(env);
    }

    /** Attaches the camera, when the path wants it, and builds the scene. */
    method PrepareScene(env: Env) returns (built: bool)
      requires Recorded() && Legal(states) && Tracked(env) && state == Loading
      modifies `state, `states, `tier, `path, `finished, `trail
      ensures Recorded() && Legal(states) && Tracked(env) && old(trail) <= trail
      ensures tier == old(tier) && path == if old(path) == CameraXr && !env.camera then Interactive2d else old(path)
      ensures built <==> old(path) == StaticSafe || env.scene
      ensures built ==> state == Loading && finished == old(finished)
      ensures !built ==> state == Error && finished
    {
      hide *;
      Ranks(path);
      BootSteps();
      if path == StaticSafe {
        return true;
      }
      if path == CameraXr && !env.camera {
        SetServing(env, tier, Interactive2d);
      }
      if !env.scene {
        Fail();
        return false;
      }
      return true;
    }

    /** The second routing call; steps the tier down when it asks for a poorer one. */
    method MaybeDowngrade(env: Env, loaded: Rung) returns (end: Ending)
      requires Recorded() && Legal(states) && Tracked(env) && state == FirstFrame && tier == Some(loaded)
      modifies `state, `states, `tier, `path, `finished, `trail
      ensures Recorded() && Legal(states) && Tracked(env) && old(trail) <= trail && path == old(path)
      ensures tier.Some? && LowersAs(env, tiers, path, loaded, end, tier.value)
      ensures end == Ready ==> state == if AsksLower(env, path, loaded) then Degraded else FirstFrame
      ensures end == Ready ==> finished == old(finished)
      ensures end != Ready ==> state == Error && finished
      ensures end == Threw ==> env.throwsIn == Some(Degraded)
    {
      hide *;
      Ranks(path);
      BootSteps();
      LowersWhen(env, tiers, path, loaded);
      if env.forced || path == StaticSafe || env.second.None? {
        return Ready;
      }
      var second := env.second.value.choice;
      if !IsRung(second) || LadderIndex(second) <= LadderIndex(loaded) {
        return Ready;
      }
      Advance(Degraded);
      if env.throwsIn == Some(Degraded) {
        Fail();
        return Threw;
      }
      if second !in tiers {
        return Ready;
      }
      if second !in env.reloadable {
        Fail();
        return Failed;
      }
      SetServing(env, Some(second), path);
      if !env.secondScene {
        Fail();
        return Failed;
      }
      return Ready;
    }

    /** From boot to the routed path. */
    method Decide(env: Env) returns (routed: bool)
      requires tiers != [] && state == Boot && states == [] && tier == None && trail == []
      modifies `state, `states, `tier, `path, `finished, `trail
      ensures Recorded() && tier == None
      ensures routed ==> Legal(states) && state == Routing && Tracked(env)
      ensures routed ==> path == env.first.path && finished == old(finished)
      ensures !routed ==> !Legal(states) && state == Error && finished && trail == []
      ensures routed <==> env.throwsIn !in {Some(Boot), Some(Probing), Some(Routing)}
    {
      hide *;
      BootSteps();
      Open();
      if env.throwsIn == Some(Boot) { Fail(); return false; }
      Advance(Probing);
      if env.throwsIn == Some(Probing) { Fail(); return false; }
      Advance(Routing);
      if env.throwsIn == Some(Routing) { Fail(); return false; }
      SetPath(env);
      return true;
    }

    /** The boot sequence. An exception in any phase is turned into an error by the handler around it. */
    method Launch(env: Env) returns (end: Ending)
      requires tiers != [] && state == Boot && states == [] && tier == None && trail == []
      modifies `state, `states, `tier, `path, `finished, `trail
      ensures Recorded() && (trail == [] || Tracked(env))
      ensures ServesAs(env, tiers, end, tier, path)
      ensures end == Ready ==> state == Interactive && Legal(states) && finished == old(finished)
      ensures end == Failed ==> state == Error && finished && Legal(states)
      ensures end == Threw ==> state == Error && finished && env.throwsIn.Some?
      ensures end == Threw ==> (Legal(states) <==> env.throwsIn.value in {Loading, Degraded})
    {
      hide *;
      var routed := Decide(env);
      if !routed {
        ThrownBefore(env, tiers, path);
        return Threw;
      }
      BootSteps();
      Advance(Loading);
      if env.throwsIn == Some(Loading) {
        ThrownBefore(env, tiers, path);
        Fail();
        return Threw;
      }
      var loaded := LoadForTier(env, env.first.choice);
      ghost var from := path;
      if loaded.None? {
        Booted(env, tiers, loaded, from, Failed, tier, path);
        return Failed;
      }
      end := EnterFirstFrame(env, loaded.value);
      Booted(env, tiers, loaded, from, end, tier, path);
    }

    /** From loaded assets to the interactive state. */
    method EnterFirstFrame(env: Env, loaded: Rung) returns (end: Ending)
      requires Recorded() && Legal(states) && Tracked(env) && state == Loading && tier == Some(loaded)
      modifies `state, `states, `tier, `path, `finished, `trail
      ensures Recorded() && Tracked(env) && old(trail) <= trail
      ensures tier.Some? && EntersAs(env, tiers, loaded, old(path), end, tier.value, path)
      ensures end == Ready ==> state == Interactive && Legal(states) && finished == old(finished)
      ensures end == Failed ==> state == Error && finished && Legal(states)
      ensures end == Threw ==> state == Error && finished && env.throwsIn in {Some(FirstFrame), Some(Degraded)}
      ensures end == Threw ==> (Legal(states) <==> env.throwsIn == Some(Degraded))
    {
      hide *;
      BootSteps();
      ghost var before := path;
      var built := PrepareScene(env);
      EntersWhen(env, tiers, loaded, before, path);
      if !built {
        return Failed;
      }
      Advance(FirstFrame);
      if env.throwsIn == Some(FirstFrame) {
        Fail();
        return Threw;
      }
      end := MaybeDowngrade(env, loaded);
      if end == Ready {
        Advance(Interactive);
      }
    }

    /** A click on a button that is on screen; the new state is recorded by both of its setters. An
        error hides nothing, so the click may also come after one. */
    method Click(env: Env, b: Button)
      requires Recorded() && shown == ShownIn(b)
      modifies `state, `states, `shown, `finished
      ensures Recorded() && state == shown == Leads(b)
      ensures Legal(states) <==> old(Legal(states)) && Declared(old(state), Leads(b))
      ensures finished == (old(finished) || (b == Checkout && env.paid))
    {
      hide Legal, Declared;
      var next := Leads(b);
      shown := next;
      Twice(states, next);
      ghost var was := states;
      SetState(next);
      assert was + [] == was;
      states := states + [next];
      if b == Checkout && env.paid {
        finished := true;
      }
    }

    /** A whole session: boot, then any clicks, of which those on hidden buttons do nothing, and
        possibly an exception between them. `boot` is how the boot ended. */
    method Session(env: Env, clicks: seq<Button>) returns (end: Ending, ghost boot: Ending)
      requires tiers != [] && state == Boot && states == [] && tier == None && shown == Interactive && trail == [] && !finished
      modifies this
      ensures (trail == [] || Tracked(env)) && ServesAs(env, tiers, boot, tier, path)
      ensures end == if boot == Ready && env.throwsIn == Some(Interactive) then Threw else boot
      ensures end == Threw ==> env.throwsIn.Some?
      ensures shown == if boot == Ready then Walk(clicks) else Interactive
      ensures end == Ready ==> state == shown && (finished <==> env.paid && shown == CheckoutComplete)
      ensures Legal(states) <==> end != Threw || env.throwsIn.value in {Loading, Degraded}
    {
      hide *;
      BootSteps();
      end := Launch(env);
      boot := end;
      if end != Ready {
        return;
      }
      ghost var servedTier, servedPath := tier, path;
      WalkStart(clicks);
      for i := 0 to |clicks|
        invariant Recorded() && (trail == [] || Tracked(env)) && tier == servedTier && path == servedPath
        invariant shown == Walk(clicks[..i]) && shown in {Interactive, ProductDetail, Cart, CheckoutComplete}
        invariant end == Ready ==> state == shown && Legal(states) && (finished <==> env.paid && shown == CheckoutComplete)
        invariant end == Ready && env.throwsIn == Some(Interactive) ==> i <= env.clicksBefore
        invariant end != Ready ==> end == Threw && env.throwsIn == Some(Interactive) && !Legal(states)
      {
        WalkNext(clicks, i);
        ClickSteps(clicks[i]);
        if env.throwsIn == Some(Interactive) && i == env.clicksBefore {
          Fail();
          end := Threw;
        }
        if ShownIn(clicks[i]) == shown {
          Click(env, clicks[i]);
        }
      }
      assert clicks[..|clicks|] == clicks;
      if end == Ready && env.throwsIn == Some(Interactive) {
        Fail();
        end := Threw;
      }
    }
  }
}
