/** The guard around an arbitrary model-backed engine (src/decision/guarded.js). */
module Guarded {
  import opened Prelude
  import opened Capability
  import opened RuleBased

  /** A confidence as the source compares it: nothing for what is not a number (a missing one, say), a
      number, or something else that compares as a number but has no `toFixed` (null, a text, a
      boolean). */
  datatype Confidence = NotANumber | Confident(value: real) | Coerced(value: real)

  /** The comparison with a floor, false when either side is not a number. */
  predicate Below(c: Confidence, floor: Number) {
    !c.NotANumber? && floor.Some? && c.value < floor.value
  }

  /** Reporting a confidence below the floor throws. */
  predicate Unreportable(c: Confidence, floor: Number) {
    Below(c, floor) && c.Coerced?
  }

  /** A confidence passes the floor when it reaches it, or when either of the two is not a number. */
  predicate Passes(c: Confidence, floor: Number) {
    match c
    case NotANumber => true
    case Confident(value) => floor == None || value >= floor.value
    case Coerced(value) => floor == None || value >= floor.value
  }

  lemma PassesIff(c: Confidence, floor: Number)
    ensures Passes(c, floor) <==> !Below(c, floor)
    ensures Unreportable(c, floor) <==> c.Coerced? && !Passes(c, floor)
  {
  }

  /** What awaiting the primary engine gives: an exception, which the guard reports as text where it
      has one, a value without the fields the guard reads, or an answer. */
  datatype Answer<T> = Threw(hasText: bool) | Malformed | Answered(value: T)

  /** What the caller of the guard gets: a value or a rejected promise. */
  datatype Outcome<T> = Rejected | Served(value: T, overridden: bool)

  // ---- tier routing -------------------------------------------------------------------------

  datatype TierDecision = TierDecision(tier: Tier, path: string, confidence: Confidence)

  datatype Counter = Trusted | LowConfidence | Infeasible | Failed | Uncounted

  /** The rule engine's answer, none when it throws; its confidence is not part of what the guard
      decides. */
  function SafeDecision(s: Snapshot, m: Manifest, confidence: Confidence): Option<TierDecision>
    requires Budgeted(m)
  {
    if Routable(m) then Some(TierDecision(Pick(Rounded, s, m), ResolvePath(s, m, Pick(Rounded, s, m)), confidence))
    else None
  }

  function Route(s: Snapshot, m: Manifest, floor: Number, safe: Option<TierDecision>, primary: Answer<TierDecision>)
    : (Outcome<TierDecision>, Counter)
  {
    if safe.None? then (Rejected, Uncounted)
    else
      match primary
      case Threw(hasText) => (if hasText then Served(safe.value, true) else Rejected, Failed)
      case Malformed => (Rejected, Uncounted)
      case Answered(d) =>
        if !Askable(m, d.tier) then (Rejected, Uncounted)
        else if !TierRenderable(s, m, d.tier) then (if d.tier.Textless? then Rejected else Served(safe.value, true), Infeasible)
        else if Unreportable(d.confidence, floor) then (Rejected, LowConfidence)
        else if Below(d.confidence, floor) then (Served(safe.value, true), LowConfidence)
        else (Served(d.(path := ResolvePath(s, m, d.tier)), false), Trusted)
  }

  predicate SafelyServed(s: Snapshot, m: Manifest, r: Outcome<TierDecision>) {
    r.Served? ==> TierRenderable(s, m, r.value.tier) && r.value.path == ResolvePath(s, m, r.value.tier)
  }

  /** Whatever the primary engine does, a served tier is renderable and carries its own path. A call
      is rejected uncounted for a tier without a requirement list or an answer without fields, and
      counted for an exception, a tier or a confidence that cannot be reported. */
  lemma ServedIsSafe(s: Snapshot, m: Manifest, floor: Number, c: Confidence, primary: Answer<TierDecision>)
    requires Budgeted(m)
    ensures var (r, counter) := Route(s, m, floor, SafeDecision(s, m, c), primary);
      && SafelyServed(s, m, r)
      && (r.Rejected? <==>
        || !Routable(m) || primary.Malformed? || (primary.Threw? && !primary.hasText)
        || (primary.Answered? && (!Askable(m, primary.value.tier) || primary.value.tier.Textless?))
        || (primary.Answered? && TierRenderable(s, m, primary.value.tier) && Unreportable(primary.value.confidence, floor)))
      && (r.Rejected? && counter == LowConfidence <==>
        Routable(m) && primary.Answered? && TierRenderable(s, m, primary.value.tier)
        && Unreportable(primary.value.confidence, floor))
      && (r.Rejected? && counter == Infeasible <==> Routable(m) && primary.Answered? && primary.value.tier.Textless?)
      && (r.Rejected? && counter == Failed <==> Routable(m) && primary.Threw? && !primary.hasText)
      && (counter == Uncounted <==>
        !Routable(m) || primary.Malformed? || (primary.Answered? && !Askable(m, primary.value.tier)))
  {
    hide Pick, ResolvePath, Meets;
    TextlessIsUnlisted(m.tiers);
    NeverUnrenderable(Rounded, s, m);
  }

  /** Under a reduced-motion preference, what is served is the poster exactly when the model's answer is
      the poster, if it is renderable and not below the floor, and otherwise when `high` is not an
      unscored tier: the guard does not repeat the rule engine's exclusion. */
  lemma ReducedMotionServed(s: Snapshot, m: Manifest, floor: Number, c: Confidence, primary: Answer<TierDecision>)
    requires Budgeted(m) && s.reducedMotionPreferred
    ensures var r := Route(s, m, floor, SafeDecision(s, m, c), primary).0;
      r.Served? ==>
      && (r.value.tier == StaticFallback <==>
        if primary.Answered? && TierRenderable(s, m, primary.value.tier) && !Below(primary.value.confidence, floor)
        then primary.value.tier == StaticFallback else !Unscored(s, m))
      && (r.value.tier == StaticFallback ==> r.value.path == "static-safe")
  {
    hide Pick, TierRenderable, Askable;
    ReducedMotion(Rounded, s, m);
  }

  /** Which counter a call ends at, and what of the model's answer is served. */
  lemma EndsWhere(s: Snapshot, m: Manifest, floor: Number, c: Confidence, primary: Answer<TierDecision>)
    requires Budgeted(m) && Routable(m)
    ensures var (r, counter) := Route(s, m, floor, SafeDecision(s, m, c), primary);
      && (counter == Failed <==> primary.Threw?)
      && (counter == Infeasible <==>
        primary.Answered? && Askable(m, primary.value.tier) && !TierRenderable(s, m, primary.value.tier))
      && (counter == LowConfidence <==>
        primary.Answered? && TierRenderable(s, m, primary.value.tier) && !Passes(primary.value.confidence, floor))
      && (counter == Trusted <==>
        primary.Answered? && TierRenderable(s, m, primary.value.tier) && Passes(primary.value.confidence, floor))
      && (r.Served? ==> r.overridden == (counter != Trusted))
      && (r.Served? ==> r.value.tier == if r.overridden then Pick(Rounded, s, m) else primary.value.tier)
      && (r.Served? ==> r.value.confidence == if r.overridden then c else primary.value.confidence)
  {
    hide Pick, ResolvePath, Meets;
    if primary.Answered? {
      PassesIff(primary.value.confidence, floor);
    }
  }

  // ---- the counters over every interleaving -------------------------------------------------

  /** The routing half of the engine. A call runs `Begin`, waits, and later runs `Finish`; other
      calls may begin or finish in between. */
  class GuardedEngine {
    const tierFloor: Number
    var total: nat
    var trusted: nat
    var overriddenLowConfidence: nat
    var overriddenInfeasible: nat
    var overriddenError: nat
    ghost var inFlight: nat
    ghost var uncounted: nat
    ghost var rejected: nat

    constructor (tierFloor: Number)
      ensures Balanced() && total == 0 && inFlight == 0 && rejected == 0 && this.tierFloor == tierFloor
    {
      this.tierFloor := tierFloor;
      total, trusted, overriddenLowConfidence, overriddenInfeasible, overriddenError := 0, 0, 0, 0, 0;
      inFlight, uncounted, rejected := 0, 0, 0;
    }

    /** Every call ever begun is counted once, is still in flight, or ended uncounted. The calls that
        end uncounted are rejected; the other rejected ones are among the overrides. */
    ghost predicate Balanced()
      reads this
    {
      && total == trusted + overriddenLowConfidence + overriddenInfeasible + overriddenError + inFlight + uncounted
      && uncounted <= rejected <= uncounted + overriddenLowConfidence + overriddenInfeasible + overriddenError
    }

    /** What each counter stands at. */
    ghost function Count(c: Counter): nat
      reads this
    {
      match c
      case Trusted => trusted
      case LowConfidence => overriddenLowConfidence
      case Infeasible => overriddenInfeasible
      case Failed => overriddenError
      case Uncounted => uncounted
    }

    method Begin()
      requires Balanced()
      modifies this
      ensures Balanced() && total == old(total) + 1 && inFlight == old(inFlight) + 1 && rejected == old(rejected)
      ensures forall c :: Count(c) == old(Count(c))
    {
      total := total + 1;
      inFlight := inFlight + 1;
    }

    method Finish(s: Snapshot, m: Manifest, safe: Option<TierDecision>, primary: Answer<TierDecision>)
      returns (r: Outcome<TierDecision>)
      requires Balanced() && inFlight > 0
      modifies this
      ensures Balanced() && total == old(total) && inFlight == old(inFlight) - 1
      ensures r == Route(s, m, tierFloor, safe, primary).0
      ensures forall c :: Count(c) == old(Count(c)) + (if c == Route(s, m, tierFloor, safe, primary).1 then 1 else 0)
      ensures rejected == old(rejected) + (if r.Rejected? then 1 else 0)
    {
      hide TierRenderable, ResolvePath, Askable, Below;
      inFlight := inFlight - 1;
      if safe.None? {
        uncounted, rejected := uncounted + 1, rejected + 1;
        return Rejected;
      }
      if primary.Threw? {
        overriddenError := overriddenError + 1;
        if !primary.hasText {
          rejected := rejected + 1;
          return Rejected;
        }
        return Served(safe.value, true);
      }
      if primary.Malformed? || !Askable(m, primary.value.tier) {
        uncounted, rejected := uncounted + 1, rejected + 1;
        return Rejected;
      }
      var d := primary.value;
      if !TierRenderable(s, m, d.tier) {
        overriddenInfeasible := overriddenInfeasible + 1;
        if d.tier.Textless? {
          rejected := rejected + 1;
          return Rejected;
        }
        return Served(safe.value, true);
      }
      if Below(d.confidence, tierFloor) {
        overriddenLowConfidence := overriddenLowConfidence + 1;
        if d.confidence.Coerced? {
          rejected := rejected + 1;
          return Rejected;
        }
        return Served(safe.value, true);
      }
      trusted := trusted + 1;
      return Served(d.(path := ResolvePath(s, m, d.tier)), false);
    }
  }

  datatype Event =
    | Began
    | Finished(s: Snapshot, m: Manifest, safeConfidence: Confidence, primary: Answer<TierDecision>)

  function Begun(events: seq<Event>): nat {
    if events == [] then 0
    else Begun(events[..|events| - 1]) + (if events[|events| - 1].Began? then 1 else 0)
  }

  predicate AllBudgeted(events: seq<Event>) {
    forall i :: 0 <= i < |events| && events[i].Finished? ==> Budgeted(events[i].m)
  }

  /** No call finishes before it began. */
  predicate Causal(events: seq<Event>) {
    AllBudgeted(events) && forall n :: 0 <= n <= |events| ==> n <= 2 * Begun(events[..n])
  }

  lemma BegunNext(events: seq<Event>, i: nat)
    requires i < |events|
    ensures Begun(events[..i + 1]) == Begun(events[..i]) + (if events[i].Began? then 1 else 0)
  {
    assert events[..i + 1][..i] == events[..i];
  }

  /** The finished calls, in order. */
  function FinishedOf(events: seq<Event>): seq<Event> {
    if events == [] then []
    else FinishedOf(events[..|events| - 1]) + (if events[|events| - 1].Began? then [] else [events[|events| - 1]])
  }

  /** How one call ends: its outcome and its counter. */
  function End(floor: Number, e: Event): (Outcome<TierDecision>, Counter)
    requires e.Finished? && Budgeted(e.m)
  {
    Route(e.s, e.m, floor, SafeDecision(e.s, e.m, e.safeConfidence), e.primary)
  }

  /** The outcomes of the finished calls, in order, for a given floor. */
  function Outcomes(floor: Number, events: seq<Event>): (rs: seq<Outcome<TierDecision>>)
    requires AllBudgeted(events)
  {
    if events == [] then []
    else
      var e := events[|events| - 1];
      Outcomes(floor, events[..|events| - 1]) + (if e.Began? then [] else [End(floor, e).0])
  }

  function EndsAt(floor: Number, e: Event, c: Counter): nat
    requires e.Finished? ==> Budgeted(e.m)
  {
    if e.Finished? && End(floor, e).1 == c then 1 else 0
  }

  /** How many finished calls end at a counter. */
  function Ended(floor: Number, events: seq<Event>, c: Counter): nat
    requires AllBudgeted(events)
  {
    if events == [] then 0
    else
      var e := events[|events| - 1];
      Ended(floor, events[..|events| - 1], c) + EndsAt(floor, e, c)
  }

  /** How often the model's own answer was served. */
  function OwnAnswers(rs: seq<Outcome<TierDecision>>): nat {
    if rs == [] then 0
    else OwnAnswers(rs[..|rs| - 1]) + (if rs[|rs| - 1].Served? && !rs[|rs| - 1].overridden then 1 else 0)
  }

  function Rejections(rs: seq<Outcome<TierDecision>>): nat {
    if rs == [] then 0
    else Rejections(rs[..|rs| - 1]) + (if rs[|rs| - 1].Rejected? then 1 else 0)
  }

  lemma Snoc(rs: seq<Outcome<TierDecision>>, r: Outcome<TierDecision>)
    ensures OwnAnswers(rs + [r]) == OwnAnswers(rs) + (if r.Served? && !r.overridden then 1 else 0)
    ensures Rejections(rs + [r]) == Rejections(rs) + (if r.Rejected? then 1 else 0)
  {
  }

  /** The model's tier is served exactly when the rule engine answers and that tier is renderable and
      not below the floor, which nothing that is not a number is. */
  lemma TrustedIff(s: Snapshot, m: Manifest, floor: Number, safe: Option<TierDecision>, primary: Answer<TierDecision>)
    ensures var (r, counter) := Route(s, m, floor, safe, primary);
      && (counter == Trusted <==> r.Served? && !r.overridden)
      && (counter == Trusted <==>
        safe.Some? && primary.Answered? && TierRenderable(s, m, primary.value.tier) && !Below(primary.value.confidence, floor))
      && (counter == Trusted ==> r.value.tier == primary.value.tier)
      && (r.Served? && r.overridden ==> Some(r.value) == safe)
  {
    hide Meets, ResolvePath;
  }

  lemma NothingEnded(floor: Number)
    ensures Outcomes(floor, []) == [] && forall c :: Ended(floor, [], c) == 0
  {
  }

  lemma EndedNext(floor: Number, events: seq<Event>, i: nat)
    requires AllBudgeted(events) && i < |events|
    ensures AllBudgeted(events[..i]) && AllBudgeted(events[..i + 1])
    ensures events[i].Began? ==> Outcomes(floor, events[..i + 1]) == Outcomes(floor, events[..i])
    ensures events[i].Finished? ==> Outcomes(floor, events[..i + 1]) == Outcomes(floor, events[..i]) + [End(floor, events[i]).0]
    ensures forall c :: Ended(floor, events[..i + 1], c) == Ended(floor, events[..i], c) + EndsAt(floor, events[i], c)
  {
    hide End, EndsAt;
    assert events[..i + 1][..i] == events[..i];
  }

  /** Over every interleaving of calls the counters balance, each is the number of calls that ended
      there, `trusted` is the number of the model's own answers served, and what the callers saw
      rejected is what ended uncounted or unreportable. */
  method Replay(engine: GuardedEngine, events: seq<Event>) returns (served: seq<Outcome<TierDecision>>)
    requires engine.Balanced() && engine.total == 0 && Causal(events)
    modifies engine
    ensures engine.Balanced() && engine.total == Begun(events) && engine.inFlight == 2 * Begun(events) - |events|
    ensures served == Outcomes(engine.tierFloor, events)
    ensures forall c :: engine.Count(c) == Ended(engine.tierFloor, events, c)
    ensures engine.trusted == OwnAnswers(served) && engine.rejected == Rejections(served)
  {
    hide Route, SafeDecision, Outcomes, Ended;
    served := [];
    NothingEnded(engine.tierFloor);
    assert events[..0] == [];
    for i := 0 to |events|
      invariant engine.Balanced() && engine.total == Begun(events[..i]) && engine.inFlight == 2 * Begun(events[..i]) - i
      invariant AllBudgeted(events[..i]) && served == Outcomes(engine.tierFloor, events[..i])
      invariant forall c :: engine.Count(c) == Ended(engine.tierFloor, events[..i], c)
      invariant engine.Count(Trusted) == OwnAnswers(served) && engine.rejected == Rejections(served)
    {
      BegunNext(events, i);
      EndedNext(engine.tierFloor, events, i);
      if events[i].Began? {
        engine.Begin();
      } else {
        assert i + 1 <= 2 * Begun(events[..i + 1]);
        var e := events[i];
        var safe := SafeDecision(e.s, e.m, e.safeConfidence);
        TrustedIff(e.s, e.m, engine.tierFloor, safe, e.primary);
        var r := engine.Finish(e.s, e.m, safe, e.primary);
        Snoc(served, r);
        served := served + [r];
      }
    }
    assert events[..|events|] == events;
  }

  /** The k-th outcome of every interleaving is how the k-th finished call ends, and is safe for that
      call's own device and manifest. */
  lemma {:induction false} OutcomesAreSafe(floor: Number, events: seq<Event>)
    requires AllBudgeted(events)
    ensures var calls := FinishedOf(events);
      && |Outcomes(floor, events)| == |calls|
      && forall k :: 0 <= k < |calls| ==>
        && calls[k].Finished? && Budgeted(calls[k].m)
        && Outcomes(floor, events)[k] == End(floor, calls[k]).0
        && SafelyServed(calls[k].s, calls[k].m, Outcomes(floor, events)[k])
  {
    hide Route, SafeDecision, SafelyServed, Budgeted;
    if events != [] {
      var e := events[|events| - 1];
      OutcomesAreSafe(floor, events[..|events| - 1]);
      if e.Finished? {
        ServedIsSafe(e.s, e.m, floor, e.safeConfidence, e.primary);
      }
    }
  }

  // ---- preflight ----------------------------------------------------------------------------

  datatype Preflight = Preflight(tier: Tier, confidence: Confidence)

  /** Richer tiers rank higher; an unknown name ranks below the poster. */
  function TierRank(t: Tier): int {
    match t
    case High => 3
    case Mid => 2
    case Low => 1
    case StaticFallback => 0
    case _ => -1
  }

  function Assess(floor: Number, safe: Preflight, primary: Answer<Preflight>): Outcome<Preflight> {
    match primary
    case Threw(hasText) => if hasText then Served(safe, true) else Rejected
    case Malformed => Rejected
    case Answered(p) =>
      if Unreportable(p.confidence, floor) then Rejected
      else if Below(p.confidence, floor) || TierRank(p.tier) > TierRank(safe.tier) then Served(safe, true) else Served(p, false)
  }

  /** Preflight advice is never richer than the deterministic advice, and is the model's own exactly
      when that is no richer and not below the floor. */
  lemma PreflightNeverRicher(floor: Number, safe: Preflight, primary: Answer<Preflight>)
    ensures var r := Assess(floor, safe, primary);
      && (r.Rejected? <==>
        || primary.Malformed? || (primary.Threw? && !primary.hasText)
        || (primary.Answered? && Unreportable(primary.value.confidence, floor)))
      && (r.Served? ==> TierRank(r.value.tier) <= TierRank(safe.tier))
      && (r.Served? && !r.overridden <==>
        primary.Answered? && !Below(primary.value.confidence, floor) && TierRank(primary.value.tier) <= TierRank(safe.tier))
      && (r.Served? ==> r.value == if r.overridden then safe else primary.value)
  {
  }

  /** Of the four served tiers each is richer than those after it, and each is richer than any other name. */
  predicate Richer(a: Tier, b: Tier) {
    match b
    case High => false
    case Mid => a == High
    case Low => a == High || a == Mid
    case StaticFallback => a == High || a == Mid || a == Low
    case _ => a == High || a == Mid || a == Low || a == StaticFallback
  }

  /** Which advice is served, by name. */
  lemma PreflightByTier(floor: Number, safe: Preflight, p: Preflight)
    ensures Assess(floor, safe, Answered(p)) ==
      if p.confidence.Coerced? && !Passes(p.confidence, floor) then Rejected
      else if !Passes(p.confidence, floor) || Richer(p.tier, safe.tier) then Served(safe, true)
      else Served(p, false)
  {
    PassesIff(p.confidence, floor);
  }

  // ---- judging a trace ----------------------------------------------------------------------

  /** `TextlessOutcome` stands for an object that cannot be turned into text. */
  datatype TraceOutcome = Pass | DegradedButAcceptable | Inconclusive | Fail | OtherOutcome(name: string) | TextlessOutcome

  function SeverityRank(o: TraceOutcome): nat {
    match o
    case Pass => 0
    case DegradedButAcceptable => 1
    case Inconclusive => 2
    case Fail => 3
    case _ => 2
  }

  /** A verdict's gating outcome and its fan-out answers: a comfort level (higher is worse), the
      probability of a usable fallback (lower is worse), and incident matches (higher is worse). */
  datatype Verdict = Verdict(
    outcome: TraceOutcome,
    confidence: Confidence,
    comfortRisk: Option<real>,
    accessibleFallback: Option<real>,
    incidentMatches: Option<map<string, real>>)

  /** The model's verdict, its incident answers in the order they are listed. */
  datatype PrimaryVerdict = PrimaryVerdict(
    outcome: TraceOutcome,
    confidence: Confidence,
    comfortRisk: Option<real>,
    accessibleFallback: Option<real>,
    incidents: Option<seq<(string, real)>>)

  datatype Key = ComfortRisk | AccessibleFallback | Incident(name: string)

  datatype Change = Change(key: Key, was: Option<real>, became: real)

  predicate Replaces(current: Option<real>, answer: real) {
    current.None? || answer > current.value
  }

  function Lookup(matches: map<string, real>, key: string): Option<real> {
    if key in matches then Some(matches[key]) else None
  }

  function MergeEntry(matches: map<string, real>, e: (string, real)): map<string, real> {
    if Replaces(Lookup(matches, e.0), e.1) then matches[e.0 := e.1] else matches
  }

  function EntryChange(matches: map<string, real>, e: (string, real)): seq<Change> {
    if Replaces(Lookup(matches, e.0), e.1) then [Change(Incident(e.0), Lookup(matches, e.0), e.1)] else []
  }

  function MergeEntries(base: map<string, real>, entries: seq<(string, real)>): map<string, real> {
    if entries == [] then base
    else MergeEntry(MergeEntries(base, entries[..|entries| - 1]), entries[|entries| - 1])
  }

  function EntryChanges(base: map<string, real>, entries: seq<(string, real)>): seq<Change> {
    if entries == [] then []
    else
      EntryChanges(base, entries[..|entries| - 1])
      + EntryChange(MergeEntries(base, entries[..|entries| - 1]), entries[|entries| - 1])
  }

  /** An object lists each key once. */
  predicate DistinctKeys(entries: seq<(string, real)>) {
    forall i, j :: 0 <= i < j < |entries| ==> entries[i].0 != entries[j].0
  }

  predicate WellFormed(p: PrimaryVerdict) {
    p.incidents.Some? ==> DistinctKeys(p.incidents.value)
  }

  function BaseMatches(safe: Verdict): map<string, real> {
    if safe.incidentMatches.Some? then safe.incidentMatches.value else map[]
  }

  function Merge(safe: Verdict, primary: PrimaryVerdict): Verdict {
    var comfort := if primary.comfortRisk.Some? && Replaces(safe.comfortRisk, primary.comfortRisk.value)
      then primary.comfortRisk else safe.comfortRisk;
    var fallback := if primary.accessibleFallback.Some?
      && (safe.accessibleFallback.None? || primary.accessibleFallback.value < safe.accessibleFallback.value)
      then primary.accessibleFallback else safe.accessibleFallback;
    var matches := if primary.incidents.None? then safe.incidentMatches
      else
        var merged := MergeEntries(BaseMatches(safe), primary.incidents.value);
        if merged.Keys != {} then Some(merged) else safe.incidentMatches;
    safe.(comfortRisk := comfort, accessibleFallback := fallback, incidentMatches := matches)
  }

  function Provenance(safe: Verdict, primary: PrimaryVerdict): seq<Change> {
    (if primary.comfortRisk.Some? && Replaces(safe.comfortRisk, primary.comfortRisk.value)
     then [Change(ComfortRisk, safe.comfortRisk, primary.comfortRisk.value)] else [])
    + (if primary.accessibleFallback.Some?
         && (safe.accessibleFallback.None? || primary.accessibleFallback.value < safe.accessibleFallback.value)
       then [Change(AccessibleFallback, safe.accessibleFallback, primary.accessibleFallback.value)] else [])
    + (if primary.incidents.Some? then EntryChanges(BaseMatches(safe), primary.incidents.value) else [])
  }

  method MergeTighteningFanOut(safe: Verdict, primary: PrimaryVerdict) returns (verdict: Verdict, provenance: seq<Change>)
    ensures verdict == Merge(safe, primary) && provenance == Provenance(safe, primary)
  {
    hide MergeEntries, EntryChanges, Replaces;
    provenance := [];
    verdict := safe;
    if primary.comfortRisk.Some? && Replaces(safe.comfortRisk, primary.comfortRisk.value) {
      provenance := provenance + [Change(ComfortRisk, safe.comfortRisk, primary.comfortRisk.value)];
      verdict := verdict.(comfortRisk := primary.comfortRisk);
    }
    if primary.accessibleFallback.Some?
      && (safe.accessibleFallback.None? || primary.accessibleFallback.value < safe.accessibleFallback.value)
    {
      provenance := provenance + [Change(AccessibleFallback, safe.accessibleFallback, primary.accessibleFallback.value)];
      verdict := verdict.(accessibleFallback := primary.accessibleFallback);
    }
    if primary.incidents.Some? {
      var matches, changes := MergeIncidents(BaseMatches(safe), primary.incidents.value);
      provenance := provenance + changes;
      if matches.Keys != {} {
        verdict := verdict.(incidentMatches := Some(matches));
      }
    }
  }

  /** The merge of the incident answers, key by key. */
  method MergeIncidents(base: map<string, real>, entries: seq<(string, real)>)
    returns (matches: map<string, real>, changes: seq<Change>)
    ensures matches == MergeEntries(base, entries) && changes == EntryChanges(base, entries)
  {
    matches, changes := base, [];
    for i := 0 to |entries|
      invariant matches == MergeEntries(base, entries[..i]) && changes == EntryChanges(base, entries[..i])
    {
      assert entries[..i + 1][..i] == entries[..i];
      var (key, answer) := entries[i];
      var current := Lookup(matches, key);
      if current.None? || answer > current.value {
        changes := changes + [Change(Incident(key), current, answer)];
        matches := matches[key := answer];
      }
    }
    assert entries[..|entries|] == entries;
  }

  // ---- the merge only tightens, and says where ----------------------------------------------

  function EntryOf(entries: seq<(string, real)>, key: string): Option<real> {
    if entries == [] then None
    else if entries[|entries| - 1].0 == key then Some(entries[|entries| - 1].1)
    else EntryOf(entries[..|entries| - 1], key)
  }

  function SafeAnswer(v: Verdict, key: Key): Option<real> {
    match key
    case ComfortRisk => v.comfortRisk
    case AccessibleFallback => v.accessibleFallback
    case Incident(name) => Lookup(BaseMatches(v), name)
  }

  function PrimaryAnswer(p: PrimaryVerdict, key: Key): Option<real> {
    match key
    case ComfortRisk => p.comfortRisk
    case AccessibleFallback => p.accessibleFallback
    case Incident(name) => if p.incidents.None? then None else EntryOf(p.incidents.value, name)
  }

  /** Answer `a` is present and no more optimistic wherever `b` is present. */
  predicate AsPessimistic(key: Key, a: Option<real>, b: Option<real>) {
    b.Some? ==> a.Some? && (if key == AccessibleFallback then a.value <= b.value else a.value >= b.value)
  }

  lemma {:induction false} KeyNotEarlier(entries: seq<(string, real)>, n: nat)
    requires n < |entries| && DistinctKeys(entries)
    ensures forall m :: 0 <= m <= n ==> EntryOf(entries[..m], entries[n].0).None?
  {
    forall m | 0 <= m <= n ensures EntryOf(entries[..m], entries[n].0).None? {
      NotAmong(entries[..m], entries[n].0);
    }
  }

  lemma {:induction false} NotAmong(entries: seq<(string, real)>, key: string)
    requires forall i :: 0 <= i < |entries| ==> entries[i].0 != key
    ensures EntryOf(entries, key).None?
  {
    if entries != [] {
      NotAmong(entries[..|entries| - 1], key);
    }
  }

  lemma InitDistinct(entries: seq<(string, real)>)
    requires entries != [] && DistinctKeys(entries)
    ensures DistinctKeys(entries[..|entries| - 1])
    ensures EntryOf(entries[..|entries| - 1], entries[|entries| - 1].0).None?
  {
    KeyNotEarlier(entries, |entries| - 1);
  }

  /** Each key keeps the worse of its two answers. */
  lemma {:induction false} MergedLookup(base: map<string, real>, entries: seq<(string, real)>, key: string)
    requires DistinctKeys(entries)
    ensures var e := EntryOf(entries, key);
      Lookup(MergeEntries(base, entries), key) ==
        if e.Some? && Replaces(Lookup(base, key), e.value) then e else Lookup(base, key)
  {
    if entries != [] {
      InitDistinct(entries);
      MergedLookup(base, entries[..|entries| - 1], key);
    }
  }

  /** The change an entry makes to its key, seen from the deterministic answers. */
  predicate IsChange(base: map<string, real>, entries: seq<(string, real)>, c: Change) {
    && c.key.Incident?
    && EntryOf(entries, c.key.name) == Some(c.became)
    && Replaces(Lookup(base, c.key.name), c.became)
    && c.was == Lookup(base, c.key.name)
  }

  lemma {:induction false} ChangesAre(base: map<string, real>, entries: seq<(string, real)>, c: Change)
    requires DistinctKeys(entries)
    ensures c in EntryChanges(base, entries) <==> IsChange(base, entries, c)
  {
    if entries != [] {
      var init, last := entries[..|entries| - 1], entries[|entries| - 1];
      InitDistinct(entries);
      ChangesAre(base, init, c);
      MergedLookup(base, init, last.0);
      var changes := EntryChange(MergeEntries(base, init), last);
      assert EntryChanges(base, entries) == EntryChanges(base, init) + changes;
      hide MergeEntries, EntryChanges;
      assert c in changes <==> c.key == Incident(last.0) && IsChange(base, entries, c);
    }
  }

  predicate DistinctChanges(changes: seq<Change>) {
    forall i, j :: 0 <= i < j < |changes| ==> changes[i].key != changes[j].key
  }

  lemma {:induction false} ChangesDistinct(base: map<string, real>, entries: seq<(string, real)>)
    requires DistinctKeys(entries)
    ensures DistinctChanges(EntryChanges(base, entries))
  {
    if entries != [] {
      var init, last := entries[..|entries| - 1], entries[|entries| - 1];
      InitDistinct(entries);
      ChangesDistinct(base, init);
      var before := EntryChanges(base, init);
      forall i | 0 <= i < |before| ensures before[i].key != Incident(last.0) {
        ChangesAre(base, init, before[i]);
      }
    }
  }

  lemma MergedAnswer(safe: Verdict, primary: PrimaryVerdict, name: string)
    requires WellFormed(primary)
    ensures var e := PrimaryAnswer(primary, Incident(name));
      SafeAnswer(Merge(safe, primary), Incident(name)) ==
        if e.Some? && Replaces(SafeAnswer(safe, Incident(name)), e.value) then e else SafeAnswer(safe, Incident(name))
  {
    if primary.incidents.Some? {
      MergedLookup(BaseMatches(safe), primary.incidents.value, name);
      hide MergeEntries, EntryOf;
    }
  }

  /** Each merged answer is one of the two and no more optimistic than either; the gating outcome
      is untouched. */
  lemma MergeOnlyTightens(safe: Verdict, primary: PrimaryVerdict, key: Key)
    requires WellFormed(primary)
    ensures var merged := Merge(safe, primary);
      && merged.outcome == safe.outcome && merged.confidence == safe.confidence
      && AsPessimistic(key, SafeAnswer(merged, key), SafeAnswer(safe, key))
      && AsPessimistic(key, SafeAnswer(merged, key), PrimaryAnswer(primary, key))
      && (SafeAnswer(merged, key) == SafeAnswer(safe, key) || SafeAnswer(merged, key) == PrimaryAnswer(primary, key))
  {
    hide MergeEntries, EntryOf;
    if key.Incident? {
      MergedAnswer(safe, primary, key.name);
    }
  }

  predicate Listed(changes: seq<Change>, key: Key) {
    exists i :: 0 <= i < |changes| && changes[i].key == key
  }

  lemma IncidentListed(base: map<string, real>, entries: seq<(string, real)>, name: string)
    requires DistinctKeys(entries)
    ensures Listed(EntryChanges(base, entries), Incident(name)) <==>
      EntryOf(entries, name).Some? && Replaces(Lookup(base, name), EntryOf(entries, name).value)
    ensures !Listed(EntryChanges(base, entries), ComfortRisk) && !Listed(EntryChanges(base, entries), AccessibleFallback)
  {
    var changes := EntryChanges(base, entries);
    forall i | 0 <= i < |changes| ensures IsChange(base, entries, changes[i]) {
      ChangesAre(base, entries, changes[i]);
    }
    hide EntryChanges, EntryOf;
    var e := EntryOf(entries, name);
    if e.Some? && Replaces(Lookup(base, name), e.value) {
      var c := Change(Incident(name), Lookup(base, name), e.value);
      ChangesAre(base, entries, c);
      assert c in changes;
    }
  }

  lemma ListedPlus(a: seq<Change>, b: seq<Change>, key: Key)
    ensures Listed(a + b, key) <==> Listed(a, key) || Listed(b, key)
  {
    if Listed(a, key) {
      var i :| 0 <= i < |a| && a[i].key == key;
      assert (a + b)[i].key == key;
    }
    if Listed(b, key) {
      var i :| 0 <= i < |b| && b[i].key == key;
      assert (a + b)[|a| + i].key == key;
    }
  }

  /** The provenance lists exactly the answers that changed. */
  lemma ProvenanceIsExact(safe: Verdict, primary: PrimaryVerdict, key: Key)
    requires WellFormed(primary)
    ensures Listed(Provenance(safe, primary), key) <==> SafeAnswer(Merge(safe, primary), key) != SafeAnswer(safe, key)
  {
    var base := BaseMatches(safe);
    var comfort := if primary.comfortRisk.Some? && Replaces(safe.comfortRisk, primary.comfortRisk.value)
      then [Change(ComfortRisk, safe.comfortRisk, primary.comfortRisk.value)] else [];
    var fallback := if primary.accessibleFallback.Some?
      && (safe.accessibleFallback.None? || primary.accessibleFallback.value < safe.accessibleFallback.value)
      then [Change(AccessibleFallback, safe.accessibleFallback, primary.accessibleFallback.value)] else [];
    var incidents := if primary.incidents.Some? then EntryChanges(base, primary.incidents.value) else [];
    assert Provenance(safe, primary) == comfort + fallback + incidents;
    ListedPlus(comfort + fallback, incidents, key);
    ListedPlus(comfort, fallback, key);
    hide MergeEntries, EntryChanges, EntryOf;
    if primary.incidents.Some? {
      IncidentListed(base, primary.incidents.value, if key.Incident? then key.name else "");
    }
    if key.Incident? {
      MergedAnswer(safe, primary, key.name);
    }
    One(comfort, key);
    One(fallback, key);
  }

  lemma One(changes: seq<Change>, key: Key)
    requires |changes| <= 1
    ensures Listed(changes, key) <==> changes != [] && changes[0].key == key
  {
  }

  /** Each listed change names its key once, with the answer before and the model's answer after. */
  lemma ProvenanceIsTrue(safe: Verdict, primary: PrimaryVerdict)
    requires WellFormed(primary)
    ensures DistinctChanges(Provenance(safe, primary))
    ensures forall c :: c in Provenance(safe, primary) ==>
      && c.was == SafeAnswer(safe, c.key)
      && Some(c.became) == SafeAnswer(Merge(safe, primary), c.key) == PrimaryAnswer(primary, c.key)
  {
    var provenance := Provenance(safe, primary);
    if primary.incidents.Some? {
      var base, entries := BaseMatches(safe), primary.incidents.value;
      var changes := EntryChanges(base, entries);
      forall c | c in changes
        ensures IsChange(base, entries, c) && Some(c.became) == SafeAnswer(Merge(safe, primary), c.key)
      {
        ChangesAre(base, entries, c);
        MergedAnswer(safe, primary, c.key.name);
      }
      ChangesDistinct(base, entries);
      forall i | 0 <= i < |changes| ensures changes[i].key.Incident? {
        assert changes[i] in changes;
      }
    }
    hide MergeEntries, EntryChanges, EntryOf;
  }

  // ---- the served verdict -------------------------------------------------------------------

  function OwnVerdict(p: PrimaryVerdict): Verdict {
    Verdict(p.outcome, p.confidence, p.comfortRisk, p.accessibleFallback,
            if p.incidents.None? then None else Some(MergeEntries(map[], p.incidents.value)))
  }

  /** The override for a more permissive outcome reports it, and an object throws there. */
  predicate UnreportableOutcome(p: PrimaryVerdict, safe: Verdict, floor: Number) {
    p.outcome.TextlessOutcome? && !Below(p.confidence, floor) && SeverityRank(p.outcome) < SeverityRank(safe.outcome)
  }

  function Judge(floor: Number, safe: Verdict, primary: Answer<PrimaryVerdict>): Outcome<Verdict> {
    match primary
    case Threw(hasText) => if hasText then Served(safe, true) else Rejected
    case Malformed => Rejected
    case Answered(p) =>
      if Unreportable(p.confidence, floor) || UnreportableOutcome(p, safe, floor) then Rejected
      else if Below(p.confidence, floor) || SeverityRank(p.outcome) < SeverityRank(safe.outcome)
      then Served(Merge(safe, p), true)
      else Served(OwnVerdict(p), false)
  }

  /** The served outcome is never more permissive than the deterministic one; an overridden verdict
      also keeps every fan-out answer at least as pessimistic. */
  lemma JudgeNeverLoosens(floor: Number, safe: Verdict, primary: Answer<PrimaryVerdict>)
    requires primary.Answered? ==> WellFormed(primary.value)
    ensures var r := Judge(floor, safe, primary);
      && (r.Rejected? <==>
        || primary.Malformed? || (primary.Threw? && !primary.hasText)
        || (primary.Answered?
            && (Unreportable(primary.value.confidence, floor) || UnreportableOutcome(primary.value, safe, floor))))
      && (primary.Threw? && primary.hasText ==> r == Served(safe, true))
      && (r.Served? ==> SeverityRank(r.value.outcome) >= SeverityRank(safe.outcome))
      && (r.Served? && !r.overridden <==>
        primary.Answered? && !Below(primary.value.confidence, floor)
        && SeverityRank(primary.value.outcome) >= SeverityRank(safe.outcome))
      && (r.Served? && r.overridden ==> NoLooser(r.value, safe))
  {
    hide Merge, MergeEntries;
    if primary.Answered? {
      forall key
        ensures AsPessimistic(key, SafeAnswer(Merge(safe, primary.value), key), SafeAnswer(safe, key))
      {
        MergeOnlyTightens(safe, primary.value, key);
      }
      MergeOnlyTightens(safe, primary.value, ComfortRisk);
    }
  }

  /** One outcome lets more through the release gate than another: only `fail` keeps back everything, any
      other outcome but `pass` and `degraded-but-acceptable` is as good as `inconclusive`, whatever its
      name, and `degraded-but-acceptable` is short of `pass`. */
  predicate LetsMoreThrough(a: TraceOutcome, b: TraceOutcome) {
    match b
    case Fail => a != Fail
    case Pass => false
    case DegradedButAcceptable => a == Pass
    case _ => a == Pass || a == DegradedButAcceptable
  }

  lemma RankIff(a: TraceOutcome, b: TraceOutcome)
    ensures SeverityRank(a) < SeverityRank(b) <==> LetsMoreThrough(a, b)
  {
  }

  /** The gate fails closed, outcome by outcome: against a deterministic `fail` only `fail` is served;
      against `inconclusive` or an unlisted outcome never `pass` or `degraded-but-acceptable`; against
      `degraded-but-acceptable` never `pass`; against `pass` whatever the model is sure of. The model's
      own verdict is served exactly when it is sure and lets no more through. */
  lemma FailsClosed(floor: Number, safe: Verdict, p: PrimaryVerdict)
    requires WellFormed(p)
    ensures var r := Judge(floor, safe, Answered(p));
      && (r.Rejected? <==>
        if Passes(p.confidence, floor) then p.outcome.TextlessOutcome? && LetsMoreThrough(p.outcome, safe.outcome)
        else p.confidence.Coerced?)
      && (r.Served? && safe.outcome == Fail ==> r.value.outcome == Fail)
      && (r.Served? && safe.outcome !in {Pass, DegradedButAcceptable} ==> r.value.outcome !in {Pass, DegradedButAcceptable})
      && (r.Served? && safe.outcome == DegradedButAcceptable ==> r.value.outcome != Pass)
      && (safe.outcome == Pass && Passes(p.confidence, floor) ==> r.Served? && !r.overridden)
      && (r.Served? ==> r.overridden == (!Passes(p.confidence, floor) || LetsMoreThrough(p.outcome, safe.outcome)))
      && (r.Served? ==> r.value.outcome == if r.overridden then safe.outcome else p.outcome)
      && (r.Served? ==> r.value.confidence == if r.overridden then safe.confidence else p.confidence)
  {
    hide MergeEntries;
    PassesIff(p.confidence, floor);
    RankIff(p.outcome, safe.outcome);
  }

  /** No fan-out answer of `v` is more optimistic than the one of `safe`. */
  ghost predicate NoLooser(v: Verdict, safe: Verdict) {
    forall key :: AsPessimistic(key, SafeAnswer(v, key), SafeAnswer(safe, key))
  }

  /** A served verdict has no more optimistic fan-out answer exactly when it was overridden or the
      model's own answers are as pessimistic: a trusted verdict brings its own. */
  lemma FanOutLoosensIff(floor: Number, safe: Verdict, p: PrimaryVerdict)
    requires WellFormed(p)
    ensures var r := Judge(floor, safe, Answered(p));
      r.Served? ==>
        (NoLooser(r.value, safe) <==>
          r.overridden || forall key :: AsPessimistic(key, PrimaryAnswer(p, key), SafeAnswer(safe, key)))
  {
    JudgeNeverLoosens(floor, safe, Answered(p));
    hide Merge, AsPessimistic, MergeEntries;
    forall key ensures SafeAnswer(OwnVerdict(p), key) == PrimaryAnswer(p, key) {
      OwnAnswer(p, key);
    }
    hide SafeAnswer, PrimaryAnswer, OwnVerdict;
  }

  lemma OwnAnswer(p: PrimaryVerdict, key: Key)
    requires WellFormed(p)
    ensures SafeAnswer(OwnVerdict(p), key) == PrimaryAnswer(p, key)
  {
    if key.Incident? && p.incidents.Some? {
      MergedLookup(map[], p.incidents.value, key.name);
    }
  }

  /** A trusted verdict with more optimistic side answers. */
  lemma TrustedFanOutMayLoosen(floor: Number)
    requires floor.Some? && floor.value <= 1.0
    ensures var safe := Verdict(Pass, Confident(1.0), Some(4.0), Some(0.05), None);
      var primary := PrimaryVerdict(Pass, Confident(1.0), Some(0.0), Some(0.95), None);
      var r := Judge(floor, safe, Answered(primary));
      && r.Served? && !r.overridden
      && !AsPessimistic(ComfortRisk, SafeAnswer(r.value, ComfortRisk), SafeAnswer(safe, ComfortRisk))
      && !AsPessimistic(AccessibleFallback, SafeAnswer(r.value, AccessibleFallback), SafeAnswer(safe, AccessibleFallback))
  {
  }
}
