/** What the score of src/gate/atlas-score.js is made of: which measurements enter which dimension, and
    which ceiling holds. */
module ScoreParts {
  import opened Prelude
  import opened Reals
  import opened Rounding
  import opened AtlasScore

  /** In fifths: a straight line down to 0.8 at the budget, then an exponential decay. */
  lemma GradeIs(r: real, exp: real -> real)
    requires IsExp(exp)
    ensures r <= 0.0 ==> Grade(Finite(r), exp) == 1.0
    ensures 0.0 <= r <= 1.0 ==> 5.0 * Grade(Finite(r), exp) == 5.0 - r
    ensures 1.0 <= r ==> 5.0 * Grade(Finite(r), exp) == 4.0 * exp(1.0 - r)
    ensures Grade(Infinite, exp) == 0.0
  {
    assert -(r - 1.0) == 1.0 - r;
    if r > 1.0 {
      assert exp(1.0 - r) > 0.0;
    }
  }

  // ---- sums of the parts that were measured -------------------------------------------------

  /** A measurement that was not taken counts for nothing. */
  function Worth(r: Option<Ratio>, exp: real -> real): real {
    if r.Some? then Grade(r.value, exp) else 0.0
  }

  function FlagWorth(b: Option<bool>): real {
    if b == Some(true) then 1.0 else 0.0
  }

  function ResponseWorth(r: Option<Response>, exp: real -> real): real {
    match r
    case None => 0.0
    case Some(Graded(ratio)) => Grade(ratio, exp)
    case Some(HeldOnly(held)) => if held then 1.0 else 0.0
  }

  function Taken<T>(x: Option<T>): nat {
    if x.Some? then 1 else 0
  }

  lemma {:induction false} SumJoined(a: seq<real>, b: seq<real>)
    ensures Sum(a + b) == Sum(a) + Sum(b)
  {
    if b == [] {
      assert a + b == a;
    } else {
      var n := |b| - 1;
      SumJoined(a, b[..n]);
      assert (a + b)[..|a| + n] == a + b[..n];
    }
  }

  lemma SumOfOne(x: real)
    ensures Sum([x]) == x && Sum([]) == 0.0
  {
    assert [x][..0] == [];
  }

  lemma PartIs(r: Option<Ratio>, exp: real -> real)
    ensures Sum(Part(r, exp)) == Worth(r, exp) && |Part(r, exp)| == Taken(r)
  {
    hide Grade;
    SumOfOne(Worth(r, exp));
  }

  lemma InteractionSum(e: Evidence, exp: real -> real)
    ensures var parts := InteractionParts(e, exp);
      && |parts| == 1 + Taken(e.p95Interaction) + Taken(e.droppedFrames)
      && Sum(parts) == FlagWorth(Some(e.orderingOk)) + Worth(e.p95Interaction, exp) + Worth(e.droppedFrames, exp)
  {
    PartIs(e.p95Interaction, exp);
    PartIs(e.droppedFrames, exp);
    SumOfOne(Flag(e.orderingOk));
    hide Part, Sum, Worth, Taken;
    SumJoined([Flag(e.orderingOk)] + Part(e.p95Interaction, exp), Part(e.droppedFrames, exp));
    SumJoined([Flag(e.orderingOk)], Part(e.p95Interaction, exp));
  }

  /** The mean of the legal ordering, the response time and the dropped frames, as far as measured. */
  lemma InteractionIs(e: Evidence, exp: real -> real)
    ensures InteractionScore(e, exp) ==
      Round4((FlagWorth(Some(e.orderingOk)) + Worth(e.p95Interaction, exp) + Worth(e.droppedFrames, exp))
             / (1 + Taken(e.p95Interaction) + Taken(e.droppedFrames)) as real)
  {
    hide InteractionParts, Worth, Taken, FlagWorth, Sum, Round4;
    InteractionSum(e, exp);
  }

  lemma ComfortSum(e: Evidence, exp: real -> real)
    ensures var parts := ComfortParts(e, exp);
      && |parts| == Taken(e.pacing) + Taken(e.xrFallback) + Taken(e.responsiveness)
      && Sum(parts) == Worth(e.pacing, exp) + FlagWorth(e.xrFallback) + ResponseWorth(e.responsiveness, exp)
  {
    hide Grade;
    PartIs(e.pacing, exp);
    SumOfOne(FlagWorth(e.xrFallback));
    SumOfOne(ResponseWorth(e.responsiveness, exp));
    var flag := if e.xrFallback.Some? then [Flag(e.xrFallback.value)] else [];
    var response := ResponsePart(e.responsiveness, exp);
    assert Sum(flag) == FlagWorth(e.xrFallback) && Sum(response) == ResponseWorth(e.responsiveness, exp);
    hide Part, Sum, Worth, FlagWorth, ResponseWorth;
    SumJoined(Part(e.pacing, exp) + flag, response);
    SumJoined(Part(e.pacing, exp), flag);
  }

  /** The mean of the sustained pacing, the XR fallback and the responsiveness, as far as measured. */
  lemma ComfortIs(e: Evidence, exp: real -> real)
    ensures var taken := Taken(e.pacing) + Taken(e.xrFallback) + Taken(e.responsiveness);
      ComfortScore(e, exp) ==
        if taken == 0 then None
        else
          Some(Round4((Worth(e.pacing, exp) + FlagWorth(e.xrFallback) + ResponseWorth(e.responsiveness, exp))
                      / taken as real))
  {
    hide ComfortParts, Worth, Taken, FlagWorth, ResponseWorth, Sum, Round4;
    ComfortSum(e, exp);
  }

  /** One of the visual measurements came to `x`. */
  predicate Seen(e: Evidence, exp: real -> real, x: real) {
    || (e.firstFrameNonBlank.Some? && x == FlagWorth(e.firstFrameNonBlank))
    || (e.focalCoverage.Some? && x == Worth(e.focalCoverage, exp))
    || (e.edgeDrift.Some? && x == Worth(e.edgeDrift, exp))
  }

  lemma SeenIff(e: Evidence, exp: real -> real, x: real)
    ensures Seen(e, exp, x) <==> x in VisualParts(e, exp)
  {
    hide Grade;
  }

  /** The worst of the visual measurements that were taken. */
  lemma VisualIs(e: Evidence, exp: real -> real)
    ensures VisualScore(e, exp).None? <==> e.firstFrameNonBlank.None? && e.focalCoverage.None? && e.edgeDrift.None?
    ensures VisualScore(e, exp).Some? ==>
      exists x :: Seen(e, exp, x) && VisualScore(e, exp) == Some(Round4(x)) && forall y :: Seen(e, exp, y) ==> x <= y
  {
    forall x ensures Seen(e, exp, x) <==> x in VisualParts(e, exp) {
      SeenIff(e, exp, x);
    }
    var parts := VisualParts(e, exp);
    hide Seen, Round4;
    if parts != [] {
      var x := Least(parts);
      assert Seen(e, exp, x);
      forall y | Seen(e, exp, y) ensures x <= y {
        var i :| 0 <= i < |parts| && parts[i] == y;
      }
    }
  }

  /** Three quarters for reaching the end, the last for the number of steps. */
  lemma BusinessIs(e: Evidence, exp: real -> real)
    ensures !e.reachedEndState ==> BusinessScore(e, exp) == 0.0
    ensures e.reachedEndState && e.steps.None? ==> BusinessScore(e, exp) == 1.0
    ensures e.reachedEndState && e.steps.Some? ==> BusinessScore(e, exp) == Round4((3.0 + Worth(e.steps, exp)) / 4.0)
  {
    hide Grade;
    assert Round4(1.0) == 1.0;
    var x, y := 0.75 + 0.25 * Worth(e.steps, exp), (3.0 + Worth(e.steps, exp)) / 4.0;
    assert x == y;
  }

  // ---- the ceiling --------------------------------------------------------------------------

  /** A blank first frame weighs most, then an unfinished flow, an illegal move and a missing fallback. */
  function Highest(e: Evidence): int {
    if e.firstFrameNonBlank == Some(false) then 35
    else if !e.reachedEndState then 40
    else if !e.orderingOk then 45
    else if e.xrFallback == Some(false) then 55
    else 100
  }

  lemma CapIff(e: Evidence, c: int)
    ensures c in Caps(e) <==>
      || (c == 40 && !e.reachedEndState) || (c == 35 && e.firstFrameNonBlank == Some(false))
      || (c == 45 && !e.orderingOk) || (c == 55 && e.xrFallback == Some(false))
  {
  }

  lemma CeilingIs(e: Evidence)
    ensures Ceiling(Caps(e)) == Highest(e)
  {
    forall c ensures c in Caps(e) <==>
      || (c == 40 && !e.reachedEndState) || (c == 35 && e.firstFrameNonBlank == Some(false))
      || (c == 45 && !e.orderingOk) || (c == 55 && e.xrFallback == Some(false))
    {
      CapIff(e, c);
    }
    var caps := Caps(e);
    hide Caps;
    assert Highest(e) == 100 || Highest(e) in caps;
    if Highest(e) in caps {
      var i :| 0 <= i < |caps| && caps[i] == Highest(e);
    }
  }

  /** The displayed score is the rounded mean of the dimensions, or the ceiling where that is lower. */
  lemma ScoreIs(e: Evidence, exp: real -> real)
    ensures Score(e, exp) == if Uncapped(e, exp) >= Highest(e) as real then Highest(e) else Nearest(Uncapped(e, exp))
  {
    CeilingIs(e);
    hide Uncapped, Caps, Ceiling, Highest;
    if Uncapped(e, exp) >= Highest(e) as real {
      NearestUnique(Highest(e) as real, Highest(e));
    }
  }
}
