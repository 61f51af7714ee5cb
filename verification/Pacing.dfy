/** The sliding worst window of src/gate/comfort.js and the two graded comfort dimensions. */
module Pacing {
  import opened Prelude
  import opened Rounding
  import opened Percentiles

  const MIN_WINDOW_SAMPLES := 20
  const WINDOW_PERCENTILE := 0.95

  // ---- the naive definition -----------------------------------------------------------------

  predicate Durations(frames: seq<real>) {
    forall i :: 0 <= i < |frames| ==> frames[i] >= 0.0
  }

  /** The total duration of `frames[a..b]`. */
  function Span(frames: seq<real>, a: nat, b: nat): real
    requires a <= b <= |frames|
  {
    if a == b then 0.0 else Span(frames, a, b - 1) + frames[b - 1]
  }

  predicate Covers(frames: seq<real>, windowMs: real, s: nat, end: nat)
    requires s <= end < |frames|
  {
    Span(frames, s, end + 1) >= windowMs
  }

  /** `s` starts the tightest run ending at `end` that still covers the window. */
  predicate Tightest(frames: seq<real>, windowMs: real, s: nat, end: nat)
    requires s <= end < |frames|
  {
    Covers(frames, windowMs, s, end) && forall t :: s < t <= end ==> !Covers(frames, windowMs, t, end)
  }

  /** The tightest start at or before `from`, found by trying each in turn. */
  function StartFrom(frames: seq<real>, windowMs: real, from: nat, end: nat): (r: Option<nat>)
    requires from <= end < |frames|
    ensures r.Some? ==> r.value <= from && Covers(frames, windowMs, r.value, end)
    ensures r.Some? ==> forall t :: r.value < t <= from ==> !Covers(frames, windowMs, t, end)
    ensures r.None? ==> forall t :: 0 <= t <= from ==> !Covers(frames, windowMs, t, end)
  {
    if Covers(frames, windowMs, from, end) then Some(from)
    else if from == 0 then None
    else StartFrom(frames, windowMs, from - 1, end)
  }

  datatype Window = Window(p95: real, startMs: real, spanMs: real, samples: nat)

  function MakeWindow(frames: seq<real>, s: nat, end: nat): Window
    requires s <= end < |frames|
  {
    var slice := Sort(frames[s..end + 1]);
    Window(Percentile(slice, WINDOW_PERCENTILE).value, Span(frames, 0, s), Span(frames, s, end + 1), end - s + 1)
  }

  /** The window ending at `end`, when there is one with enough samples. */
  function WindowAt(frames: seq<real>, windowMs: real, end: nat): Option<Window>
    requires end < |frames|
  {
    var s := StartFrom(frames, windowMs, end, end);
    if s.None? || end - s.value + 1 < MIN_WINDOW_SAMPLES then None else Some(MakeWindow(frames, s.value, end))
  }

  /** All windows ending before `n`, in order. */
  function Windows(frames: seq<real>, windowMs: real, n: nat): seq<Window>
    requires n <= |frames|
  {
    if n == 0 then []
    else
      var w := WindowAt(frames, windowMs, n - 1);
      Windows(frames, windowMs, n - 1) + (if w.Some? then [w.value] else [])
  }

  function P95s(ws: seq<Window>): (ps: seq<real>)
    ensures |ps| == |ws| && forall i :: 0 <= i < |ws| ==> ps[i] == ws[i].p95
  {
    if ws == [] then [] else P95s(ws[..|ws| - 1]) + [ws[|ws| - 1].p95]
  }

  /** `ws[k]` is the first window of the greatest p95. */
  predicate FirstWorst(ws: seq<Window>, k: nat)
    requires k < |ws|
  {
    && (forall i :: 0 <= i < |ws| ==> ws[i].p95 <= ws[k].p95)
    && (forall i :: 0 <= i < k ==> ws[i].p95 < ws[k].p95)
  }

  // ---- the sliding loop ---------------------------------------------------------------------

  lemma {:induction false} SpanSplit(frames: seq<real>, a: nat, m: nat, b: nat)
    requires a <= m <= b <= |frames|
    ensures Span(frames, a, b) == Span(frames, a, m) + Span(frames, m, b)
  {
    if m < b {
      SpanSplit(frames, a, m, b - 1);
    }
  }

  lemma {:induction false} SpanShrinks(frames: seq<real>, a: nat, m: nat, b: nat)
    requires a <= m <= b <= |frames| && Durations(frames)
    ensures Span(frames, m, b) <= Span(frames, a, b)
    decreases m - a
  {
    if a < m {
      SpanShrinks(frames, a + 1, m, b);
      SpanSplit(frames, a, a + 1, b);
      assert Span(frames, a, a + 1) == frames[a];
    }
  }

  lemma DropFirst(frames: seq<real>, a: nat, b: nat)
    requires a < b <= |frames|
    ensures Span(frames, a, b) - frames[a] == Span(frames, a + 1, b)
    ensures Span(frames, 0, a) + frames[a] == Span(frames, 0, a + 1)
  {
    SpanSplit(frames, a, a + 1, b);
    assert Span(frames, a, a + 1) == frames[a];
  }

  /** Where the shrinking loop stops is where the naive search stops. */
  lemma StopsTight(frames: seq<real>, windowMs: real, s: nat, end: nat)
    requires s <= end < |frames| && Durations(frames) && Covers(frames, windowMs, s, end)
    requires s < end ==> !Covers(frames, windowMs, s + 1, end)
    ensures StartFrom(frames, windowMs, end, end) == Some(s) && Tightest(frames, windowMs, s, end)
  {
    forall t | s < t <= end ensures !Covers(frames, windowMs, t, end) {
      SpanShrinks(frames, s + 1, t, end + 1);
    }
  }

  lemma NothingCovers(frames: seq<real>, windowMs: real, end: nat)
    requires end < |frames| && Durations(frames) && !Covers(frames, windowMs, 0, end)
    ensures StartFrom(frames, windowMs, end, end).None?
  {
    var r := StartFrom(frames, windowMs, end, end);
    if r.Some? {
      SpanShrinks(frames, 0, r.value, end + 1);
    }
  }

  method Shrink(frames: seq<real>, windowMs: real, end: nat, start0: nat, sum0: real, before0: real)
    returns (start: nat, sum: real, elapsedBeforeStart: real)
    requires Durations(frames) && start0 <= end < |frames|
    requires sum0 == Span(frames, start0, end + 1) && before0 == Span(frames, 0, start0)
    requires start0 == 0 || Covers(frames, windowMs, start0, end)
    ensures start <= end && sum == Span(frames, start, end + 1) && elapsedBeforeStart == Span(frames, 0, start)
    ensures start == 0 || Covers(frames, windowMs, start, end)
    ensures StartFrom(frames, windowMs, end, end) == if sum >= windowMs then Some(start) else None
  {
    hide StartFrom;
    start, sum, elapsedBeforeStart := start0, sum0, before0;
    while start < end && sum - frames[start] >= windowMs
      invariant start <= end && sum == Span(frames, start, end + 1) && elapsedBeforeStart == Span(frames, 0, start)
      invariant start == 0 || Covers(frames, windowMs, start, end)
    {
      DropFirst(frames, start, end + 1);
      sum := sum - frames[start];
      elapsedBeforeStart := elapsedBeforeStart + frames[start];
      start := start + 1;
    }
    DropFirst(frames, start, end + 1);
    if sum >= windowMs {
      StopsTight(frames, windowMs, start, end);
    } else {
      NothingCovers(frames, windowMs, end);
    }
  }

  datatype Worst = Worst(window: Window, windows: nat, medianWindowP95: real)

  predicate WorstOf(ws: seq<Window>, worst: Option<Window>) {
    if worst.None? then ws == []
    else exists k :: 0 <= k < |ws| && ws[k] == worst.value && FirstWorst(ws, k)
  }

  /** Appending a window keeps the first worst unless the new one is strictly worse. */
  lemma WorstOfSnoc(ws: seq<Window>, worst: Option<Window>, w: Window)
    requires WorstOf(ws, worst)
    ensures WorstOf(ws + [w], if worst.None? || w.p95 > worst.value.p95 then Some(w) else worst)
  {
    var all := ws + [w];
    if worst.None? {
      assert all[0] == w && FirstWorst(all, 0);
    } else {
      var k :| 0 <= k < |ws| && ws[k] == worst.value && FirstWorst(ws, k);
      if w.p95 > worst.value.p95 {
        assert all[|ws|] == w && FirstWorst(all, |ws|);
      } else {
        assert all[k] == worst.value && FirstWorst(all, k);
      }
    }
  }

  lemma NoFrames(frames: seq<real>, windowMs: real)
    ensures Windows(frames, windowMs, 0) == [] && WorstOf([], None) && P95s([]) == [] && Span(frames, 0, 0) == 0.0
  {
  }

  lemma SomeWorst(ws: seq<Window>, worst: Option<Window>)
    requires WorstOf(ws, worst) && worst.Some?
    ensures ws != []
  {
  }

  lemma WindowIs(frames: seq<real>, s: nat, end: nat)
    requires s <= end < |frames|
    ensures MakeWindow(frames, s, end) == Window(
      Percentile(Sort(frames[s..end + 1]), WINDOW_PERCENTILE).value, Span(frames, 0, s), Span(frames, s, end + 1), end - s + 1)
  {
  }

  lemma SpanNext(frames: seq<real>, a: nat, b: nat)
    requires a <= b < |frames|
    ensures Span(frames, a, b + 1) == Span(frames, a, b) + frames[b]
  {
  }

  lemma P95sSnoc(ws: seq<Window>, w: Window)
    ensures P95s(ws + [w]) == P95s(ws) + [w.p95]
  {
  }

  lemma NextWindow(frames: seq<real>, windowMs: real, start: nat, end: nat)
    requires start <= end < |frames|
    requires StartFrom(frames, windowMs, end, end) ==
      if Span(frames, start, end + 1) >= windowMs then Some(start) else None
    ensures Windows(frames, windowMs, end + 1) ==
      if Span(frames, start, end + 1) < windowMs || end - start + 1 < MIN_WINDOW_SAMPLES
      then Windows(frames, windowMs, end)
      else Windows(frames, windowMs, end) + [MakeWindow(frames, start, end)]
  {
  }

  /** The sliding loop reports the first worst of all tightest windows, how many there were, and
      the median of their p95s; nothing is reported exactly when there are none. */
  method WorstWindow(frames: seq<real>, windowMs: real) returns (r: Option<Worst>)
    requires Durations(frames)
    ensures var ws := Windows(frames, windowMs, |frames|);
      && WorstOf(ws, if r.Some? then Some(r.value.window) else None)
      && (r.Some? ==> r.value.windows == |ws| && Some(r.value.medianWindowP95) == Percentile(Sort(P95s(ws)), 0.5))
  {
    hide Span, StartFrom, Sort, Percentile, FirstWorst, WorstOf, P95s, Ascending, Windows, MakeWindow;
    NoFrames(frames, windowMs);
    if |frames| < MIN_WINDOW_SAMPLES {
      TooFew(frames, windowMs, |frames|);
      return None;
    }
    var windowP95s: seq<real> := [];
    var worst: Option<Window> := None;
    var start: nat, sum, elapsedBeforeStart := 0, 0.0, 0.0;
    for end := 0 to |frames|
      invariant start <= end && sum == Span(frames, start, end) && elapsedBeforeStart == Span(frames, 0, start)
      invariant start == 0 || sum >= windowMs
      invariant windowP95s == P95s(Windows(frames, windowMs, end))
      invariant WorstOf(Windows(frames, windowMs, end), worst)
    {
      SpanNext(frames, start, end);
      sum := sum + frames[end];
      start, sum, elapsedBeforeStart := Shrink(frames, windowMs, end, start, sum, elapsedBeforeStart);
      NextWindow(frames, windowMs, start, end);
      if sum < windowMs {
        continue;
      }
      var samples := end - start + 1;
      if samples < MIN_WINDOW_SAMPLES {
        continue;
      }
      var slice := Sort(frames[start..end + 1]);
      var p95 := Percentile(slice, WINDOW_PERCENTILE).value;
      ghost var w := MakeWindow(frames, start, end);
      WindowIs(frames, start, end);
      P95sSnoc(Windows(frames, windowMs, end), w);
      WorstOfSnoc(Windows(frames, windowMs, end), worst, w);
      windowP95s := windowP95s + [p95];
      if worst.None? || p95 > worst.value.p95 {
        worst := Some(Window(p95, elapsedBeforeStart, sum, samples));
      }
    }
    if worst.None? {
      return None;
    }
    SomeWorst(Windows(frames, windowMs, |frames|), worst);
    var median := Percentile(Sort(windowP95s), 0.5);
    return Some(Worst(worst.value, |windowP95s|, median.value));
  }

  lemma {:induction false} TooFew(frames: seq<real>, windowMs: real, n: nat)
    requires n <= |frames| && n < MIN_WINDOW_SAMPLES
    ensures Windows(frames, windowMs, n) == []
  {
    if n > 0 {
      TooFew(frames, windowMs, n - 1);
    }
  }

  // ---- which windows there are --------------------------------------------------------------

  /** The samples from `s` to `end` as a window: the 95th percentile of their durations, where they start
      and how long they take. */
  predicate IsWindow(frames: seq<real>, s: nat, end: nat, w: Window)
    requires s <= end < |frames|
  {
    && Percentile(Sort(frames[s..end + 1]), 0.95) == Some(w.p95)
    && w.startMs == Span(frames, 0, s) && w.spanMs == Span(frames, s, end + 1) && w.samples == end - s + 1
  }

  /** They are the shortest run ending there that covers the window, and at least twenty. */
  ghost predicate Yields(frames: seq<real>, windowMs: real, s: nat, end: nat, w: Window) {
    s + 19 <= end < |frames| && Tightest(frames, windowMs, s, end) && IsWindow(frames, s, end, w)
  }

  lemma TightestIff(frames: seq<real>, windowMs: real, s: nat, end: nat)
    requires s <= end < |frames|
    ensures Tightest(frames, windowMs, s, end) <==> StartFrom(frames, windowMs, end, end) == Some(s)
  {
    hide Covers;
  }

  lemma WindowAtIff(frames: seq<real>, windowMs: real, end: nat, w: Window)
    requires end < |frames|
    ensures WindowAt(frames, windowMs, end) == Some(w) <==> exists s: nat :: Yields(frames, windowMs, s, end, w)
  {
    hide StartFrom, Tightest, Percentile, Sort, Span;
    var r := StartFrom(frames, windowMs, end, end);
    if r.Some? {
      TightestIff(frames, windowMs, r.value, end);
      if WindowAt(frames, windowMs, end) == Some(w) {
        assert Yields(frames, windowMs, r.value, end, w);
      }
    }
    forall s: nat | Yields(frames, windowMs, s, end, w) ensures WindowAt(frames, windowMs, end) == Some(w) {
      TightestIff(frames, windowMs, s, end);
    }
  }

  /** The windows that the worst is chosen from are exactly those. */
  lemma {:induction false} WindowsIff(frames: seq<real>, windowMs: real, n: nat, w: Window)
    requires n <= |frames|
    ensures w in Windows(frames, windowMs, n) <==> exists s: nat, end: nat :: end < n && Yields(frames, windowMs, s, end, w)
  {
    hide WindowAt, Yields;
    if n == 0 {
      assert Windows(frames, windowMs, 0) == [];
    } else {
      WindowsIff(frames, windowMs, n - 1, w);
      WindowAtIff(frames, windowMs, n - 1, w);
      var before, last := Windows(frames, windowMs, n - 1), WindowAt(frames, windowMs, n - 1);
      InSnoc(before, last, w);
    }
  }

  lemma InSnoc(ws: seq<Window>, last: Option<Window>, w: Window)
    ensures w in ws + (if last.Some? then [last.value] else []) <==> w in ws || last == Some(w)
  {
  }

  // ---- what ingest guarantees ---------------------------------------------------------------

  const MAX_FRAME_MS := 10000.0

  predicate IsFrame(x: real) {
    0.0 <= x <= MAX_FRAME_MS
  }

  /** The samples from 0 to ten seconds, rounded, in their order. */
  function Frames(raw: seq<real>): (out: seq<real>)
    ensures |out| <= |raw| && Durations(out)
  {
    if raw == [] then []
    else
      var last := raw[|raw| - 1];
      assert Round4(0.0) == 0.0;
      Round4Order(0.0, if last < 0.0 then 0.0 else last);
      Frames(raw[..|raw| - 1]) + (if IsFrame(last) then [Round4(last)] else [])
  }

  function Cut(xs: seq<real>, limit: nat): seq<real> {
    if |xs| <= limit then xs else xs[..limit]
  }

  /** One more sample is kept, to the nearest ten-thousandth, from nothing to ten seconds. */
  lemma FramesNext(raw: seq<real>, x: real)
    ensures Frames(raw + [x]) == Frames(raw) + (if 0.0 <= x && x <= 10000.0 then [Round4(x)] else [])
  {
    assert (raw + [x])[..|raw|] == raw;
    hide Round4;
  }

  /** A longer recording adds frames at the end only. */
  lemma {:induction false} FramesGrow(raw: seq<real>, i: nat)
    requires i <= |raw|
    ensures Frames(raw[..i]) <= Frames(raw)
  {
    if i < |raw| {
      FramesGrow(raw[..|raw| - 1], i);
      assert raw[..|raw| - 1][..i] == raw[..i];
    } else {
      assert raw[..i] == raw;
    }
  }

  /** Ingest keeps exactly the first `limit` of them. */
  method FrameTimes(raw: seq<real>, limit: nat) returns (out: seq<real>)
    ensures out == Cut(Frames(raw), limit)
    ensures Durations(out) && |out| <= limit
  {
    hide Round4, IsFrame;
    out := [];
    for i := 0 to |raw|
      invariant out == Frames(raw[..i]) && |out| <= limit
    {
      if |out| >= limit {
        FramesGrow(raw, i);
        break;
      }
      assert raw[..i + 1][..i] == raw[..i];
      if !IsFrame(raw[i]) {
        continue;
      }
      out := out + [Round4(raw[i])];
    }
    assert raw[..|raw|] == raw;
  }

  // ---- held and ratio -----------------------------------------------------------------------

  datatype Dimension = Inapplicable | Graded(held: bool, ratio: Option<real>)

  function SustainedPacing(worst: Option<Worst>, sustainedFpsFloor: real): Dimension
    requires sustainedFpsFloor > 0.0
  {
    if worst.None? then Inapplicable
    else
      var ceilingMs := 1000.0 / sustainedFpsFloor;
      Graded(worst.value.window.p95 <= ceilingMs, Some(Round4(worst.value.window.p95 / ceilingMs)))
  }

  function Responsiveness(p95: Option<real>, count: nat, budgetMs: real): Dimension {
    if p95.None? || count == 0 then Inapplicable
    else Graded(p95.value <= budgetMs, if budgetMs > 0.0 then Some(Round4(p95.value / budgetMs)) else None)
  }

  /** Held agrees with `ratio <= 1` except when the measurement is over budget by less than one part
      in twenty thousand, which rounds to a ratio of one. */
  lemma HeldVersusRatio(p95: real, budgetMs: real)
    requires budgetMs > 0.0
    ensures (p95 <= budgetMs <==> Round4(p95 / budgetMs) <= 1.0) <==> !(budgetMs < p95 < budgetMs * 1.00005)
  {
    Round4AtMost(p95 / budgetMs, 10000);
    hide Round4;
    Quotient(p95, budgetMs, 1.0);
    Quotient(p95, budgetMs, 1.00005);
    assert (10000 as real + 0.5) / 10000.0 == 1.00005;
  }

  lemma Quotient(x: real, d: real, c: real)
    requires d > 0.0
    ensures x / d < c <==> x < d * c
    ensures x / d <= c <==> x <= d * c
  {
    var q := x / d;
    assert x == q * d;
    if q < c {
      assert (c - q) * d > 0.0;
    } else if q > c {
      assert (q - c) * d > 0.0;
    }
  }

  lemma PacingHeldIff(worst: Worst, sustainedFpsFloor: real)
    requires sustainedFpsFloor > 0.0
    ensures var d := SustainedPacing(Some(worst), sustainedFpsFloor);
      var ceilingMs := 1000.0 / sustainedFpsFloor;
      (d.held <==> d.ratio.value <= 1.0) <==> !(ceilingMs < worst.window.p95 < ceilingMs * 1.00005)
  {
  }

  lemma ResponseHeldIff(p95: real, count: nat, budgetMs: real)
    requires count > 0 && budgetMs > 0.0
    ensures var d := Responsiveness(Some(p95), count, budgetMs);
      (d.held <==> d.ratio.value <= 1.0) <==> !(budgetMs < p95 < budgetMs * 1.00005)
  {
    hide Round4;
    HeldVersusRatio(p95, budgetMs);
  }

  /** A tap response of 100.001 ms against 100 ms is not held, yet its ratio is one. */
  lemma OverBudgetByRounding()
    ensures Responsiveness(Some(100.001), 1, 100.0) == Graded(false, Some(1.0))
  {
  }
}
