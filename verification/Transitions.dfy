/** The transition-graph toolkit of src/manifest/validate.js: reachability, shortest paths, and the
    check of an observed state sequence against the graph. */
module Transitions {
  import opened Prelude

  type State = string

  type Edges = seq<(State, State)>

  ghost predicate IsPath(edges: Edges, p: seq<State>, from: State, to: State) {
    && p != [] && p[0] == from && p[|p| - 1] == to
    && forall i :: 0 <= i < |p| - 1 ==> (p[i], p[i + 1]) in edges
  }

  ghost predicate Reachable(edges: Edges, from: State, to: State) {
    exists p :: IsPath(edges, p, from, to)
  }

  ghost predicate Shortest(edges: Edges, p: seq<State>, from: State, to: State) {
    && IsPath(edges, p, from, to)
    && forall q :: IsPath(edges, q, from, to) ==> |p| <= |q|
  }

  function Targets(edges: Edges, from: State): set<State> {
    {from} + set e | e in edges :: e.1
  }

  lemma Extend(edges: Edges, p: seq<State>, from: State, a: State, b: State)
    requires IsPath(edges, p, from, a) && (a, b) in edges
    ensures IsPath(edges, p + [b], from, b)
  {
  }

  // ---- reachability -------------------------------------------------------------------------

  /** Every successor of a state in `done` has been seen. */
  ghost predicate Expanded(edges: Edges, done: set<State>, seen: set<State>) {
    forall e :: e in edges && e.0 in done ==> e.1 in seen
  }

  lemma {:induction false} ClosedContains(edges: Edges, seen: set<State>, p: seq<State>, from: State, to: State)
    requires from in seen && Expanded(edges, seen, seen) && IsPath(edges, p, from, to)
    ensures to in seen
    decreases |p|
  {
    if |p| > 1 {
      var q := p[..|p| - 1];
      assert forall i :: 0 <= i < |q| - 1 ==> (q[i], q[i + 1]) == (p[i], p[i + 1]);
      ClosedContains(edges, seen, q, from, q[|q| - 1]);
      assert (p[|p| - 2], p[|p| - 1]) in edges;
    }
  }

  ghost predicate AllReachable(edges: Edges, from: State, seen: set<State>) {
    forall s :: s in seen ==> Reachable(edges, from, s)
  }

  method ReachableStates(edges: Edges, from: State) returns (seen: set<State>)
    ensures forall s :: s in seen <==> Reachable(edges, from, s)
  {
    hide Reachable;
    seen := {from};
    var queue := [from];
    StartReachable(edges, from);
    while queue != []
      invariant from in seen && seen <= Targets(edges, from) && AllReachable(edges, from, seen)
      invariant (forall q :: q in queue ==> q in seen) && ExpandedExcept(edges, queue, seen)
      decreases |Targets(edges, from) - seen|, |queue|
    {
      var cur := queue[0];
      seen, queue := SeeSuccessors(edges, from, cur, seen, queue[1..], queue);
    }
    assert Expanded(edges, seen, seen);
    forall s ensures s in seen <==> Reachable(edges, from, s) {
      if Reachable(edges, from, s) { ReachableSeen(edges, from, seen, s); }
    }
  }

  /** The queue loop's invariant: only queued states may have unseen successors. */
  ghost predicate ExpandedExcept(edges: Edges, queue: seq<State>, seen: set<State>) {
    forall e :: e in edges && e.0 in seen && e.0 !in queue ==> e.1 in seen
  }

  /** The scan of all transitions for those that leave `cur`. */
  method SeeSuccessors(edges: Edges, from: State, cur: State, seen0: set<State>, rest: seq<State>, ghost queue0: seq<State>)
    returns (seen: set<State>, queue: seq<State>)
    requires queue0 == [cur] + rest && (forall q :: q in queue0 ==> q in seen0) && ExpandedExcept(edges, queue0, seen0)
    requires seen0 <= Targets(edges, from) && AllReachable(edges, from, seen0)
    ensures seen0 <= seen <= Targets(edges, from) && AllReachable(edges, from, seen)
    ensures (forall q :: q in queue ==> q in seen) && ExpandedExcept(edges, queue, seen)
    ensures |Targets(edges, from) - seen| < |Targets(edges, from) - seen0| || (seen == seen0 && queue == rest)
  {
    hide Reachable, Targets;
    seen, queue := seen0, rest;
    for k := 0 to |edges|
      invariant seen0 <= seen <= Targets(edges, from) && AllReachable(edges, from, seen)
      invariant (forall q :: q in queue ==> q in seen) && forall q :: q in rest ==> q in queue
      invariant seen == seen0 ==> queue == rest
      invariant forall s :: s in seen && s !in seen0 ==> s in queue
      invariant forall i :: 0 <= i < k && edges[i].0 == cur ==> edges[i].1 in seen
    {
      var (a, b) := edges[k];
      if a == cur && b !in seen {
        assert (a, b) in edges;
        StepReachable(edges, from, a, b);
        TargetIn(edges, from, a, b);
        seen := seen + {b};
        queue := queue + [b];
      }
    }
    if seen != seen0 {
      Smaller(Targets(edges, from), seen0, seen);
    }
  }

  lemma TargetIn(edges: Edges, from: State, a: State, b: State)
    requires (a, b) in edges
    ensures b in Targets(edges, from)
  {
  }

  lemma StartReachable(edges: Edges, from: State)
    ensures Reachable(edges, from, from)
  {
    assert IsPath(edges, [from], from, from);
  }

  lemma StepReachable(edges: Edges, from: State, a: State, b: State)
    requires Reachable(edges, from, a) && (a, b) in edges
    ensures Reachable(edges, from, b)
  {
    var p :| IsPath(edges, p, from, a);
    Extend(edges, p, from, a, b);
  }

  lemma ReachableSeen(edges: Edges, from: State, seen: set<State>, s: State)
    requires from in seen && Expanded(edges, seen, seen) && Reachable(edges, from, s)
    ensures s in seen
  {
    var p :| IsPath(edges, p, from, s);
    ClosedContains(edges, seen, p, from, s);
  }

  lemma Smaller<T>(all: set<T>, less: set<T>, more: set<T>)
    requires less < more <= all
    ensures |all - more| < |all - less|
  {
    var x :| x in more && x !in less;
    assert all - more < all - less by { assert x in all - less && x !in all - more; }
    StrictSubset(all - more, all - less);
  }

  lemma StrictSubset<T>(a: set<T>, b: set<T>)
    requires a < b
    ensures |a| < |b|
  {
    var x :| x in b && x !in a;
    assert b == (b - {x}) + {x};
    Subset(a, b - {x});
  }

  lemma {:induction false} Subset<T>(a: set<T>, b: set<T>)
    requires a <= b
    ensures |a| <= |b|
  {
    if a != {} {
      var x :| x in a;
      Subset(a - {x}, b - {x});
    }
  }

  // ---- shortest paths -----------------------------------------------------------------------

  type Prev = map<State, Option<State>>

  /** `prev` is a tree rooted at `from`, and `dist` its depth. */
  ghost predicate Tree(edges: Edges, from: State, prev: Prev, dist: map<State, nat>) {
    && prev.Keys == dist.Keys && from in prev && prev[from] == None && dist[from] == 0
    && forall s :: s in prev && s != from ==> ChildOf(edges, prev, dist, s)
  }

  ghost predicate ChildOf(edges: Edges, prev: Prev, dist: map<State, nat>, s: State)
    requires prev.Keys == dist.Keys && s in prev
  {
    prev[s].Some? && prev[s].value in prev && (prev[s].value, s) in edges && dist[s] == dist[prev[s].value] + 1
  }

  /** The waiting states are in order of depth, and nothing is more than a step deeper than the first. */
  ghost predicate Layered(waiting: seq<State>, dist: map<State, nat>) {
    && (forall i :: 0 <= i < |waiting| ==> waiting[i] in dist)
    && (forall i, j :: 0 <= i < j < |waiting| ==> dist[waiting[i]] <= dist[waiting[j]])
    && (waiting != [] ==> forall s :: s in dist ==> dist[s] <= dist[waiting[0]] + 1)
  }

  /** The successors of `s` along the first `k` transitions are known, at most one step deeper. */
  ghost predicate Settled(edges: Edges, dist: map<State, nat>, s: State, k: nat)
    requires k <= |edges|
  {
    s in dist && forall i :: 0 <= i < k && edges[i].0 == s ==> edges[i].1 in dist && dist[edges[i].1] <= dist[s] + 1
  }

  ghost predicate SettledExcept(edges: Edges, dist: map<State, nat>, waiting: seq<State>) {
    forall s :: s in dist && s !in waiting ==> Settled(edges, dist, s, |edges|)
  }

  lemma {:induction false} NoCloser(edges: Edges, from: State, dist: map<State, nat>, p: seq<State>, to: State, bound: nat)
    requires from in dist && dist[from] == 0 && IsPath(edges, p, from, to) && |p| - 1 <= bound
    requires forall s :: s in dist && dist[s] < bound ==> Settled(edges, dist, s, |edges|)
    ensures to in dist && dist[to] <= |p| - 1
    decreases |p|
  {
    if |p| > 1 {
      var q := p[..|p| - 1];
      assert forall i :: 0 <= i < |q| - 1 ==> (q[i], q[i + 1]) == (p[i], p[i + 1]);
      var a := q[|q| - 1];
      NoCloser(edges, from, dist, q, a, bound);
      assert (p[|p| - 2], p[|p| - 1]) in edges;
      var i :| 0 <= i < |edges| && edges[i] == (a, to);
    }
  }

  lemma AddState(edges: Edges, from: State, prev: Prev, dist: map<State, nat>, waiting: seq<State>, cur: State, b: State)
    requires Tree(edges, from, prev, dist) && Layered(waiting, dist) && waiting != [] && waiting[0] == cur
    requires SettledExcept(edges, dist, waiting) && (cur, b) in edges && b !in prev
    ensures var prev', dist', waiting' := prev[b := Some(cur)], dist[b := dist[cur] + 1], waiting + [b];
      Tree(edges, from, prev', dist') && Layered(waiting', dist') && SettledExcept(edges, dist', waiting')
  {
  }

  lemma Dequeue(edges: Edges, dist: map<State, nat>, cur: State, queue: seq<State>)
    requires Layered([cur] + queue, dist) && SettledExcept(edges, dist, [cur] + queue) && Settled(edges, dist, cur, |edges|)
    ensures Layered(queue, dist) && SettledExcept(edges, dist, queue)
  {
    var waiting := [cur] + queue;
    assert forall i :: 0 <= i < |queue| ==> queue[i] == waiting[i + 1];
    forall s | s in dist && s !in queue ensures Settled(edges, dist, s, |edges|) {
      if s != cur {
        assert s !in waiting;
      }
    }
  }

  /** The scan of all transitions that leave `cur`, the state just taken from the queue. */
  method Expand(edges: Edges, from: State, cur: State, prev0: Prev, rest: seq<State>, ghost dist0: map<State, nat>)
    returns (prev: Prev, queue: seq<State>, ghost dist: map<State, nat>)
    requires Tree(edges, from, prev0, dist0) && Layered([cur] + rest, dist0) && SettledExcept(edges, dist0, [cur] + rest)
    requires prev0.Keys == dist0.Keys && cur in dist0 && prev0.Keys <= Targets(edges, from)
    ensures Tree(edges, from, prev, dist) && Layered(queue, dist) && SettledExcept(edges, dist, queue)
    ensures prev.Keys <= Targets(edges, from)
    ensures |Targets(edges, from) - prev.Keys| < |Targets(edges, from) - prev0.Keys| || (prev == prev0 && queue == rest)
  {
    hide Settled, Targets, Tree, Layered, SettledExcept;
    prev, queue, dist := prev0, rest, dist0;
    assert ([cur] + rest)[0] == cur;
    SettleFirst(edges, dist, cur);
    for k := 0 to |edges|
      invariant Tree(edges, from, prev, dist) && Layered([cur] + queue, dist) && SettledExcept(edges, dist, [cur] + queue)
      invariant prev.Keys == dist.Keys && prev0.Keys <= prev.Keys <= Targets(edges, from)
      invariant prev.Keys == prev0.Keys ==> prev == prev0 && queue == rest
      invariant Settled(edges, dist, cur, k)
    {
      var (a, b) := edges[k];
      if a == cur && b !in prev {
        assert (cur, b) in edges;
        AddState(edges, from, prev, dist, [cur] + queue, cur, b);
        TargetIn(edges, from, a, b);
        assert [cur] + (queue + [b]) == [cur] + queue + [b];
        assert Settled(edges, dist[b := dist[cur] + 1], cur, k + 1) by { SettleNew(edges, dist, cur, k, b); }
        prev, dist := prev[b := Some(cur)], dist[b := dist[cur] + 1];
        queue := queue + [b];
      } else {
        SettleKnown(edges, dist, queue, cur, k);
      }
    }
    Dequeue(edges, dist, cur, queue);
    if prev.Keys != prev0.Keys {
      Smaller(Targets(edges, from), prev0.Keys, prev.Keys);
    }
  }

  lemma SettleFirst(edges: Edges, dist: map<State, nat>, cur: State)
    requires cur in dist
    ensures Settled(edges, dist, cur, 0)
  {
  }

  lemma SettleNew(edges: Edges, dist: map<State, nat>, cur: State, k: nat, b: State)
    requires k < |edges| && edges[k] == (cur, b) && b !in dist && Settled(edges, dist, cur, k)
    ensures Settled(edges, dist[b := dist[cur] + 1], cur, k + 1)
  {
  }

  lemma SettleKnown(edges: Edges, dist: map<State, nat>, queue: seq<State>, cur: State, k: nat)
    requires k < |edges| && Settled(edges, dist, cur, k) && Layered([cur] + queue, dist)
    requires edges[k].0 == cur ==> edges[k].1 in dist
    ensures Settled(edges, dist, cur, k + 1)
  {
  }

  /** The path from the root of the tree to `s`. */
  ghost function TreePath(edges: Edges, from: State, prev: Prev, dist: map<State, nat>, s: State): (p: seq<State>)
    requires Tree(edges, from, prev, dist) && s in prev
    ensures IsPath(edges, p, from, s) && |p| == dist[s] + 1
    decreases dist[s]
  {
    if s == from then [s]
    else
      assert ChildOf(edges, prev, dist, s);
      var above := TreePath(edges, from, prev, dist, prev[s].value);
      Extend(edges, above, from, prev[s].value, s);
      above + [s]
  }

  /** The states of a path after the last one with an empty name. */
  function AfterEmptyName(p: seq<State>): seq<State> {
    if p == [] || p[|p| - 1] == "" then [] else AfterEmptyName(p[..|p| - 1]) + [p[|p| - 1]]
  }

  /** No state closer to `from` than `to` is left to expand, or none at all. */
  ghost predicate Searched(edges: Edges, dist: map<State, nat>, to: State) {
    forall s :: s in dist && (to in dist ==> dist[s] < dist[to]) ==> Settled(edges, dist, s, |edges|)
  }

  lemma SearchedIsShortest(edges: Edges, from: State, prev: Prev, dist: map<State, nat>, to: State)
    requires Tree(edges, from, prev, dist) && Searched(edges, dist, to)
    ensures to !in prev ==> !Reachable(edges, from, to)
    ensures to in prev ==> Shortest(edges, TreePath(edges, from, prev, dist, to), from, to)
  {
    forall q | IsPath(edges, q, from, to) ensures to in prev && dist[to] <= |q| - 1 {
      if to !in prev || |q| - 1 < dist[to] {
        NoCloser(edges, from, dist, q, to, |q| - 1);
      }
    }
  }

  lemma FirstIsClosest(edges: Edges, dist: map<State, nat>, queue: seq<State>)
    requires queue != [] && Layered(queue, dist) && SettledExcept(edges, dist, queue)
    ensures Searched(edges, dist, queue[0])
  {
  }

  lemma ExhaustedIsSearched(edges: Edges, dist: map<State, nat>, to: State)
    requires SettledExcept(edges, dist, [])
    ensures Searched(edges, dist, to)
  {
  }

  /** The search: the tree of predecessors, deep enough to decide `to`. */
  method Search(edges: Edges, from: State, to: State) returns (prev: Prev)
    ensures exists dist :: Tree(edges, from, prev, dist) && Searched(edges, dist, to)
  {
    hide *;
    prev := map[from := None];
    ghost var dist: map<State, nat> := map[from := 0];
    var queue := [from];
    StartTree(edges, from);
    while queue != []
      invariant Tree(edges, from, prev, dist) && prev.Keys <= Targets(edges, from)
      invariant Layered(queue, dist) && SettledExcept(edges, dist, queue)
      decreases |Targets(edges, from) - prev.Keys|, |queue|
    {
      var cur, rest := queue[0], queue[1..];
      if cur == to {
        FirstIsClosest(edges, dist, queue);
        return;
      }
      HeadAndRest(queue);
      SameKeys(edges, from, prev, dist);
      FirstKnown(dist, queue);
      prev, queue, dist := Expand(edges, from, cur, prev, rest, dist);
    }
    ExhaustedIsSearched(edges, dist, to);
  }

  lemma HeadAndRest(queue: seq<State>)
    requires queue != []
    ensures queue == [queue[0]] + queue[1..]
  {
  }

  lemma FirstKnown(dist: map<State, nat>, queue: seq<State>)
    requires queue != [] && Layered(queue, dist)
    ensures queue[0] in dist
  {
  }

  lemma SameKeys(edges: Edges, from: State, prev: Prev, dist: map<State, nat>)
    requires Tree(edges, from, prev, dist)
    ensures prev.Keys == dist.Keys
  {
  }

  lemma StartTree(edges: Edges, from: State)
    ensures Tree(edges, from, map[from := None], map[from := 0]) && from in Targets(edges, from)
    ensures Layered([from], map[from := 0]) && SettledExcept(edges, map[from := 0], [from])
  {
  }

  /** Null exactly when `to` is unreachable. Otherwise a shortest path from `from` to `to`, except that
      the walk back to the start stops at a state with an empty name. */
  method ShortestPath(edges: Edges, from: State, to: State) returns (r: Option<seq<State>>)
    ensures r.None? <==> !Reachable(edges, from, to)
    ensures r.Some? ==> exists p :: Shortest(edges, p, from, to) && r.value == AfterEmptyName(p)
  {
    hide AfterEmptyName, Searched;
    var prev := Search(edges, from, to);
    ghost var dist :| Tree(edges, from, prev, dist) && Searched(edges, dist, to);
    SearchedIsShortest(edges, from, prev, dist, to);
    if to !in prev {
      return None;
    }
    assert Reachable(edges, from, to) by { assert IsPath(edges, TreePath(edges, from, prev, dist, to), from, to); }
    var path := WalkBack(edges, from, prev, dist, to);
    return Some(path);
  }

  /** The walk along `prev`; an empty name ends it like the null above the root does. */
  method WalkBack(edges: Edges, from: State, prev: Prev, ghost dist: map<State, nat>, to: State) returns (path: seq<State>)
    requires Tree(edges, from, prev, dist) && to in prev
    ensures path == AfterEmptyName(TreePath(edges, from, prev, dist, to))
  {
    hide AfterEmptyName, Tree, ChildOf, IsPath;
    path := [];
    var cur := Some(to);
    SameKeys(edges, from, prev, dist);
    ghost var full := TreePath(edges, from, prev, dist, to);
    while cur.Some? && cur.value != ""
      invariant cur.Some? ==> cur.value in prev
      invariant AfterEmptyName(full)
                  == (if cur.Some? then AfterEmptyName(TreePath(edges, from, prev, dist, cur.value)) else []) + path
      decreases if cur.Some? then dist[cur.value] + 1 else 0
    {
      WalkStep(edges, from, prev, dist, cur.value);
      path := [cur.value] + path;
      cur := prev[cur.value];
    }
    if cur.Some? {
      WalkStop(edges, from, prev, dist);
    }
  }

  lemma WalkStop(edges: Edges, from: State, prev: Prev, dist: map<State, nat>)
    requires Tree(edges, from, prev, dist) && "" in prev
    ensures AfterEmptyName(TreePath(edges, from, prev, dist, "")) == []
  {
  }

  lemma WalkStep(edges: Edges, from: State, prev: Prev, dist: map<State, nat>, s: State)
    requires Tree(edges, from, prev, dist) && s in prev && s != ""
    ensures if s == from then prev[s].None? else prev[s].Some? && prev[s].value in prev && dist[prev[s].value] < dist[s]
    ensures AfterEmptyName(TreePath(edges, from, prev, dist, s))
              == (if s == from then [] else AfterEmptyName(TreePath(edges, from, prev, dist, prev[s].value))) + [s]
  {
  }

  // ---- when the walk returns the whole path -------------------------------------------------

  lemma {:induction false} WholePath(p: seq<State>)
    ensures AfterEmptyName(p) == p <==> "" !in p
    ensures "" in p ==> |AfterEmptyName(p)| < |p|
  {
    if p != [] && p[|p| - 1] != "" {
      WholePath(p[..|p| - 1]);
      assert p == p[..|p| - 1] + [p[|p| - 1]];
    }
  }

  /** The result is a path from `from` to `to` exactly when the shortest path found has no empty name on it. */
  lemma ResultIsPath(edges: Edges, p: seq<State>, from: State, to: State)
    requires Shortest(edges, p, from, to)
    ensures IsPath(edges, AfterEmptyName(p), from, to) <==> "" !in p
  {
    WholePath(p);
  }

  /** That is so for every call from a named start when no transition leaves a named state for an
      empty name. */
  lemma NamedStates(edges: Edges, p: seq<State>, from: State, to: State)
    requires IsPath(edges, p, from, to) && from != "" && LeavesNamed(edges)
    ensures "" !in p
  {
    forall i | 0 <= i < |p| ensures p[i] != "" {
      NeverEmpty(edges, p, i);
    }
  }

  ghost predicate LeavesNamed(edges: Edges) {
    forall e :: e in edges && e.0 != "" ==> e.1 != ""
  }

  lemma {:induction false} NeverEmpty(edges: Edges, p: seq<State>, i: nat)
    requires i < |p| && IsPath(edges, p, p[0], p[|p| - 1]) && p[0] != ""
    requires LeavesNamed(edges)
    ensures p[i] != ""
  {
    if i > 0 {
      NeverEmpty(edges, p, i - 1);
      assert (p[i - 1], p[i]) in edges;
    }
  }

  /** And never when the start or the end has an empty name. */
  lemma EmptyNameLost(edges: Edges, p: seq<State>, from: State, to: State)
    requires IsPath(edges, p, from, to) && (from == "" || to == "")
    ensures !IsPath(edges, AfterEmptyName(p), from, to)
  {
    assert "" in p by { assert p[0] == from && p[|p| - 1] == to; }
    NoEmptyNames(p);
  }

  lemma {:induction false} NoEmptyNames(p: seq<State>)
    ensures "" !in AfterEmptyName(p)
  {
    if p != [] && p[|p| - 1] != "" {
      NoEmptyNames(p[..|p| - 1]);
    }
  }

  lemma {:induction false} SomeShortest(edges: Edges, p: seq<State>, from: State, to: State) returns (q: seq<State>)
    requires IsPath(edges, p, from, to)
    ensures Shortest(edges, q, from, to)
    decreases |p|
  {
    q := p;
    if !Shortest(edges, p, from, to) {
      var shorter :| IsPath(edges, shorter, from, to) && |shorter| < |p|;
      q := SomeShortest(edges, shorter, from, to);
    }
  }

  /** Every shortest path from this start is returned whole. */
  ghost predicate AlwaysWhole(edges: Edges, from: State) {
    forall to, p :: Shortest(edges, p, from, to) ==> IsPath(edges, AfterEmptyName(p), from, to)
  }

  lemma Prefix(edges: Edges, p: seq<State>, from: State, to: State, i: nat)
    requires IsPath(edges, p, from, to) && i < |p|
    ensures Reachable(edges, from, p[i])
  {
    var q := p[..i + 1];
    assert forall k :: 0 <= k < |q| - 1 ==> (q[k], q[k + 1]) == (p[k], p[k + 1]);
    assert IsPath(edges, q, from, p[i]);
  }

  /** That is so exactly when the start has a name and the empty name cannot be reached from it. */
  lemma WholeFrom(edges: Edges, from: State)
    ensures AlwaysWhole(edges, from) <==> from != "" && !Reachable(edges, from, "")
  {
    if Reachable(edges, from, "") {
      var p :| IsPath(edges, p, from, "");
      var q := SomeShortest(edges, p, from, "");
      EmptyNameLost(edges, q, from, "");
    } else {
      StartReachable(edges, from);
      forall to, p | Shortest(edges, p, from, to) ensures IsPath(edges, AfterEmptyName(p), from, to) {
        if "" in p {
          var i :| 0 <= i < |p| && p[i] == "";
          Prefix(edges, p, from, to, i);
        }
        WholePath(p);
      }
    }
  }

  /** Every path from every named start is returned whole exactly when no transition leaves a named
      state for the empty name. */
  lemma WholeIffNamed(edges: Edges)
    ensures (forall from :: from != "" ==> AlwaysWhole(edges, from)) <==> LeavesNamed(edges)
  {
    hide AlwaysWhole;
    forall e | e in edges && e.0 != "" && e.1 == "" ensures !AlwaysWhole(edges, e.0) {
      assert IsPath(edges, [e.0, ""], e.0, "");
      WholeFrom(edges, e.0);
    }
    if LeavesNamed(edges) {
      forall from | from != "" ensures AlwaysWhole(edges, from) {
        WholeFrom(edges, from);
        if Reachable(edges, from, "") {
          var p :| IsPath(edges, p, from, "");
          NamedStates(edges, p, from, "");
        }
      }
    }
  }
}
