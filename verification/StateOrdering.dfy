/** The check of an observed state sequence in src/manifest/validate.js, against the transition graph. */
module StateOrdering {
  import opened Prelude
  import opened Transitions

  datatype Illegal = Illegal(index: nat, from: State, to: State)

  /** How the check writes a transition down: the two names with '>' between them. */
  function Key(from: State, to: State): string {
    from + ">" + to
  }

  predicate KeyAllowed(edges: Edges, from: State, to: State) {
    exists e :: e in edges && Key(e.0, e.1) == Key(from, to)
  }

  /** The move into position `i` passes the check: it repeats a state or its key is in the table. */
  predicate Passes(edges: Edges, states: seq<State>, i: nat)
    requires 0 < i < |states|
  {
    states[i - 1] == states[i] || KeyAllowed(edges, states[i - 1], states[i])
  }

  predicate Accepted(edges: Edges, states: seq<State>) {
    forall i: nat :: 0 < i < |states| ==> Passes(edges, states, i)
  }

  method ValidateStateOrdering(states: seq<State>, edges: Edges) returns (firstIllegal: Option<Illegal>)
    ensures firstIllegal.None? <==> Accepted(edges, states)
    ensures firstIllegal.Some? ==> var bad := firstIllegal.value;
      && 0 < bad.index < |states| && bad.from == states[bad.index - 1] && bad.to == states[bad.index]
      && !Passes(edges, states, bad.index)
      && forall i: nat :: 0 < i < bad.index ==> Passes(edges, states, i)
  {
    var allowed := set e | e in edges :: Key(e.0, e.1);
    assert forall e :: e in edges ==> Key(e.0, e.1) in allowed;
    var i: nat := 1;
    while i < |states|
      invariant 0 < i && forall j: nat :: 0 < j < i && j < |states| ==> Passes(edges, states, j)
    {
      var from, to := states[i - 1], states[i];
      if from != to && Key(from, to) !in allowed {
        assert !Passes(edges, states, i);
        return Some(Illegal(i, from, to));
      }
      i := i + 1;
    }
    return None;
  }

  // ---- when a key stands for one transition -------------------------------------------------

  /** The sequence makes only declared moves, or stays where it is. */
  predicate LegalMove(edges: Edges, from: State, to: State) {
    from == to || (from, to) in edges
  }

  predicate Legal(edges: Edges, states: seq<State>) {
    forall i :: 0 < i < |states| ==> LegalMove(edges, states[i - 1], states[i])
  }

  /** Wherever the key of a declared transition has a '>', the two sides are a declared transition too. */
  predicate CutsDeclared(edges: Edges) {
    forall e :: e in edges ==> CutsOf(edges, Key(e.0, e.1))
  }

  predicate CutsOf(edges: Edges, key: string) {
    forall k :: 0 <= k < |key| && key[k] == '>' ==> LegalMove(edges, key[..k], key[k + 1..])
  }

  lemma KeyCut(from: State, to: State)
    ensures var key := Key(from, to);
      key[|from|] == '>' && key[..|from|] == from && key[|from| + 1..] == to
  {
  }

  /** The check agrees with the declared graph on every sequence, if and only if the table is closed
      under cutting its keys. */
  lemma ExactOnEverySequence(edges: Edges)
    ensures (forall states: seq<State> :: Accepted(edges, states) <==> Legal(edges, states)) <==> CutsDeclared(edges)
  {
    if CutsDeclared(edges) {
      forall states: seq<State> ensures Accepted(edges, states) <==> Legal(edges, states) {
        ExactWhenCut(edges, states);
      }
    }
    if forall states: seq<State> :: Accepted(edges, states) <==> Legal(edges, states) {
      forall e, k | e in edges && 0 <= k < |Key(e.0, e.1)| && Key(e.0, e.1)[k] == '>'
        ensures LegalMove(edges, Key(e.0, e.1)[..k], Key(e.0, e.1)[k + 1..])
      {
        var key := Key(e.0, e.1);
        var from, to := key[..k], key[k + 1..];
        assert Key(from, to) == key;
        var states := [from, to];
        assert Passes(edges, states, 1);
        assert Accepted(edges, states);
        assert LegalMove(edges, states[0], states[1]);
      }
    }
  }

  lemma ExactWhenCut(edges: Edges, states: seq<State>)
    requires CutsDeclared(edges)
    ensures Accepted(edges, states) <==> Legal(edges, states)
  {
    forall i: nat | 0 < i < |states| ensures Passes(edges, states, i) <==> LegalMove(edges, states[i - 1], states[i]) {
      MoveExact(edges, states[i - 1], states[i]);
    }
  }

  lemma MoveExact(edges: Edges, from: State, to: State)
    requires CutsDeclared(edges)
    ensures from == to || KeyAllowed(edges, from, to) <==> LegalMove(edges, from, to)
  {
    if KeyAllowed(edges, from, to) {
      var e :| e in edges && Key(e.0, e.1) == Key(from, to);
      KeyCut(from, to);
      assert CutsOf(edges, Key(e.0, e.1));
    }
    if (from, to) in edges {
      assert Key((from, to).0, (from, to).1) == Key(from, to);
    }
  }

  /** Names without '>' are enough. */
  lemma PlainNamesAreExact(edges: Edges)
    requires forall e :: e in edges ==> '>' !in e.0 && '>' !in e.1
    ensures CutsDeclared(edges)
  {
    forall e, k | e in edges && 0 <= k < |Key(e.0, e.1)| && Key(e.0, e.1)[k] == '>'
      ensures LegalMove(edges, Key(e.0, e.1)[..k], Key(e.0, e.1)[k + 1..])
    {
      KeyCut(e.0, e.1);
      assert k == |e.0|;
    }
  }

  /** A table whose keys are ambiguous: the check accepts a move that is not declared. */
  lemma AmbiguousKey()
    ensures var edges := [("a>b", "c")];
      Accepted(edges, ["a", "b>c"]) && !Legal(edges, ["a", "b>c"])
  {
    var edges, states := [("a>b", "c")], ["a", "b>c"];
    assert Key("a>b", "c") == "a>b>c" == Key("a", "b>c");
    assert edges[0] in edges;
    assert states[0] != states[1] && (states[0], states[1]) != edges[0];
    assert !LegalMove(edges, states[1 - 1], states[1]);
  }

  // ---- what an accepted sequence says about the graph ---------------------------------------

  /** The moves among positions `i` to `j` that change the state. */
  function Moves(states: seq<State>, i: nat, j: nat): nat
    requires i <= j < |states|
  {
    if i == j then 0 else Moves(states, i, j - 1) + (if states[j - 1] == states[j] then 0 else 1)
  }

  /** The sequence with its repetitions left out is a path of the graph. */
  lemma {:induction false} MovesArePath(edges: Edges, states: seq<State>, i: nat, j: nat) returns (p: seq<State>)
    requires Legal(edges, states) && i <= j < |states|
    ensures IsPath(edges, p, states[i], states[j]) && |p| == Moves(states, i, j) + 1
  {
    if i == j {
      p := [states[i]];
    } else {
      p := MovesArePath(edges, states, i, j - 1);
      if states[j - 1] != states[j] {
        assert LegalMove(edges, states[j - 1], states[j]);
        Extend(edges, p, states[i], states[j - 1], states[j]);
        p := p + [states[j]];
      }
    }
  }

  /** An accepted sequence stays inside the states reachable from its first, and takes at least as many
      moves between any two of its positions as a shortest path does. */
  lemma AcceptedFollowsGraph(edges: Edges, states: seq<State>, i: nat, j: nat, shortest: seq<State>)
    requires CutsDeclared(edges) && Accepted(edges, states) && i <= j < |states|
    requires Shortest(edges, shortest, states[i], states[j])
    ensures Reachable(edges, states[0], states[j])
    ensures |shortest| - 1 <= Moves(states, i, j)
  {
    ExactWhenCut(edges, states);
    var p := MovesArePath(edges, states, i, j);
    var q := MovesArePath(edges, states, 0, j);
  }

  // ---- the validator's business check -------------------------------------------------------

  const BOOT: State := "boot"
  const INTERACTIVE: State := "interactive"

  /** The errors the manifest validator reports about the business end state. */
  datatype BusinessIssues = BusinessIssues(unreachable: bool, tooLong: bool)

  /** The end state can be reached from "interactive" within the declared number of steps. */
  ghost predicate Completable(edges: Edges, endState: State, maxSteps: int) {
    exists p :: IsPath(edges, p, INTERACTIVE, endState) && |p| - 1 <= maxSteps
  }

  /** What is counted is the part of the shortest path found that comes after its last empty name. Where
      "interactive" does not reach the empty name that is the whole path; then a manifest without the
      length issue is completable exactly when "interactive" reaches the end state at all, which is not
      checked, because an absent path is not an error. */
  method CheckBusiness(edges: Edges, endState: State, maxSteps: int) returns (r: BusinessIssues)
    ensures r.unreachable <==> !Reachable(edges, BOOT, endState)
    ensures r.tooLong ==> exists p :: Shortest(edges, p, INTERACTIVE, endState) && |AfterEmptyName(p)| - 1 > maxSteps
    ensures r.tooLong ==> !Completable(edges, endState, maxSteps)
    ensures !r.tooLong && Reachable(edges, INTERACTIVE, endState) ==>
      exists p :: Shortest(edges, p, INTERACTIVE, endState) && |AfterEmptyName(p)| - 1 <= maxSteps
    ensures !r.tooLong && !Reachable(edges, INTERACTIVE, "") ==>
      (Completable(edges, endState, maxSteps) <==> Reachable(edges, INTERACTIVE, endState))
  {
    var reachable := ReachableStates(edges, BOOT);
    var path := ShortestPath(edges, INTERACTIVE, endState);
    if path.Some? {
      ghost var p :| Shortest(edges, p, INTERACTIVE, endState) && path.value == AfterEmptyName(p);
      WholePath(p);
      WholeFrom(edges, INTERACTIVE);
    }
    r := BusinessIssues(endState !in reachable, path.Some? && |path.value| - 1 > maxSteps);
  }

  /** Without the length issue the flow is completable, for every end state and limit, exactly when
      "interactive" does not reach the empty name. */
  lemma AcceptedBusiness(edges: Edges)
    ensures (forall endState, maxSteps: nat, p ::
               Shortest(edges, p, INTERACTIVE, endState) && |AfterEmptyName(p)| - 1 <= maxSteps ==>
                 Completable(edges, endState, maxSteps))
      <==> !Reachable(edges, INTERACTIVE, "")
  {
    if Reachable(edges, INTERACTIVE, "") {
      var p :| IsPath(edges, p, INTERACTIVE, "");
      var q := SomeShortest(edges, p, INTERACTIVE, "");
      assert AfterEmptyName(q) == [];
      assert !Completable(edges, "", 0);
    } else {
      WholeFrom(edges, INTERACTIVE);
      forall endState, maxSteps: nat, p | Shortest(edges, p, INTERACTIVE, endState) && |AfterEmptyName(p)| - 1 <= maxSteps
        ensures Completable(edges, endState, maxSteps)
      {
        assert IsPath(edges, AfterEmptyName(p), INTERACTIVE, endState);
      }
    }
  }

  /** Such a manifest: the end state and the first frame, on which validation demands checkpoints, are
      reachable from "boot", and the end state never from "interactive". */
  lemma UncheckedBusiness()
    ensures var edges := [("boot", "checkout"), ("boot", "first-frame")];
      && Reachable(edges, BOOT, "checkout") && Reachable(edges, BOOT, "first-frame")
      && (!exists p :: Shortest(edges, p, INTERACTIVE, "checkout") && |p| - 1 > 4)
      && !Completable(edges, "checkout", 4)
  {
    var edges := [("boot", "checkout"), ("boot", "first-frame")];
    assert edges[0] in edges && edges[1] in edges;
    assert IsPath(edges, ["boot", "checkout"], BOOT, "checkout");
    assert IsPath(edges, ["boot", "first-frame"], BOOT, "first-frame");
    forall p ensures !IsPath(edges, p, INTERACTIVE, "checkout") {
      assert |p| >= 2 ==> ((p[0], p[1]) in edges <==> (p[0], p[1]) == edges[0] || (p[0], p[1]) == edges[1]);
    }
  }

  const NAMELESS: Edges := [("boot", "interactive"), ("boot", "first-frame"), ("interactive", ""), ("", "checkout")]

  /** And one whose end state "interactive" does reach, only not within the limit: the path runs through
      a state with the empty name, and what is counted after it is short enough. */
  lemma EmptyNameHidesLength()
    ensures Reachable(NAMELESS, BOOT, "checkout") && Reachable(NAMELESS, BOOT, "first-frame")
    ensures Reachable(NAMELESS, INTERACTIVE, "checkout")
    ensures forall p :: Shortest(NAMELESS, p, INTERACTIVE, "checkout") ==> |AfterEmptyName(p)| - 1 <= 1
    ensures !Completable(NAMELESS, "checkout", 1)
  {
    NamelessPaths();
    CountedPart();
    hide NAMELESS, IsPath, AfterEmptyName;
    var through := ["interactive", "", "checkout"];
    forall p | IsPath(NAMELESS, p, INTERACTIVE, "checkout") ensures |p| >= 3 && p[..3] == through {
      OnlyThrough(p);
    }
    forall p | Shortest(NAMELESS, p, INTERACTIVE, "checkout") ensures |AfterEmptyName(p)| - 1 <= 1 {
      assert p == through;
    }
  }

  lemma NamelessPaths()
    ensures IsPath(NAMELESS, ["boot", "interactive", "", "checkout"], BOOT, "checkout")
    ensures IsPath(NAMELESS, ["boot", "first-frame"], BOOT, "first-frame")
    ensures IsPath(NAMELESS, ["interactive", "", "checkout"], INTERACTIVE, "checkout")
  {
    assert NAMELESS[0] in NAMELESS && NAMELESS[1] in NAMELESS && NAMELESS[2] in NAMELESS && NAMELESS[3] in NAMELESS;
  }

  lemma CountedPart()
    ensures AfterEmptyName(["interactive", "", "checkout"]) == ["checkout"]
  {
    assert ["interactive", "", "checkout"][..2] == ["interactive", ""] && AfterEmptyName(["interactive", ""]) == [];
  }

  lemma OnlyThrough(p: seq<State>)
    requires IsPath(NAMELESS, p, INTERACTIVE, "checkout")
    ensures |p| >= 3 && p[..3] == ["interactive", "", "checkout"]
  {
    assert forall i :: 0 <= i < |p| - 1 ==> (p[i], p[i + 1]) in NAMELESS;
    assert |p| >= 2 && (p[0], p[1]) == NAMELESS[2];
    assert |p| >= 3 && (p[1], p[2]) == NAMELESS[3];
  }
}
