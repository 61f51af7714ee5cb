/** The states the runtime records, as names, under the manifest's checker of state sequences. */
module RecordedNames {
  import opened Runtime
  import StateOrdering
  import Transitions

  function Name(p: Phase): string {
    match p
    case Boot => "boot"
    case Probing => "probing"
    case Routing => "routing"
    case Loading => "loading"
    case FirstFrame => "first-frame"
    case Degraded => "degraded"
    case Interactive => "interactive"
    case ProductDetail => "product-detail"
    case Cart => "cart"
    case CheckoutComplete => "checkout-complete"
    case Error => "error"
  }

  function Names(states: seq<Phase>): (names: seq<string>)
    ensures |names| == |states|
  {
    seq(|states|, i requires 0 <= i < |states| => Name(states[i]))
  }

  function Edges(): (edges: Transitions.Edges)
    ensures |edges| == |DECLARED|
  {
    seq(|DECLARED|, i requires 0 <= i < |DECLARED| => (Name(DECLARED[i].0), Name(DECLARED[i].1)))
  }

  lemma NameInjective(p: Phase, q: Phase)
    requires Name(p) == Name(q)
    ensures p == q
  {
  }

  lemma NamesArePlain(p: Phase)
    ensures '>' !in Name(p) && Name(p) != ""
  {
  }

  lemma DeclaredIsNamed(from: Phase, to: Phase)
    requires (from, to) in DECLARED
    ensures (Name(from), Name(to)) in Edges()
  {
    hide Name;
    var i :| 0 <= i < |DECLARED| && DECLARED[i] == (from, to);
    hide DECLARED;
    assert Edges()[i] == (Name(from), Name(to));
  }

  lemma NamedIsDeclared(from: Phase, to: Phase)
    requires (Name(from), Name(to)) in Edges()
    ensures (from, to) in DECLARED
  {
    hide Name, DECLARED;
    var i :| 0 <= i < |DECLARED| && Edges()[i] == (Name(from), Name(to));
    NameInjective(DECLARED[i].0, from);
    NameInjective(DECLARED[i].1, to);
  }

  lemma NamedMove(from: Phase, to: Phase)
    ensures StateOrdering.LegalMove(Edges(), Name(from), Name(to)) <==> Declared(from, to)
  {
    hide Name, DECLARED, Edges;
    if (from, to) in DECLARED {
      DeclaredIsNamed(from, to);
    }
    if (Name(from), Name(to)) in Edges() {
      NamedIsDeclared(from, to);
    }
    if Name(from) == Name(to) {
      NameInjective(from, to);
    }
  }

  /** The recorded sequence is legal exactly when the state-ordering check accepts its names. */
  lemma RecordedIsAccepted(states: seq<Phase>)
    ensures StateOrdering.Accepted(Edges(), Names(states)) <==> Legal(states)
  {
    var edges, names := Edges(), Names(states);
    forall e | e in edges ensures '>' !in e.0 && '>' !in e.1 {
      var i :| 0 <= i < |edges| && edges[i] == e;
      NamesArePlain(DECLARED[i].0);
      NamesArePlain(DECLARED[i].1);
    }
    StateOrdering.PlainNamesAreExact(edges);
    StateOrdering.ExactWhenCut(edges, names);
    forall i: nat | 0 < i < |states|
      ensures StateOrdering.LegalMove(edges, names[i - 1], names[i]) <==> Declared(states[i - 1], states[i])
    {
      NamedMove(states[i - 1], states[i]);
    }
  }
}
