/** The code that builds, saturates and reduces the graph of a candidate path and
    asks the solver about it. */
module PathBuilder {
  import opened Graph
  import opened Solver
  import opened ConstructPaths
  import opened CandidateTiming

  class DiGraph {
    var nodes: set<Node>
    var edges: set<Edge>

    constructor ()
      ensures nodes == {} && edges == {}
    {
      nodes, edges := {}, {};
    }

    method AddNode(n: Node)
      modifies this`nodes
      ensures nodes == old(nodes) + {n}
    {
      nodes := nodes + {n};
    }

    method AddEdge(e: Edge)
      modifies this
      ensures nodes == old(nodes) + {e.0, e.1} && edges == old(edges) + {e}
    {
      nodes := nodes + {e.0, e.1};
      edges := edges + {e};
    }

    /** Adds (p, b) for every in-edge (p, a). */
    method CopyIn(a: Node, b: Node)
      requires Closed(nodes, edges) && b in nodes
      modifies this
      ensures edges == InCopied(old(edges), a, b) && nodes == old(nodes)
    {
      ghost var es := edges;
      var todo := set e | e in edges && e.1 == a;
      while todo != {}
        invariant nodes == old(nodes) && es <= edges <= InCopied(es, a, b)
        invariant forall e :: e in todo ==> e in es && e.1 == a
        invariant forall e :: e in es && e.1 == a ==> e in todo || (e.0, b) in edges
        decreases todo
      {
        var e :| e in todo;
        AddEdge((e.0, b));
        todo := todo - {e};
      }
    }

    /** Adds (b, q) for every out-edge (a, q). */
    method CopyOut(a: Node, b: Node)
      requires Closed(nodes, edges) && b in nodes
      modifies this
      ensures edges == OutCopied(old(edges), a, b) && nodes == old(nodes)
    {
      ghost var es := edges;
      var todo := set e | e in edges && e.0 == a;
      while todo != {}
        invariant nodes == old(nodes) && es <= edges <= OutCopied(es, a, b)
        invariant forall e :: e in todo ==> e in es && e.0 == a
        invariant forall e :: e in es && e.0 == a ==> e in todo || (b, e.1) in edges
        decreases todo
      {
        var e :| e in todo;
        AddEdge((b, e.1));
        todo := todo - {e};
      }
    }

    /** Copies in- and out-edges across one concurrent pair. */
    method SaturateOne(a: Node, b: Node)
      requires Closed(nodes, edges) && a in nodes && b in nodes
      modifies this
      ensures edges == SaturatePair(old(edges), a, b) && nodes == old(nodes) && Closed(nodes, edges)
    {
      CopiedClosed(nodes, edges, a, b);
      CopyIn(a, b);
      CopiedClosed(nodes, edges, b, a);
      CopyIn(b, a);
      CopiedClosed(nodes, edges, a, b);
      CopyOut(a, b);
      CopiedClosed(nodes, edges, b, a);
      CopyOut(b, a);
    }

    method SaturateAll(pairs: seq<Edge>)
      requires Closed(nodes, edges)
      modifies this
      ensures edges == Saturate(old(nodes), old(edges), pairs) && nodes == old(nodes)
    {
      ghost var es := edges;
      for i := 0 to |pairs|
        invariant nodes == old(nodes) && Closed(nodes, edges)
        invariant edges == Saturate(nodes, es, pairs[..i])
      {
        assert pairs[..i + 1][..i] == pairs[..i];
        if pairs[i].0 in nodes && pairs[i].1 in nodes {
          SaturateOne(pairs[i].0, pairs[i].1);
        }
      }
      assert pairs[..|pairs|] == pairs;
    }

    /** The nodes in some order. */
    method ListNodes() returns (ns: seq<Node>)
      ensures forall n :: n in ns <==> n in nodes
    {
      ns := [];
      var todo := nodes;
      while todo != {}
        invariant todo <= nodes && forall n :: n in ns <==> n in nodes && n !in todo
        decreases todo
      {
        var n :| n in todo;
        ns := ns + [n];
        todo := todo - {n};
      }
    }
  }

  // ---- building the graph ----

  lemma {:induction false} EndsPlus(es: set<Edge>, e: Edge)
    ensures Ends(es + {e}) == Ends(es) + {e.0, e.1}
  {
  }

  lemma {:induction false} ChosenConcat(a: seq<Choice>, b: seq<Choice>)
    ensures ChosenEdges(a + b) == ChosenEdges(a) + ChosenEdges(b)
    ensures ChosenPairs(a + b) == ChosenPairs(a) + ChosenPairs(b)
  {
    if b == [] {
      assert a + b == a;
    } else {
      var k := |b| - 1;
      assert (a + b)[..|a| + k] == a + b[..k];
      assert (a + b)[|a| + k] == b[k];
      ChosenConcat(a, b[..k]);
    }
  }

  /** Adds the edges of the chosen orders and collects the concurrent pairs. */
  method AddChoices(g: DiGraph, comb: seq<Choice>) returns (concur: seq<Edge>)
    requires g.nodes == Ends(g.edges)
    modifies g
    ensures g.edges == old(g.edges) + ChosenEdges(comb) && g.nodes == Ends(g.edges)
    ensures concur == ChosenPairs(comb)
  {
    concur := [];
    for i := 0 to |comb|
      invariant g.edges == old(g.edges) + ChosenEdges(comb[..i]) && g.nodes == Ends(g.edges)
      invariant concur == ChosenPairs(comb[..i])
    {
      assert comb[..i + 1][..i] == comb[..i];
      var p := comb[i].0;
      match comb[i].1
      case Before =>
        EndsPlus(g.edges, p);
        g.AddEdge(p);
      case After =>
        EndsPlus(g.edges, (p.1, p.0));
        g.AddEdge((p.1, p.0));
      case Together =>
        concur := concur + [p];
    }
    assert comb[..|comb|] == comb;
  }

  /** The proven edges inside the set. */
  method AddProven(g: DiGraph, f: Facts)
    requires g.nodes == Ends(g.edges)
    modifies g
    ensures g.edges == old(g.edges) + (set e | e in f.hb && Inside(f, e)) && g.nodes == Ends(g.edges)
  {
    for i := 0 to |f.hb|
      invariant g.edges == old(g.edges) + (set e | e in f.hb[..i] && Inside(f, e)) && g.nodes == Ends(g.edges)
    {
      assert f.hb[..i + 1] == f.hb[..i] + [f.hb[i]];
      if Inside(f, f.hb[i]) {
        EndsPlus(g.edges, f.hb[i]);
        g.AddEdge(f.hb[i]);
      }
    }
    assert f.hb[..|f.hb|] == f.hb;
  }

  /** The nodes of the set, and the edges implied by shared registers. */
  method AddLocations(g: DiGraph, f: Facts) returns (implied: set<Edge>)
    modifies g
    ensures g.edges == old(g.edges) && implied == Implied(f, g.edges)
    ensures g.nodes == old(g.nodes) + (set x | x in f.aSet :: Enter(x))
                                    + (set x | x in f.aSet && x in f.multi :: Final(x))
  {
    implied := {};
    for i := 0 to |f.aSet|
      invariant g.edges == old(g.edges)
      invariant g.nodes == old(g.nodes) + (set x | x in f.aSet[..i] :: Enter(x))
                                        + (set x | x in f.aSet[..i] && x in f.multi :: Final(x))
      invariant implied == ImpliedBy(f, f.aSet[..i], g.edges)
    {
      var x := f.aSet[i];
      assert f.aSet[..i + 1] == f.aSet[..i] + [x];
      g.AddNode(Enter(x));
      if x in f.multi {
        implied := implied + set e | e in g.edges && e.0 == Enter(x) && f.reg(x) == f.reg(e.1.loc) :: (Final(x), e.1);
        g.AddNode(Final(x));
      }
    }
    assert f.aSet[..|f.aSet|] == f.aSet;
  }

  function ImpliedBy(f: Facts, xs: seq<Loc>, given: set<Edge>): set<Edge> {
    set e | e in given && e.0.Enter? && e.0.loc in xs && e.0.loc in f.multi && f.reg(e.0.loc) == f.reg(e.1.loc)
      :: (Final(e.0.loc), e.1)
  }

  /** Adds a set of edges between nodes of the graph. */
  method AddEdges(g: DiGraph, es: set<Edge>)
    requires Closed(g.nodes, es)
    modifies g
    ensures g.edges == old(g.edges) + es && g.nodes == old(g.nodes)
  {
    var todo := es;
    while todo != {}
      invariant todo <= es && g.nodes == old(g.nodes) && g.edges == old(g.edges) + (es - todo)
      decreases todo
    {
      var e :| e in todo;
      g.AddEdge(e);
      todo := todo - {e};
    }
  }

  method AddLeaving(g: DiGraph, f: Facts)
    modifies g
    ensures g.nodes == old(g.nodes)
    ensures g.edges == old(g.edges) + set e | e in f.leavingHb && e.0 in g.nodes && e.1 in g.nodes
  {
    for i := 0 to |f.leavingHb|
      invariant g.nodes == old(g.nodes)
      invariant g.edges == old(g.edges) + set e | e in f.leavingHb[..i] && e.0 in g.nodes && e.1 in g.nodes
    {
      assert f.leavingHb[..i + 1] == f.leavingHb[..i] + [f.leavingHb[i]];
      if f.leavingHb[i].0 in g.nodes && f.leavingHb[i].1 in g.nodes {
        g.AddEdge(f.leavingHb[i]);
      }
    }
    assert f.leavingHb[..|f.leavingHb|] == f.leavingHb;
  }

  /** The graph before saturation, and the concurrent pairs. */
  method BuildUnsaturated(f: Facts, entryComb: seq<Choice>, finalComb: seq<Choice>)
      returns (g: DiGraph, pairs: seq<Edge>)
    ensures fresh(g) && g.nodes == Nodes(f, entryComb + finalComb)
    ensures g.edges == Unsaturated(f, entryComb + finalComb) && pairs == Pairs(f, entryComb + finalComb)
  {
    ghost var comb := entryComb + finalComb;
    g := new DiGraph();
    AddProven(g, f);
    var concur := AddChoices(g, entryComb);
    var concurFinal := AddChoices(g, finalComb);
    ChosenConcat(entryComb, finalComb);
    assert g.edges == Given(f, comb);
    var implied := AddLocations(g, f);
    UnsaturatedClosed(f, comb);
    assert Closed(g.nodes, implied) by {
      assert forall e :: e in implied ==> e in Unsaturated(f, comb);
    }
    AddEdges(g, implied);
    AddLeaving(g, f);
    pairs := f.concur + f.leavingConcur + (concur + concurFinal);
    assert pairs == Pairs(f, comb);
  }

  method BuildSaturated(f: Facts, entryComb: seq<Choice>, finalComb: seq<Choice>)
      returns (g: DiGraph, pairs: seq<Edge>)
    ensures fresh(g) && g.nodes == Nodes(f, entryComb + finalComb)
    ensures g.edges == Saturated(f, entryComb + finalComb) && pairs == Pairs(f, entryComb + finalComb)
  {
    g, pairs := BuildUnsaturated(f, entryComb, finalComb);
    UnsaturatedClosed(f, entryComb + finalComb);
    g.SaturateAll(pairs);
  }

  // ---- the constraints ----

  method AddReduced(s: MySolver, f: Facts, reduced: set<Edge>)
    requires s.Valid()
    modifies s`asserted
    ensures s.Valid()
    ensures forall k :: k in s.asserted <==>
              k in old(s.asserted) || exists e :: e in reduced && k == EdgeConstraint(f, e)
  {
    var todo := reduced;
    while todo != {}
      invariant s.Valid() && todo <= reduced
      invariant forall k :: k in s.asserted <==>
                  k in old(s.asserted) || exists e :: e in reduced && e !in todo && k == EdgeConstraint(f, e)
      decreases todo
    {
      var e :| e in todo;
      s.Add(EdgeConstraint(f, e));
      todo := todo - {e};
    }
  }

  method AddWeak(s: MySolver, es: seq<Edge>, ns: set<Node>)
    requires s.Valid()
    modifies s`asserted
    ensures s.Valid()
    ensures forall k :: k in s.asserted <==>
              k in old(s.asserted) || exists e :: e in es && e.0 in ns && e.1 in ns && k == Le(e.0, e.1)
  {
    for i := 0 to |es|
      invariant s.Valid()
      invariant forall k :: k in s.asserted <==>
                  k in old(s.asserted) || exists e :: e in es[..i] && e.0 in ns && e.1 in ns && k == Le(e.0, e.1)
    {
      assert es[..i + 1] == es[..i] + [es[i]];
      if es[i].0 in ns && es[i].1 in ns {
        s.Add(Le(es[i].0, es[i].1));
      }
    }
    assert es[..|es|] == es;
  }

  method AddEqual(s: MySolver, es: seq<Edge>, ns: set<Node>)
    requires s.Valid()
    modifies s`asserted
    ensures s.Valid()
    ensures forall k :: k in s.asserted <==>
              k in old(s.asserted) || exists e :: e in es && e.0 in ns && e.1 in ns && k == Eq(e.0, e.1)
  {
    for i := 0 to |es|
      invariant s.Valid()
      invariant forall k :: k in s.asserted <==>
                  k in old(s.asserted) || exists e :: e in es[..i] && e.0 in ns && e.1 in ns && k == Eq(e.0, e.1)
    {
      assert es[..i + 1] == es[..i] + [es[i]];
      if es[i].0 in ns && es[i].1 in ns {
        s.Add(Eq(es[i].0, es[i].1));
      }
    }
    assert es[..|es|] == es;
  }

  /** The weak edges from each long location to its final cycle. */
  method StayEdges(f: Facts) returns (es: seq<Edge>)
    ensures forall e :: e in es <==> IsStay(e) && Stayer(f, e.0.loc)
  {
    es := [];
    for i := 0 to |f.aSet|
      invariant forall e :: e in es <==> IsStay(e) && e.0.loc in f.aSet[..i] && e.0.loc in f.multi
    {
      assert f.aSet[..i + 1] == f.aSet[..i] + [f.aSet[i]];
      if f.aSet[i] in f.multi {
        es := es + [(Enter(f.aSet[i]), Final(f.aSet[i]))];
      }
    }
    assert f.aSet[..|f.aSet|] == f.aSet;
  }

  /** Asserts the constraints of the reduced graph, then checks them. */
  method AddConstraints(s: MySolver, f: Facts, ns: set<Node>, reduced: set<Edge>, pairs: seq<Edge>) returns (sat: bool)
    requires s.Valid()
    modifies s`asserted, s`marks
    ensures s.Valid() && (sat <==> Sat(s.asserted))
    ensures forall k :: k in s.asserted <==> k in old(s.asserted) || Emits(f, ns, reduced, pairs, k)
  {
    var stays := StayEdges(f);
    AddReduced(s, f, reduced);
    AddWeak(s, f.whb, ns);
    AddWeak(s, stays, ns);
    AddEqual(s, pairs, ns);
    s.Push();
    sat := s.decide(s.asserted);
  }

  /** Some timing meets all facts and choices, and keeps within its limit each stay that
      is a reduced edge. */
  ghost predicate Meetable(f: Facts, comb: seq<Choice>) {
    exists t: Timing, ns: seq<Node> :: MetBy(t, ns, f, comb)
  }

  ghost predicate MetBy(t: Timing, ns: seq<Node>, f: Facts, comb: seq<Choice>) {
    && Meets(t, f, comb) && Lists(ns, f, comb)
    && LimitsMet(t, f, Reduction(Saturated(f, comb), Closure(ns, Saturated(f, comb))))
  }

  /** Some timing meets all facts and choices and keeps every stay within its limit. */
  ghost predicate WellMet(f: Facts, comb: seq<Choice>) {
    exists t: Timing :: Meets(t, f, comb) && AllLimitsMet(t, f)
  }

  ghost predicate AllLimitsMet(t: Timing, f: Facts) {
    forall x :: x in f.aSet && x in f.multi ==> t(Final(x)) < t(Enter(x)) + f.limit(x)
  }

  /** Decides one candidate: kept if some timing obeys it, and only if some timing is
      consistent with it; if no stay became an edge, exactly if some timing obeys it.
      In particular a kept candidate can be met, and a proper one that is well met is kept. */
  method Decide(f: Facts, entryComb: seq<Choice>, finalComb: seq<Choice>, decide: seq<Constraint> -> bool)
      returns (kept: bool)
    requires forall cs :: decide(cs) <==> Sat(cs)
    ensures (exists t: Timing :: Obeys(t, f, entryComb + finalComb)) ==> kept
    ensures kept ==> exists t: Timing :: Consistent(t, f, entryComb + finalComb)
    ensures (forall e :: e in Saturated(f, entryComb + finalComb) ==> !IsStay(e)) ==>
              (kept <==> exists t: Timing :: Obeys(t, f, entryComb + finalComb))
    ensures kept ==> Meetable(f, entryComb + finalComb)
    ensures Proper(f, entryComb + finalComb) && WellMet(f, entryComb + finalComb) ==> kept
  {
    ghost var comb := entryComb + finalComb;
    var g, pairs := BuildSaturated(f, entryComb, finalComb);
    var ns := g.ListNodes();
    var c := Closure(ns, g.edges);
    kept := !Cyclic(ns, c);
    var s := new MySolver(decide);
    if kept {
      var reduced := Reduction(g.edges, c);
      var sat := AddConstraints(s, f, g.nodes, reduced, pairs);
      sat := AddConstraints(s, f, g.nodes, reduced, pairs);
      kept := sat;
      if kept {
        ghost var t: Timing :| Models(t, s.asserted);
        KeptIsObeyed(t, f, comb, ns, s.asserted);
        ConsistentObeys(t, f, comb);
        KeptIsMet(t, f, comb, ns);
      }
    }
    WellMetObeys(f, comb);
    if t: Timing :| Obeys(t, f, comb) {
      NeverRejected(t, f, comb, ns, s.asserted, kept);
    }
  }

  lemma {:induction false} KeptIsMet(t: Timing, f: Facts, comb: seq<Choice>, ns: seq<Node>)
    requires Consistent(t, f, comb) && Lists(ns, f, comb)
    requires Bounded(t, f, Reduction(Saturated(f, comb), Closure(ns, Saturated(f, comb))))
    ensures Meetable(f, comb)
  {
    ConsistentMeets(t, f, comb);
    LimitsBound(t, f, Reduction(Saturated(f, comb), Closure(ns, Saturated(f, comb))));
    assert MetBy(t, ns, f, comb);
  }

  lemma {:induction false} WellMetObeys(f: Facts, comb: seq<Choice>)
    ensures Proper(f, comb) && WellMet(f, comb) ==> exists t: Timing :: Obeys(t, f, comb)
  {
    if Proper(f, comb) && WellMet(f, comb) {
      var t: Timing :| Meets(t, f, comb) && AllLimitsMet(t, f);
      assert LimitsMet(t, f, Saturated(f, comb));
      MeetsObeys(t, f, comb);
    }
  }

  lemma {:induction false} ConsistentObeys(t: Timing, f: Facts, comb: seq<Choice>)
    requires Consistent(t, f, comb)
    ensures (forall e :: e in Saturated(f, comb) ==> !IsStay(e)) ==> Obeys(t, f, comb)
  {
    SaturateContains(Nodes(f, comb), Unsaturated(f, comb), Pairs(f, comb));
  }

  lemma {:induction false} NeverRejected(t: Timing, f: Facts, comb: seq<Choice>, ns: seq<Node>, cs: seq<Constraint>,
                                         kept: bool)
    requires Obeys(t, f, comb)
    requires !Cyclic(ns, Closure(ns, Saturated(f, comb))) ==>
               Emitted(f, comb, Closure(ns, Saturated(f, comb)), cs) && (kept <==> Sat(cs))
    ensures kept
  {
    SaturationSound(t, Nodes(f, comb), Unsaturated(f, comb), Pairs(f, comb));
    TimingOrdersClosure(t, ns, Saturated(f, comb));
    ObeyedIsKept(t, f, comb, ns, cs);
  }
}
