/** The graph from which the open orders of dataflow edges are found, before any order is
    chosen for the entries and again after. Here every stay is an edge, of length zero or
    more. */
module CollectReEval {
  import opened Collections
  import opened Graph
  import opened Solver
  import opened ConstructPaths
  import opened PathBuilder

  // ---- the graph with stays ----

  function StaySet(f: Facts, xs: seq<Loc>): set<Edge> {
    set x | x in xs && x in f.multi :: (Enter(x), Final(x))
  }

  function Weighted(f: Facts, comb: seq<Choice>): set<Edge> {
    Unsaturated(f, comb) + StaySet(f, f.aSet)
  }

  function WeightedGraph(f: Facts, comb: seq<Choice>): set<Edge> {
    Saturate(Nodes(f, comb), Weighted(f, comb), Pairs(f, comb))
  }

  lemma {:induction false} WeightedClosed(f: Facts, comb: seq<Choice>)
    ensures Closed(Nodes(f, comb), Weighted(f, comb)) && Closed(Nodes(f, comb), WeightedGraph(f, comb))
  {
    UnsaturatedClosed(f, comb);
    SaturateClosed(Nodes(f, comb), Weighted(f, comb), Pairs(f, comb));
  }

  function Sites(f: Facts, xs: seq<Loc>): set<Node> {
    (set x | x in xs :: Enter(x)) + (set x | x in xs && x in f.multi :: Final(x))
  }

  lemma {:induction false} OneMore(f: Facts, xs: seq<Loc>, x: Loc)
    ensures Sites(f, xs + [x]) == Sites(f, xs) + {Enter(x)} + if x in f.multi then {Final(x)} else {}
    ensures StaySet(f, xs + [x]) == StaySet(f, xs) + if x in f.multi then {(Enter(x), Final(x))} else {}
  {
  }

  /** The implied edges that one more location adds. */
  function ImpliedOf(f: Facts, x: Loc, es: set<Edge>): set<Edge> {
    if x in f.multi then set e | e in es && e.0 == Enter(x) && f.reg(x) == f.reg(e.1.loc) :: (Final(x), e.1) else {}
  }

  lemma {:induction false} OneMoreImplied(f: Facts, xs: seq<Loc>, x: Loc, es: set<Edge>)
    requires x !in xs
    ensures ImpliedBy(f, xs + [x], es) == ImpliedBy(f, xs, es) + ImpliedOf(f, x, es)
    ensures ImpliedOf(f, x, es + StaySet(f, xs)) == ImpliedOf(f, x, es)
  {
  }

  /** Nodes, stays, and the edges implied by shared registers. */
  method AddStays(g: DiGraph, f: Facts) returns (implied: set<Edge>)
    requires NoRepeats(f.aSet)
    modifies g
    ensures g.edges == old(g.edges) + StaySet(f, f.aSet) && implied == ImpliedBy(f, f.aSet, old(g.edges))
    ensures g.nodes == old(g.nodes) + Sites(f, f.aSet)
  {
    implied := {};
    for i := 0 to |f.aSet|
      invariant g.edges == old(g.edges) + StaySet(f, f.aSet[..i])
      invariant g.nodes == old(g.nodes) + Sites(f, f.aSet[..i])
      invariant implied == ImpliedBy(f, f.aSet[..i], old(g.edges))
    {
      var x := f.aSet[i];
      assert f.aSet[..i + 1] == f.aSet[..i] + [x];
      OneMore(f, f.aSet[..i], x);
      OneMoreImplied(f, f.aSet[..i], x, old(g.edges));
      g.AddNode(Enter(x));
      if x in f.multi {
        implied := implied + set e | e in g.edges && e.0 == Enter(x) && f.reg(x) == f.reg(e.1.loc) :: (Final(x), e.1);
        g.AddEdge((Enter(x), Final(x)));
      }
    }
    assert f.aSet[..|f.aSet|] == f.aSet;
  }

  lemma {:induction false} WholeSet(f: Facts, comb: seq<Choice>, es: set<Edge>)
    ensures ImpliedBy(f, f.aSet, es) == Implied(f, es)
    ensures Ends(Given(f, comb)) + Sites(f, f.aSet) == Nodes(f, comb)
  {
  }

  /** The graph of the set with the chosen orders, its concurrent pairs, and the edges
      implied by shared registers. */
  method BuildWeighted(f: Facts, comb: seq<Choice>) returns (g: DiGraph, pairs: seq<Edge>, implied: set<Edge>)
    requires NoRepeats(f.aSet)
    ensures fresh(g) && g.nodes == Nodes(f, comb) && g.edges == WeightedGraph(f, comb)
    ensures pairs == Pairs(f, comb) && implied == Implied(f, Given(f, comb))
  {
    g := new DiGraph();
    AddProven(g, f);
    var concur := AddChoices(g, comb);
    assert g.edges == Given(f, comb);
    WholeSet(f, comb, g.edges);
    implied := AddStays(g, f);
    WeightedClosed(f, comb);
    assert Closed(g.nodes, implied) by {
      assert forall e :: e in implied ==> e in Weighted(f, comb);
    }
    AddEdges(g, implied);
    AddLeaving(g, f);
    assert g.edges == Weighted(f, comb);
    pairs := f.concur + f.leavingConcur + concur;
    g.SaturateAll(pairs);
  }

  // ---- saturation of a graph with stays ----

  /** Some concurrent pair of two nodes of the graph has an end of the stay `e`. */
  ghost predicate Touched(ns: set<Node>, pairs: seq<Edge>, e: Edge) {
    exists i :: 0 <= i < |pairs| && Touches(ns, pairs[i], e)
  }

  ghost predicate Touches(ns: set<Node>, p: Edge, e: Edge) {
    p.0 in ns && p.1 in ns && p.0 != p.1 && (p.0 in {e.0, e.1} || p.1 in {e.0, e.1})
  }

  /** Strict, or a stay that no concurrent pair touches. */
  ghost predicate Safe(t: Timing, ns: set<Node>, pairs: seq<Edge>, e: Edge) {
    t(e.0) < t(e.1) || (IsStay(e) && t(e.0) <= t(e.1) && !Touched(ns, pairs, e))
  }

  ghost predicate AllSafe(t: Timing, ns: set<Node>, pairs: seq<Edge>, es: set<Edge>) {
    forall e :: e in es ==> Safe(t, ns, pairs, e)
  }

  lemma {:induction false} CopiedSafe(t: Timing, ns: set<Node>, pairs: seq<Edge>, es: set<Edge>, a: Node, b: Node)
    requires AllSafe(t, ns, pairs, es) && a in ns && b in ns && t(a) == t(b)
    requires (a, b) in pairs || (b, a) in pairs
    ensures AllSafe(t, ns, pairs, InCopied(es, a, b)) && AllSafe(t, ns, pairs, OutCopied(es, a, b))
  {
  }

  lemma {:induction false} SaturateSafe(t: Timing, ns: set<Node>, all: seq<Edge>, es: set<Edge>, pairs: seq<Edge>)
    requires Simultaneous(t, ns, pairs) && AllSafe(t, ns, all, es) && forall p :: p in pairs ==> p in all
    ensures AllSafe(t, ns, all, Saturate(ns, es, pairs))
  {
    if pairs != [] {
      var k := |pairs| - 1;
      assert forall i :: 0 <= i < k ==> pairs[..k][i] == pairs[i];
      SaturateSafe(t, ns, all, es, pairs[..k]);
      var s, a, b := Saturate(ns, es, pairs[..k]), pairs[k].0, pairs[k].1;
      assert pairs[k] == (a, b);
      if a in ns && b in ns {
        CopiedSafe(t, ns, all, s, a, b);
        CopiedSafe(t, ns, all, InCopied(s, a, b), b, a);
        var i := InCopied(InCopied(s, a, b), b, a);
        CopiedSafe(t, ns, all, i, a, b);
        CopiedSafe(t, ns, all, OutCopied(i, a, b), b, a);
      }
    }
  }

  /** What a concurrent pair copies of an edge. */
  ghost function Copies(p: Edge, e: Edge): set<Edge> {
    (if p.0 == e.0 then {(p.1, e.1)} else {}) + (if p.1 == e.0 then {(p.0, e.1)} else {})
    + (if p.0 == e.1 then {(e.0, p.1)} else {}) + (if p.1 == e.1 then {(e.0, p.0)} else {})
  }

  lemma {:induction false} Copied(ns: set<Node>, es: set<Edge>, pairs: seq<Edge>, i: nat, e: Edge, d: Edge)
    requires i < |pairs| && e in es && pairs[i].0 in ns && pairs[i].1 in ns && d in Copies(pairs[i], e)
    ensures d in Saturate(ns, es, pairs)
  {
    var k := |pairs| - 1;
    var s := Saturate(ns, es, pairs[..k]);
    assert e in s by { SaturateContains(ns, es, pairs[..k]); }
    StepCopies(ns, s, pairs[k], e, Saturate(ns, es, pairs));
    if i < k {
      Copied(ns, es, pairs[..k], i, e, d);
    }
  }

  lemma {:induction false} StepCopies(ns: set<Node>, s: set<Edge>, p: Edge, e: Edge, g: set<Edge>)
    requires e in s && g == if p.0 in ns && p.1 in ns then SaturatePair(s, p.0, p.1) else s
    ensures s <= g && (p.0 in ns && p.1 in ns ==> Copies(p, e) <= g)
  {
  }

  /** A stay that a pair touches is copied as a strict edge. */
  lemma {:induction false} TouchedIsStrict(t: Timing, ns: set<Node>, es: set<Edge>, pairs: seq<Edge>, e: Edge)
    requires Simultaneous(t, ns, pairs) && RespectsAll(t, Saturate(ns, es, pairs))
    requires e in es && IsStay(e) && Touched(ns, pairs, e)
    ensures t(e.0) < t(e.1)
  {
    var i :| 0 <= i < |pairs| && Touches(ns, pairs[i], e);
    var p := pairs[i];
    forall d | d in Copies(p, e) ensures Respects(t, d) {
      Copied(ns, es, pairs, i, e, d);
    }
    if p.0 == e.0 {
      assert Respects(t, (p.1, e.1));
    } else if p.1 == e.0 {
      assert Respects(t, (p.0, e.1));
    } else if p.0 == e.1 {
      assert Respects(t, (e.0, p.1));
    } else {
      assert Respects(t, (e.0, p.0));
    }
  }

  /** Saturating a graph that holds stays preserves the meaning of a timing if and
      only if the timing gives no stay that a concurrent pair touches length zero. */
  lemma {:induction false} StaySaturationExact(t: Timing, ns: set<Node>, es: set<Edge>, pairs: seq<Edge>)
    requires Simultaneous(t, ns, pairs) && RespectsAll(t, es)
    ensures RespectsAll(t, Saturate(ns, es, pairs)) <==>
            forall e :: e in es && IsStay(e) && Touched(ns, pairs, e) ==> t(e.0) < t(e.1)
  {
    if RespectsAll(t, Saturate(ns, es, pairs)) {
      forall e | e in es && IsStay(e) && Touched(ns, pairs, e) ensures t(e.0) < t(e.1) {
        TouchedIsStrict(t, ns, es, pairs, e);
      }
    }
    if forall e :: e in es && IsStay(e) && Touched(ns, pairs, e) ==> t(e.0) < t(e.1) {
      assert AllSafe(t, ns, pairs, es);
      SaturateSafe(t, ns, pairs, es, pairs);
    }
  }
}
