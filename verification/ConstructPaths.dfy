/** Builds the happens-before graph of one candidate path, rejects it if it is
    cyclic, reduces it, and hands integer timing constraints to the solver. */
module ConstructPaths {
  import opened Graph
  import opened Solver

  /** What is known of a set of locations that some execution visits. */
  datatype Facts = Facts(
    aSet: seq<Loc>,              // the locations visited
    multi: set<Loc>,             // those that can stay longer than one cycle
    limit: Loc -> nat,           // the longest stay of each location
    reg: Loc -> string,          // the register whose state the location is
    hb: seq<Edge>,               // entry before entry, proven
    whb: seq<Edge>,              // entry not after entry, proven
    concur: seq<Edge>,           // entries in the same cycle, proven
    leavingHb: seq<Edge>,        // strict order that involves a final cycle, proven
    leavingConcur: seq<Edge>)    // same cycle, involving a final cycle, proven

  // ---- the graph, as sets ----

  predicate Inside(f: Facts, e: Edge) {
    e.0.loc in f.aSet && e.1.loc in f.aSet
  }

  /** An event of the set: only long locations have final cycles. */
  ghost predicate Known(f: Facts, n: Node) {
    n.loc in f.aSet && (n.Final? ==> n.loc in f.multi)
  }

  ghost predicate InGraph(f: Facts, e: Edge) {
    Known(f, e.0) && Known(f, e.1)
  }

  /** The edge a choice adds, if any. */
  function ChoiceEdges(c: Choice): set<Edge> {
    match c.1
    case Before => {c.0}
    case After => {(c.0.1, c.0.0)}
    case Together => {}
  }

  function ChosenEdges(comb: seq<Choice>): set<Edge> {
    if comb == [] then {} else ChosenEdges(comb[..|comb| - 1]) + ChoiceEdges(comb[|comb| - 1])
  }

  function ChosenPairs(comb: seq<Choice>): seq<Edge> {
    if comb == [] then []
    else ChosenPairs(comb[..|comb| - 1]) + if comb[|comb| - 1].1.Together? then [comb[|comb| - 1].0] else []
  }

  /** Proven and chosen strict edges. */
  function Given(f: Facts, comb: seq<Choice>): set<Edge> {
    (set e | e in f.hb && Inside(f, e)) + ChosenEdges(comb)
  }

  predicate Stayer(f: Facts, x: Loc) {
    x in f.aSet && x in f.multi
  }

  /** Leaving a location before another of the same register, wherever entering it
      comes before. */
  function Implied(f: Facts, given: set<Edge>): set<Edge> {
    set e | e in given && e.0.Enter? && Stayer(f, e.0.loc) && f.reg(e.0.loc) == f.reg(e.1.loc)
      :: (Final(e.0.loc), e.1)
  }

  function Ends(es: set<Edge>): set<Node> {
    (set e | e in es :: e.0) + (set e | e in es :: e.1)
  }

  function Nodes(f: Facts, comb: seq<Choice>): set<Node> {
    Ends(Given(f, comb)) + (set x | x in f.aSet :: Enter(x)) + (set x | x in f.aSet && x in f.multi :: Final(x))
  }

  function Unsaturated(f: Facts, comb: seq<Choice>): set<Edge> {
    var given, ns := Given(f, comb), Nodes(f, comb);
    given + Implied(f, given) + set e | e in f.leavingHb && e.0 in ns && e.1 in ns
  }

  function Pairs(f: Facts, comb: seq<Choice>): seq<Edge> {
    f.concur + f.leavingConcur + ChosenPairs(comb)
  }

  function Saturated(f: Facts, comb: seq<Choice>): set<Edge> {
    Saturate(Nodes(f, comb), Unsaturated(f, comb), Pairs(f, comb))
  }

  // ---- the constraints ----

  function EdgeConstraint(f: Facts, e: Edge): Constraint {
    if IsStay(e) && Stayer(f, e.0.loc) then Stays(e.0, e.1, f.limit(e.0.loc)) else Lt(e.0, e.1)
  }

  /** Proven weak orders, and every long location enters no later than its final cycle. */
  ghost predicate WeakEdge(f: Facts, e: Edge) {
    e in f.whb || (IsStay(e) && Stayer(f, e.0.loc))
  }

  ghost predicate Emits(f: Facts, ns: set<Node>, reduced: set<Edge>, pairs: seq<Edge>, c: Constraint) {
    || (exists e :: e in reduced && c == EdgeConstraint(f, e))
    || (exists e :: WeakEdge(f, e) && e.0 in ns && e.1 in ns && c == Le(e.0, e.1))
    || (exists e :: e in pairs && e.0 in ns && e.1 in ns && c == Eq(e.0, e.1))
  }

  /** `cs` holds exactly the constraints of the candidate. */
  ghost predicate Emitted(f: Facts, comb: seq<Choice>, c: set<Edge>, cs: seq<Constraint>) {
    forall k :: k in cs <==> Emits(f, Nodes(f, comb), Reduction(Saturated(f, comb), c), Pairs(f, comb), k)
  }

  /** `ns` lists the nodes of the graph. */
  ghost predicate Lists(ns: seq<Node>, f: Facts, comb: seq<Choice>) {
    forall n :: n in ns <==> n in Nodes(f, comb)
  }

  // ---- no timing is lost ----

  /** A stay that the graph makes an edge is no longer than its limit. */
  ghost predicate Bounded(t: Timing, f: Facts, es: set<Edge>) {
    forall e :: e in es && IsStay(e) && Stayer(f, e.0.loc) ==> t(e.1) < t(e.0) + f.limit(e.0.loc)
  }

  /** A timing that respects every fact and every choice; a stay may have length zero. */
  ghost predicate Consistent(t: Timing, f: Facts, comb: seq<Choice>) {
    && RespectsAll(t, Unsaturated(f, comb))
    && Simultaneous(t, Nodes(f, comb), Pairs(f, comb))
    && forall e :: WeakEdge(f, e) && e.0 in Nodes(f, comb) && e.1 in Nodes(f, comb) ==> t(e.0) <= t(e.1)
  }

  /** A timing that obeys every fact and every choice. */
  ghost predicate Obeys(t: Timing, f: Facts, comb: seq<Choice>) {
    && Ordered(t, Unsaturated(f, comb))
    && Simultaneous(t, Nodes(f, comb), Pairs(f, comb))
    && (forall e :: WeakEdge(f, e) && e.0 in Nodes(f, comb) && e.1 in Nodes(f, comb) ==> t(e.0) <= t(e.1))
    && Bounded(t, f, Saturated(f, comb))
  }

  lemma {:induction false} UnsaturatedClosed(f: Facts, comb: seq<Choice>)
    ensures Closed(Nodes(f, comb), Unsaturated(f, comb))
  {
  }

  lemma {:induction false} SaturatedCovered(f: Facts, comb: seq<Choice>, ns: seq<Node>)
    requires Lists(ns, f, comb)
    ensures Covers(ns, Saturated(f, comb))
  {
    UnsaturatedClosed(f, comb);
    SaturateClosed(Nodes(f, comb), Unsaturated(f, comb), Pairs(f, comb));
  }

  /** A timing that orders the reduced edges, bounds the stays and obeys the pairs
      and weak orders holds of every emitted constraint. */
  lemma {:induction false} EmittedHolds(t: Timing, f: Facts, n: set<Node>, r: set<Edge>, pairs: seq<Edge>,
                                        k: Constraint)
    requires Ordered(t, r) && Simultaneous(t, n, pairs) && Emits(f, n, r, pairs, k)
    requires forall e :: WeakEdge(f, e) && e.0 in n && e.1 in n ==> t(e.0) <= t(e.1)
    requires Bounded(t, f, r)
    ensures Holds(t, k)
  {
  }

  /** Conversely, what a model of the emitted constraints obeys. */
  lemma {:induction false} ModelObeys(t: Timing, f: Facts, n: set<Node>, r: set<Edge>, pairs: seq<Edge>)
    requires forall k :: Emits(f, n, r, pairs, k) ==> Holds(t, k)
    ensures RespectsAll(t, r) && Simultaneous(t, n, pairs) && Bounded(t, f, r)
    ensures forall e :: WeakEdge(f, e) && e.0 in n && e.1 in n ==> t(e.0) <= t(e.1)
  {
    forall e | e in r ensures Holds(t, EdgeConstraint(f, e)) {
      assert Emits(f, n, r, pairs, EdgeConstraint(f, e));
    }
    forall i | 0 <= i < |pairs| && pairs[i].0 in n && pairs[i].1 in n ensures t(pairs[i].0) == t(pairs[i].1) {
      assert Emits(f, n, r, pairs, Eq(pairs[i].0, pairs[i].1));
    }
    forall e | WeakEdge(f, e) && e.0 in n && e.1 in n ensures t(e.0) <= t(e.1) {
      assert Emits(f, n, r, pairs, Le(e.0, e.1));
    }
  }

  /** Neither the cycle test nor the solver rejects a candidate that some timing obeys. */
  lemma {:induction false} ObeyedIsKept(t: Timing, f: Facts, comb: seq<Choice>, ns: seq<Node>, cs: seq<Constraint>)
    requires Obeys(t, f, comb)
    requires Emitted(f, comb, Closure(ns, Saturated(f, comb)), cs)
    ensures !Cyclic(ns, Closure(ns, Saturated(f, comb)))
    ensures Models(t, cs)
  {
    var g, n, pairs := Saturated(f, comb), Nodes(f, comb), Pairs(f, comb);
    SaturationSound(t, n, Unsaturated(f, comb), pairs);
    TimingOrdersClosure(t, ns, g);
    var r := Reduction(g, Closure(ns, g));
    forall k | k in cs ensures Holds(t, k) {
      EmittedHolds(t, f, n, r, pairs, k);
    }
  }

  /** A timing that respects the reduced edges respects all. */
  lemma {:induction false} ReducedRespects(t: Timing, ns: seq<Node>, g: set<Edge>)
    requires Covers(ns, g) && !Cyclic(ns, Closure(ns, g)) && RespectsAll(t, Reduction(g, Closure(ns, g)))
    ensures RespectsAll(t, g)
  {
    ClosureContains(ns, g);
    forall e | e in g ensures Respects(t, e) {
      assert e == (e.0, e.1);
      ReductionEntails(t, ns, g, e.0, e.1);
    }
  }

  /** A candidate that is kept is consistent: its model orders every edge of the
      saturated graph, in particular every proven and chosen one, strictly unless
      it is a stay edge, and obeys the weak orders, the concurrent pairs and the limits
      of the stays that are reduced edges. */
  lemma {:induction false} KeptIsObeyed(t: Timing, f: Facts, comb: seq<Choice>, ns: seq<Node>, cs: seq<Constraint>)
    requires Lists(ns, f, comb)
    requires Emitted(f, comb, Closure(ns, Saturated(f, comb)), cs)
    requires !Cyclic(ns, Closure(ns, Saturated(f, comb))) && Models(t, cs)
    ensures RespectsAll(t, Saturated(f, comb)) && Consistent(t, f, comb)
    ensures Bounded(t, f, Reduction(Saturated(f, comb), Closure(ns, Saturated(f, comb))))
  {
    var g, n, pairs := Saturated(f, comb), Nodes(f, comb), Pairs(f, comb);
    SaturatedCovered(f, comb, ns);
    ModelObeys(t, f, n, Reduction(g, Closure(ns, g)), pairs);
    ReducedRespects(t, ns, g);
    SaturateContains(n, Unsaturated(f, comb), pairs);
  }
}
