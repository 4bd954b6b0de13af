/** What the constraints of a set mean for executions: which executions they keep, and
    which orders of an execution can go unlisted. */
module RunOrders {
  import opened Graph
  import opened Solver
  import opened ConstructPaths
  import opened Execution
  import opened CollectReEval
  import opened PairsTodo

  // ---- which executions the constraints keep ----

  /** A stay that a concurrent pair touches is longer than one cycle. */
  ghost predicate StaysLong(r: Run, f: Facts, comb: seq<Choice>) {
    forall e :: e in Weighted(f, comb) && IsStay(e) && Touched(Nodes(f, comb), Pairs(f, comb), e) ==>
      CycleOf(r, e.0) < CycleOf(r, e.1)
  }

  /** Edges within one register, other than stays, are one cycle long. */
  ghost predicate OneApart(r: Run, f: Facts, es: set<Edge>) {
    forall e :: e in es && !IsStay(e) && f.reg(e.0.loc) == f.reg(e.1.loc) ==> CycleOf(r, e.0) + 1 == CycleOf(r, e.1)
  }

  /** The execution visits the set, the facts hold of it and it makes the choices. */
  ghost predicate Performs(r: Run, f: Facts, comb: seq<Choice>) {
    Visits(r, f) && FactsHold(r, f) && ChosenAll(r, f, comb)
  }

  /** The cycles of an execution respect the facts before saturation. */
  lemma {:induction false} RunRespects(r: Run, f: Facts, comb: seq<Choice>)
    requires Performs(r, f, comb)
    ensures RespectsAll(Times(r), Weighted(f, comb)) && Simultaneous(Times(r), Nodes(f, comb), Pairs(f, comb))
    ensures forall e :: e in f.whb && e.0 in Nodes(f, comb) && e.1 in Nodes(f, comb) ==>
              CycleOf(r, e.0) <= CycleOf(r, e.1)
  {
    RunObeys(r, f, comb);
    forall e | e in StaySet(f, f.aSet) ensures Respects(Times(r), e) {
      EntryCycle(r, f, e.0.loc);
    }
  }

  lemma {:induction false} ImpliedSameRegister(f: Facts, given: set<Edge>, e: Edge)
    requires e in Implied(f, given)
    ensures f.reg(e.0.loc) == f.reg(e.1.loc)
  {
  }

  /** The constraint of an edge that the execution respects holds of it. */
  lemma {:induction false} EdgeHolds(r: Run, f: Facts, given: set<Edge>, es: set<Edge>, e: Edge)
    requires Visits(r, f) && OneApart(r, f, es) && e in es && Respects(Times(r), e) && InGraph(f, e)
    ensures Holds(Times(r), WeightedConstraint(f, Implied(f, given), e))
  {
    if e in Implied(f, given) {
      ImpliedSameRegister(f, given, e);
    }
    if IsStay(e) {
      EntryCycle(r, f, e.0.loc);
    }
  }

  lemma {:induction false} EmittedOfRun(r: Run, f: Facts, comb: seq<Choice>, n: set<Node>, es: set<Edge>, k: Constraint)
    requires Performs(r, f, comb) && OneApart(r, f, es) && n == Nodes(f, comb) && WeightedEmits(f, comb, n, es, k)
    requires RespectsAll(Times(r), es) && Closed(n, es)
    ensures Holds(Times(r), k)
  {
    RunRespects(r, f, comb);
    if e :| e in es && k == WeightedConstraint(f, Implied(f, Given(f, comb)), e) {
      NodesKnown(r, f, comb);
      EdgeHolds(r, f, Given(f, comb), es, e);
    }
  }

  /** A long enough stay wherever a pair touches one: then the saturated graph is
      respected, so it has no cycle. */
  lemma {:induction false} LongRespects(r: Run, f: Facts, comb: seq<Choice>, ns: seq<Node>)
    requires Performs(r, f, comb) && StaysLong(r, f, comb)
    ensures RespectsAll(Times(r), WeightedGraph(f, comb)) && !Cyclic(ns, Closure(ns, WeightedGraph(f, comb)))
  {
    RunRespects(r, f, comb);
    StaySaturationExact(Times(r), Nodes(f, comb), Weighted(f, comb), Pairs(f, comb));
    RespectedIsAcyclic(Times(r), ns, WeightedGraph(f, comb));
  }

  /** Two stays are never consecutive, so a timing that respects the edges goes round no
      cycle. */
  lemma {:induction false} RespectedIsAcyclic(t: Timing, ns: seq<Node>, es: set<Edge>)
    requires RespectsAll(t, es)
    ensures !Cyclic(ns, Closure(ns, es))
  {
    var r := (e: Edge) => t(e.0) < t(e.1) || (IsStay(e) && t(e.0) <= t(e.1));
    forall u, m, v | r((u, m)) && r((m, v)) ensures r((u, v)) {
      TwoStepsStrict(t, u, m, v);
    }
    ClosureLeast(ns, es, r);
  }

  lemma {:induction false} LongAndApartModels(r: Run, p: Acyclic)
    requires Performs(r, p.f, p.comb) && StaysLong(r, p.f, p.comb) && OneApart(r, p.f, p.Reduced())
    ensures Models(Times(r), p.cs)
  {
    LongRespects(r, p.f, p.comb, p.ns);
    WeightedClosed(p.f, p.comb);
    forall k | k in p.cs ensures Holds(Times(r), k) {
      EmittedOfRun(r, p.f, p.comb, Nodes(p.f, p.comb), p.Reduced(), k);
    }
  }

  lemma {:induction false} ModelIsApart(t: Timing, f: Facts, comb: seq<Choice>, n: set<Node>, es: set<Edge>, e: Edge)
    requires forall k :: WeightedEmits(f, comb, n, es, k) ==> Holds(t, k)
    requires e in es && !IsStay(e) && f.reg(e.0.loc) == f.reg(e.1.loc)
    ensures t(e.0) + 1 == t(e.1)
  {
    var k := WeightedConstraint(f, Implied(f, Given(f, comb)), e);
    assert WeightedEmits(f, comb, n, es, k) && k == Gap(e.0, e.1, 1);
  }

  lemma {:induction false} ModelsLong(r: Run, p: Acyclic)
    requires Performs(r, p.f, p.comb) && RespectsAll(Times(r), p.Reduced())
    ensures StaysLong(r, p.f, p.comb)
  {
    var f, comb := p.f, p.comb;
    RunRespects(r, f, comb);
    WeightedClosed(f, comb);
    ReducedRespects(Times(r), p.ns, WeightedGraph(f, comb));
    StaySaturationExact(Times(r), Nodes(f, comb), Weighted(f, comb), Pairs(f, comb));
  }

  lemma {:induction false} ModelsLongAndApart(r: Run, p: Acyclic)
    requires Performs(r, p.f, p.comb) && Models(Times(r), p.cs)
    ensures StaysLong(r, p.f, p.comb) && OneApart(r, p.f, p.Reduced())
  {
    WeightedModel(Times(r), p.f, p.comb, Nodes(p.f, p.comb), p.Reduced());
    ModelsLong(r, p);
    forall e | e in p.Reduced() && !IsStay(e) && p.f.reg(e.0.loc) == p.f.reg(e.1.loc)
      ensures CycleOf(r, e.0) + 1 == CycleOf(r, e.1)
    {
      ModelIsApart(Times(r), p.f, p.comb, Nodes(p.f, p.comb), p.Reduced(), e);
    }
  }

  /** An execution that visits the set, of which the facts hold and which makes the choices
      satisfies the constraints if and only if it stays longer than one cycle wherever a
      concurrent pair touches a stay, and goes directly from location to location along
      every reduced edge within one register. */
  lemma {:induction false} RunModels(r: Run, p: Acyclic)
    requires Performs(r, p.f, p.comb)
    ensures Models(Times(r), p.cs) <==> StaysLong(r, p.f, p.comb) && OneApart(r, p.f, p.Reduced())
  {
    if Models(Times(r), p.cs) {
      ModelsLongAndApart(r, p);
    }
    if StaysLong(r, p.f, p.comb) && OneApart(r, p.f, p.Reduced()) {
      LongAndApartModels(r, p);
    }
  }

  /** Such an execution is not lost when the graph is built again with its own orders of
      entry: there is no cycle, and the constraints, which the code asserts to be
      satisfiable, are. */
  lemma {:induction false} RunPassesAgain(r: Run, p: Setting)
    requires Performs(r, p.f, p.comb) && StaysLong(r, p.f, p.comb) && OneApart(r, p.f, p.Reduced())
    requires Lists(p.ns, p.f, p.comb) && (!Cyclic(p.ns, p.TC()) ==> WeightedEmitted(p.f, p.comb, p.ns, p.cs))
    ensures !Cyclic(p.ns, p.TC()) && Models(Times(r), p.cs)
  {
    LongRespects(r, p.f, p.comb, p.ns);
    LongAndApartModels(r, p);
  }

  /** Where no pair touches a stay and no reduced edge is within one register, every
      execution of which the facts hold satisfies the constraints. */
  lemma {:induction false} AllRunsModel(r: Run, p: Acyclic)
    requires Performs(r, p.f, p.comb)
    requires forall e :: e in Weighted(p.f, p.comb) && IsStay(e) ==>
               !Touched(Nodes(p.f, p.comb), Pairs(p.f, p.comb), e)
    requires forall e :: e in p.Reduced() && !IsStay(e) ==> p.f.reg(e.0.loc) != p.f.reg(e.1.loc)
    ensures Models(Times(r), p.cs)
  {
    RunModels(r, p);
  }

  /** An order that such an execution has goes unlisted only if the constraints entail it. */
  lemma {:induction false} UnlistedIsEntailed(r: Run, p: Acyclic, todo: Orders, edges: seq<(Loc, Loc)>, a: Loc, b: Loc)
    requires Performs(r, p.f, p.comb) && StaysLong(r, p.f, p.comb) && OneApart(r, p.f, p.Reduced())
    requires ListsOpen(todo, OpenEdges(p, edges), edges) && (a, b) in edges && a in p.f.aSet && b in p.f.aSet
    requires CycleOf(r, Enter(a)) < CycleOf(r, Enter(b)) && !Listed(todo, a, b)
    ensures Entails(p.cs, Lt(Enter(a), Enter(b)))
  {
    RunModels(r, p);
    var t := Times(r);
    assert Models(t, p.cs) && Holds(t, Lt(Enter(a), Enter(b)));
    assert !Open(p, a, b);
  }
}
