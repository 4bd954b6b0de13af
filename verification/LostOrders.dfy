/** Executions that are lost: of the first two all facts hold but not the constraints, the
    third has an order that is never listed, and the fourth stays one cycle in a location
    whose final cycle was proven to come before an entry. */
module LostOrders {
  import opened Graph
  import opened Traces
  import opened Solver
  import opened ConstructPaths
  import opened Execution
  import opened CollectReEval
  import opened PairsTodo
  import opened RunOrders
  import opened OrderLists
  import opened Leaving
  import opened LeavingFacts

  /** An execution that is in every location for one cycle. */
  ghost function Brief(cycle: Loc -> nat): Run {
    Run((x: Loc) => (n: nat) => n == cycle(x), cycle)
  }

  lemma {:induction false} BriefCycles(cycle: Loc -> nat, x: Loc)
    ensures var s := Brief(cycle).sig(x);
            Visited(s) && First(s) == cycle(x) && Contiguous(s, cycle(x))
    ensures CycleOf(Brief(cycle), Enter(x)) == CycleOf(Brief(cycle), Final(x)) == cycle(x)
  {
    var s := Brief(cycle).sig(x);
    assert s(cycle(x));
    assert Visited(s) && IsFirst(s, First(s));
  }

  lemma {:induction false} BriefVisits(cycle: Loc -> nat, f: Facts)
    requires forall x :: Stayer(f, x) ==> f.limit(x) > 0
    requires forall x, y :: x in f.aSet && y in f.aSet && x != y && f.reg(x) == f.reg(y) ==> cycle(x) != cycle(y)
    ensures Visits(Brief(cycle), f)
  {
    forall x ensures Contiguous(Brief(cycle).sig(x), cycle(x)) && CycleOf(Brief(cycle), Enter(x)) == cycle(x) {
      BriefCycles(cycle, x);
    }
  }

  lemma {:induction false} BriefHb(cycle: Loc -> nat, a: Loc, b: Loc)
    ensures AssertHb(Brief(cycle).sig(a), Brief(cycle).sig(b)) <==> cycle(a) < cycle(b)
    ensures AssertConcur(Brief(cycle).sig(a), Brief(cycle).sig(b)) <==> cycle(a) == cycle(b)
  {
    BriefCycles(cycle, a);
    BriefCycles(cycle, b);
    HbMeans(Brief(cycle).sig(a), Brief(cycle).sig(b));
    ConcurMeans(Brief(cycle).sig(a), Brief(cycle).sig(b));
  }

  // ---- one register ----

  /** Entry of a before b and of a before c, with a and b in one register. */
  ghost function Fork(a: Loc, b: Loc, c: Loc): Facts {
    Facts([a, b, c], {}, (x: Loc) => 1, (x: Loc) => if x == c then "q" else "p",
          [(Enter(a), Enter(b)), (Enter(a), Enter(c))], [], [], [], [])
  }

  /** First a, then c, then b. */
  ghost function Detour(a: Loc, c: Loc): Run {
    Brief((x: Loc) => if x == a then 0 else if x == c then 1 else 2)
  }

  lemma {:induction false} DetourHappens(a: Loc, b: Loc, c: Loc)
    requires a != b && a != c && b != c
    ensures Visits(Detour(a, c), Fork(a, b, c)) && FactsHold(Detour(a, c), Fork(a, b, c))
    ensures CycleOf(Detour(a, c), Enter(c)) < CycleOf(Detour(a, c), Enter(b))
  {
    var cycle := (x: Loc) => if x == a then 0 else if x == c then 1 else 2;
    BriefVisits(cycle, Fork(a, b, c));
    BriefHb(cycle, a, b);
    BriefHb(cycle, a, c);
    BriefCycles(cycle, b);
    BriefCycles(cycle, c);
  }

  lemma {:induction false} ForkGraph(a: Loc, b: Loc, c: Loc)
    requires a != b && a != c && b != c
    ensures WeightedGraph(Fork(a, b, c), []) == {(Enter(a), Enter(b)), (Enter(a), Enter(c))}
  {
    var f := Fork(a, b, c);
    assert Given(f, []) == {(Enter(a), Enter(b)), (Enter(a), Enter(c))};
    assert StaySet(f, f.aSet) == {} && Pairs(f, []) == [];
    assert Unsaturated(f, []) == Given(f, []);
  }

  lemma {:induction false} ForkReduced(ns: seq<Node>, a: Loc, b: Loc, c: Loc)
    requires a != b && a != c && b != c
    ensures var g := WeightedGraph(Fork(a, b, c), []);
            && g == {(Enter(a), Enter(b)), (Enter(a), Enter(c))}
            && Reduction(g, Closure(ns, g)) == g && !Cyclic(ns, Closure(ns, g))
  {
    ForkGraph(a, b, c);
    ClosureLeast(ns, WeightedGraph(Fork(a, b, c), []), (e: Edge) => e.0 == Enter(a) && e.1 != Enter(a));
  }

  lemma {:induction false} ModelsTwo(t: Timing, cs: seq<Constraint>, k: Constraint, l: Constraint)
    requires forall c :: c in cs <==> c == k || c == l
    ensures Models(t, cs) <==> Holds(t, k) && Holds(t, l)
  {
    assert k in cs && l in cs;
  }

  /** Two reduced edges and nothing else give two constraints. */
  lemma {:induction false} EmitsTwo(f: Facts, n: set<Node>, d: Edge, e: Edge)
    requires f.whb == [] && Pairs(f, []) == []
    ensures var implied := Implied(f, Given(f, []));
            forall k :: WeightedEmits(f, [], n, {d, e}, k) <==>
              k == WeightedConstraint(f, implied, d) || k == WeightedConstraint(f, implied, e)
  {
  }

  lemma {:induction false} ForkEmits(a: Loc, b: Loc, c: Loc, n: set<Node>)
    requires a != b && a != c && b != c
    ensures forall k :: WeightedEmits(Fork(a, b, c), [], n, {(Enter(a), Enter(b)), (Enter(a), Enter(c))}, k) <==>
              k == Gap(Enter(a), Enter(b), 1) || k == Lt(Enter(a), Enter(c))
  {
    var f, ab, ac := Fork(a, b, c), (Enter(a), Enter(b)), (Enter(a), Enter(c));
    var implied := Implied(f, Given(f, []));
    EmitsTwo(f, n, ab, ac);
    assert implied == {};
    assert WeightedConstraint(f, implied, ab) == Gap(Enter(a), Enter(b), 1);
    assert WeightedConstraint(f, implied, ac) == Lt(Enter(a), Enter(c));
  }

  lemma {:induction false} ForkAsserted(p: Acyclic, a: Loc, b: Loc, c: Loc)
    requires a != b && a != c && b != c && p.f == Fork(a, b, c) && p.comb == []
    ensures forall k :: k in p.cs <==> k == Gap(Enter(a), Enter(b), 1) || k == Lt(Enter(a), Enter(c))
  {
    ForkReduced(p.ns, a, b, c);
    ForkEmits(a, b, c, Nodes(p.f, []));
  }

  /** The constraints put b exactly one cycle after a, so that c is not before b. */
  lemma {:induction false} GapRulesOut(cs: seq<Constraint>, a: Node, b: Node, c: Node)
    requires a != b && a != c && forall k :: k in cs <==> k == Gap(a, b, 1) || k == Lt(a, c)
    ensures Sat(cs) && !Undecided(cs, (c, b))
  {
    var t: Timing := (n: Node) => if n == a then 0 else 1;
    ModelsTwo(t, cs, Gap(a, b, 1), Lt(a, c));
    forall t: Timing | Models(t, cs) ensures !Holds(t, Lt(c, b)) {
      ModelsTwo(t, cs, Gap(a, b, 1), Lt(a, c));
    }
  }

  /** For whatever constraints the code asserts, "c before b" is skipped as ruled out. */
  lemma {:induction false} DetourSkipped(p: Acyclic, a: Loc, b: Loc, c: Loc)
    requires a != b && a != c && b != c && p.f == Fork(a, b, c) && p.comb == []
    ensures Sat(p.cs) && !Open(p, c, b)
  {
    ForkAsserted(p, a, b, c);
    GapRulesOut(p.cs, Enter(a), Enter(b), Enter(c));
  }

  lemma {:induction false} ForkEmitted(ns: seq<Node>, cs: seq<Constraint>, a: Loc, b: Loc, c: Loc)
    requires a != b && a != c && b != c
    requires forall k :: k in cs <==> k == Gap(Enter(a), Enter(b), 1) || k == Lt(Enter(a), Enter(c))
    ensures WeightedEmitted(Fork(a, b, c), [], ns, cs)
  {
    ForkReduced(ns, a, b, c);
    ForkEmits(a, b, c, Nodes(Fork(a, b, c), []));
  }

  lemma {:induction false} ForkConsistent(ns: seq<Node>, cs: seq<Constraint>, a: Loc, b: Loc, c: Loc)
    requires a != b && a != c && b != c && (forall n :: n in ns <==> n in {Enter(a), Enter(b), Enter(c)})
    requires forall k :: k in cs <==> k == Gap(Enter(a), Enter(b), 1) || k == Lt(Enter(a), Enter(c))
    ensures Setting(Fork(a, b, c), [], ns, cs).Consistent()
  {
    var f := Fork(a, b, c);
    assert Lists(ns, f, []) by {
      ForkNodes(a, b, c);
    }
    assert WeightedEmitted(f, [], ns, cs) by {
      ForkEmitted(ns, cs, a, b, c);
    }
    assert !Cyclic(ns, Closure(ns, WeightedGraph(f, []))) by {
      ForkReduced(ns, a, b, c);
    }
  }

  lemma {:induction false} ForkSetting(a: Loc, b: Loc, c: Loc) returns (p: Acyclic)
    requires a != b && a != c && b != c
    ensures p.f == Fork(a, b, c) && p.comb == []
  {
    var ns, cs := [Enter(a), Enter(b), Enter(c)], [Gap(Enter(a), Enter(b), 1), Lt(Enter(a), Enter(c))];
    ForkConsistent(ns, cs, a, b, c);
    p := Setting(Fork(a, b, c), [], ns, cs);
  }

  lemma {:induction false} ForkNodes(a: Loc, b: Loc, c: Loc)
    ensures Nodes(Fork(a, b, c), []) == {Enter(a), Enter(b), Enter(c)}
  {
    var f := Fork(a, b, c);
    assert Given(f, []) == {(Enter(a), Enter(b)), (Enter(a), Enter(c))};
  }

  /** With no stay and no concurrent pair, an order is skipped although all facts hold of
      an execution that has it. */
  lemma {:induction false} OrderLost(a: Loc, b: Loc, c: Loc) returns (r: Run, p: Acyclic)
    requires a != b && a != c && b != c
    ensures p.f == Fork(a, b, c) && p.comb == [] && Visits(r, p.f) && FactsHold(r, p.f)
    ensures CycleOf(r, Enter(c)) < CycleOf(r, Enter(b)) && Sat(p.cs) && !Open(p, c, b)
  {
    DetourHappens(a, b, c);
    p := ForkSetting(a, b, c);
    DetourSkipped(p, a, b, c);
    r := Detour(a, c);
  }

  // ---- concurrent entries ----

  /** Two locations always entered together, one of which can stay for two cycles. */
  ghost function Twins(x: Loc, y: Loc): Facts {
    Facts([x, y], {x}, (z: Loc) => 2, (z: Loc) => if z == x then "p" else "q", [], [], [(Enter(x), Enter(y))], [], [])
  }

  lemma {:induction false} TwinsHappen(x: Loc, y: Loc)
    requires x != y
    ensures Visits(Brief((z: Loc) => 0), Twins(x, y)) && FactsHold(Brief((z: Loc) => 0), Twins(x, y))
  {
    var cycle := (z: Loc) => 0;
    BriefVisits(cycle, Twins(x, y));
    BriefHb(cycle, x, y);
  }

  lemma {:induction false} TwinsTouched(x: Loc, y: Loc)
    requires x != y
    ensures !StaysLong(Brief((z: Loc) => 0), Twins(x, y), [])
  {
    var f, e := Twins(x, y), (Enter(x), Final(x));
    BriefCycles((z: Loc) => 0, x);
    assert e in StaySet(f, f.aSet) && IsStay(e);
    assert Enter(x) in Nodes(f, []) && Enter(y) in Nodes(f, []);
    assert Touches(Nodes(f, []), Pairs(f, [])[0], e);
  }

  /** The one-cycle stay of a location that is always entered together with another obeys
      every fact, but neither the saturated graph nor the constraints. */
  lemma {:induction false} OneCycleStayLost(x: Loc, y: Loc) returns (r: Run, f: Facts)
    requires x != y
    ensures f == Twins(x, y) && Visits(r, f) && FactsHold(r, f) && !RespectsAll(Times(r), WeightedGraph(f, []))
    ensures forall p: Acyclic :: p.f == f && p.comb == [] ==> !Models(Times(r), p.cs)
  {
    TwinsHappen(x, y);
    TwinsTouched(x, y);
    r, f := Brief((z: Loc) => 0), Twins(x, y);
    RunRespects(r, f, []);
    StaySaturationExact(Times(r), Nodes(f, []), Weighted(f, []), Pairs(f, []));
    forall p: Acyclic | p.f == f && p.comb == [] ensures !Models(Times(r), p.cs) {
      RunModels(r, p);
    }
  }

  // ---- an order against the dataflow ----

  /** Two locations about which nothing is known. */
  ghost function Apart(a: Loc, b: Loc): Facts {
    Facts([a, b], {}, (x: Loc) => 1, (x: Loc) => if x == a then "p" else "q", [], [], [], [], [])
  }

  lemma {:induction false} ApartGraph(a: Loc, b: Loc)
    ensures WeightedGraph(Apart(a, b), []) == {} && Nodes(Apart(a, b), []) == {Enter(a), Enter(b)}
    ensures Pairs(Apart(a, b), []) == []
  {
    var f := Apart(a, b);
    assert Given(f, []) == {} && StaySet(f, f.aSet) == {};
    assert Weighted(f, []) == {} && Pairs(f, []) == [];
  }

  lemma {:induction false} ApartConsistent(ns: seq<Node>, a: Loc, b: Loc)
    requires forall n :: n in ns <==> n in {Enter(a), Enter(b)}
    ensures Setting(Apart(a, b), [], ns, []).Consistent()
  {
    ApartGraph(a, b);
    ClosureLeast(ns, {}, (e: Edge) => false);
    assert Reduction({}, Closure(ns, {})) == {};
  }

  lemma {:induction false} ApartOpen(p: Setting, a: Loc, b: Loc)
    requires p.f == Apart(a, b) && p.comb == [] && p.cs == [] && a != b
    ensures Open(p, a, b)
  {
    var t: Timing := (n: Node) => if n == Enter(a) then 0 else 1;
    var u: Timing := (n: Node) => 0;
    assert Models(t, p.cs) && Holds(t, Lt(Enter(a), Enter(b)));
    assert Models(u, p.cs) && !Holds(u, Lt(Enter(a), Enter(b)));
  }

  lemma {:induction false} ApartListed(p: Setting, a: Loc, b: Loc, todo: Orders)
    requires p.f == Apart(a, b) && p.comb == [] && p.cs == [] && Less(a, b) && todo == map[(a, b) := [Before, Together]]
    ensures ListsOpen(todo, OpenEdges(p, [(a, b)]), [(a, b)]) && Tidy(todo)
  {
    LessIsTotal(a, b);
    ApartOpen(p, a, b);
    forall c, d ensures Listed(todo, c, d) <==> (c, d) == (a, b) {
      LessIsTotal(c, d);
    }
  }

  /** Enters b in the first cycle and a in the second. */
  ghost function Backward(b: Loc): Run {
    Brief((x: Loc) => if x == b then 0 else 1)
  }

  lemma {:induction false} BackwardHappens(a: Loc, b: Loc)
    requires a != b
    ensures Visits(Backward(b), Apart(a, b)) && FactsHold(Backward(b), Apart(a, b))
    ensures OwnOrder(Backward(b), Pair((a, b))) == After
  {
    var cycle := (x: Loc) => if x == b then 0 else 1;
    BriefVisits(cycle, Apart(a, b));
    BriefCycles(cycle, a);
    BriefCycles(cycle, b);
  }

  lemma {:induction false} NotAlong(r: Run, covered: Verdicts, a: Loc, b: Loc, l: Line)
    requires a != b && OwnOrder(r, Pair((a, b))) == After
    requires l == ((a, b), [Before, Together]) && covered((a, b), Before)
    ensures !AllAlong(r, [(a, b)], covered, [l])
  {
    ChoicesMember(covered, (a, b), l.1, (Pair((a, b)), Before));
    assert l in [l] && !AlongEdge(r, [(a, b)], l.0);
  }

  lemma {:induction false} ApartPrepared(r: Run, p: Acyclic, a: Loc, b: Loc, todo: Orders, covered: Verdicts,
                                         ls: seq<Line>)
    requires p.f == Apart(a, b) && p.comb == [] && p.cs == [] && Less(a, b)
    requires Visits(r, p.f) && forall k, o :: covered(k, o)
    requires todo == map[(a, b) := [Before, Together]] && ls == [((a, b), [Before, Together])]
    ensures Prepared(r, p, todo, [(a, b)], covered, ls)
  {
    ApartListed(p, a, b, todo);
    assert Models(Times(r), p.cs);
  }

  lemma {:induction false} ApartSetting(a: Loc, b: Loc) returns (p: Acyclic)
    ensures p.f == Apart(a, b) && p.comb == [] && p.cs == []
  {
    var ns := [Enter(a), Enter(b)];
    ApartConsistent(ns, a, b);
    p := Setting(Apart(a, b), [], ns, []);
  }

  /** With a dataflow edge from a to b only, all constraints hold of an execution that
      enters b first, every cover property has the right verdict, and yet no combination
      of the product is in its order. */
  lemma {:induction false} BackwardLost(r: Run, p: Acyclic, a: Loc, b: Loc, todo: Orders, covered: Verdicts,
                                        ls: seq<Line>)
    requires p.f == Apart(a, b) && p.comb == [] && p.cs == [] && Less(a, b)
    requires Visits(r, p.f) && forall k, o :: covered(k, o)
    requires todo == map[(a, b) := [Before, Together]] && ls == [((a, b), [Before, Together])]
    requires OwnOrder(r, Pair((a, b))) == After
    ensures Prepared(r, p, todo, [(a, b)], covered, ls) && !HasOwn(r, ChoiceLists(covered, ls))
  {
    LessIsTotal(a, b);
    ApartPrepared(r, p, a, b, todo, covered, ls);
    NotAlong(r, covered, a, b, ls[0]);
    OwnInProduct(r, p, todo, [(a, b)], covered, ls);
  }

  /** There is such an execution, and all facts hold of it. */
  lemma {:induction false} AgainstEdgeLost(a: Loc, b: Loc)
      returns (r: Run, p: Acyclic, todo: Orders, covered: Verdicts, ls: seq<Line>)
    requires Less(a, b)
    ensures p.f == Apart(a, b) && p.comb == [] && FactsHold(r, p.f)
    ensures Prepared(r, p, todo, [(a, b)], covered, ls) && !HasOwn(r, ChoiceLists(covered, ls))
  {
    LessIsTotal(a, b);
    BackwardHappens(a, b);
    p := ApartSetting(a, b);
    r, todo := Backward(b), map[(a, b) := [Before, Together]];
    covered, ls := (k, o) => true, [((a, b), [Before, Together])];
    BackwardLost(r, p, a, b, todo, covered, ls);
  }

  // ---- the final cycle of a one-cycle stay ----

  /** The final cycle of x, which can stay for two cycles, before the entry of y. */
  ghost function Handover(x: Loc, y: Loc): Facts {
    Facts([x, y], {x}, (z: Loc) => 2, (z: Loc) => if z == x then "p" else "q", [], [], [], [(Final(x), Enter(y))], [])
  }

  /** Both locations in the first cycle only. */
  lemma {:induction false} HandoverHappens(x: Loc, y: Loc, r: Run)
    requires x != y && r == Brief((z: Loc) => 0)
    ensures Visits(r, Handover(x, y)) && EntryFactsHold(r, Handover(x, y)) && LeavingVerdicts(r, Handover(x, y), {x})
    ensures ChosenAll(r, Handover(x, y), [(Pair((x, y)), Together)])
  {
    var cycle := (z: Loc) => 0;
    BriefVisits(cycle, Handover(x, y));
    BriefCycles(cycle, x);
    BriefCycles(cycle, y);
    BriefHb(cycle, x, y);
    BriefHb(cycle, y, x);
    LeavingEnterMeans(r.sig(x), 0, r.sig(y), 0);
  }

  /** No timing of the facts enters both together. */
  lemma {:induction false} HandoverRejected(x: Loc, y: Loc, ns: seq<Node>, cs: seq<Constraint>)
    requires var f, comb := Handover(x, y), [(Pair((x, y)), Together)];
             Lists(ns, f, comb) && Emitted(f, comb, Closure(ns, Saturated(f, comb)), cs)
    ensures Cyclic(ns, Closure(ns, Saturated(Handover(x, y), [(Pair((x, y)), Together)]))) || !Sat(cs)
  {
    var f, comb := Handover(x, y), [(Pair((x, y)), Together)];
    if !Cyclic(ns, Closure(ns, Saturated(f, comb))) && Sat(cs) {
      var t: Timing :| Models(t, cs);
      KeptIsObeyed(t, f, comb, ns, cs);
      HandoverTimes(t, x, y);
    }
  }

  lemma {:induction false} HandoverTimes(t: Timing, x: Loc, y: Loc)
    ensures var f, comb := Handover(x, y), [(Pair((x, y)), Together)];
            !(&& RespectsAll(t, Unsaturated(f, comb)) && Simultaneous(t, Nodes(f, comb), Pairs(f, comb))
              && forall e :: WeakEdge(f, e) && e.0 in Nodes(f, comb) && e.1 in Nodes(f, comb) ==> t(e.0) <= t(e.1))
  {
    var f, comb := Handover(x, y), [(Pair((x, y)), Together)];
    assert comb[..0] == [] && ChosenPairs(comb) == [] + [Pair((x, y))];
    assert Enter(x) in Nodes(f, comb) && Enter(y) in Nodes(f, comb) && Final(x) in Nodes(f, comb);
    assert Pairs(f, comb)[0] == Pair((x, y));
    assert (Final(x), Enter(y)) in Unsaturated(f, comb);
    assert WeakEdge(f, (Enter(x), Final(x)));
  }

  /** In whatever order nodes and constraints come, the candidate fails the cycle test or the
      solver. */
  ghost predicate Rejected(f: Facts, comb: seq<Choice>) {
    forall ns, cs | Lists(ns, f, comb) && Emitted(f, comb, Closure(ns, Saturated(f, comb)), cs) ::
      Cyclic(ns, Closure(ns, Saturated(f, comb))) || !Sat(cs)
  }

  /** An execution of which every proven assertion holds, and whose combination is rejected
      as cyclic or unsatisfiable. */
  lemma {:induction false} OneCycleLeaveLost(x: Loc, y: Loc) returns (r: Run, comb: seq<Choice>)
    requires x != y
    ensures Visits(r, Handover(x, y)) && EntryFactsHold(r, Handover(x, y)) && LeavingVerdicts(r, Handover(x, y), {x})
    ensures ChosenAll(r, Handover(x, y), comb)
    ensures Rejected(Handover(x, y), comb)
  {
    r, comb := Brief((z: Loc) => 0), [(Pair((x, y)), Together)];
    HandoverHappens(x, y, r);
    forall ns, cs | Lists(ns, Handover(x, y), comb)
                 && Emitted(Handover(x, y), comb, Closure(ns, Saturated(Handover(x, y), comb)), cs)
      ensures Cyclic(ns, Closure(ns, Saturated(Handover(x, y), comb))) || !Sat(cs)
    {
      HandoverRejected(x, y, ns, cs);
    }
  }
}
