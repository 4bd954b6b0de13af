/** Executions of the design: from signals over cycles to a timing that the path
    construction must not lose. */
module Execution {
  import opened Traces
  import opened Graph
  import opened Solver
  import opened ConstructPaths

  /** The signal of every location, and the last cycle of each visited one. */
  datatype Run = Run(sig: Loc -> Signal, last: Loc -> nat)

  /** The cycle of every event of the run. */
  ghost function CycleOf(r: Run, n: Node): int {
    match n
    case Enter(x) => if Visited(r.sig(x)) then First(r.sig(x)) else 0
    case Final(x) => r.last(x)
  }

  ghost function Times(r: Run): Timing {
    (n: Node) => CycleOf(r, n)
  }

  /** The run visits every location of the set once, in consecutive cycles, long
      ones for no more cycles than their limit, and is never in two locations of
      one register at a time. */
  ghost predicate Visits(r: Run, f: Facts) {
    && (forall x :: x in f.aSet ==> Contiguous(r.sig(x), r.last(x)))
    && (forall x :: Stayer(f, x) ==> r.last(x) < CycleOf(r, Enter(x)) + f.limit(x))
    && (forall x, y :: x in f.aSet && y in f.aSet && x != y && f.reg(x) == f.reg(y) ==>
          Exclusive(r.sig(x), r.sig(y)))
  }

  ghost predicate Entries(e: Edge) {
    e.0.Enter? && e.1.Enter?
  }

  /** The proven facts between entries hold of the run, as the assertions that the model
      checker proved. */
  ghost predicate EntryFactsHold(r: Run, f: Facts) {
    && (forall e :: e in f.hb ==> Entries(e) && AssertHb(r.sig(e.0.loc), r.sig(e.1.loc)))
    && (forall e :: e in f.whb ==> Entries(e) && AssertWhb(r.sig(e.0.loc), r.sig(e.1.loc)))
    && (forall e :: e in f.concur ==> Entries(e) && AlwaysConcurrent(r.sig(e.0.loc), r.sig(e.1.loc)))
  }

  /** The facts that involve final cycles hold of the run, as orders of cycles. */
  ghost predicate LeavingHolds(r: Run, f: Facts) {
    && (forall e :: e in f.leavingHb && InGraph(f, e) ==> CycleOf(r, e.0) < CycleOf(r, e.1))
    && (forall e :: e in f.leavingConcur && InGraph(f, e) ==> CycleOf(r, e.0) == CycleOf(r, e.1))
  }

  ghost predicate FactsHold(r: Run, f: Facts) {
    EntryFactsHold(r, f) && LeavingHolds(r, f)
  }

  /** How a pair of locations came to be listed as always concurrent. */
  ghost predicate AlwaysConcurrent(s1: Signal, s2: Signal) {
    AssertConcur(s1, s2) || (AssertWhb(s1, s2) && AssertWhb(s2, s1))
  }

  /** The cycles of a pair are in the chosen order. */
  ghost predicate InOrder(r: Run, c: Choice) {
    AsChosen(Times(r), c)
  }

  /** A choice between entries is assumed by its templates; one that involves a
      final cycle is an order of cycles between locations of different registers. */
  ghost predicate Chosen(r: Run, f: Facts, c: Choice) {
    && InGraph(f, c.0)
    && if Entries(c.0) then Assumed(r.sig(c.0.0.loc), r.sig(c.0.1.loc), c.1)
       else f.reg(c.0.0.loc) != f.reg(c.0.1.loc) && InOrder(r, c)
  }

  ghost predicate ChosenAll(r: Run, f: Facts, comb: seq<Choice>) {
    forall i :: 0 <= i < |comb| ==> Chosen(r, f, comb[i])
  }

  lemma {:induction false} EntryCycle(r: Run, f: Facts, x: Loc)
    requires Visits(r, f) && x in f.aSet
    ensures Visited(r.sig(x)) && CycleOf(r, Enter(x)) == First(r.sig(x)) <= r.last(x)
  {
  }

  lemma {:induction false} ChosenInOrder(r: Run, f: Facts, c: Choice)
    requires Visits(r, f) && Chosen(r, f, c)
    ensures InOrder(r, c)
  {
    if Entries(c.0) {
      EntryCycle(r, f, c.0.0.loc);
      EntryCycle(r, f, c.0.1.loc);
      AssumedIffOrder(r.sig(c.0.0.loc), r.sig(c.0.1.loc), c.1);
    }
  }

  /** An edge the choices add is ordered, stays inside the set, and joins locations
      of one register only between their entries. */
  ghost predicate GoodEdge(r: Run, f: Facts, e: Edge) {
    && InGraph(f, e) && CycleOf(r, e.0) < CycleOf(r, e.1)
    && (Entries(e) || f.reg(e.0.loc) != f.reg(e.1.loc))
  }

  lemma {:induction false} ChosenEdgesGood(r: Run, f: Facts, comb: seq<Choice>)
    requires Visits(r, f) && ChosenAll(r, f, comb)
    ensures forall e :: e in ChosenEdges(comb) ==> GoodEdge(r, f, e)
  {
    if comb != [] {
      var k := |comb| - 1;
      assert forall i :: 0 <= i < k ==> comb[..k][i] == comb[i];
      ChosenEdgesGood(r, f, comb[..k]);
      ChoiceGood(r, f, comb[k]);
    }
  }

  lemma {:induction false} ChoiceGood(r: Run, f: Facts, c: Choice)
    requires Visits(r, f) && Chosen(r, f, c)
    ensures forall e :: e in ChoiceEdges(c) ==> GoodEdge(r, f, e)
  {
    ChosenInOrder(r, f, c);
  }

  lemma {:induction false} GivenGood(r: Run, f: Facts, comb: seq<Choice>)
    requires Visits(r, f) && FactsHold(r, f) && ChosenAll(r, f, comb)
    ensures forall e :: e in Given(f, comb) ==> GoodEdge(r, f, e)
  {
    ChosenEdgesGood(r, f, comb);
    forall e | e in f.hb && Inside(f, e) ensures GoodEdge(r, f, e) {
      EntryCycle(r, f, e.0.loc);
      EntryCycle(r, f, e.1.loc);
      HbMeans(r.sig(e.0.loc), r.sig(e.1.loc));
    }
  }

  /** The edges implied by a shared register are ordered in every run. */
  lemma {:induction false} ImpliedGood(r: Run, f: Facts, given: set<Edge>, e: Edge)
    requires Visits(r, f) && (forall d :: d in given ==> GoodEdge(r, f, d)) && e in Implied(f, given)
    ensures InGraph(f, e) && CycleOf(r, e.0) < CycleOf(r, e.1)
  {
    var d :| d in given && d.0.Enter? && Stayer(f, d.0.loc) && f.reg(d.0.loc) == f.reg(d.1.loc)
          && e == (Final(d.0.loc), d.1);
    var x, y := d.0.loc, d.1.loc;
    EntryCycle(r, f, x);
    EntryCycle(r, f, y);
    LeaveOrder(r.sig(x), r.sig(y), r.last(x), r.last(y));
  }

  lemma {:induction false} NodesKnown(r: Run, f: Facts, comb: seq<Choice>)
    requires Visits(r, f) && FactsHold(r, f) && ChosenAll(r, f, comb)
    ensures forall n :: n in Nodes(f, comb) ==> Known(f, n)
  {
    GivenGood(r, f, comb);
    EndsKnown(f, Given(f, comb));
  }

  lemma {:induction false} EndsKnown(f: Facts, es: set<Edge>)
    requires forall e :: e in es ==> InGraph(f, e)
    ensures forall n :: n in Ends(es) ==> Known(f, n)
  {
  }

  lemma {:induction false} ChosenPairsTogether(r: Run, f: Facts, comb: seq<Choice>)
    requires Visits(r, f) && ChosenAll(r, f, comb)
    ensures forall e :: e in ChosenPairs(comb) ==> CycleOf(r, e.0) == CycleOf(r, e.1)
  {
    if comb != [] {
      var k := |comb| - 1;
      assert forall i :: 0 <= i < k ==> comb[..k][i] == comb[i];
      ChosenPairsTogether(r, f, comb[..k]);
      ChosenInOrder(r, f, comb[k]);
    }
  }

  lemma {:induction false} ConcurrentTogether(s1: Signal, s2: Signal)
    requires AlwaysConcurrent(s1, s2) && Visited(s1) && Visited(s2)
    ensures First(s1) == First(s2)
  {
    ConcurMeans(s1, s2);
    WhbMeans(s1, s2);
    WhbMeans(s2, s1);
  }

  lemma {:induction false} PairsTogether(r: Run, f: Facts, comb: seq<Choice>, e: Edge)
    requires Visits(r, f) && FactsHold(r, f) && ChosenAll(r, f, comb)
    requires e in Pairs(f, comb) && InGraph(f, e)
    ensures CycleOf(r, e.0) == CycleOf(r, e.1)
  {
    if e in f.concur {
      EntryCycle(r, f, e.0.loc);
      EntryCycle(r, f, e.1.loc);
      ConcurrentTogether(r.sig(e.0.loc), r.sig(e.1.loc));
    } else if e !in f.leavingConcur {
      assert e in ChosenPairs(comb);
      ChosenPairsTogether(r, f, comb);
    }
  }

  lemma {:induction false} UnsaturatedOrdered(r: Run, f: Facts, comb: seq<Choice>)
    requires Visits(r, f) && FactsHold(r, f) && ChosenAll(r, f, comb)
    ensures Ordered(Times(r), Unsaturated(f, comb))
  {
    GivenGood(r, f, comb);
    NodesKnown(r, f, comb);
    forall e | e in Unsaturated(f, comb) ensures CycleOf(r, e.0) < CycleOf(r, e.1) {
      EdgeOrdered(r, f, Given(f, comb), Nodes(f, comb), e);
    }
  }

  lemma {:induction false} EdgeOrdered(r: Run, f: Facts, given: set<Edge>, ns: set<Node>, e: Edge)
    requires Visits(r, f) && FactsHold(r, f)
    requires (forall d :: d in given ==> GoodEdge(r, f, d)) && forall n :: n in ns ==> Known(f, n)
    requires e in given || e in Implied(f, given) || (e in f.leavingHb && e.0 in ns && e.1 in ns)
    ensures CycleOf(r, e.0) < CycleOf(r, e.1)
  {
    if e in Implied(f, given) {
      ImpliedGood(r, f, given, e);
    }
  }

  lemma {:induction false} WeakHolds(r: Run, f: Facts, e: Edge)
    requires Visits(r, f) && FactsHold(r, f) && WeakEdge(f, e) && Inside(f, e)
    ensures CycleOf(r, e.0) <= CycleOf(r, e.1)
  {
    EntryCycle(r, f, e.0.loc);
    EntryCycle(r, f, e.1.loc);
    if e in f.whb {
      WhbMeans(r.sig(e.0.loc), r.sig(e.1.loc));
    }
  }

  lemma {:induction false} PairsSimultaneous(r: Run, f: Facts, comb: seq<Choice>)
    requires Visits(r, f) && FactsHold(r, f) && ChosenAll(r, f, comb)
    ensures Simultaneous(Times(r), Nodes(f, comb), Pairs(f, comb))
  {
    NodesKnown(r, f, comb);
    var ns, pairs := Nodes(f, comb), Pairs(f, comb);
    forall i | 0 <= i < |pairs| && pairs[i].0 in ns && pairs[i].1 in ns
      ensures CycleOf(r, pairs[i].0) == CycleOf(r, pairs[i].1)
    {
      PairsTogether(r, f, comb, pairs[i]);
    }
  }

  lemma {:induction false} FactsAreObeyed(r: Run, f: Facts, comb: seq<Choice>)
    requires Visits(r, f) && FactsHold(r, f) && ChosenAll(r, f, comb)
    ensures Obeys(Times(r), f, comb)
  {
    UnsaturatedOrdered(r, f, comb);
    PairsSimultaneous(r, f, comb);
    WeakOrdersHold(r, f, comb);
    StaysBounded(r, f, Saturated(f, comb));
  }

  lemma {:induction false} WeakOrdersHold(r: Run, f: Facts, comb: seq<Choice>)
    requires Visits(r, f) && FactsHold(r, f) && ChosenAll(r, f, comb)
    ensures forall e :: WeakEdge(f, e) && e.0 in Nodes(f, comb) && e.1 in Nodes(f, comb) ==>
              CycleOf(r, e.0) <= CycleOf(r, e.1)
  {
    NodesKnown(r, f, comb);
    var ns := Nodes(f, comb);
    forall e | WeakEdge(f, e) && e.0 in ns && e.1 in ns ensures CycleOf(r, e.0) <= CycleOf(r, e.1) {
      WeakHolds(r, f, e);
    }
  }

  lemma {:induction false} StaysBounded(r: Run, f: Facts, es: set<Edge>)
    requires Visits(r, f)
    ensures Bounded(Times(r), f, es)
  {
  }

  /** What obeys the candidate has the final cycles in order. */
  lemma {:induction false} ObeyedLeaves(r: Run, f: Facts, comb: seq<Choice>)
    requires Ordered(Times(r), Unsaturated(f, comb)) && Simultaneous(Times(r), Nodes(f, comb), Pairs(f, comb))
    ensures LeavingHolds(r, f)
  {
    forall n | Known(f, n) ensures n in Nodes(f, comb) {
      assert n == Enter(n.loc) || n == Final(n.loc);
    }
    forall e | e in f.leavingConcur && InGraph(f, e) ensures CycleOf(r, e.0) == CycleOf(r, e.1) {
      assert e in Pairs(f, comb);
      var i :| 0 <= i < |Pairs(f, comb)| && Pairs(f, comb)[i] == e;
    }
  }

  /** A run that visits the set, and of which the facts between entries and the chosen
      orders hold, gives a timing that obeys the candidate if and only if its final cycles
      are in the order of the facts about them. */
  lemma {:induction false} RunObeys(r: Run, f: Facts, comb: seq<Choice>)
    requires Visits(r, f) && EntryFactsHold(r, f) && ChosenAll(r, f, comb)
    ensures Obeys(Times(r), f, comb) <==> LeavingHolds(r, f)
  {
    if LeavingHolds(r, f) {
      FactsAreObeyed(r, f, comb);
    }
    if Obeys(Times(r), f, comb) {
      ObeyedLeaves(r, f, comb);
    }
  }

  /** The candidate of a run of which all facts hold is rejected neither as cyclic nor as
      unsatisfiable. */
  lemma {:induction false} RunIsKept(r: Run, f: Facts, comb: seq<Choice>, ns: seq<Node>, cs: seq<Constraint>)
    requires Visits(r, f) && FactsHold(r, f) && ChosenAll(r, f, comb)
    requires Emitted(f, comb, Closure(ns, Saturated(f, comb)), cs)
    ensures !Cyclic(ns, Closure(ns, Saturated(f, comb))) && Sat(cs)
  {
    RunObeys(r, f, comb);
    ObeyedIsKept(Times(r), f, comb, ns, cs);
  }
}
