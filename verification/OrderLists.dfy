/** From the listed orders to combinations: the relations that are covered, their
    product, and whether an execution finds its own orders there. */
module OrderLists {
  import opened Collections
  import opened Graph
  import opened Traces
  import opened Solver
  import opened ConstructPaths
  import opened Execution
  import opened PairsTodo

  function Pair(k: (Loc, Loc)): Edge {
    (Enter(k.0), Enter(k.1))
  }

  /** How the execution orders two events. */
  ghost function OwnOrder(r: Run, e: Edge): Order {
    var a, b := CycleOf(r, e.0), CycleOf(r, e.1);
    if a < b then Before else if a > b then After else Together
  }

  /** The direction in which the execution orders the pair is a dataflow edge. */
  ghost predicate AlongEdge(r: Run, edges: seq<(Loc, Loc)>, k: (Loc, Loc)) {
    match OwnOrder(r, Pair(k))
    case Before => k in edges
    case After => (k.1, k.0) in edges
    case Together => true
  }

  /** The execution's own order of a listed pair is on its list if and only if the
      execution enters both together or in the direction of a dataflow edge. */
  lemma {:induction false} OwnOrderListed(r: Run, p: Acyclic, todo: Orders, edges: seq<(Loc, Loc)>, k: (Loc, Loc))
    requires Models(Times(r), p.cs)
    requires ListsOpen(todo, OpenEdges(p, edges), edges) && Tidy(todo) && k in todo
    ensures OwnOrder(r, Pair(k)) in todo[k] <==> AlongEdge(r, edges, k)
  {
    var t := Times(r);
    LessIsTotal(k.0, k.1);
    assert TidyList(k, todo[k]);
    if k.0 != k.1 {
      assert Listed(todo, k.0, k.1) <==> Before in todo[k];
      assert Listed(todo, k.1, k.0) <==> After in todo[k];
      StrictListed(t, p, todo, edges, k.0, k.1);
      StrictListed(t, p, todo, edges, k.1, k.0);
    }
  }

  /** If either direction is listed, the one that a model has is listed exactly if it is
      an edge. */
  lemma {:induction false} StrictListed(t: Timing, p: Acyclic, todo: Orders, edges: seq<(Loc, Loc)>, a: Loc, b: Loc)
    requires Models(t, p.cs) && ListsOpen(todo, OpenEdges(p, edges), edges)
    ensures Listed(todo, a, b) ==> (a, b) in edges
    ensures t(Enter(a)) < t(Enter(b)) && (a, b) in edges && Listed(todo, b, a) ==> Listed(todo, a, b)
  {
    if t(Enter(a)) < t(Enter(b)) && (a, b) in edges && Listed(todo, b, a) {
      assert Open(p, b, a);
      var u: Timing :| Models(u, p.cs) && u(Enter(b)) < u(Enter(a));
      assert Models(t, p.cs) && Models(u, p.cs) && t(Enter(a)) < t(Enter(b)) && u(Enter(a)) >= u(Enter(b));
      assert Open(p, a, b);
    }
  }

  // ---- covered relations ----

  type Line = ((Loc, Loc), seq<Order>)

  type Verdicts = ((Loc, Loc), Order) -> bool

  /** The covered relations of a pair, as choices. */
  function Choices(covered: Verdicts, k: (Loc, Loc), os: seq<Order>): seq<Choice> {
    if os == [] then []
    else
      var n := |os| - 1;
      if covered(k, os[n]) then Choices(covered, k, os[..n]) + [(Pair(k), os[n])] else Choices(covered, k, os[..n])
  }

  /** The lists of choices; a pair with no covered relation has none. */
  function ChoiceLists(covered: Verdicts, ls: seq<Line>): seq<seq<Choice>> {
    if ls == [] then []
    else
      var n := |ls| - 1;
      var cs := Choices(covered, ls[n].0, ls[n].1);
      if cs == [] then ChoiceLists(covered, ls[..n]) else ChoiceLists(covered, ls[..n]) + [cs]
  }

  lemma {:induction false} ChoicesMember(covered: Verdicts, k: (Loc, Loc), os: seq<Order>, c: Choice)
    ensures c in Choices(covered, k, os) <==> c.0 == Pair(k) && c.1 in os && covered(k, c.1)
  {
    if os != [] {
      ChoicesMember(covered, k, os[..|os| - 1], c);
      assert os == os[..|os| - 1] + [os[|os| - 1]];
      assert c == (c.0, c.1);
    }
  }

  lemma {:induction false} ChoiceListsMember(covered: Verdicts, ls: seq<Line>, cs: seq<Choice>)
    ensures cs in ChoiceLists(covered, ls) <==> cs != [] && exists l :: l in ls && cs == Choices(covered, l.0, l.1)
  {
    if ls != [] {
      ChoiceListsMember(covered, ls[..|ls| - 1], cs);
      assert ls == ls[..|ls| - 1] + [ls[|ls| - 1]];
    }
  }

  /** `cs` has the relations of the line that are covered, each once if the line has
      each once. */
  ghost predicate FactorOf(covered: Verdicts, l: Line, cs: seq<Choice>) {
    && (forall c :: c in cs <==> c.0 == (Enter(l.0.0), Enter(l.0.1)) && c.1 in l.1 && covered(l.0, c.1))
    && (NoRepeats(l.1) ==> NoRepeats(cs))
  }

  ghost predicate HasCovered(covered: Verdicts, l: Line) {
    exists o :: o in l.1 && covered(l.0, o)
  }

  /** Factor `j` is that of line `at[j]`: there is one for each line with a covered relation,
      in the order of the lines, and no other. */
  ghost predicate Factors(covered: Verdicts, ls: seq<Line>, sets: seq<seq<Choice>>, at: seq<nat>) {
    && |at| == |sets|
    && (forall i, j :: 0 <= i < j < |at| ==> at[i] < at[j])
    && (forall j :: 0 <= j < |at| ==> at[j] < |ls| && FactorOf(covered, ls[at[j]], sets[j]))
    && (forall i :: 0 <= i < |ls| ==> (i in at <==> HasCovered(covered, ls[i])))
  }

  lemma {:induction false} ChoicesOnce(covered: Verdicts, k: (Loc, Loc), os: seq<Order>)
    requires NoRepeats(os)
    ensures NoRepeats(Choices(covered, k, os))
  {
    if os != [] {
      var n := |os| - 1;
      ChoicesOnce(covered, k, os[..n]);
      ChoicesMember(covered, k, os[..n], (Pair(k), os[n]));
    }
  }

  lemma {:induction false} ChoicesFactor(covered: Verdicts, l: Line)
    ensures FactorOf(covered, l, Choices(covered, l.0, l.1))
    ensures Choices(covered, l.0, l.1) != [] <==> HasCovered(covered, l)
  {
    var cs := Choices(covered, l.0, l.1);
    forall c ensures c in cs <==> c.0 == (Enter(l.0.0), Enter(l.0.1)) && c.1 in l.1 && covered(l.0, c.1) {
      ChoicesMember(covered, l.0, l.1, c);
    }
    if NoRepeats(l.1) {
      ChoicesOnce(covered, l.0, l.1);
    }
    if cs != [] {
      assert cs[0] in cs && cs[0].1 in l.1;
    }
    if o :| o in l.1 && covered(l.0, o) {
      assert (Pair(l.0), o) in cs;
    }
  }

  lemma {:induction false} OneMoreFactor(covered: Verdicts, ls: seq<Line>, sets: seq<seq<Choice>>, at: seq<nat>,
                                         l: Line, cs: seq<Choice>)
    requires Factors(covered, ls, sets, at) && FactorOf(covered, l, cs)
    ensures HasCovered(covered, l) ==> Factors(covered, ls + [l], sets + [cs], at + [|ls|])
    ensures !HasCovered(covered, l) ==> Factors(covered, ls + [l], sets, at)
  {
    var n := |ls|;
    forall i ensures i in at + [n] <==> i in at || i == n {}
    forall i | i in at ensures i < n {}
  }

  lemma {:induction false} ChoiceListsFactors(covered: Verdicts, ls: seq<Line>) returns (at: seq<nat>)
    ensures Factors(covered, ls, ChoiceLists(covered, ls), at)
  {
    at := [];
    if ls != [] {
      var n := |ls| - 1;
      at := ChoiceListsFactors(covered, ls[..n]);
      var cs := Choices(covered, ls[n].0, ls[n].1);
      ChoicesFactor(covered, ls[n]);
      OneMoreFactor(covered, ls[..n], ChoiceLists(covered, ls[..n]), at, ls[n], cs);
      assert ls == ls[..n] + [ls[n]];
      if cs != [] {
        at := at + [n];
      }
    }
  }

  method CollectChoices(covered: Verdicts, k: (Loc, Loc), os: seq<Order>) returns (cs: seq<Choice>)
    ensures cs == Choices(covered, k, os)
  {
    cs := [];
    for i := 0 to |os|
      invariant cs == Choices(covered, k, os[..i])
    {
      assert os[..i + 1][..i] == os[..i];
      if covered(k, os[i]) {
        cs := cs + [(Pair(k), os[i])];
      }
    }
    assert os[..|os|] == os;
  }

  /** The factors of the product of relations. */
  method CollectRelations(covered: Verdicts, ls: seq<Line>) returns (sets: seq<seq<Choice>>, ghost at: seq<nat>)
    ensures sets == ChoiceLists(covered, ls)
    ensures Factors(covered, ls, sets, at)
  {
    sets := [];
    for i := 0 to |ls|
      invariant sets == ChoiceLists(covered, ls[..i])
    {
      assert ls[..i + 1][..i] == ls[..i];
      var cs := CollectChoices(covered, ls[i].0, ls[i].1);
      if cs != [] {
        sets := sets + [cs];
      }
    }
    assert ls[..|ls|] == ls;
    at := ChoiceListsFactors(covered, ls);
  }

  // ---- the execution's own combination ----

  ghost function Signals(r: Run, xs: seq<Loc>): (ss: seq<Signal>)
    ensures |ss| == |xs| && forall i :: 0 <= i < |xs| ==> ss[i] == r.sig(xs[i])
  {
    if xs == [] then [] else Signals(r, xs[..|xs| - 1]) + [r.sig(xs[|xs| - 1])]
  }

  /** The execution hits the cover property of the relation. */
  ghost predicate HitsCover(r: Run, f: Facts, k: (Loc, Loc), o: Order) {
    match o
    case Before => CoverHb(r.sig(k.0), r.sig(k.1), Signals(r, f.aSet))
    case After => CoverHb(r.sig(k.1), r.sig(k.0), Signals(r, f.aSet))
    case Together => CoverConcur(r.sig(k.1), r.sig(k.0), Signals(r, f.aSet))
  }

  lemma {:induction false} CoversOwnOrder(r: Run, f: Facts, k: (Loc, Loc), o: Order)
    requires Visits(r, f) && k.0 in f.aSet && k.1 in f.aSet
    ensures HitsCover(r, f, k, o) <==> o == OwnOrder(r, Pair(k))
  {
    forall x | x in f.aSet ensures Visited(r.sig(x)) && CycleOf(r, Enter(x)) == First(r.sig(x)) {
      EntryCycle(r, f, x);
    }
    CoverMeans(r.sig(k.0), r.sig(k.1), Signals(r, f.aSet));
    CoverMeans(r.sig(k.1), r.sig(k.0), Signals(r, f.aSet));
  }

  /** What the execution covers was found covered. */
  ghost predicate CoversFound(r: Run, f: Facts, covered: Verdicts, ls: seq<Line>) {
    forall l, o :: l in ls && o in l.1 && HitsCover(r, f, l.0, o) ==> covered(l.0, o)
  }

  /** One choice from every list, in the order of the execution. */
  ghost predicate OwnChoices(r: Run, sets: seq<seq<Choice>>, comb: seq<Choice>) {
    InProduct(sets, [], comb) && forall i :: 0 <= i < |comb| ==> InOrder(r, comb[i])
  }

  ghost predicate HasOwn(r: Run, sets: seq<seq<Choice>>) {
    exists comb :: OwnChoices(r, sets, comb)
  }

  lemma {:induction false} OwnInList(r: Run, f: Facts, covered: Verdicts, k: (Loc, Loc), os: seq<Order>, c: Choice)
    requires Visits(r, f) && k.0 in f.aSet && k.1 in f.aSet
    requires forall o :: o in os && HitsCover(r, f, k, o) ==> covered(k, o)
    ensures c in Choices(covered, k, os) && InOrder(r, c) <==>
            c == (Pair(k), OwnOrder(r, Pair(k))) && OwnOrder(r, Pair(k)) in os
  {
    ChoicesMember(covered, k, os, c);
    CoversOwnOrder(r, f, k, OwnOrder(r, Pair(k)));
    assert c == (c.0, c.1);
  }

  /** The lines are those of the list of open orders. */
  ghost predicate LinesOf(todo: Orders, ls: seq<Line>) {
    forall l :: l in ls ==> l.0 in todo && l.1 == todo[l.0]
  }

  lemma {:induction false} ListedInside(p: Acyclic, todo: Orders, edges: seq<(Loc, Loc)>, k: (Loc, Loc))
    requires ListsOpen(todo, OpenEdges(p, edges), edges) && Tidy(todo) && k in todo
    ensures k.0 in p.f.aSet && k.1 in p.f.aSet
  {
    LessIsTotal(k.0, k.1);
    assert TidyList(k, todo[k]);
    assert Listed(todo, k.0, k.1) || Listed(todo, k.1, k.0);
  }

  /** Everything that leads to the lists of choices for an execution. */
  ghost predicate Prepared(r: Run, p: Acyclic, todo: Orders, edges: seq<(Loc, Loc)>, covered: Verdicts, ls: seq<Line>) {
    && Visits(r, p.f) && Models(Times(r), p.cs)
    && ListsOpen(todo, OpenEdges(p, edges), edges) && Tidy(todo)
    && LinesOf(todo, ls) && CoversFound(r, p.f, covered, ls)
  }

  ghost predicate AllAlong(r: Run, edges: seq<(Loc, Loc)>, covered: Verdicts, ls: seq<Line>) {
    forall l :: l in ls && Choices(covered, l.0, l.1) != [] ==> AlongEdge(r, edges, l.0)
  }

  /** The choices of a line have the execution's own if and only if it goes along an edge. */
  ghost predicate OwnIfAlong(r: Run, edges: seq<(Loc, Loc)>, covered: Verdicts, l: Line, c: Choice) {
    c in Choices(covered, l.0, l.1) && InOrder(r, c) <==>
      c == (Pair(l.0), OwnOrder(r, Pair(l.0))) && AlongEdge(r, edges, l.0)
  }

  lemma {:induction false} LineHasOwn(r: Run, p: Acyclic, todo: Orders, edges: seq<(Loc, Loc)>,
                                      covered: Verdicts, ls: seq<Line>, l: Line)
    requires Prepared(r, p, todo, edges, covered, ls) && l in ls
    ensures Inside(p.f, Pair(l.0)) && forall c :: OwnIfAlong(r, edges, covered, l, c)
  {
    ListedInside(p, todo, edges, l.0);
    OwnOrderListed(r, p, todo, edges, l.0);
    forall c ensures OwnIfAlong(r, edges, covered, l, c) {
      OwnInList(r, p.f, covered, l.0, l.1, c);
    }
  }

  lemma {:induction false} LinesHaveOwn(r: Run, p: Acyclic, todo: Orders, edges: seq<(Loc, Loc)>,
                                        covered: Verdicts, ls: seq<Line>)
    requires Prepared(r, p, todo, edges, covered, ls)
    ensures forall l, c :: l in ls ==> OwnIfAlong(r, edges, covered, l, c)
    ensures forall l :: l in ls ==> Inside(p.f, Pair(l.0))
  {
    forall l | l in ls ensures Inside(p.f, Pair(l.0)) && forall c :: OwnIfAlong(r, edges, covered, l, c) {
      LineHasOwn(r, p, todo, edges, covered, ls, l);
    }
  }

  lemma {:induction false} OwnIsAlong(r: Run, edges: seq<(Loc, Loc)>, covered: Verdicts, ls: seq<Line>,
                                      comb: seq<Choice>)
    requires forall l, c :: l in ls ==> OwnIfAlong(r, edges, covered, l, c)
    requires OwnChoices(r, ChoiceLists(covered, ls), comb)
    ensures AllAlong(r, edges, covered, ls)
  {
    var sets := ChoiceLists(covered, ls);
    forall l | l in ls && Choices(covered, l.0, l.1) != [] ensures AlongEdge(r, edges, l.0) {
      ChoiceListsMember(covered, ls, Choices(covered, l.0, l.1));
      var i :| 0 <= i < |sets| && sets[i] == Choices(covered, l.0, l.1);
      assert comb[0 + i] in sets[i];
      assert OwnIfAlong(r, edges, covered, l, comb[i]);
    }
  }

  /** The own choice of the execution in each list. */
  ghost function Own(r: Run, sets: seq<seq<Choice>>): (comb: seq<Choice>)
    requires forall i :: 0 <= i < |sets| ==> sets[i] != []
    ensures |comb| == |sets|
    ensures forall i :: 0 <= i < |sets| ==> comb[i] == (sets[i][0].0, OwnOrder(r, sets[i][0].0))
  {
    seq(|sets|, i requires 0 <= i < |sets| => (sets[i][0].0, OwnOrder(r, sets[i][0].0)))
  }

  lemma {:induction false} ListsNonEmpty(covered: Verdicts, ls: seq<Line>)
    ensures forall i :: 0 <= i < |ChoiceLists(covered, ls)| ==> ChoiceLists(covered, ls)[i] != []
  {
    if ls != [] {
      ListsNonEmpty(covered, ls[..|ls| - 1]);
    }
  }

  lemma {:induction false} AlongIsOwn(r: Run, edges: seq<(Loc, Loc)>, covered: Verdicts, ls: seq<Line>)
      returns (comb: seq<Choice>)
    requires forall l, c :: l in ls ==> OwnIfAlong(r, edges, covered, l, c)
    requires AllAlong(r, edges, covered, ls)
    ensures OwnChoices(r, ChoiceLists(covered, ls), comb)
    ensures forall i :: 0 <= i < |comb| ==> exists l :: l in ls && comb[i].0 == Pair(l.0)
  {
    var sets := ChoiceLists(covered, ls);
    ListsNonEmpty(covered, ls);
    comb := Own(r, sets);
    forall i | 0 <= i < |sets|
      ensures comb[i] in sets[i] && InOrder(r, comb[i]) && exists l :: l in ls && comb[i].0 == Pair(l.0)
    {
      ChoiceListsMember(covered, ls, sets[i]);
      var l :| l in ls && sets[i] == Choices(covered, l.0, l.1);
      ChoicesMember(covered, l.0, l.1, sets[i][0]);
      assert OwnIfAlong(r, edges, covered, l, comb[i]);
    }
  }

  /** No other combination is in the order of the execution. */
  lemma {:induction false} OwnUnique(r: Run, covered: Verdicts, ls: seq<Line>, x: seq<Choice>, y: seq<Choice>)
    requires OwnChoices(r, ChoiceLists(covered, ls), x) && OwnChoices(r, ChoiceLists(covered, ls), y)
    ensures x == y
  {
    var sets := ChoiceLists(covered, ls);
    forall i | 0 <= i < |sets| ensures x[i] == y[i] {
      assert x[0 + i] in sets[i] && y[0 + i] in sets[i];
      ChoiceListsMember(covered, ls, sets[i]);
      var l :| l in ls && sets[i] == Choices(covered, l.0, l.1);
      ChoicesMember(covered, l.0, l.1, x[i]);
      ChoicesMember(covered, l.0, l.1, y[i]);
    }
  }

  /** The product of the covered relations has the combination of an execution if and only
      if the execution orders every pair with a covered relation along a dataflow edge. */
  lemma {:induction false} OwnInProduct(r: Run, p: Acyclic, todo: Orders, edges: seq<(Loc, Loc)>,
                                        covered: Verdicts, ls: seq<Line>)
    requires Prepared(r, p, todo, edges, covered, ls)
    ensures HasOwn(r, ChoiceLists(covered, ls)) <==> AllAlong(r, edges, covered, ls)
  {
    LinesHaveOwn(r, p, todo, edges, covered, ls);
    if HasOwn(r, ChoiceLists(covered, ls)) {
      var comb :| OwnChoices(r, ChoiceLists(covered, ls), comb);
      OwnIsAlong(r, edges, covered, ls, comb);
    }
    if AllAlong(r, edges, covered, ls) {
      var comb := AlongIsOwn(r, edges, covered, ls);
    }
  }
}
