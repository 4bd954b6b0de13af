/** Which dataflow edges need their order covered: exactly those that the constraints
    asserted for a set of locations neither force nor rule out. */
module PairsTodo {
  import opened Collections
  import opened Graph
  import opened Traces
  import opened Solver
  import opened ConstructPaths
  import opened CandidateTiming
  import opened PathBuilder
  import opened CollectReEval

  // ---- the constraints of the graph with stays ----

  function WeightedConstraint(f: Facts, implied: set<Edge>, e: Edge): Constraint {
    if IsStay(e) && Stayer(f, e.0.loc) then Stays(e.0, e.1, f.limit(e.0.loc))
    else if e in implied || f.reg(e.0.loc) == f.reg(e.1.loc) then Gap(e.0, e.1, 1)
    else Lt(e.0, e.1)
  }

  ghost predicate WeightedEmits(f: Facts, comb: seq<Choice>, ns: set<Node>, reduced: set<Edge>, k: Constraint) {
    || (exists e :: e in reduced && k == WeightedConstraint(f, Implied(f, Given(f, comb)), e))
    || (exists e :: e in f.whb && e.0 in ns && e.1 in ns && k == Le(e.0, e.1))
    || (exists e :: e in Pairs(f, comb) && e.0 in ns && e.1 in ns && k == Eq(e.0, e.1))
  }

  /** `cs` holds exactly the constraints of the set. */
  ghost predicate WeightedEmitted(f: Facts, comb: seq<Choice>, ns: seq<Node>, cs: seq<Constraint>) {
    var g := WeightedGraph(f, comb);
    forall k :: k in cs <==> WeightedEmits(f, comb, Nodes(f, comb), Reduction(g, Closure(ns, g)), k)
  }

  method AddWeighted(s: MySolver, f: Facts, implied: set<Edge>, reduced: set<Edge>)
    requires s.Valid()
    modifies s`asserted
    ensures s.Valid()
    ensures forall k :: k in s.asserted <==>
              k in old(s.asserted) || exists e :: e in reduced && k == WeightedConstraint(f, implied, e)
  {
    var todo := reduced;
    while todo != {}
      invariant s.Valid() && todo <= reduced
      invariant forall k :: k in s.asserted <==>
                  || k in old(s.asserted)
                  || exists e :: e in reduced && e !in todo && k == WeightedConstraint(f, implied, e)
      decreases todo
    {
      var e :| e in todo;
      s.Add(WeightedConstraint(f, implied, e));
      todo := todo - {e};
    }
  }

  /** Asserts the constraints of the reduced graph, then checks them. */
  method AddFacts(s: MySolver, f: Facts, ghost comb: seq<Choice>, ns: set<Node>, pairs: seq<Edge>,
                  implied: set<Edge>, reduced: set<Edge>) returns (sat: bool)
    requires s.Valid() && s.asserted == [] && pairs == Pairs(f, comb) && implied == Implied(f, Given(f, comb))
    modifies s`asserted, s`marks
    ensures s.Valid() && (sat <==> Sat(s.asserted))
    ensures forall k :: k in s.asserted <==> WeightedEmits(f, comb, ns, reduced, k)
  {
    AddWeighted(s, f, implied, reduced);
    AddWeak(s, f.whb, ns);
    AddEqual(s, pairs, ns);
    s.Push();
    sat := s.decide(s.asserted);
  }

  /** A model of the constraints respects the reduced edges. */
  lemma {:induction false} WeightedModel(t: Timing, f: Facts, comb: seq<Choice>, n: set<Node>, r: set<Edge>)
    requires forall k :: WeightedEmits(f, comb, n, r, k) ==> Holds(t, k)
    ensures RespectsAll(t, r)
  {
    var implied := Implied(f, Given(f, comb));
    forall e | e in r ensures Respects(t, e) {
      assert WeightedEmits(f, comb, n, r, WeightedConstraint(f, implied, e));
    }
  }

  /** A set of locations and the orders chosen for it, with its constraints. */
  datatype Setting = Setting(f: Facts, comb: seq<Choice>, ns: seq<Node>, cs: seq<Constraint>) {
    function TC(): set<Edge> {
      Closure(ns, WeightedGraph(f, comb))
    }

    function Reduced(): set<Edge> {
      Reduction(WeightedGraph(f, comb), TC())
    }

    ghost predicate Consistent() {
      Lists(ns, f, comb) && WeightedEmitted(f, comb, ns, cs) && !Cyclic(ns, TC())
    }
  }

  /** The constraints of an acyclic graph. */
  type Acyclic = p: Setting | p.Consistent() ghost witness NoLocations()

  ghost function NoLocations(): (p: Setting)
    ensures p.Consistent()
  {
    var f := Facts([], {}, (x: Loc) => 0, (x: Loc) => "", [], [], [], [], []);
    NothingEmitted(f);
    Setting(f, [], [], [])
  }

  lemma {:induction false} NothingEmitted(f: Facts)
    requires f.aSet == [] && f.hb == [] && f.whb == [] && f.concur == [] && f.leavingHb == [] && f.leavingConcur == []
    ensures Lists([], f, []) && WeightedEmitted(f, [], [], []) && !Cyclic([], Closure([], WeightedGraph(f, [])))
  {
    assert Given(f, []) == {} && Nodes(f, []) == {};
    assert Weighted(f, []) == {} && Pairs(f, []) == [];
    assert WeightedGraph(f, []) == {} && Reduction({}, {}) == {};
  }

  /** The constraints entail strict order for every closure pair of entries. */
  lemma {:induction false} ClosureEntailed(p: Acyclic, a: Loc, b: Loc)
    requires (Enter(a), Enter(b)) in p.TC()
    ensures Entails(p.cs, Lt(Enter(a), Enter(b)))
  {
    WeightedClosed(p.f, p.comb);
    forall t: Timing | Models(t, p.cs) ensures t(Enter(a)) < t(Enter(b)) {
      WeightedModel(t, p.f, p.comb, Nodes(p.f, p.comb), p.Reduced());
      ReductionEntails(t, p.ns, WeightedGraph(p.f, p.comb), Enter(a), Enter(b));
    }
  }

  lemma {:induction false} ConcurrentEntailed(p: Acyclic, a: Loc, b: Loc)
    requires a in p.f.aSet && b in p.f.aSet && (Enter(a), Enter(b)) in p.f.concur
    ensures Entails(p.cs, Eq(Enter(a), Enter(b)))
  {
  }

  // ---- what the constraints say of the cycles ----

  /** A reduced edge on the cycles: a stay of a long location has a length below its limit,
      two locations of one register follow each other in the next cycle, and any other
      edge is a strict order. */
  ghost predicate StepMet(t: Timing, f: Facts, e: Edge) {
    if e.0.Enter? && e.1 == Final(e.0.loc) && e.0.loc in f.aSet && e.0.loc in f.multi then
      t(e.0) <= t(e.1) < t(e.0) + f.limit(e.0.loc)
    else if f.reg(e.0.loc) == f.reg(e.1.loc) then t(e.1) == t(e.0) + 1
    else t(e.0) < t(e.1)
  }

  /** An edge implied by a shared register joins two locations of that register. */
  lemma {:induction false} StepMeans(t: Timing, f: Facts, given: set<Edge>, e: Edge)
    ensures Holds(t, WeightedConstraint(f, Implied(f, given), e)) <==> StepMet(t, f, e)
  {
  }

  /** The pairs that must fall together: proven, or chosen so. */
  ghost predicate Paired(f: Facts, comb: seq<Choice>, e: Edge) {
    e in f.concur || e in f.leavingConcur || exists i :: 0 <= i < |comb| && comb[i] == (e, Together)
  }

  ghost predicate CyclesMet(t: Timing, p: Setting) {
    && (forall e :: e in p.Reduced() ==> StepMet(t, p.f, e))
    && (forall e :: e in p.f.whb && e.0 in p.ns && e.1 in p.ns ==> t(e.0) <= t(e.1))
    && (forall e :: Paired(p.f, p.comb, e) && e.0 in p.ns && e.1 in p.ns ==> t(e.0) == t(e.1))
  }

  lemma {:induction false} PairedIsPair(f: Facts, comb: seq<Choice>, e: Edge)
    ensures Paired(f, comb, e) <==> e in Pairs(f, comb)
  {
    ChosenPairsMember(comb, e);
  }

  lemma {:induction false} EmittedAreMet(t: Timing, f: Facts, comb: seq<Choice>, ns: set<Node>, r: set<Edge>)
    requires forall k :: WeightedEmits(f, comb, ns, r, k) ==> Holds(t, k)
    ensures forall e :: e in r ==> StepMet(t, f, e)
    ensures forall e :: e in f.whb && e.0 in ns && e.1 in ns ==> t(e.0) <= t(e.1)
    ensures forall e :: Paired(f, comb, e) && e.0 in ns && e.1 in ns ==> t(e.0) == t(e.1)
  {
    forall e | e in r ensures StepMet(t, f, e) {
      assert WeightedEmits(f, comb, ns, r, WeightedConstraint(f, Implied(f, Given(f, comb)), e));
      StepMeans(t, f, Given(f, comb), e);
    }
    forall e | e in f.whb && e.0 in ns && e.1 in ns ensures t(e.0) <= t(e.1) {
      assert WeightedEmits(f, comb, ns, r, Le(e.0, e.1));
    }
    forall e | Paired(f, comb, e) && e.0 in ns && e.1 in ns ensures t(e.0) == t(e.1) {
      PairedIsPair(f, comb, e);
      assert WeightedEmits(f, comb, ns, r, Eq(e.0, e.1));
    }
  }

  lemma {:induction false} MetIsEmitted(t: Timing, f: Facts, comb: seq<Choice>, ns: set<Node>, r: set<Edge>,
                                        k: Constraint)
    requires forall e :: e in r ==> StepMet(t, f, e)
    requires forall e :: e in f.whb && e.0 in ns && e.1 in ns ==> t(e.0) <= t(e.1)
    requires forall e :: Paired(f, comb, e) && e.0 in ns && e.1 in ns ==> t(e.0) == t(e.1)
    requires WeightedEmits(f, comb, ns, r, k)
    ensures Holds(t, k)
  {
    if e :| e in r && k == WeightedConstraint(f, Implied(f, Given(f, comb)), e) {
      StepMeans(t, f, Given(f, comb), e);
    } else if e :| e in Pairs(f, comb) && e.0 in ns && e.1 in ns && k == Eq(e.0, e.1) {
      PairedIsPair(f, comb, e);
    }
  }

  /** Exactly the timings that meet the cycles model the constraints. */
  lemma {:induction false} ModelsMeetCycles(t: Timing, p: Acyclic)
    ensures Models(t, p.cs) <==> CyclesMet(t, p)
  {
    var ns, r := Nodes(p.f, p.comb), p.Reduced();
    if Models(t, p.cs) {
      EmittedAreMet(t, p.f, p.comb, ns, r);
    }
    if CyclesMet(t, p) {
      forall k | k in p.cs ensures Holds(t, k) {
        MetIsEmitted(t, p.f, p.comb, ns, r, k);
      }
    }
  }

  /** The edges of the graph before saturation: proven inside the set, chosen, implied by
      a shared register, proven with final cycles, and the stays. */
  lemma {:induction false} WeightedMember(f: Facts, comb: seq<Choice>, e: Edge)
    ensures e in Weighted(f, comb) <==>
            || (e in f.hb && e.0.loc in f.aSet && e.1.loc in f.aSet)
            || (exists i :: 0 <= i < |comb| && (comb[i] == (e, Before) || comb[i] == ((e.1, e.0), After)))
            || (e.0.Final? && Stayer(f, e.0.loc) && f.reg(e.0.loc) == f.reg(e.1.loc)
                && EntersBefore(f, comb, e.0.loc, e.1))
            || (e in f.leavingHb && e.0 in Nodes(f, comb) && e.1 in Nodes(f, comb))
            || (e.0.Enter? && e.1 == Final(e.0.loc) && e.0.loc in f.aSet && e.0.loc in f.multi)
  {
    ChosenEdgesMember(comb, e);
    EntersBeforeGiven(f, comb, e.0.loc, e.1);
    assert e == (e.0, e.1) && (e.0 == Enter(e.0.loc) || e.0 == Final(e.0.loc));
    if e.0.Final? && Stayer(f, e.0.loc) && f.reg(e.0.loc) == f.reg(e.1.loc) && (Enter(e.0.loc), e.1) in Given(f, comb) {
      assert e in Implied(f, Given(f, comb));
    }
  }

  /** Every model has the facts, the choices and the stays in order. */
  lemma {:induction false} ModelMeets(t: Timing, p: Acyclic)
    requires Models(t, p.cs)
    ensures Meets(t, p.f, p.comb)
  {
    var f, comb, g := p.f, p.comb, WeightedGraph(p.f, p.comb);
    WeightedClosed(f, comb);
    WeightedModel(t, f, comb, Nodes(f, comb), p.Reduced());
    ReducedRespects(t, p.ns, g);
    SaturateContains(Nodes(f, comb), Weighted(f, comb), Pairs(f, comb));
    ModelsMeetCycles(t, p);
    WeightedConsistent(t, p);
    ConsistentMeets(t, f, comb);
  }

  lemma {:induction false} WeightedConsistent(t: Timing, p: Acyclic)
    requires CyclesMet(t, p) && RespectsAll(t, Weighted(p.f, p.comb))
    ensures Consistent(t, p.f, p.comb)
  {
    var f, comb := p.f, p.comb;
    var ns, pairs := Nodes(f, comb), Pairs(f, comb);
    forall i | 0 <= i < |pairs| && pairs[i].0 in ns && pairs[i].1 in ns ensures t(pairs[i].0) == t(pairs[i].1) {
      PairedIsPair(f, comb, pairs[i]);
    }
    forall e | WeakEdge(f, e) && e.0 in ns && e.1 in ns ensures t(e.0) <= t(e.1) {
      if e !in f.whb {
        assert e == (Enter(e.0.loc), Final(e.0.loc));
        assert e in StaySet(f, f.aSet);
      }
    }
  }

  // ---- the list of open orders ----

  /** The order of strings. */
  predicate Less(a: string, b: string) {
    b != "" && (a == "" || a[0] < b[0] || (a[0] == b[0] && Less(a[1..], b[1..])))
  }

  lemma {:induction false} LessIsTotal(a: string, b: string)
    ensures !(Less(a, b) && Less(b, a)) && (a != b ==> Less(a, b) || Less(b, a))
  {
    if a != "" && b != "" && a[0] == b[0] {
      LessIsTotal(a[1..], b[1..]);
      assert a == [a[0]] + a[1..] && b == [b[0]] + b[1..];
    }
  }

  /** The smaller of two names is a proper beginning of the other, or has the smaller
      character where they first differ. */
  lemma {:induction false} LessIsLexicographic(a: string, b: string)
    ensures Less(a, b) <==> exists i :: LessAt(a, b, i)
  {
    if a == "" || b == "" || a[0] != b[0] {
      assert Less(a, b) ==> LessAt(a, b, 0);
    } else {
      LessIsLexicographic(a[1..], b[1..]);
      if i :| LessAt(a[1..], b[1..], i) {
        assert a[..i + 1] == [a[0]] + a[1..][..i] && b[..i + 1] == [b[0]] + b[1..][..i];
        assert LessAt(a, b, i + 1);
      }
      if i :| LessAt(a, b, i) {
        assert a[1..][..i - 1] == a[..i][1..] && b[1..][..i - 1] == b[..i][1..];
        assert LessAt(a[1..], b[1..], i - 1);
      }
    }
  }

  ghost predicate LessAt(a: string, b: string, i: int) {
    0 <= i <= |a| && i < |b| && a[..i] == b[..i] && (i == |a| || a[i] < b[i])
  }

  type Orders = map<(Loc, Loc), seq<Order>>

  /** The entry of the smaller name with the larger one. */
  function Key(a: Loc, b: Loc): (Loc, Loc) {
    if Less(a, b) then (a, b) else (b, a)
  }

  function Mark(a: Loc, b: Loc): Order {
    if Less(a, b) then Before else After
  }

  /** "a strictly before b" is on the list. */
  predicate Listed(todo: Orders, a: Loc, b: Loc) {
    Key(a, b) in todo && Mark(a, b) in todo[Key(a, b)]
  }

  function Note(todo: Orders, a: Loc, b: Loc): Orders {
    var k := Key(a, b);
    if k in todo then todo[k := todo[k] + [Mark(a, b)]] else todo[k := [Mark(a, b), Together]]
  }

  /** A list under the names in order, with "same cycle" and a strict order. */
  ghost predicate TidyList(k: (Loc, Loc), os: seq<Order>) {
    k == Key(k.0, k.1) && Together in os && (Mark(k.0, k.1) in os || Mark(k.1, k.0) in os)
  }

  ghost predicate Tidy(todo: Orders) {
    forall k :: k in todo ==> TidyList(k, todo[k])
  }

  /** No relation twice for any pair. */
  ghost predicate Repeatless(todo: Orders) {
    forall k :: k in todo ==> NoRepeats(todo[k])
  }

  lemma {:induction false} NoteTidy(todo: Orders, a: Loc, b: Loc)
    requires Tidy(todo)
    ensures Tidy(Note(todo, a, b))
    ensures Repeatless(todo) && !Listed(todo, a, b) ==> Repeatless(Note(todo, a, b))
  {
    LessIsTotal(a, b);
  }

  /** The constraints allow "e.0 before e.1" and allow the contrary. */
  ghost predicate Undecided(cs: seq<Constraint>, e: Edge) {
    && (exists t: Timing :: Models(t, cs) && t(e.0) < t(e.1))
    && (exists t: Timing :: Models(t, cs) && t(e.0) >= t(e.1))
  }

  ghost predicate Open(p: Setting, a: Loc, b: Loc) {
    a in p.f.aSet && b in p.f.aSet && Undecided(p.cs, (Enter(a), Enter(b)))
  }

  /** The list has exactly those of the edges that are open. */
  ghost predicate ListsOpen(todo: Orders, open: set<(Loc, Loc)>, edges: seq<(Loc, Loc)>) {
    forall a, b :: Listed(todo, a, b) <==> (a, b) in edges && (a, b) in open
  }

  lemma {:induction false} ListsOneMore(todo: Orders, open: set<(Loc, Loc)>, edges: seq<(Loc, Loc)>, a: Loc, b: Loc)
    requires ListsOpen(todo, open, edges)
    ensures ListsOpen(if (a, b) in open then Note(todo, a, b) else todo, open, edges + [(a, b)])
  {
  }

  /** The edges that the constraints leave open. */
  ghost function OpenEdges(p: Setting, edges: seq<(Loc, Loc)>): set<(Loc, Loc)> {
    set e | e in edges && Open(p, e.0, e.1)
  }

  /** The closure or a concurrent pair settles the order. */
  method Settled(p: Acyclic, tc: set<Edge>, a: Loc, b: Loc) returns (known: bool)
    requires tc == p.TC() && a in p.f.aSet && b in p.f.aSet
    ensures known ==> !Open(p, a, b)
  {
    var ab, ba := (Enter(a), Enter(b)), (Enter(b), Enter(a));
    known := ab in tc || ba in tc || ab in p.f.concur || ba in p.f.concur;
    if ab in tc {
      ClosureEntailed(p, a, b);
    } else if ba in tc {
      ClosureEntailed(p, b, a);
      assert forall t: Timing :: Models(t, p.cs) ==> Holds(t, Lt(Enter(b), Enter(a)));
    } else if ab in p.f.concur {
      ConcurrentEntailed(p, a, b);
      assert forall t: Timing :: Models(t, p.cs) ==> Holds(t, Eq(Enter(a), Enter(b)));
    } else if ba in p.f.concur {
      ConcurrentEntailed(p, b, a);
      assert forall t: Timing :: Models(t, p.cs) ==> Holds(t, Eq(Enter(b), Enter(a)));
    }
  }

  /** Whether to list the edge: the closure and the concurrent pairs are consulted
      first, then the solver. */
  method IsOpen(p: Acyclic, s: MySolver, tc: set<Edge>, a: Loc, b: Loc) returns (open: bool)
    requires s.Valid() && s.asserted == p.cs && tc == p.TC()
    modifies s`marks, s`asserted
    ensures s.Valid() && s.asserted == p.cs
    ensures open <==> Open(p, a, b)
  {
    if !(a in p.f.aSet && b in p.f.aSet) {
      return false;
    }
    var known := Settled(p, tc, a, b);
    if known {
      return false;
    }
    var always := s.CheckImpHb((Enter(a), Enter(b)));
    if always {
      return false;
    }
    open := s.CheckHbPossibility((Enter(a), Enter(b)));
  }

  /** Takes one more edge into account. */
  method ListOne(p: Acyclic, s: MySolver, tc: set<Edge>, todo: Orders, a: Loc, b: Loc,
                 ghost loose: set<(Loc, Loc)>, ghost seen: seq<(Loc, Loc)>) returns (more: Orders)
    requires s.Valid() && s.asserted == p.cs && tc == p.TC()
    requires ListsOpen(todo, loose, seen) && Tidy(todo) && ((a, b) in loose <==> Open(p, a, b))
    modifies s`marks, s`asserted
    ensures s.Valid() && s.asserted == p.cs
    ensures ListsOpen(more, loose, seen + [(a, b)]) && Tidy(more)
    ensures Repeatless(todo) && (a, b) !in seen ==> Repeatless(more)
  {
    ListsOneMore(todo, loose, seen, a, b);
    NoteTidy(todo, a, b);
    var open := IsOpen(p, s, tc, a, b);
    more := if open then Note(todo, a, b) else todo;
  }

  /** Lists exactly the open edges; with distinct edges no relation comes twice. */
  method ListOpen(p: Acyclic, s: MySolver, tc: set<Edge>, edges: seq<(Loc, Loc)>) returns (todo: Orders)
    requires s.Valid() && s.asserted == p.cs && tc == p.TC()
    modifies s`marks, s`asserted
    ensures s.Valid() && s.asserted == p.cs
    ensures ListsOpen(todo, OpenEdges(p, edges), edges) && Tidy(todo)
    ensures NoRepeats(edges) ==> Repeatless(todo)
  {
    todo := map[];
    ghost var loose := OpenEdges(p, edges);
    for i := 0 to |edges|
      invariant s.Valid() && s.asserted == p.cs
      invariant ListsOpen(todo, loose, edges[..i]) && Tidy(todo)
      invariant NoRepeats(edges) ==> Repeatless(todo)
    {
      var a, b := edges[i].0, edges[i].1;
      assert edges[i] == (a, b) && edges[..i + 1] == edges[..i] + [(a, b)];
      todo := ListOne(p, s, tc, todo, a, b, loose, edges[..i]);
    }
    assert edges[..|edges|] == edges;
  }

  // ---- what the list says ----

  /** Some cycles that are met have `a` entered before `b`, and some do not. */
  ghost predicate OpenByCycles(p: Setting, a: Loc, b: Loc) {
    && a in p.f.aSet && b in p.f.aSet
    && (exists t: Timing :: CyclesMet(t, p) && t(Enter(a)) < t(Enter(b)))
    && (exists t: Timing :: CyclesMet(t, p) && t(Enter(a)) >= t(Enter(b)))
  }

  ghost predicate Notes(todo: Orders, a: Loc, b: Loc, o: Order) {
    (a, b) in todo && o in todo[(a, b)]
  }

  /** The list has, under the smaller name and the larger, "before" and "after" exactly for
      those of the edges that are open, and "same cycle" wherever it has either. */
  ghost predicate ListsWhatIsOpen(todo: Orders, p: Setting, edges: seq<(Loc, Loc)>) {
    && (forall a, b :: Less(a, b) ==> (Notes(todo, a, b, Before) <==> (a, b) in edges && OpenByCycles(p, a, b)))
    && (forall a, b :: Less(a, b) ==> (Notes(todo, a, b, After) <==> (b, a) in edges && OpenByCycles(p, b, a)))
    && (forall a, b :: (a, b) in todo ==>
          Less(a, b) && Notes(todo, a, b, Together) && (Notes(todo, a, b, Before) || Notes(todo, a, b, After)))
  }

  lemma {:induction false} OpenIsByCycles(p: Acyclic, a: Loc, b: Loc)
    ensures Open(p, a, b) <==> OpenByCycles(p, a, b)
  {
    forall t: Timing ensures Models(t, p.cs) <==> CyclesMet(t, p) {
      ModelsMeetCycles(t, p);
    }
  }

  lemma {:induction false} NotOpenToItself(p: Acyclic, a: Loc)
    ensures !Open(p, a, a)
  {
  }

  lemma {:induction false} ListMeans(todo: Orders, p: Acyclic, edges: seq<(Loc, Loc)>)
    requires ListsOpen(todo, OpenEdges(p, edges), edges) && Tidy(todo)
    ensures ListsWhatIsOpen(todo, p, edges)
  {
    forall a, b ensures Listed(todo, a, b) <==> (a, b) in edges && OpenByCycles(p, a, b) {
      OpenIsByCycles(p, a, b);
    }
    forall a, b | Less(a, b)
      ensures Notes(todo, a, b, Before) <==> Listed(todo, a, b)
      ensures Notes(todo, a, b, After) <==> Listed(todo, b, a)
    {
      LessIsTotal(a, b);
    }
    forall a, b | (a, b) in todo
      ensures Less(a, b) && Notes(todo, a, b, Together) && (Listed(todo, a, b) || Listed(todo, b, a))
    {
      LessIsTotal(a, b);
      assert TidyList((a, b), todo[(a, b)]);
      NotOpenToItself(p, a);
    }
  }

  /** A cyclic graph cannot be reduced; unsatisfiable facts fail an assertion. */
  datatype Outcome = CyclicFacts | UnsatFacts | Todo(orders: Orders)

  /** Builds the graph and, unless it is cyclic, asserts its constraints. */
  method Prepare(f: Facts, comb: seq<Choice>, s: MySolver) returns (p: Setting, sat: bool)
    requires s.Valid() && s.asserted == [] && NoRepeats(f.aSet)
    modifies s`asserted, s`marks
    ensures s.Valid() && p.f == f && p.comb == comb && p.cs == s.asserted && Lists(p.ns, f, comb)
    ensures !Cyclic(p.ns, p.TC()) ==> WeightedEmitted(f, comb, p.ns, p.cs) && (sat <==> Sat(p.cs))
  {
    var g, pairs, implied := BuildWeighted(f, comb);
    var ns := g.ListNodes();
    var tc := Closure(ns, g.edges);
    sat := false;
    if !Cyclic(ns, tc) {
      sat := AddFacts(s, f, comb, g.nodes, pairs, implied, Reduction(g.edges, tc));
    }
    p := Setting(f, comb, ns, s.asserted);
  }

  /** All the work for one set of locations. What is left out is decided: every timing
      that meets the constraints agrees on it. */
  method ReEval(f: Facts, edges: seq<(Loc, Loc)>, decide: seq<Constraint> -> bool) returns (r: Outcome, p: Setting)
    requires forall cs :: decide(cs) <==> Sat(cs)
    requires NoRepeats(f.aSet)
    ensures p.f == f && p.comb == [] && Lists(p.ns, f, [])
    ensures r.CyclicFacts? <==> Cyclic(p.ns, p.TC())
    ensures !r.CyclicFacts? ==> WeightedEmitted(f, [], p.ns, p.cs) && (r.Todo? <==> Sat(p.cs))
    ensures r.Todo? ==> ListsOpen(r.orders, OpenEdges(p, edges), edges) && Tidy(r.orders)
    ensures r.Todo? && NoRepeats(edges) ==> Repeatless(r.orders)
    ensures !r.CyclicFacts? ==> (r.Todo? <==> exists t: Timing :: CyclesMet(t, p))
    ensures r.Todo? ==> ListsWhatIsOpen(r.orders, p, edges)
  {
    var s := new MySolver(decide);
    var sat;
    p, sat := Prepare(f, [], s);
    if Cyclic(p.ns, p.TC()) {
      return CyclicFacts, p;
    }
    SatIsMet(p);
    if !sat {
      return UnsatFacts, p;
    }
    var todo := ListOpen(p, s, p.TC(), edges);
    ListMeans(todo, p, edges);
    r := Todo(todo);
  }

  lemma {:induction false} SatIsMet(p: Acyclic)
    ensures Sat(p.cs) <==> exists t: Timing :: CyclesMet(t, p)
  {
    forall t: Timing ensures Models(t, p.cs) <==> CyclesMet(t, p) {
      ModelsMeetCycles(t, p);
    }
  }
}
