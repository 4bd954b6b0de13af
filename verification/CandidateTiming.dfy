/** What it means for a timing to meet the facts about a set of locations and the orders
    chosen for it, written on the cycles themselves, and how the graph of the candidate
    says the same. */
module CandidateTiming {
  import opened Graph
  import opened Traces
  import opened Solver
  import opened ConstructPaths

  /** Two locations, not one. */
  ghost predicate Apart(e: Edge) {
    e.0.loc != e.1.loc
  }

  /** The proven orders between entries of the set, strict and weak, and the entries
      and final cycles that are proven to fall together. */
  ghost predicate FactsMet(t: Timing, f: Facts) {
    && (forall e :: e in f.hb && e.0.loc in f.aSet && e.1.loc in f.aSet && Apart(e) ==> t(e.0) < t(e.1))
    && (forall e :: e in f.leavingHb && InGraph(f, e) && !(e.0.Enter? && e.1 == Final(e.0.loc)) ==> t(e.0) < t(e.1))
    && (forall e :: e in f.whb && InGraph(f, e) ==> t(e.0) <= t(e.1))
    && (forall e :: e in f.concur && InGraph(f, e) ==> t(e.0) == t(e.1))
    && (forall e :: e in f.leavingConcur && InGraph(f, e) ==> t(e.0) == t(e.1))
  }

  /** Every pair of events of the set is in the order chosen for it. */
  ghost predicate ChoicesMet(t: Timing, f: Facts, comb: seq<Choice>) {
    forall i :: 0 <= i < |comb| && InGraph(f, comb[i].0) && Apart(comb[i].0) ==> AsChosen(t, comb[i])
  }

  /** Entering `x` comes strictly before `n`, proven or chosen. */
  ghost predicate EntersBefore(f: Facts, comb: seq<Choice>, x: Loc, n: Node) {
    || (x in f.aSet && n.loc in f.aSet && (Enter(x), n) in f.hb)
    || (exists i :: 0 <= i < |comb| && comb[i] == ((Enter(x), n), Before))
    || (exists i :: 0 <= i < |comb| && comb[i] == ((n, Enter(x)), After))
  }

  /** A long location of the set, and an event of another location of its register. */
  ghost predicate Shares(f: Facts, x: Loc, n: Node) {
    x in f.aSet && x in f.multi && x != n.loc && f.reg(x) == f.reg(n.loc)
  }

  /** No long location ends before it is entered, and the one register that two locations
      share leaves the first before it enters the second. */
  ghost predicate StaysMet(t: Timing, f: Facts, comb: seq<Choice>) {
    && (forall x :: x in f.aSet && x in f.multi ==> t(Enter(x)) <= t(Final(x)))
    && (forall x, n: Node :: Shares(f, x, n) && EntersBefore(f, comb, x, n) ==> t(Final(x)) < t(n))
  }

  ghost predicate Meets(t: Timing, f: Facts, comb: seq<Choice>) {
    FactsMet(t, f) && ChoicesMet(t, f, comb) && StaysMet(t, f, comb)
  }

  /** No long location of the set is stayed in beyond its limit, as far as staying in it
      is one of these edges. */
  ghost predicate LimitsMet(t: Timing, f: Facts, es: set<Edge>) {
    forall x :: x in f.aSet && x in f.multi && (Enter(x), Final(x)) in es ==> t(Final(x)) < t(Enter(x)) + f.limit(x)
  }

  /** Every proven entry order, and every choice, is about two events of two locations of
      the set, and no proven order is that of a stay. */
  ghost predicate Proper(f: Facts, comb: seq<Choice>) {
    && (forall e :: e in f.hb && e.0.loc in f.aSet && e.1.loc in f.aSet ==> InGraph(f, e) && Apart(e))
    && (forall e :: e in f.leavingHb && InGraph(f, e) ==> !(e.0.Enter? && e.1 == Final(e.0.loc)))
    && (forall i :: 0 <= i < |comb| ==> InGraph(f, comb[i].0) && Apart(comb[i].0))
  }

  // ---- the graph says the same ----

  lemma {:induction false} ChosenEdgesMember(comb: seq<Choice>, e: Edge)
    ensures e in ChosenEdges(comb) <==>
            exists i :: 0 <= i < |comb| && (comb[i] == (e, Before) || comb[i] == ((e.1, e.0), After))
  {
    if comb != [] {
      var k := |comb| - 1;
      ChosenEdgesMember(comb[..k], e);
      var c := comb[k];
      assert c == ((c.0.0, c.0.1), c.1) && e == (e.0, e.1);
      if i :| 0 <= i < |comb| && (comb[i] == (e, Before) || comb[i] == ((e.1, e.0), After)) {
        assert i < k ==> comb[..k][i] == comb[i];
      }
    }
  }

  lemma {:induction false} ChosenPairsMember(comb: seq<Choice>, e: Edge)
    ensures e in ChosenPairs(comb) <==> exists i :: 0 <= i < |comb| && comb[i] == (e, Together)
  {
    if comb != [] {
      var k := |comb| - 1;
      ChosenPairsMember(comb[..k], e);
      var c := comb[k];
      assert c == (c.0, c.1);
      if i :| 0 <= i < |comb| && comb[i] == (e, Together) {
        assert i < k ==> comb[..k][i] == comb[i];
      }
    }
  }

  lemma {:induction false} KnownIsNode(f: Facts, comb: seq<Choice>, n: Node)
    requires Known(f, n)
    ensures n in Nodes(f, comb)
  {
    assert n == Enter(n.loc) || n == Final(n.loc);
  }

  lemma {:induction false} EntersBeforeGiven(f: Facts, comb: seq<Choice>, x: Loc, n: Node)
    ensures EntersBefore(f, comb, x, n) <==> (Enter(x), n) in Given(f, comb)
  {
    ChosenEdgesMember(comb, (Enter(x), n));
  }

  lemma {:induction false} ConsistentStrict(t: Timing, f: Facts, comb: seq<Choice>, e: Edge)
    requires Consistent(t, f, comb) && !IsStay(e)
    requires (e in f.hb && Inside(f, e)) || (e in f.leavingHb && InGraph(f, e))
    ensures t(e.0) < t(e.1)
  {
    if InGraph(f, e) {
      KnownIsNode(f, comb, e.0);
      KnownIsNode(f, comb, e.1);
    }
    assert e in Unsaturated(f, comb);
  }

  lemma {:induction false} ConsistentWeak(t: Timing, f: Facts, comb: seq<Choice>, e: Edge)
    requires Consistent(t, f, comb) && InGraph(f, e)
    ensures e in f.whb ==> t(e.0) <= t(e.1)
    ensures e in f.concur || e in f.leavingConcur ==> t(e.0) == t(e.1)
  {
    KnownIsNode(f, comb, e.0);
    KnownIsNode(f, comb, e.1);
    if e in f.concur || e in f.leavingConcur {
      var pairs := Pairs(f, comb);
      assert e in pairs;
      var i :| 0 <= i < |pairs| && pairs[i] == e;
    }
  }

  lemma {:induction false} ConsistentFacts(t: Timing, f: Facts, comb: seq<Choice>)
    requires Consistent(t, f, comb)
    ensures FactsMet(t, f)
  {
    forall e | e in f.hb && Inside(f, e) && Apart(e) ensures t(e.0) < t(e.1) {
      ConsistentStrict(t, f, comb, e);
    }
    forall e | e in f.leavingHb && InGraph(f, e) && !IsStay(e) ensures t(e.0) < t(e.1) {
      ConsistentStrict(t, f, comb, e);
    }
    forall e | InGraph(f, e)
      ensures e in f.whb ==> t(e.0) <= t(e.1)
      ensures e in f.concur || e in f.leavingConcur ==> t(e.0) == t(e.1)
    {
      ConsistentWeak(t, f, comb, e);
    }
  }

  lemma {:induction false} ConsistentChoice(t: Timing, f: Facts, comb: seq<Choice>, i: nat)
    requires Consistent(t, f, comb) && i < |comb| && InGraph(f, comb[i].0) && Apart(comb[i].0)
    ensures AsChosen(t, comb[i])
  {
    var e, pairs := comb[i].0, Pairs(f, comb);
    assert comb[i] == (e, comb[i].1) && e == (e.0, e.1);
    match comb[i].1
    case Before =>
      ChosenEdgesMember(comb, e);
      assert e in Unsaturated(f, comb);
    case After =>
      ChosenEdgesMember(comb, (e.1, e.0));
      assert (e.1, e.0) in Unsaturated(f, comb);
    case Together =>
      ChosenPairsMember(comb, e);
      KnownIsNode(f, comb, e.0);
      KnownIsNode(f, comb, e.1);
      assert e in pairs;
      var j :| 0 <= j < |pairs| && pairs[j] == e;
  }

  lemma {:induction false} ConsistentStays(t: Timing, f: Facts, comb: seq<Choice>)
    requires Consistent(t, f, comb)
    ensures StaysMet(t, f, comb)
  {
    forall x | x in f.aSet && x in f.multi ensures t(Enter(x)) <= t(Final(x)) {
      KnownIsNode(f, comb, Enter(x));
      KnownIsNode(f, comb, Final(x));
      assert WeakEdge(f, (Enter(x), Final(x)));
    }
    forall x, n: Node | Shares(f, x, n) && EntersBefore(f, comb, x, n) ensures t(Final(x)) < t(n) {
      EntersBeforeGiven(f, comb, x, n);
      assert (Final(x), n) in Unsaturated(f, comb);
    }
  }

  /** A consistent timing has the facts, the choices and the stays in order. */
  lemma {:induction false} ConsistentMeets(t: Timing, f: Facts, comb: seq<Choice>)
    requires Consistent(t, f, comb)
    ensures Meets(t, f, comb)
  {
    ConsistentFacts(t, f, comb);
    ConsistentStays(t, f, comb);
    forall i | 0 <= i < |comb| && InGraph(f, comb[i].0) && Apart(comb[i].0) ensures AsChosen(t, comb[i]) {
      ConsistentChoice(t, f, comb, i);
    }
  }

  // ---- and nothing more ----

  lemma {:induction false} ProperEdges(f: Facts, comb: seq<Choice>, e: Edge)
    requires Proper(f, comb) && e in Given(f, comb)
    ensures InGraph(f, e) && Apart(e)
  {
    ChosenEdgesMember(comb, e);
  }

  lemma {:induction false} ProperNodes(f: Facts, comb: seq<Choice>, n: Node)
    requires Proper(f, comb)
    ensures n in Nodes(f, comb) <==> Known(f, n)
  {
    if n in Ends(Given(f, comb)) {
      var e :| e in Given(f, comb) && (n == e.0 || n == e.1);
      ProperEdges(f, comb, e);
    }
    if Known(f, n) {
      KnownIsNode(f, comb, n);
    }
  }

  lemma {:induction false} GivenMet(t: Timing, f: Facts, comb: seq<Choice>, e: Edge)
    requires Proper(f, comb) && Meets(t, f, comb) && e in Given(f, comb)
    ensures t(e.0) < t(e.1)
  {
    ChosenEdgesMember(comb, e);
    if i :| 0 <= i < |comb| && (comb[i] == (e, Before) || comb[i] == ((e.1, e.0), After)) {
      assert AsChosen(t, comb[i]);
    }
  }

  lemma {:induction false} UnsaturatedMet(t: Timing, f: Facts, comb: seq<Choice>)
    requires Proper(f, comb) && Meets(t, f, comb)
    ensures Ordered(t, Unsaturated(f, comb))
  {
    var given, ns := Given(f, comb), Nodes(f, comb);
    forall e | e in Unsaturated(f, comb) ensures t(e.0) < t(e.1) {
      if e in given {
        GivenMet(t, f, comb, e);
      } else if e in Implied(f, given) {
        var d :| d in given && d.0.Enter? && Stayer(f, d.0.loc) && f.reg(d.0.loc) == f.reg(d.1.loc)
              && e == (Final(d.0.loc), d.1);
        assert d == (Enter(d.0.loc), d.1);
        ProperEdges(f, comb, d);
        EntersBeforeGiven(f, comb, d.0.loc, d.1);
      } else {
        ProperNodes(f, comb, e.0);
        ProperNodes(f, comb, e.1);
      }
    }
  }

  lemma {:induction false} PairsMet(t: Timing, f: Facts, comb: seq<Choice>)
    requires Proper(f, comb) && Meets(t, f, comb)
    ensures Simultaneous(t, Nodes(f, comb), Pairs(f, comb))
  {
    var ns, pairs := Nodes(f, comb), Pairs(f, comb);
    forall i | 0 <= i < |pairs| && pairs[i].0 in ns && pairs[i].1 in ns ensures t(pairs[i].0) == t(pairs[i].1) {
      var e := pairs[i];
      ProperNodes(f, comb, e.0);
      ProperNodes(f, comb, e.1);
      if e !in f.concur && e !in f.leavingConcur {
        assert e in ChosenPairs(comb);
        ChosenPairsMember(comb, e);
        var j :| 0 <= j < |comb| && comb[j] == (e, Together);
        assert AsChosen(t, comb[j]);
      }
    }
  }

  lemma {:induction false} WeakMet(t: Timing, f: Facts, comb: seq<Choice>, e: Edge)
    requires Proper(f, comb) && Meets(t, f, comb) && WeakEdge(f, e) && e.0 in Nodes(f, comb) && e.1 in Nodes(f, comb)
    ensures t(e.0) <= t(e.1)
  {
    ProperNodes(f, comb, e.0);
    ProperNodes(f, comb, e.1);
    assert e.0.Enter? ==> e.0 == Enter(e.0.loc);
  }

  /** Conversely, for a proper candidate, a timing that has all in order and keeps the
      limits of the stays obeys the candidate. */
  lemma {:induction false} MeetsObeys(t: Timing, f: Facts, comb: seq<Choice>)
    requires Proper(f, comb) && Meets(t, f, comb) && LimitsMet(t, f, Saturated(f, comb))
    ensures Obeys(t, f, comb)
  {
    UnsaturatedMet(t, f, comb);
    PairsMet(t, f, comb);
    forall e | WeakEdge(f, e) && e.0 in Nodes(f, comb) && e.1 in Nodes(f, comb) ensures t(e.0) <= t(e.1) {
      WeakMet(t, f, comb, e);
    }
    LimitsBound(t, f, Saturated(f, comb));
  }

  lemma {:induction false} LimitsBound(t: Timing, f: Facts, es: set<Edge>)
    ensures LimitsMet(t, f, es) <==> Bounded(t, f, es)
  {
    forall e | e in es && IsStay(e) ensures e == (Enter(e.0.loc), Final(e.0.loc)) {}
    forall x ensures IsStay((Enter(x), Final(x))) {}
  }
}
