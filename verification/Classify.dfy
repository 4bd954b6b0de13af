/** Sorts pairs of locations by what the model checker proved of their entries:
    strictly ordered, weakly ordered, or always in the same cycle. */
module Classify {
  import opened Graph
  import opened Traces
  import opened Execution

  datatype Verdict = Proven | Cex | Undetermined | Err

  /** The dataflow edges with the verdicts on their HB, WHB and WHB_CONCUR assertions. */
  datatype Results = Results(
    edges: seq<Edge>,
    reachable: seq<Loc>,
    sets: seq<seq<Loc>>,
    hb: seq<Verdict>, whb: seq<Verdict>, concur: seq<Verdict>)
  {
    predicate WellFormed() {
      |hb| == |edges| && |whb| == |edges| && |concur| == |edges|
    }

    /** Both ends are reachable, and some set has both. */
    ghost predicate Considered(e: Edge) {
      e.0.loc in reachable && e.1.loc in reachable && exists s :: s in sets && e.0.loc in s && e.1.loc in s
    }

    ghost predicate HbProven(e: Edge)
      requires WellFormed()
    {
      exists i :: 0 <= i < |edges| && edges[i] == e && Considered(e) && hb[i].Proven?
    }

    /** WHB is only consulted where HB has a counterexample. */
    ghost predicate WhbProven(e: Edge)
      requires WellFormed()
    {
      exists i :: 0 <= i < |edges| && edges[i] == e && Considered(e) && hb[i].Cex? && whb[i].Proven?
    }

    ghost predicate ConcurProven(e: Edge)
      requires WellFormed()
    {
      exists i :: 0 <= i < |edges| && edges[i] == e && Considered(e) && hb[i].Cex? && concur[i].Proven?
    }

    /** Weakly ordered both ways, or proven concurrent. */
    ghost predicate Concurrent(e: Edge)
      requires WellFormed()
    {
      (WhbProven(e) && WhbProven((e.1, e.0))) || ConcurProven(e)
    }
  }

  method IsConsidered(r: Results, e: Edge) returns (inSet: bool)
    ensures inSet <==> r.Considered(e)
  {
    if !(e.0.loc in r.reachable && e.1.loc in r.reachable) {
      return false;
    }
    inSet := false;
    for i := 0 to |r.sets|
      invariant inSet <==> exists s :: s in r.sets[..i] && e.0.loc in s && e.1.loc in s
    {
      assert r.sets[..i + 1] == r.sets[..i] + [r.sets[i]];
      if e.0.loc in r.sets[i] && e.1.loc in r.sets[i] {
        inSet := true;
      }
    }
    assert r.sets[..|r.sets|] == r.sets;
  }

  method Collect(r: Results) returns (hb: seq<Edge>, whb: seq<Edge>, awsSame: seq<Edge>)
    requires r.WellFormed()
    ensures forall e :: e in hb <==> r.HbProven(e)
    ensures forall e :: e in whb <==> r.WhbProven(e)
    ensures forall e :: e in awsSame <==> r.ConcurProven(e)
  {
    hb, whb, awsSame := [], [], [];
    for idx := 0 to |r.edges|
      invariant forall e :: e in hb <==>
                  exists i :: 0 <= i < idx && r.edges[i] == e && r.Considered(e) && r.hb[i].Proven?
      invariant forall e :: e in whb <==>
                  exists i :: 0 <= i < idx && r.edges[i] == e && r.Considered(e) && r.hb[i].Cex? && r.whb[i].Proven?
      invariant forall e :: e in awsSame <==>
                  exists i :: 0 <= i < idx && r.edges[i] == e && r.Considered(e) && r.hb[i].Cex? && r.concur[i].Proven?
    {
      var e := r.edges[idx];
      var inSet := IsConsidered(r, e);
      if inSet {
        if r.hb[idx].Cex? {
          if r.whb[idx].Proven? {
            whb := whb + [e];
          }
          if r.concur[idx].Proven? {
            awsSame := awsSame + [e];
          }
        } else if r.hb[idx].Proven? {
          hb := hb + [e];
        }
      }
    }
  }

  /** Splits the weakly ordered pairs into concurrent ones and the rest. */
  method Split(whb: seq<Edge>, awsSame: seq<Edge>) returns (concurrent: seq<Edge>, weak: seq<Edge>)
    ensures forall e :: e in concurrent <==> (e in whb && (e.1, e.0) in whb) || e in awsSame
    ensures forall e :: e in weak <==> e in whb && e !in concurrent
  {
    concurrent := [];
    for i := 0 to |whb|
      invariant forall e :: e in concurrent <==> e in whb[..i] && (e.1, e.0) in whb
    {
      assert whb[..i + 1] == whb[..i] + [whb[i]];
      if (whb[i].1, whb[i].0) in whb {
        concurrent := concurrent + [whb[i]];
      }
    }
    assert whb[..|whb|] == whb;
    for i := 0 to |awsSame|
      invariant forall e :: e in concurrent <==> (e in whb && (e.1, e.0) in whb) || e in awsSame[..i]
    {
      assert awsSame[..i + 1] == awsSame[..i] + [awsSame[i]];
      if awsSame[i] !in concurrent {
        concurrent := concurrent + [awsSame[i]];
      }
    }
    assert awsSame[..|awsSame|] == awsSame;
    weak := [];
    for i := 0 to |whb|
      invariant forall e :: e in weak <==> e in whb[..i] && e !in concurrent
    {
      assert whb[..i + 1] == whb[..i] + [whb[i]];
      if whb[i] !in concurrent {
        weak := weak + [whb[i]];
      }
    }
  }

  /** Both locations can be covered, and by one path. */
  ghost predicate SharesSet(r: Results, e: Edge) {
    && e.0.loc in r.reachable && e.1.loc in r.reachable
    && exists i :: 0 <= i < |r.sets| && e.0.loc in r.sets[i] && e.1.loc in r.sets[i]
  }

  /** The lists of strictly ordered, concurrent and merely weakly ordered pairs. */
  method Postprocess(r: Results) returns (hb: seq<Edge>, concurrent: seq<Edge>, weak: seq<Edge>)
    requires r.WellFormed()
    ensures forall e :: e in hb <==> r.HbProven(e)
    ensures forall e :: e in concurrent <==> r.Concurrent(e)
    ensures forall e :: e in weak <==> r.WhbProven(e) && !r.Concurrent(e)
    ensures forall i :: 0 <= i < |r.edges| && SharesSet(r, r.edges[i]) && r.hb[i].Proven? ==> r.edges[i] in hb
    ensures forall i :: 0 <= i < |r.edges| && SharesSet(r, r.edges[i]) && r.hb[i].Cex? && r.concur[i].Proven? ==>
              r.edges[i] in concurrent
    ensures forall i :: 0 <= i < |r.edges| && SharesSet(r, r.edges[i]) && r.hb[i].Cex? && r.whb[i].Proven? ==>
              r.edges[i] in concurrent || r.edges[i] in weak
    ensures forall e :: e in hb || e in concurrent || e in weak ==> e in r.edges && SharesSet(r, e)
  {
    var whb, awsSame;
    hb, whb, awsSame := Collect(r);
    concurrent, weak := Split(whb, awsSame);
  }

  /** A proven verdict is right about the run. */
  ghost predicate Sound(r: Results, sig: Loc -> Signal)
    requires r.WellFormed()
  {
    forall i :: 0 <= i < |r.edges| ==>
      && (r.hb[i].Proven? ==> AssertHb(sig(r.edges[i].0.loc), sig(r.edges[i].1.loc)))
      && (r.whb[i].Proven? ==> AssertWhb(sig(r.edges[i].0.loc), sig(r.edges[i].1.loc)))
      && (r.concur[i].Proven? ==> AssertConcur(sig(r.edges[i].0.loc), sig(r.edges[i].1.loc)))
  }

  /** The lists mean first-entry order: on every run of which the verdicts are right
      and that visits both locations, a strict pair enters in order, a concurrent
      pair in the same cycle, and a weak pair not out of order. */
  lemma {:induction false} ListsMeanOrder(r: Results, sig: Loc -> Signal, e: Edge)
    requires r.WellFormed() && Sound(r, sig)
    requires Visited(sig(e.0.loc)) && Visited(sig(e.1.loc))
    ensures r.HbProven(e) ==> First(sig(e.0.loc)) < First(sig(e.1.loc))
    ensures r.Concurrent(e) ==> First(sig(e.0.loc)) == First(sig(e.1.loc))
    ensures r.Concurrent(e) ==> AlwaysConcurrent(sig(e.0.loc), sig(e.1.loc))
    ensures r.WhbProven(e) ==> First(sig(e.0.loc)) <= First(sig(e.1.loc))
  {
    var a, b := sig(e.0.loc), sig(e.1.loc);
    HbMeans(a, b);
    WhbMeans(a, b);
    WhbMeans(b, a);
    ConcurMeans(a, b);
  }
}
