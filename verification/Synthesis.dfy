/** The synthesis of one set of locations, from verdicts of the model checker through the
    listed orders and the product of covered relations to the combinations that are kept. */
module Synthesis {
  import opened Collections
  import opened Graph
  import opened Traces
  import opened Solver
  import opened ConstructPaths
  import opened Execution
  import opened LeavingFacts
  import opened CandidateTiming
  import opened PathBuilder
  import opened Classify
  import opened PairsTodo
  import opened OrderLists

  /** The facts between entries are the lists that the verdicts give. */
  ghost predicate FactsFrom(v: Results, f: Facts)
    requires v.WellFormed()
  {
    && (forall i :: 0 <= i < |v.edges| ==> Entries(v.edges[i]))
    && (forall e :: e in f.hb <==> v.HbProven(e))
    && (forall e :: e in f.concur <==> v.Concurrent(e))
    && (forall e :: e in f.whb <==> v.WhbProven(e) && !v.Concurrent(e))
  }

  /** If the verdicts are right about a run, the facts between entries hold of it, and all
      facts do if and only if the assertions about final cycles leave none of their pairs
      out of order. */
  lemma {:induction false} VerdictsAreFacts(v: Results, f: Facts, long: set<Loc>, r: Run)
    requires v.WellFormed() && FactsFrom(v, f) && Sound(v, r.sig) && Visits(r, f) && LeavingVerdicts(r, f, long)
    ensures EntryFactsHold(r, f)
    ensures FactsHold(r, f) <==> SilentOrdered(r, f, long)
  {
    forall e | e in f.concur ensures Entries(e) && AlwaysConcurrent(r.sig(e.0.loc), r.sig(e.1.loc)) {
      assert v.Concurrent(e);
    }
    LeavingExact(r, f, long);
  }

  /** Of the combinations over given pairs of entries, a run chooses exactly one: that
      of its own orders of first entry. */
  lemma {:induction false} OwnCombination(r: Run, f: Facts, comb: seq<Choice>)
    requires Visits(r, f) && forall i :: 0 <= i < |comb| ==> Entries(comb[i].0) && Inside(f, comb[i].0)
    ensures ChosenAll(r, f, comb) <==> forall i :: 0 <= i < |comb| ==> InOrder(r, comb[i])
  {
    forall i | 0 <= i < |comb| ensures Chosen(r, f, comb[i]) <==> InOrder(r, comb[i]) {
      var e := comb[i].0;
      EntryCycle(r, f, e.0.loc);
      EntryCycle(r, f, e.1.loc);
      AssumedIffOrder(r.sig(e.0.loc), r.sig(e.1.loc), comb[i].1);
    }
  }

  /** The search loses no run: a product member that is in the order of a run is found
      from every base that the cycles of the run satisfy. */
  lemma {:induction false} RunIsFound(r: Run, base: seq<Constraint>, arr: seq<seq<Choice>>, comb: seq<Choice>)
    requires Models(Times(r), base) && InProduct(arr, [], comb)
    requires forall i :: 0 <= i < |comb| ==> InOrder(r, comb[i])
    ensures comb in Search(base, arr, [])
  {
    var t := Times(r);
    assert Models(t, base) && forall i :: 0 <= i < |comb| ==> AsChosen(t, comb[i]);
    SearchMembers(base, arr);
  }

  /** A combination of orders between entries, and one that involves final cycles. */
  type Candidate = (seq<Choice>, seq<Choice>)

  /** Some run visits the set, obeys the facts and makes the choices. */
  ghost predicate Happens(f: Facts, c: Candidate) {
    exists r: Run :: Visits(r, f) && FactsHold(r, f) && ChosenAll(r, f, c.0 + c.1)
  }

  /** Some timing obeys the facts and the choices. */
  ghost predicate Obeyed(f: Facts, c: Candidate) {
    exists t: Timing :: Obeys(t, f, c.0 + c.1)
  }

  lemma {:induction false} HappensIsObeyed(f: Facts, c: Candidate)
    ensures Happens(f, c) ==> Obeyed(f, c)
  {
    if Happens(f, c) {
      var r: Run :| Visits(r, f) && FactsHold(r, f) && ChosenAll(r, f, c.0 + c.1);
      RunObeys(r, f, c.0 + c.1);
    }
  }

  /** Neither the cycle test nor the solver rejects the candidate, in whatever order the
      nodes and the constraints come. */
  ghost predicate Passes(f: Facts, comb: seq<Choice>) {
    forall ns, cs :: Emitted(f, comb, Closure(ns, Saturated(f, comb)), cs) ==>
      !Cyclic(ns, Closure(ns, Saturated(f, comb))) && Sat(cs)
  }

  lemma {:induction false} RunPasses(r: Run, f: Facts, c: Candidate)
    requires Visits(r, f) && FactsHold(r, f) && ChosenAll(r, f, c.0) && ChosenAll(r, f, c.1)
    ensures Happens(f, c) && Passes(f, c.0 + c.1)
  {
    var comb := c.0 + c.1;
    assert ChosenAll(r, f, comb);
    forall ns, cs | Emitted(f, comb, Closure(ns, Saturated(f, comb)), cs)
      ensures !Cyclic(ns, Closure(ns, Saturated(f, comb))) && Sat(cs)
    {
      RunIsKept(r, f, comb, ns, cs);
    }
  }

  /** The combination of an execution that satisfies the constraints and orders listed
      pairs along dataflow edges is in the product of covered relations, and passes cycle
      test and solver with every choice of final orders that the execution makes. */
  lemma {:induction false} OwnCombinationKept(r: Run, p: Acyclic, todo: Orders, edges: seq<(Loc, Loc)>,
                                              covered: Verdicts, ls: seq<Line>, finals: seq<Choice>)
      returns (comb: seq<Choice>)
    requires Prepared(r, p, todo, edges, covered, ls) && AllAlong(r, edges, covered, ls)
    requires FactsHold(r, p.f) && ChosenAll(r, p.f, finals)
    ensures comb in All(ChoiceLists(covered, ls), [])
    ensures Happens(p.f, (comb, finals)) && Passes(p.f, comb + finals)
  {
    LinesHaveOwn(r, p, todo, edges, covered, ls);
    comb := AlongIsOwn(r, edges, covered, ls);
    AllMember(ChoiceLists(covered, ls), [], comb);
    OwnCombination(r, p.f, comb);
    RunPasses(r, p.f, (comb, finals));
  }

  /** The candidate is one that some timing meets: every proven order inside the set,
      every choice, every stay, in the order of cycles. */
  ghost predicate Plausible(f: Facts, c: Candidate) {
    Meetable(f, c.0 + c.1) && exists t: Timing :: Consistent(t, f, c.0 + c.1)
  }

  /** What is kept of the candidates: all that are obeyed, only plausible ones, and none
      more often than it came. */
  ghost predicate Sifted(f: Facts, cands: seq<Candidate>, kept: seq<Candidate>) {
    && (forall c :: c in cands && Obeyed(f, c) ==> c in kept)
    && (forall c :: c in kept ==> c in cands && Plausible(f, c))
    && (NoRepeats(cands) ==> NoRepeats(kept))
  }

  lemma {:induction false} SiftOne(f: Facts, cands: seq<Candidate>, kept: seq<Candidate>, c: Candidate, keep: bool)
    requires Sifted(f, cands, kept) && (Obeyed(f, c) ==> keep) && (keep ==> Plausible(f, c))
    ensures Sifted(f, cands + [c], if keep then kept + [c] else kept)
  {
    var all := cands + [c];
    if NoRepeats(all) {
      assert forall i :: 0 <= i < |cands| ==> all[i] == cands[i];
      assert all[|cands|] == c && c !in cands;
    }
  }

  /** Decides every candidate: what some timing obeys, in particular what some execution
      does, is kept, and whatever is kept is consistent with all facts and choices. */
  method KeepCandidates(f: Facts, cands: seq<Candidate>, decide: seq<Constraint> -> bool) returns (kept: seq<Candidate>)
    requires forall cs :: decide(cs) <==> Sat(cs)
    ensures forall c :: c in cands && (Obeyed(f, c) || Happens(f, c)) ==> c in kept
    ensures forall c :: c in cands && Proper(f, c.0 + c.1) && WellMet(f, c.0 + c.1) ==> c in kept
    ensures forall c :: c in kept ==> c in cands && Plausible(f, c)
    ensures NoRepeats(cands) ==> NoRepeats(kept)
  {
    kept := [];
    for i := 0 to |cands|
      invariant Sifted(f, cands[..i], kept)
    {
      assert cands[..i + 1] == cands[..i] + [cands[i]];
      var keep := Decide(f, cands[i].0, cands[i].1, decide);
      SiftOne(f, cands[..i], kept, cands[i], keep);
      if keep {
        kept := kept + [cands[i]];
      }
    }
    assert cands[..|cands|] == cands;
    forall c ensures Happens(f, c) ==> Obeyed(f, c) {
      HappensIsObeyed(f, c);
    }
    forall c: Candidate ensures Proper(f, c.0 + c.1) && WellMet(f, c.0 + c.1) ==> Obeyed(f, c) {
      WellMetObeys(f, c.0 + c.1);
    }
  }
}
