/** What the proven assertions about final cycles make of an execution: path construction
    takes them as orders of cycles, which they are not for visits of one cycle. */
module LeavingFacts {
  import opened Graph
  import opened Solver
  import opened ConstructPaths
  import opened Execution
  import opened Leaving

  /** The assertion behind a strict order. */
  ghost predicate HbAssertion(r: Run, e: Edge) {
    var s1, s2 := r.sig(e.0.loc), r.sig(e.1.loc);
    match e
    case (Final(_), Enter(_)) => AssertLeavingEnter(s1, s2)
    case (Enter(_), Final(_)) => AssertEnterLeaving(s1, s2)
    case (Final(_), Final(_)) => AssertLeavingLeaving(s1, s2)
    case (Enter(_), Enter(_)) => false
  }

  /** The assertion behind an equality. */
  ghost predicate ConcurAssertion(r: Run, e: Edge) {
    var s1, s2 := r.sig(e.0.loc), r.sig(e.1.loc);
    match e
    case (Final(_), Enter(_)) => AssertLeavingIsEnter(s1, s2)
    case (Enter(_), Final(_)) => AssertEnterIsLeaving(s1, s2)
    case (Final(_), Final(_)) => AssertLeavingIsLeaving(s1, s2)
    case (Enter(_), Enter(_)) => false
  }

  /** The verdicts on these assertions are right about the run. The strict ones were proven
      under the assumption that the second location, if one of `long`, stays for two cycles. */
  ghost predicate LeavingVerdicts(r: Run, f: Facts, long: set<Loc>) {
    && (forall e :: e in f.leavingHb && InGraph(f, e) ==>
          !Entries(e) && ((e.1.loc in long ==> StaysTwo(r.sig(e.1.loc))) ==> HbAssertion(r, e)))
    && (forall e :: e in f.leavingConcur && InGraph(f, e) ==> ConcurAssertion(r, e))
  }

  ghost predicate OneCycle(r: Run, x: Loc) {
    CycleOf(r, Enter(x)) == CycleOf(r, Final(x))
  }

  /** The assertion says nothing of the run: a visit that it speaks of is one cycle long. */
  ghost predicate HbSilent(r: Run, long: set<Loc>, e: Edge) {
    (e.0.Final? && OneCycle(r, e.0.loc)) || (e.1.loc in long && OneCycle(r, e.1.loc))
  }

  /** The same for an equality; that of an entry with a final cycle also says nothing
      unless the entry comes later than that of the second location, and not after it is
      left. */
  ghost predicate ConcurSilent(r: Run, e: Edge) {
    if e.0.Final? then OneCycle(r, e.0.loc)
    else !(CycleOf(r, Enter(e.1.loc)) < CycleOf(r, e.0) <= CycleOf(r, Final(e.1.loc)))
  }

  /** The pairs of which the assertions say nothing are in order all the same. */
  ghost predicate SilentOrdered(r: Run, f: Facts, long: set<Loc>) {
    && (forall e :: e in f.leavingHb && InGraph(f, e) && HbSilent(r, long, e) ==> CycleOf(r, e.0) < CycleOf(r, e.1))
    && (forall e :: e in f.leavingConcur && InGraph(f, e) && ConcurSilent(r, e) ==> CycleOf(r, e.0) == CycleOf(r, e.1))
  }

  /** Where it says something, the assertion gives the order. */
  lemma {:induction false} HbSpeaks(r: Run, f: Facts, long: set<Loc>, e: Edge)
    requires Visits(r, f) && InGraph(f, e) && !Entries(e) && !HbSilent(r, long, e)
    requires (e.1.loc in long ==> StaysTwo(r.sig(e.1.loc))) ==> HbAssertion(r, e)
    ensures CycleOf(r, e.0) < CycleOf(r, e.1)
  {
    var x, y := e.0.loc, e.1.loc;
    EntryCycle(r, f, x);
    EntryCycle(r, f, y);
    StaysTwoIs(r.sig(y), r.last(y));
    LeavingEnterMeans(r.sig(x), r.last(x), r.sig(y), r.last(y));
    EnterLeavingMeans(r.sig(x), r.last(x), r.sig(y), r.last(y));
    LeavingLeavingMeans(r.sig(x), r.last(x), r.sig(y), r.last(y));
  }

  lemma {:induction false} ConcurSpeaks(r: Run, f: Facts, e: Edge)
    requires Visits(r, f) && InGraph(f, e) && ConcurAssertion(r, e) && !ConcurSilent(r, e)
    ensures CycleOf(r, e.0) == CycleOf(r, e.1)
  {
    var x, y := e.0.loc, e.1.loc;
    EntryCycle(r, f, x);
    EntryCycle(r, f, y);
    LeavingEnterMeans(r.sig(x), r.last(x), r.sig(y), r.last(y));
    EnterLeavingMeans(r.sig(x), r.last(x), r.sig(y), r.last(y));
    LeavingLeavingMeans(r.sig(x), r.last(x), r.sig(y), r.last(y));
  }

  /** If the verdicts are right about a run, its final cycles are in the order that path
      construction takes for proven if and only if this is so of the pairs of which the
      assertions say nothing: those with a visit of one cycle, and those that put an entry
      into the final cycle of a location that is not occupied then, or is just entered. */
  lemma {:induction false} LeavingExact(r: Run, f: Facts, long: set<Loc>)
    requires Visits(r, f) && LeavingVerdicts(r, f, long)
    ensures LeavingHolds(r, f) <==> SilentOrdered(r, f, long)
  {
    if SilentOrdered(r, f, long) {
      forall e | e in f.leavingHb && InGraph(f, e) ensures CycleOf(r, e.0) < CycleOf(r, e.1) {
        if !HbSilent(r, long, e) {
          HbSpeaks(r, f, long, e);
        }
      }
      forall e | e in f.leavingConcur && InGraph(f, e) ensures CycleOf(r, e.0) == CycleOf(r, e.1) {
        if !ConcurSilent(r, e) {
          ConcurSpeaks(r, f, e);
        }
      }
    }
  }

  /** For the order of a final cycle and an entry, the pairs in question are those whose
      first location stays one cycle, and their order is that of the entries. */
  lemma {:induction false} LeaveThenEnterExact(r: Run, f: Facts, x: Loc, y: Loc)
    requires Visits(r, f) && x in f.aSet && y in f.aSet && AssertLeavingEnter(r.sig(x), r.sig(y))
    ensures CycleOf(r, Final(x)) < CycleOf(r, Enter(y)) <==>
            (OneCycle(r, x) ==> CycleOf(r, Enter(x)) < CycleOf(r, Enter(y)))
  {
    EntryCycle(r, f, x);
    EntryCycle(r, f, y);
    LeavingEnterMeans(r.sig(x), r.last(x), r.sig(y), r.last(y));
  }

  /** From right verdicts: the cycles of a run obey its candidate if and only if no pair of
      which the assertions say nothing is out of order. */
  lemma {:induction false} ProvenRunObeys(r: Run, f: Facts, long: set<Loc>, comb: seq<Choice>)
    requires Visits(r, f) && EntryFactsHold(r, f) && LeavingVerdicts(r, f, long) && ChosenAll(r, f, comb)
    ensures Obeys(Times(r), f, comb) <==> SilentOrdered(r, f, long)
  {
    LeavingExact(r, f, long);
    RunObeys(r, f, comb);
  }

  /** End to end from what was proven of the design: the combination of an execution of
      which the verdicts are right survives cycle test and solver if no pair of which the
      assertions say nothing is out of order. */
  lemma {:induction false} ProvenRunIsKept(r: Run, f: Facts, long: set<Loc>, comb: seq<Choice>,
                                           ns: seq<Node>, cs: seq<Constraint>)
    requires Visits(r, f) && EntryFactsHold(r, f) && LeavingVerdicts(r, f, long) && SilentOrdered(r, f, long)
    requires ChosenAll(r, f, comb) && Emitted(f, comb, Closure(ns, Saturated(f, comb)), cs)
    ensures !Cyclic(ns, Closure(ns, Saturated(f, comb))) && Sat(cs)
  {
    ProvenRunObeys(r, f, long, comb);
    ObeyedIsKept(Times(r), f, comb, ns, cs);
  }
}
