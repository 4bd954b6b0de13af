/** Classifies every non-empty subset of the locations, and shows that the generator
    and the classification of what it emits cover all that the filter lets through. */
module SubsetCount {
  import opened Bits
  import opened Collections
  import opened SubsetGen
  import opened Powersets

  // ---- classification ----

  datatype Class = PrunedProven | PrunedUndet | UndetSet | UnreachableSet | CoveredSet | Missing

  /** The relations, and the verdicts on the sets that were checked. */
  datatype Checked = Checked(
    r: Relations, covered: seq<seq<Loc>>, unreachable: seq<seq<Loc>>, undetermined: seq<seq<Loc>>)

  predicate HasAll(always: seq<Loc>, c: seq<Loc>) {
    forall x | x in always :: x in c
  }

  predicate HasPair(excl: seq<Pair>, c: seq<Loc>) {
    exists p | p in excl :: p.0 in c && p.1 in c
  }

  predicate Breaks(impl: seq<Pair>, c: seq<Loc>) {
    exists p | p in impl :: p.1 in c && p.0 !in c
  }

  predicate Survives(r: Relations, c: seq<Loc>) {
    && HasAll(r.always, c) && !HasPair(r.excl, c) && !Breaks(r.impl, c)
    && !HasPair(r.exclUndet, c) && !Breaks(r.implUndet, c)
  }

  function ClassOf(k: Checked, c: seq<Loc>): Class {
    if !HasAll(k.r.always, c) || HasPair(k.r.excl, c) || Breaks(k.r.impl, c) then PrunedProven
    else if HasPair(k.r.exclUndet, c) || Breaks(k.r.implUndet, c) then PrunedUndet
    else if c in k.undetermined then UndetSet
    else if c in k.unreachable then UnreachableSet
    else if c in k.covered then CoveredSet
    else Missing
  }

  /** The members of one class, in order. */
  function OfClass(k: Checked, cs: seq<seq<Loc>>, cl: Class): seq<seq<Loc>> {
    if cs == [] then []
    else if ClassOf(k, cs[|cs| - 1]) == cl then OfClass(k, cs[..|cs| - 1], cl) + [cs[|cs| - 1]]
    else OfClass(k, cs[..|cs| - 1], cl)
  }

  lemma {:induction false} ClassesAddUp(k: Checked, cs: seq<seq<Loc>>)
    ensures |OfClass(k, cs, PrunedProven)| + |OfClass(k, cs, PrunedUndet)| + |OfClass(k, cs, UndetSet)|
            + |OfClass(k, cs, UnreachableSet)| + |OfClass(k, cs, CoveredSet)| + |OfClass(k, cs, Missing)| == |cs|
  {
    if cs != [] {
      ClassesAddUp(k, cs[..|cs| - 1]);
    }
  }

  // ---- the classes by the relations ----

  /** The set has all of `always`, no pair of `excl`, and all that `impl` demands. */
  ghost predicate Fits(always: seq<Loc>, excl: seq<Pair>, impl: seq<Pair>, c: seq<Loc>) {
    && (forall x :: x in always ==> x in c)
    && (forall p :: p in excl ==> p.0 !in c || p.1 !in c)
    && (forall p :: p in impl && p.1 in c ==> p.0 in c)
  }

  ghost predicate FitsProven(r: Relations, c: seq<Loc>) {
    Fits(r.always, r.excl, r.impl, c)
  }

  ghost predicate FitsUndet(r: Relations, c: seq<Loc>) {
    Fits([], r.exclUndet, r.implUndet, c)
  }

  ghost predicate FitsAll(r: Relations, c: seq<Loc>) {
    FitsProven(r, c) && FitsUndet(r, c)
  }

  lemma {:induction false} ClassMeans(k: Checked, c: seq<Loc>)
    ensures Survives(k.r, c) <==> FitsAll(k.r, c)
    ensures ClassOf(k, c) == PrunedProven <==> !FitsProven(k.r, c)
    ensures ClassOf(k, c) == PrunedUndet <==> FitsProven(k.r, c) && !FitsUndet(k.r, c)
    ensures ClassOf(k, c) == UndetSet <==> FitsAll(k.r, c) && c in k.undetermined
    ensures ClassOf(k, c) == UnreachableSet <==> FitsAll(k.r, c) && c !in k.undetermined && c in k.unreachable
    ensures ClassOf(k, c) == CoveredSet <==>
            FitsAll(k.r, c) && c !in k.undetermined && c !in k.unreachable && c in k.covered
    ensures ClassOf(k, c) == Missing <==>
            FitsAll(k.r, c) && c !in k.undetermined && c !in k.unreachable && c !in k.covered
  {
    assert HasAll(k.r.always, c) && !HasPair(k.r.excl, c) && !Breaks(k.r.impl, c) <==> FitsProven(k.r, c);
    assert !HasPair(k.r.exclUndet, c) && !Breaks(k.r.implUndet, c) <==> FitsUndet(k.r, c);
  }

  lemma {:induction false} OfClassMember(k: Checked, cs: seq<seq<Loc>>, cl: Class, c: seq<Loc>)
    ensures c in OfClass(k, cs, cl) <==> c in cs && ClassOf(k, c) == cl
  {
    if cs != [] {
      OfClassMember(k, cs[..|cs| - 1], cl, c);
      assert cs == cs[..|cs| - 1] + [cs[|cs| - 1]];
    }
  }

  lemma {:induction false} OfClassOnce(k: Checked, cs: seq<seq<Loc>>, cl: Class)
    requires NoRepeats(cs)
    ensures NoRepeats(OfClass(k, cs, cl))
  {
    if cs != [] {
      OfClassOnce(k, cs[..|cs| - 1], cl);
      OfClassMember(k, cs[..|cs| - 1], cl, cs[|cs| - 1]);
    }
  }

  /** A class of all candidates is as large as the set of its members. */
  lemma {:induction false} ClassSize(k: Checked, s: seq<Loc>, cl: Class, members: set<seq<Loc>>)
    requires NoRepeats(s) && forall c :: c in members <==> c in AllSets(s) && ClassOf(k, c) == cl
    ensures |OfClass(k, Powerset(s, |s|), cl)| == |members|
  {
    var all := Powerset(s, |s|);
    PowersetOnce(s, |s|, all);
    OfClassOnce(k, all, cl);
    ElemsSize(OfClass(k, all, cl));
    forall c ensures c in OfClass(k, all, cl) <==> c in members {
      OfClassMember(k, all, cl, c);
      CandidatesExact(s, c);
    }
    assert Elems(OfClass(k, all, cl)) == members;
  }

  /** Every surviving candidate was emitted. */
  lemma {:induction false} SurvivorEmitted(r: Relations, c: seq<Loc>)
    requires r.WellFormed() && Subset(r.elems, c) && Survives(r, c)
    ensures c in Emitted(r, 0, [])
  {
    EmittedExact(r, c);
  }

  /** An emitted set is pruned by the filter if and only if something that is always
      reached is no candidate, a location excludes itself, or an undetermined
      implication whose conclusion comes first is broken. */
  lemma {:induction false} EmittedSurvives(r: Relations, c: seq<Loc>)
    requires r.WellFormed() && c in Emitted(r, 0, [])
    ensures Survives(r, c) <==>
      && (forall x :: x in r.always ==> x in r.elems)
      && (forall p :: (p in r.excl || p in r.exclUndet) && p.0 == p.1 ==> p.0 !in c)
      && (forall p :: p in r.implUndet && !Follows(r.elems, p.0, p.1) && p.1 in c ==> p.0 in c)
  {
    EmittedExact(r, c);
    forall x ensures x in c ==> x in r.elems {
      FilterMember(r.elems, Elems(c), x);
    }
  }

  /** Relations under which the generator enforces all that the filter tests: what is always
      reached is coverable, no coverable location excludes itself, and the conclusion of an
      undetermined implication comes after its premise. */
  ghost predicate Aligned(r: Relations) {
    && (forall x :: x in r.always ==> x in r.elems)
    && (forall p :: (p in r.excl || p in r.exclUndet) && p.0 in r.elems ==> p.0 != p.1)
    && (forall p :: p in r.implUndet && p.1 in r.elems ==> Follows(r.elems, p.0, p.1))
  }

  /** Of such relations the pruned generator emits exactly what the brute-force filter of
      the powerset leaves. */
  lemma {:induction false} GeneratorIsFilter(r: Relations, c: seq<Loc>)
    requires r.WellFormed() && Aligned(r)
    ensures c != [] && c in Emitted(r, 0, []) <==> c in Survivors(r, Powerset(r.elems, |r.elems|))
  {
    EmittedExact(r, c);
    CandidatesExact(r.elems, c);
    SurvivorsMember(r, Powerset(r.elems, |r.elems|), c);
    forall x ensures x in Filter(r.elems, Elems(c)) ==> x in r.elems {
      FilterMember(r.elems, Elems(c), x);
    }
    if c in Emitted(r, 0, []) {
      EmittedSurvives(r, c);
    }
    if Subset(r.elems, c) && Survives(r, c) {
      SurvivorEmitted(r, c);
    }
  }

  /** For one: with v after u and the undetermined implication (u, v), the set of v
      alone is emitted and pruned. */
  lemma {:induction false} EmittedAndPruned(u: Loc, v: Loc)
    requires u != v
    ensures
      var r := Relations([u, v], [], [], [], [], [(u, v)]);
      r.WellFormed() && [v] in Emitted(r, 0, []) && !Survives(r, [v])
  {
    var r, p := Relations([u, v], [], [], [], [], [(u, v)]), (u, v);
    assert [u, v][..1] == [u] && [u][..0] == [];
    assert Filter([u], {v}) == [];
    assert Elems([v]) == {v} && Filter([u, v], {v}) == [] + [v];
    EmittedExact(r, [v]);
    assert p in r.implUndet;
  }

  // ---- the code ----

  datatype Verdict = Covered | Unreachable | Undetermined

  function NonEmpty(cs: seq<seq<Loc>>): seq<seq<Loc>> {
    if cs == [] then []
    else if cs[|cs| - 1] != [] then NonEmpty(cs[..|cs| - 1]) + [cs[|cs| - 1]]
    else NonEmpty(cs[..|cs| - 1])
  }

  lemma {:induction false} NonEmptyMember(cs: seq<seq<Loc>>, c: seq<Loc>)
    ensures c in NonEmpty(cs) <==> c != [] && c in cs
  {
    if cs != [] {
      NonEmptyMember(cs[..|cs| - 1], c);
      assert cs == cs[..|cs| - 1] + [cs[|cs| - 1]];
    }
  }

  lemma {:induction false} NonEmptyInOrder(s: seq<Loc>, cs: seq<seq<Loc>>)
    requires forall i, j :: 0 <= i < j < |cs| ==> Precedes(s, cs[i], cs[j])
    ensures forall i, j :: 0 <= i < j < |NonEmpty(cs)| ==> Precedes(s, NonEmpty(cs)[i], NonEmpty(cs)[j])
  {
    if cs != [] {
      var k := |cs| - 1;
      var rest := NonEmpty(cs[..k]);
      NonEmptyInOrder(s, cs[..k]);
      forall i | 0 <= i < |rest| ensures Precedes(s, rest[i], cs[k]) {
        NonEmptyMember(cs[..k], rest[i]);
        var m :| 0 <= m < k && cs[..k][m] == rest[i];
      }
    }
  }

  method DropEmpty(res: seq<seq<Loc>>) returns (potential: seq<seq<Loc>>)
    ensures potential == NonEmpty(res)
  {
    potential := [];
    for i := 0 to |res|
      invariant potential == NonEmpty(res[..i])
    {
      assert res[..i + 1][..i] == res[..i];
      if res[i] != [] {
        potential := potential + [res[i]];
      }
    }
    assert res[..|res|] == res;
  }

  /** The sets that are checked: the non-empty ones that the relations allow, each once, the
      one without the first location in which they differ before the other. */
  ghost predicate IsPotential(r: Relations, potential: seq<seq<Loc>>)
    requires r.WellFormed()
  {
    && (forall c :: c in potential <==> c != [] && Subset(r.elems, c) && Allowed(r, Elems(c)))
    && (forall i, j :: 0 <= i < j < |potential| ==> Precedes(r.elems, potential[i], potential[j]))
  }

  /** The non-empty sets that the generator emits. */
  method Gen(r: Relations) returns (potential: seq<seq<Loc>>)
    requires r.WellFormed()
    ensures IsPotential(r, potential)
  {
    var g := new GenComb(r);
    g.GetAllCombination(0);
    ghost var res := Emitted(r, 0, []);
    assert g.res == res;
    potential := DropEmpty(g.res);
    forall i, j | 0 <= i < j < |res| ensures Precedes(r.elems, res[i], res[j]) {
      EmittedInOrder(r, 0, [], i, j);
    }
    NonEmptyInOrder(r.elems, res);
    forall c ensures c in potential <==> c != [] && Subset(r.elems, c) && Allowed(r, Elems(c)) {
      NonEmptyMember(res, c);
      EmittedExact(r, c);
    }
  }

  /** The set is one of the first `n`, with that verdict. */
  ghost predicate Judged(potential: seq<seq<Loc>>, result: nat -> Verdict, n: nat, v: Verdict, c: seq<Loc>)
    requires n <= |potential|
  {
    exists i :: 0 <= i < n && potential[i] == c && result(i) == v
  }

  /** Sorts the sets by the verdicts on their cover properties. */
  method Postprocess(potential: seq<seq<Loc>>, result: nat -> Verdict)
      returns (possible: seq<seq<Loc>>, unreachable: seq<seq<Loc>>, undetermined: seq<seq<Loc>>)
    ensures forall c :: c in possible <==> Judged(potential, result, |potential|, Covered, c)
    ensures forall c :: c in unreachable <==> Judged(potential, result, |potential|, Unreachable, c)
    ensures forall c :: c in undetermined <==> Judged(potential, result, |potential|, Undetermined, c)
    ensures |possible| + |unreachable| + |undetermined| == |potential|
  {
    possible, unreachable, undetermined := [], [], [];
    for idx := 0 to |potential|
      invariant forall c :: c in possible <==> Judged(potential, result, idx, Covered, c)
      invariant forall c :: c in unreachable <==> Judged(potential, result, idx, Unreachable, c)
      invariant forall c :: c in undetermined <==> Judged(potential, result, idx, Undetermined, c)
      invariant |possible| + |unreachable| + |undetermined| == idx
    {
      match result(idx)
      case Covered => possible := possible + [potential[idx]];
      case Unreachable => unreachable := unreachable + [potential[idx]];
      case Undetermined => undetermined := undetermined + [potential[idx]];
    }
  }

  method PrunedByProven(r: Relations, c: seq<Loc>) returns (pruned: bool)
    ensures pruned <==> !HasAll(r.always, c) || HasPair(r.excl, c) || Breaks(r.impl, c)
  {
    pruned := false;
    for i := 0 to |r.always|
      invariant !pruned && forall j :: 0 <= j < i ==> r.always[j] in c
    {
      if r.always[i] !in c {
        return true;
      }
    }
    pruned := FindPair(r.excl, c);
    if !pruned {
      pruned := FindBroken(r.impl, c);
    }
  }

  method PrunedByUndet(r: Relations, c: seq<Loc>) returns (pruned: bool)
    ensures pruned <==> HasPair(r.exclUndet, c) || Breaks(r.implUndet, c)
  {
    pruned := FindPair(r.exclUndet, c);
    if !pruned {
      pruned := FindBroken(r.implUndet, c);
    }
  }

  method FindPair(excl: seq<Pair>, c: seq<Loc>) returns (found: bool)
    ensures found <==> HasPair(excl, c)
  {
    found := false;
    for i := 0 to |excl|
      invariant !found && forall j :: 0 <= j < i ==> !(excl[j].0 in c && excl[j].1 in c)
    {
      if excl[i].0 in c && excl[i].1 in c {
        return true;
      }
    }
  }

  method FindBroken(impl: seq<Pair>, c: seq<Loc>) returns (found: bool)
    ensures found <==> Breaks(impl, c)
  {
    found := false;
    for i := 0 to |impl|
      invariant !found && forall j :: 0 <= j < i ==> !(impl[j].1 in c && impl[j].0 !in c)
    {
      if impl[i].1 in c && impl[i].0 !in c {
        return true;
      }
    }
  }

  /** What neither filter prunes, in order. */
  function Survivors(r: Relations, cs: seq<seq<Loc>>): seq<seq<Loc>> {
    if cs == [] then []
    else if Survives(r, cs[|cs| - 1]) then Survivors(r, cs[..|cs| - 1]) + [cs[|cs| - 1]]
    else Survivors(r, cs[..|cs| - 1])
  }

  lemma {:induction false} SurvivorsMember(r: Relations, cs: seq<seq<Loc>>, c: seq<Loc>)
    ensures c in Survivors(r, cs) <==> c in cs && Survives(r, c)
  {
    if cs != [] {
      SurvivorsMember(r, cs[..|cs| - 1], c);
      assert cs == cs[..|cs| - 1] + [cs[|cs| - 1]];
    }
  }

  lemma {:induction false} SurvivorClasses(k: Checked, cs: seq<seq<Loc>>, cl: Class)
    requires !cl.PrunedProven? && !cl.PrunedUndet?
    ensures OfClass(k, Survivors(k.r, cs), cl) == OfClass(k, cs, cl)
  {
    if cs != [] {
      var rest, last := Survivors(k.r, cs[..|cs| - 1]), cs[|cs| - 1];
      SurvivorClasses(k, cs[..|cs| - 1], cl);
      assert (rest + [last])[..|rest|] == rest;
    }
  }

  method Prune(r: Relations, cs: seq<seq<Loc>>, ghost k: Checked)
      returns (proven: seq<seq<Loc>>, undet: seq<seq<Loc>>, potential: seq<seq<Loc>>)
    requires k.r == r
    ensures proven == OfClass(k, cs, PrunedProven) && undet == OfClass(k, cs, PrunedUndet)
    ensures potential == Survivors(r, cs)
  {
    proven, undet, potential := [], [], [];
    for i := 0 to |cs|
      invariant proven == OfClass(k, cs[..i], PrunedProven) && undet == OfClass(k, cs[..i], PrunedUndet)
      invariant potential == Survivors(r, cs[..i])
    {
      assert cs[..i + 1][..i] == cs[..i];
      var byProven := PrunedByProven(r, cs[i]);
      if byProven {
        proven := proven + [cs[i]];
      } else {
        var byUndet := PrunedByUndet(r, cs[i]);
        if byUndet {
          undet := undet + [cs[i]];
        } else {
          potential := potential + [cs[i]];
        }
      }
    }
    assert cs[..|cs|] == cs;
  }

  /** Sorts the surviving candidates by the verdicts; `ok` is false where the code
      runs into its final assertion. */
  method SortSurvivors(k: Checked, cs: seq<seq<Loc>>)
      returns (ok: bool, undet: seq<seq<Loc>>, unreachable: seq<seq<Loc>>, covered: seq<seq<Loc>>)
    requires forall c :: c in cs ==> Survives(k.r, c)
    ensures ok <==> forall c :: c in cs ==> ClassOf(k, c) != Missing
    ensures ok ==> undet == OfClass(k, cs, UndetSet) && unreachable == OfClass(k, cs, UnreachableSet)
    ensures ok ==> covered == OfClass(k, cs, CoveredSet) && OfClass(k, cs, Missing) == []
  {
    ok, undet, unreachable, covered := true, [], [], [];
    for i := 0 to |cs|
      invariant ok && forall c :: c in cs[..i] ==> ClassOf(k, c) != Missing
      invariant undet == OfClass(k, cs[..i], UndetSet) && unreachable == OfClass(k, cs[..i], UnreachableSet)
      invariant covered == OfClass(k, cs[..i], CoveredSet) && OfClass(k, cs[..i], Missing) == []
    {
      assert cs[..i + 1][..i] == cs[..i] && cs[..i + 1] == cs[..i] + [cs[i]];
      assert cs[i] in cs && Survives(k.r, cs[i]);
      if cs[i] in k.undetermined {
        undet := undet + [cs[i]];
      } else if cs[i] in k.unreachable {
        unreachable := unreachable + [cs[i]];
      } else if cs[i] in k.covered {
        covered := covered + [cs[i]];
      } else {
        assert ClassOf(k, cs[i]) == Missing;
        ok := false;
        return;
      }
    }
    assert cs[..|cs|] == cs;
  }

  datatype Counts = Counts(total: nat, proven: nat, undet: nat, undetSets: nat, unreachable: nat, covered: nat)

  /** Each count is the size of a set of candidates: those that a proven relation prunes,
      those that only an undetermined one prunes, and those that fit all relations by the
      list they are in. */
  ghost predicate PrunedCounted(k: Checked, n: Counts)
    requires NoRepeats(k.r.elems)
  {
    var all := AllSets(k.r.elems);
    && n.proven == |set c | c in all && !FitsProven(k.r, c)|
    && n.undet == |set c | c in all && FitsProven(k.r, c) && !FitsUndet(k.r, c)|
  }

  ghost predicate ListsCounted(k: Checked, n: Counts)
    requires NoRepeats(k.r.elems)
  {
    var all := AllSets(k.r.elems);
    && n.undetSets == |set c | c in all && FitsAll(k.r, c) && c in k.undetermined|
    && n.unreachable == |set c | c in all && FitsAll(k.r, c) && c in k.unreachable && c !in k.undetermined|
    && n.covered ==
       |set c | c in all && FitsAll(k.r, c) && c in k.covered && c !in k.undetermined && c !in k.unreachable|
  }

  lemma {:induction false} PrunedSizes(k: Checked, n: Counts)
    requires NoRepeats(k.r.elems)
    requires var all := Powerset(k.r.elems, |k.r.elems|);
      n.proven == |OfClass(k, all, PrunedProven)| && n.undet == |OfClass(k, all, PrunedUndet)|
    ensures PrunedCounted(k, n)
  {
    var s, all := k.r.elems, AllSets(k.r.elems);
    forall c ensures ClassOf(k, c) == PrunedProven <==> !FitsProven(k.r, c)
             ensures ClassOf(k, c) == PrunedUndet <==> FitsProven(k.r, c) && !FitsUndet(k.r, c)
    {
      ClassMeans(k, c);
    }
    ClassSize(k, s, PrunedProven, set c | c in all && !FitsProven(k.r, c));
    ClassSize(k, s, PrunedUndet, set c | c in all && FitsProven(k.r, c) && !FitsUndet(k.r, c));
  }

  lemma {:induction false} ListSizes(k: Checked, n: Counts)
    requires NoRepeats(k.r.elems)
    requires var all := Powerset(k.r.elems, |k.r.elems|);
      && n.undetSets == |OfClass(k, all, UndetSet)| && n.unreachable == |OfClass(k, all, UnreachableSet)|
      && n.covered == |OfClass(k, all, CoveredSet)|
    ensures ListsCounted(k, n)
  {
    var s, all := k.r.elems, AllSets(k.r.elems);
    forall c
      ensures ClassOf(k, c) == UndetSet <==> FitsAll(k.r, c) && c in k.undetermined
      ensures ClassOf(k, c) == UnreachableSet <==> FitsAll(k.r, c) && c in k.unreachable && c !in k.undetermined
      ensures ClassOf(k, c) == CoveredSet <==>
              FitsAll(k.r, c) && c in k.covered && c !in k.undetermined && c !in k.unreachable
    {
      ClassMeans(k, c);
    }
    ClassSize(k, s, UndetSet, set c | c in all && FitsAll(k.r, c) && c in k.undetermined);
    ClassSize(k, s, UnreachableSet,
              set c | c in all && FitsAll(k.r, c) && c in k.unreachable && c !in k.undetermined);
    ClassSize(k, s, CoveredSet,
              set c | c in all && FitsAll(k.r, c) && c in k.covered && c !in k.undetermined && c !in k.unreachable);
  }

  /** Counts the classes of all non-empty subsets: the final assertion is met if and
      only if every survivor was checked, and then the five classes add up. */
  method CountSets(k: Checked) returns (ok: bool, n: Counts)
    requires NoRepeats(k.r.elems)
    ensures ok <==> forall c :: c in AllSets(k.r.elems) && FitsAll(k.r, c) ==>
                      c in k.undetermined || c in k.unreachable || c in k.covered
    ensures n.total == Pow2(|k.r.elems|) - 1
    ensures ok ==> n.proven + n.undet + n.undetSets + n.unreachable + n.covered == n.total
    ensures PrunedCounted(k, n) && (ok ==> ListsCounted(k, n))
  {
    var all := Powerset(k.r.elems, |k.r.elems|);
    CandidateCount(k.r.elems);
    var proven, undet, potential := Prune(k.r, all, k);
    forall c
      ensures c in potential <==> c in AllSets(k.r.elems) && FitsAll(k.r, c)
      ensures c in potential && ClassOf(k, c) == Missing <==>
              c in potential && c !in k.undetermined && c !in k.unreachable && c !in k.covered
    {
      SurvivorsMember(k.r, all, c);
      CandidatesExact(k.r.elems, c);
      ClassMeans(k, c);
    }
    var undetSets, unreachable, covered;
    ok, undetSets, unreachable, covered := SortSurvivors(k, potential);
    n := Counts(|all|, |proven|, |undet|, |undetSets|, |unreachable|, |covered|);
    PrunedSizes(k, n);
    if ok {
      SumsUp(k, all, potential);
      ListSizes(k, n);
    }
  }

  lemma {:induction false} SumsUp(k: Checked, all: seq<seq<Loc>>, potential: seq<seq<Loc>>)
    requires potential == Survivors(k.r, all) && OfClass(k, potential, Missing) == []
    ensures OfClass(k, potential, UndetSet) == OfClass(k, all, UndetSet)
    ensures OfClass(k, potential, UnreachableSet) == OfClass(k, all, UnreachableSet)
    ensures OfClass(k, potential, CoveredSet) == OfClass(k, all, CoveredSet)
    ensures |OfClass(k, all, PrunedProven)| + |OfClass(k, all, PrunedUndet)| + |OfClass(k, all, UndetSet)|
            + |OfClass(k, all, UnreachableSet)| + |OfClass(k, all, CoveredSet)| == |all|
  {
    ClassesAddUp(k, all);
    SurvivorClasses(k, all, UndetSet);
    SurvivorClasses(k, all, UnreachableSet);
    SurvivorClasses(k, all, CoveredSet);
    SurvivorClasses(k, all, Missing);
  }

  /** The surviving candidates are counted by the one verdict on each. */
  ghost predicate VerdictsCounted(r: Relations, potential: seq<seq<Loc>>, result: nat -> Verdict, n: Counts)
    requires r.WellFormed()
  {
    var all, m := AllSets(r.elems), |potential|;
    && n.undetSets == |set c | c in all && FitsAll(r, c) && Judged(potential, result, m, Undetermined, c)|
    && n.unreachable == |set c | c in all && FitsAll(r, c) && Judged(potential, result, m, Unreachable, c)|
    && n.covered == |set c | c in all && FitsAll(r, c) && Judged(potential, result, m, Covered, c)|
  }

  lemma {:induction false} OneVerdict(potential: seq<seq<Loc>>, result: nat -> Verdict, v: Verdict, w: Verdict,
                                      c: seq<Loc>)
    requires NoRepeats(potential)
    requires Judged(potential, result, |potential|, v, c) && Judged(potential, result, |potential|, w, c)
    ensures v == w
  {
    var i :| 0 <= i < |potential| && potential[i] == c && result(i) == v;
    var j :| 0 <= j < |potential| && potential[j] == c && result(j) == w;
    assert i == j;
  }

  lemma {:induction false} ListsApart(k: Checked, potential: seq<seq<Loc>>, result: nat -> Verdict, c: seq<Loc>)
    requires NoRepeats(potential)
    requires c in k.covered <==> Judged(potential, result, |potential|, Covered, c)
    requires c in k.unreachable <==> Judged(potential, result, |potential|, Unreachable, c)
    requires c in k.undetermined <==> Judged(potential, result, |potential|, Undetermined, c)
    ensures !(c in k.unreachable && c in k.undetermined) && !(c in k.covered && c in k.undetermined)
    ensures !(c in k.covered && c in k.unreachable)
  {
    if c in k.unreachable && c in k.undetermined {
      OneVerdict(potential, result, Unreachable, Undetermined, c);
    }
    if c in k.covered && c in k.undetermined {
      OneVerdict(potential, result, Covered, Undetermined, c);
    }
    if c in k.covered && c in k.unreachable {
      OneVerdict(potential, result, Covered, Unreachable, c);
    }
  }

  lemma {:induction false} CountedByVerdict(k: Checked, potential: seq<seq<Loc>>, result: nat -> Verdict, n: Counts)
    requires k.r.WellFormed() && NoRepeats(potential) && ListsCounted(k, n)
    requires forall c :: c in k.covered <==> Judged(potential, result, |potential|, Covered, c)
    requires forall c :: c in k.unreachable <==> Judged(potential, result, |potential|, Unreachable, c)
    requires forall c :: c in k.undetermined <==> Judged(potential, result, |potential|, Undetermined, c)
    ensures VerdictsCounted(k.r, potential, result, n)
  {
    var r, all, m := k.r, AllSets(k.r.elems), |potential|;
    forall c
      ensures !(c in k.unreachable && c in k.undetermined) && !(c in k.covered && c in k.undetermined)
      ensures !(c in k.covered && c in k.unreachable)
    {
      ListsApart(k, potential, result, c);
    }
    assert (set c | c in all && FitsAll(r, c) && c in k.undetermined)
        == set c | c in all && FitsAll(r, c) && Judged(potential, result, m, Undetermined, c);
    assert (set c | c in all && FitsAll(r, c) && c in k.unreachable && c !in k.undetermined)
        == set c | c in all && FitsAll(r, c) && Judged(potential, result, m, Unreachable, c);
    assert (set c | c in all && FitsAll(r, c) && c in k.covered && c !in k.undetermined && c !in k.unreachable)
        == set c | c in all && FitsAll(r, c) && Judged(potential, result, m, Covered, c);
  }

  /** Generator, verdicts and count in a row: the final assertion is never reached,
      whatever the verdicts. */
  method Pipeline(r: Relations, result: nat -> Verdict) returns (ok: bool, n: Counts, potential: seq<seq<Loc>>)
    requires r.WellFormed()
    ensures ok && n.total == Pow2(|r.elems|) - 1
    ensures n.proven + n.undet + n.undetSets + n.unreachable + n.covered == n.total
    ensures IsPotential(r, potential) && VerdictsCounted(r, potential, result, n)
    ensures var all := AllSets(r.elems);
      && n.proven == |set c | c in all && !FitsProven(r, c)|
      && n.undet == |set c | c in all && FitsProven(r, c) && !FitsUndet(r, c)|
  {
    potential := Gen(r);
    var possible, unreachable, undetermined := Postprocess(potential, result);
    var k := Checked(r, possible, unreachable, undetermined);
    forall c | c in AllSets(r.elems) && FitsAll(r, c) ensures c in undetermined || c in unreachable || c in possible {
      ClassMeans(k, c);
      SurvivorEmitted(r, c);
      EmittedExact(r, c);
      var i :| 0 <= i < |potential| && potential[i] == c;
      assert result(i).Covered? || result(i).Unreachable? || result(i).Undetermined?;
    }
    ok, n := CountSets(k);
    PotentialOnce(r, potential);
    CountedByVerdict(k, potential, result, n);
  }

  lemma {:induction false} PotentialOnce(r: Relations, potential: seq<seq<Loc>>)
    requires r.WellFormed() && IsPotential(r, potential)
    ensures NoRepeats(potential)
  {
    forall i, j | 0 <= i < j < |potential| ensures potential[i] != potential[j] {
      assert Precedes(r.elems, potential[i], potential[j]);
    }
  }
}
