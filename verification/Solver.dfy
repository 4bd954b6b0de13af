/** Integer timing constraints, satisfiability, and the enumeration of all products
    of choices by a pruned depth-first search. */
module Solver {
  import opened Graph
  import opened Traces

  datatype Constraint =
    | Lt(a: Node, b: Node)
    | Le(a: Node, b: Node)
    | Eq(a: Node, b: Node)
    | Ne(a: Node, b: Node)
    | Ge(a: Node, b: Node)
    | Gap(a: Node, b: Node, cycles: int)       // b is exactly `cycles` after a
    | Stays(a: Node, b: Node, limit: nat)      // b is less than `limit` cycles after a, and not before

  ghost predicate Holds(t: Timing, c: Constraint) {
    match c
    case Lt(a, b) => t(a) < t(b)
    case Le(a, b) => t(a) <= t(b)
    case Eq(a, b) => t(a) == t(b)
    case Ne(a, b) => t(a) != t(b)
    case Ge(a, b) => t(a) >= t(b)
    case Gap(a, b, n) => t(a) + n == t(b)
    case Stays(a, b, n) => t(a) <= t(b) < t(a) + n
  }

  ghost predicate Models(t: Timing, cs: seq<Constraint>) {
    forall c :: c in cs ==> Holds(t, c)
  }

  ghost predicate Sat(cs: seq<Constraint>) {
    exists t: Timing :: Models(t, cs)
  }

  ghost predicate Entails(cs: seq<Constraint>, c: Constraint) {
    forall t: Timing :: Models(t, cs) ==> Holds(t, c)
  }

  // ---- choices ----

  /** A pair of events with the order chosen for it. */
  type Choice = (Edge, Order)

  function Meaning(c: Choice): Constraint {
    match c.1
    case Before => Lt(c.0.0, c.0.1)
    case After => Lt(c.0.1, c.0.0)
    case Together => Eq(c.0.0, c.0.1)
  }

  /** The two events are in the chosen order. */
  ghost predicate AsChosen(t: Timing, c: Choice) {
    match c.1
    case Before => t(c.0.0) < t(c.0.1)
    case After => t(c.0.0) > t(c.0.1)
    case Together => t(c.0.0) == t(c.0.1)
  }

  /** Some timing meets the constraints and has every pair in its chosen order. */
  ghost predicate Compatible(base: seq<Constraint>, comb: seq<Choice>) {
    exists t: Timing :: Models(t, base) && forall i :: 0 <= i < |comb| ==> AsChosen(t, comb[i])
  }

  function Meanings(cs: seq<Choice>): (r: seq<Constraint>)
    ensures |r| == |cs| && forall i :: 0 <= i < |cs| ==> r[i] == Meaning(cs[i])
  {
    seq(|cs|, i requires 0 <= i < |cs| => Meaning(cs[i]))
  }

  ghost predicate Feasible(base: seq<Constraint>, comb: seq<Choice>) {
    Sat(base + Meanings(comb))
  }

  lemma {:induction false} FeasibleMeans(base: seq<Constraint>, comb: seq<Choice>)
    ensures Feasible(base, comb) <==> Compatible(base, comb)
  {
    var ms := Meanings(comb);
    forall t: Timing, i | 0 <= i < |comb| ensures Holds(t, ms[i]) <==> AsChosen(t, comb[i]) {}
    if t: Timing :| Models(t, base + ms) {
      forall c | c in base ensures Holds(t, c) {
        assert c in base + ms;
      }
      forall i | 0 <= i < |comb| ensures AsChosen(t, comb[i]) {
        assert ms[i] in base + ms;
      }
      assert Models(t, base);
    }
    if t: Timing :| Models(t, base) && forall i :: 0 <= i < |comb| ==> AsChosen(t, comb[i]) {
      forall c | c in base + ms ensures Holds(t, c) {
        if c !in base {
          var i :| 0 <= i < |ms| && ms[i] == c;
        }
      }
      assert Models(t, base + ms);
    }
  }

  lemma {:induction false} FeasiblePrefix(base: seq<Constraint>, comb: seq<Choice>, longer: seq<Choice>)
    requires comb <= longer && Feasible(base, longer)
    ensures Feasible(base, comb)
  {
    var t: Timing :| Models(t, base + Meanings(longer));
    forall c | c in base + Meanings(comb) ensures Holds(t, c) {
      if c !in base {
        var i :| 0 <= i < |comb| && Meanings(comb)[i] == c;
        assert Meanings(longer)[i] == c;
      }
      assert c in base + Meanings(longer);
    }
    assert Models(t, base + Meanings(comb));
  }

  /** Every way to extend `acc` by one choice from each list, in lexicographic order. */
  function All(arr: seq<seq<Choice>>, acc: seq<Choice>): seq<seq<Choice>>
    decreases |arr|, 0, 0
  {
    if arr == [] then [acc] else AllFrom(arr, acc, 0)
  }

  function AllFrom(arr: seq<seq<Choice>>, acc: seq<Choice>, t: nat): seq<seq<Choice>>
    requires arr != [] && t <= |arr[0]|
    decreases |arr| - 1, 1, |arr[0]| - t
  {
    if t == |arr[0]| then []
    else All(arr[1..], acc + [arr[0][t]]) + AllFrom(arr, acc, t + 1)
  }

  /** What the search emits: an extension is entered only while it is feasible. */
  ghost function Search(base: seq<Constraint>, arr: seq<seq<Choice>>, acc: seq<Choice>): seq<seq<Choice>>
    decreases |arr|, 0, 0
  {
    if arr == [] then [acc] else SearchFrom(base, arr, acc, 0)
  }

  ghost function SearchFrom(base: seq<Constraint>, arr: seq<seq<Choice>>, acc: seq<Choice>, t: nat): seq<seq<Choice>>
    requires arr != [] && t <= |arr[0]|
    decreases |arr| - 1, 1, |arr[0]| - t
  {
    if t == |arr[0]| then []
    else
      var next := acc + [arr[0][t]];
      (if Feasible(base, next) then Search(base, arr[1..], next) else []) + SearchFrom(base, arr, acc, t + 1)
  }

  ghost function FeasibleOnly(base: seq<Constraint>, s: seq<seq<Choice>>): seq<seq<Choice>> {
    if s == [] then [] else (if Feasible(base, s[0]) then [s[0]] else []) + FeasibleOnly(base, s[1..])
  }

  lemma {:induction false} FeasibleOnlyAppend(base: seq<Constraint>, a: seq<seq<Choice>>, b: seq<seq<Choice>>)
    ensures FeasibleOnly(base, a + b) == FeasibleOnly(base, a) + FeasibleOnly(base, b)
  {
    if a == [] {
      assert a + b == b;
    } else {
      assert (a + b)[1..] == a[1..] + b;
      FeasibleOnlyAppend(base, a[1..], b);
    }
  }

  lemma {:induction false} FeasibleOnlyMember(base: seq<Constraint>, s: seq<seq<Choice>>, x: seq<Choice>)
    ensures x in FeasibleOnly(base, s) <==> x in s && Feasible(base, x)
  {
    if s != [] {
      FeasibleOnlyMember(base, s[1..], x);
      assert s == [s[0]] + s[1..];
    }
  }

  /** Nothing extends an infeasible prefix. */
  lemma {:induction false} DeadPrefix(base: seq<Constraint>, s: seq<seq<Choice>>, acc: seq<Choice>)
    requires !Feasible(base, acc) && forall x :: x in s ==> acc <= x
    ensures FeasibleOnly(base, s) == []
  {
    if s != [] {
      assert s[0] in s && acc <= s[0];
      assert forall x :: x in s[1..] ==> x in s;
      if Feasible(base, s[0]) {
        FeasiblePrefix(base, acc, s[0]);
      }
      DeadPrefix(base, s[1..], acc);
    }
  }

  /** The members of the product. */
  ghost predicate InProduct(arr: seq<seq<Choice>>, acc: seq<Choice>, x: seq<Choice>) {
    && |x| == |acc| + |arr| && acc <= x
    && forall i :: 0 <= i < |arr| ==> x[|acc| + i] in arr[i]
  }

  lemma {:induction false} AllMember(arr: seq<seq<Choice>>, acc: seq<Choice>, x: seq<Choice>)
    ensures x in All(arr, acc) <==> InProduct(arr, acc, x)
    decreases |arr|, 0, 0
  {
    if arr == [] {
      if InProduct(arr, acc, x) {
        assert x == acc;
      }
    } else {
      AllFromMember(arr, acc, 0, x);
      if InProduct(arr, acc, x) {
        assert x[|acc| + 0] in arr[0];
      }
    }
  }

  lemma {:induction false} AllFromMember(arr: seq<seq<Choice>>, acc: seq<Choice>, t: nat, x: seq<Choice>)
    requires arr != [] && t <= |arr[0]|
    ensures x in AllFrom(arr, acc, t) <==>
            InProduct(arr, acc, x) && exists q :: t <= q < |arr[0]| && x[|acc|] == arr[0][q]
    decreases |arr| - 1, 1, |arr[0]| - t
  {
    if t < |arr[0]| {
      var next := acc + [arr[0][t]];
      AllMember(arr[1..], next, x);
      AllFromMember(arr, acc, t + 1, x);
      ProductStep(arr, acc, t, x);
    }
  }

  lemma {:induction false} ProductStep(arr: seq<seq<Choice>>, acc: seq<Choice>, t: nat, x: seq<Choice>)
    requires arr != [] && t < |arr[0]|
    ensures InProduct(arr[1..], acc + [arr[0][t]], x) <==> InProduct(arr, acc, x) && x[|acc|] == arr[0][t]
  {
  }

  // ---- order and repetition ----

  /** `x` comes before `y`: at the first position where they may differ, `x` picks
      an earlier entry of the list. */
  ghost predicate LexLess(arr: seq<seq<Choice>>, n: nat, x: seq<Choice>, y: seq<Choice>) {
    exists k: nat, p: nat, q: nat :: LexAt(arr, n, x, y, k, p, q)
  }

  ghost predicate LexAt(arr: seq<seq<Choice>>, n: nat, x: seq<Choice>, y: seq<Choice>, k: nat, p: nat, q: nat) {
    && k < |arr| && n + k < |x| && n + k < |y| && x[..n + k] == y[..n + k]
    && p < q < |arr[k]| && x[n + k] == arr[k][p] && y[n + k] == arr[k][q]
  }

  ghost predicate LexSorted(arr: seq<seq<Choice>>, n: nat, s: seq<seq<Choice>>) {
    forall i, j :: 0 <= i < j < |s| ==> LexLess(arr, n, s[i], s[j])
  }

  lemma {:induction false} AllSorted(arr: seq<seq<Choice>>, acc: seq<Choice>)
    ensures LexSorted(arr, |acc|, All(arr, acc))
    decreases |arr|, 0, 0
  {
    if arr != [] {
      AllFromSorted(arr, acc, 0);
    }
  }

  lemma {:induction false} AllFromSorted(arr: seq<seq<Choice>>, acc: seq<Choice>, t: nat)
    requires arr != [] && t <= |arr[0]|
    ensures LexSorted(arr, |acc|, AllFrom(arr, acc, t))
    decreases |arr| - 1, 1, |arr[0]| - t
  {
    if t < |arr[0]| {
      var next := acc + [arr[0][t]];
      var a, b := All(arr[1..], next), AllFrom(arr, acc, t + 1);
      AllSorted(arr[1..], next);
      AllFromSorted(arr, acc, t + 1);
      forall i, j | 0 <= i < j < |a + b| ensures LexLess(arr, |acc|, (a + b)[i], (a + b)[j]) {
        if j < |a| {
          assert LexLess(arr[1..], |next|, a[i], a[j]);
          var k: nat, p: nat, q: nat :| LexAt(arr[1..], |next|, a[i], a[j], k, p, q);
          assert arr[1..][k] == arr[k + 1];
          assert LexAt(arr, |acc|, a[i], a[j], k + 1, p, q);
        } else if i >= |a| {
          assert LexLess(arr, |acc|, b[i - |a|], b[j - |a|]);
        } else {
          var x, y := a[i], b[j - |a|];
          AllMember(arr[1..], next, x);
          ProductStep(arr, acc, t, x);
          AllFromMember(arr, acc, t + 1, y);
          var q :| t + 1 <= q < |arr[0]| && y[|acc|] == arr[0][q];
          assert x[..|acc|] == acc == y[..|acc|];
          assert LexAt(arr, |acc|, x, y, 0, t, q);
        }
      }
    }
  }

  lemma {:induction false} FeasibleOnlySorted(base: seq<Constraint>, arr: seq<seq<Choice>>, s: seq<seq<Choice>>)
    requires LexSorted(arr, 0, s)
    ensures LexSorted(arr, 0, FeasibleOnly(base, s))
  {
    if s != [] {
      var rest := FeasibleOnly(base, s[1..]);
      FeasibleOnlySorted(base, arr, s[1..]);
      forall j | 0 <= j < |rest| ensures LexLess(arr, 0, s[0], rest[j]) {
        FeasibleOnlyMember(base, s[1..], rest[j]);
        var i :| 0 <= i < |s[1..]| && s[1..][i] == rest[j];
        assert LexLess(arr, 0, s[0], s[i + 1]);
      }
    }
  }

  /** The combinations come in lexicographic order; with distinct choices in each
      list none comes twice. */
  lemma {:induction false} SearchInOrder(base: seq<Constraint>, arr: seq<seq<Choice>>, i: nat, j: nat)
    requires i < j < |Search(base, arr, [])|
    ensures LexLess(arr, 0, Search(base, arr, [])[i], Search(base, arr, [])[j])
    ensures (forall k, p, q :: 0 <= k < |arr| && 0 <= p < q < |arr[k]| ==> arr[k][p] != arr[k][q]) ==>
              Search(base, arr, [])[i] != Search(base, arr, [])[j]
  {
    assert arr != [];
    SearchExact(base, arr, []);
    AllSorted(arr, []);
    FeasibleOnlySorted(base, arr, All(arr, []));
  }

  /** The search is exact: it emits the feasible members of the product, each once
      for each way to choose it, in lexicographic order. */
  lemma {:induction false} SearchExact(base: seq<Constraint>, arr: seq<seq<Choice>>, acc: seq<Choice>)
    requires Feasible(base, acc) || arr != []
    ensures Search(base, arr, acc) == FeasibleOnly(base, All(arr, acc))
    decreases |arr|, 0, 0
  {
    if arr == [] {
      assert [acc][1..] == [];
    } else {
      SearchFromExact(base, arr, acc, 0);
    }
  }

  lemma {:induction false} SearchFromExact(base: seq<Constraint>, arr: seq<seq<Choice>>, acc: seq<Choice>, t: nat)
    requires arr != [] && t <= |arr[0]|
    ensures SearchFrom(base, arr, acc, t) == FeasibleOnly(base, AllFrom(arr, acc, t))
    decreases |arr| - 1, 1, |arr[0]| - t
  {
    if t < |arr[0]| {
      var next := acc + [arr[0][t]];
      SearchFromExact(base, arr, acc, t + 1);
      FeasibleOnlyAppend(base, All(arr[1..], next), AllFrom(arr, acc, t + 1));
      if Feasible(base, next) {
        SearchExact(base, arr[1..], next);
      } else {
        forall x | x in All(arr[1..], next) ensures next <= x {
          AllMember(arr[1..], next, x);
        }
        DeadPrefix(base, All(arr[1..], next), next);
      }
    }
  }

  /** The emitted combinations are exactly the members of the product whose orders some
      model of the base has, if and only if the base is satisfiable or there is something
      to choose; else the empty combination comes out regardless. */
  lemma {:induction false} SearchMembers(base: seq<Constraint>, arr: seq<seq<Choice>>)
    ensures (forall x :: x in Search(base, arr, []) <==> InProduct(arr, [], x) && Compatible(base, x))
            <==> Sat(base) || arr != []
  {
    assert base + Meanings([]) == base;
    if Sat(base) || arr != [] {
      SearchExact(base, arr, []);
      forall x ensures x in Search(base, arr, []) <==> InProduct(arr, [], x) && Compatible(base, x) {
        FeasibleOnlyMember(base, All(arr, []), x);
        AllMember(arr, [], x);
        FeasibleMeans(base, x);
      }
    } else {
      FeasibleMeans(base, []);
      assert [] in Search(base, arr, []) && !Feasible(base, []);
    }
  }

  // ---- the code ----

  /** Adding the negation of `c` leaves no model exactly when `c` is entailed. */
  lemma {:induction false} UnsatMeansEntailed(cs: seq<Constraint>, c: Constraint, neg: Constraint)
    requires forall t: Timing :: Holds(t, neg) <==> !Holds(t, c)
    ensures !Sat(cs + [neg]) <==> Entails(cs, c)
  {
    if !Entails(cs, c) {
      var t: Timing :| Models(t, cs) && !Holds(t, c);
      assert Holds(t, neg);
      assert Models(t, cs + [neg]);
    }
    if Sat(cs + [neg]) {
      var t: Timing :| Models(t, cs + [neg]);
      assert neg in cs + [neg];
      assert forall d :: d in cs ==> d in cs + [neg];
      assert Models(t, cs) && !Holds(t, c);
    }
  }

  lemma {:induction false} SatWith(cs: seq<Constraint>, c: Constraint)
    ensures Sat(cs + [c]) <==> exists t: Timing :: Models(t, cs) && Holds(t, c)
  {
    if Sat(cs + [c]) {
      var t: Timing :| Models(t, cs + [c]);
      assert c in cs + [c] && forall d :: d in cs ==> d in cs + [c];
      assert Models(t, cs) && Holds(t, c);
    }
    if t: Timing :| Models(t, cs) && Holds(t, c) {
      assert Models(t, cs + [c]);
    }
  }

  class MySolver {
    /** The decision procedure: exact on these constraints. */
    const decide: seq<Constraint> -> bool
    /** The asserted constraints, and where each push left them. */
    var asserted: seq<Constraint>
    var marks: seq<nat>
    var arr: seq<seq<Choice>>
    var res: seq<seq<Choice>>
    var acc: seq<Choice>

    ghost predicate Valid()
      reads this
    {
      && (forall cs :: decide(cs) <==> Sat(cs))
      && (forall i :: 0 <= i < |marks| ==> marks[i] <= |asserted|)
      && forall i, j :: 0 <= i < j < |marks| ==> marks[i] <= marks[j]
    }

    constructor (decide: seq<Constraint> -> bool)
      requires forall cs :: decide(cs) <==> Sat(cs)
      ensures Valid() && asserted == [] && marks == [] && arr == [] && res == [] && acc == []
    {
      this.decide := decide;
      asserted, marks, arr, res, acc := [], [], [], [], [];
    }

    method Push()
      requires Valid()
      modifies this`marks
      ensures Valid() && marks == old(marks) + [|asserted|]
    {
      marks := marks + [|asserted|];
    }

    method Pop()
      requires Valid() && marks != []
      modifies this`marks, this`asserted
      ensures Valid() && marks == old(marks)[..|old(marks)| - 1]
      ensures asserted == old(asserted)[..old(marks)[|old(marks)| - 1]]
    {
      asserted := asserted[..marks[|marks| - 1]];
      marks := marks[..|marks| - 1];
    }

    method Add(c: Constraint)
      requires Valid()
      modifies this`asserted
      ensures Valid() && asserted == old(asserted) + [c]
    {
      asserted := asserted + [c];
    }

    /** Whether the constraints stay satisfiable with one more; leaves them as they were. */
    method Try(c: Constraint) returns (r: bool)
      requires Valid()
      modifies this`marks, this`asserted
      ensures Valid() && asserted == old(asserted) && marks == old(marks)
      ensures r <==> Sat(asserted + [c])
    {
      Push();
      Add(c);
      r := decide(asserted);
      Pop();
    }

    method CheckHbPossibility(e: Edge) returns (canHb: bool)
      requires Valid()
      modifies this`marks, this`asserted
      ensures Valid() && asserted == old(asserted) && marks == old(marks)
      ensures canHb <==> exists t: Timing :: Models(t, asserted) && t(e.0) < t(e.1)
    {
      canHb := Try(Lt(e.0, e.1));
      SatWith(asserted, Lt(e.0, e.1));
    }

    method CheckImpHb(e: Edge) returns (awsHb: bool)
      requires Valid()
      modifies this`marks, this`asserted
      ensures Valid() && asserted == old(asserted) && marks == old(marks)
      ensures awsHb <==> forall t: Timing :: Models(t, asserted) ==> t(e.0) < t(e.1)
    {
      var sat := Try(Ge(e.0, e.1));
      UnsatMeansEntailed(asserted, Lt(e.0, e.1), Ge(e.0, e.1));
      awsHb := !sat;
    }

    method CheckImpConcur(e: Edge) returns (mustConcur: bool)
      requires Valid()
      modifies this`marks, this`asserted
      ensures Valid() && asserted == old(asserted) && marks == old(marks)
      ensures mustConcur <==> forall t: Timing :: Models(t, asserted) ==> t(e.0) == t(e.1)
    {
      var sat := Try(Ne(e.0, e.1));
      UnsatMeansEntailed(asserted, Eq(e.0, e.1), Ne(e.0, e.1));
      mustConcur := !sat;
    }

    /** Appends to `res` what the search emits below the current prefix, and leaves
        the prefix and the assertions as they were. */
    method GetAllCombination(idx: nat, ghost base: seq<Constraint>)
      requires Valid() && idx <= |arr| && asserted == base + Meanings(acc)
      modifies this`marks, this`asserted, this`res, this`acc
      ensures Valid() && asserted == old(asserted) && marks == old(marks) && acc == old(acc)
      ensures res == old(res) + Search(base, arr[idx..], acc)
      decreases |arr| - idx
    {
      if idx == |arr| {
        res := res + [acc];
        return;
      }
      ghost var rest, acc0 := arr[idx..], acc;
      assert rest[0] == arr[idx] && rest[1..] == arr[idx + 1..];
      for t := 0 to |arr[idx]|
        invariant Valid() && asserted == old(asserted) && marks == old(marks) && acc == acc0
        invariant res + SearchFrom(base, rest, acc0, t) == old(res) + SearchFrom(base, rest, acc0, 0)
      {
        ghost var before := res;
        Descend(idx, arr[idx][t], base);
        assert before + (Below(base, rest[1..], acc0 + [rest[0][t]]) + SearchFrom(base, rest, acc0, t + 1))
            == (before + Below(base, rest[1..], acc0 + [rest[0][t]])) + SearchFrom(base, rest, acc0, t + 1);
      }
    }

    /** Tries one choice: extends the prefix, searches below it if that is feasible,
        and takes the choice back. */
    method Descend(idx: nat, c: Choice, ghost base: seq<Constraint>)
      requires Valid() && idx < |arr| && asserted == base + Meanings(acc)
      modifies this`marks, this`asserted, this`res, this`acc
      ensures Valid() && asserted == old(asserted) && marks == old(marks) && acc == old(acc)
      ensures res == old(res) + Below(base, arr[idx + 1..], acc + [c])
      decreases |arr| - idx, 0
    {
      acc := acc + [c];
      Push();
      Add(Meaning(c));
      assert asserted == base + Meanings(acc);
      var r := decide(asserted);
      if r {
        GetAllCombination(idx + 1, base);
      }
      acc := acc[..|acc| - 1];
      Pop();
    }

    /** All combinations of choices that some model of the constraints has in order, in
        `res`, in lexicographic order. */
    method Gen(arr: seq<seq<Choice>>)
      requires Valid()
      modifies this
      ensures Valid() && asserted == old(asserted) && marks == old(marks)
      ensures Sat(asserted) || arr != [] ==>
                forall x :: x in res <==> InProduct(arr, [], x) && Compatible(asserted, x)
      ensures !Sat(asserted) && arr == [] ==> res == [[]]
      ensures LexSorted(arr, 0, res)
    {
      this.arr, res, acc := arr, [], [];
      assert asserted + Meanings([]) == asserted && arr[0..] == arr;
      GetAllCombination(0, asserted);
      SearchMembers(asserted, arr);
      forall i, j | 0 <= i < j < |res| ensures LexLess(arr, 0, res[i], res[j]) {
        SearchInOrder(asserted, arr, i, j);
      }
    }
  }

  ghost function Below(base: seq<Constraint>, rest: seq<seq<Choice>>, next: seq<Choice>): seq<seq<Choice>> {
    if Feasible(base, next) then Search(base, rest, next) else []
  }
}
