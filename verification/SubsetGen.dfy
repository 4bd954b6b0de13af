/** Candidate sets of locations: a pruned backtracking generator and what it emits. */
module SubsetGen {
  import Graph
  import opened Collections

  type Loc = Graph.Loc
  type Pair = (Loc, Loc)

  /** The coverable locations in order, and what is known of pairs of them. An
      implication (u, v) says that v implies u. */
  datatype Relations = Relations(
    elems: seq<Loc>,
    always: seq<Loc>,
    excl: seq<Pair>, exclUndet: seq<Pair>,
    impl: seq<Pair>, implUndet: seq<Pair>)
  {
    /** What a coverable location implies has an index. */
    ghost predicate Indexed() {
      forall p :: p in impl && p.1 in elems ==> p.0 in elems
    }

    /** Moreover locations are distinct. */
    ghost predicate WellFormed() {
      NoRepeats(elems) && Indexed()
    }
  }

  // ---- the checks of one step ----

  /** A pair joins `x` with a chosen location. */
  predicate Clashes(pairs: seq<Pair>, acc: seq<Loc>, x: Loc) {
    exists p | p in pairs :: (p.0 in acc && p.1 == x) || (p.1 in acc && p.0 == x)
  }

  /** A chosen location implies `x`. */
  predicate Needed(pairs: seq<Pair>, acc: seq<Loc>, x: Loc) {
    exists p | p in pairs :: p.1 in acc && p.0 == x
  }

  /** `x` implies an earlier location that was not chosen. */
  predicate Lacks(elems: seq<Loc>, pairs: seq<Pair>, acc: seq<Loc>, x: Loc, idx: nat)
    requires forall p :: p in pairs && p.1 == x ==> p.0 in elems
  {
    exists p | p in pairs :: p.1 == x && p.0 !in acc && IndexOf(elems, p.0) < idx
  }

  predicate CanTake(r: Relations, acc: seq<Loc>, x: Loc, idx: nat)
    requires r.Indexed() && x in r.elems
  {
    !Clashes(r.excl, acc, x) && !Clashes(r.exclUndet, acc, x) && !Lacks(r.elems, r.impl, acc, x, idx)
  }

  predicate CanSkip(r: Relations, acc: seq<Loc>, x: Loc) {
    x !in r.always && !Needed(r.impl, acc, x) && !Needed(r.implUndet, acc, x)
  }

  /** What the search emits below a prefix: first without the location, then with it. */
  function Emitted(r: Relations, idx: nat, acc: seq<Loc>): seq<seq<Loc>>
    requires idx <= |r.elems| && r.Indexed()
    decreases |r.elems| - idx, 1
  {
    if idx == |r.elems| then [acc] else Skipped(r, idx, acc) + Taken(r, idx, acc)
  }

  function Skipped(r: Relations, idx: nat, acc: seq<Loc>): seq<seq<Loc>>
    requires idx < |r.elems| && r.Indexed()
    decreases |r.elems| - idx, 0
  {
    if CanSkip(r, acc, r.elems[idx]) then Emitted(r, idx + 1, acc) else []
  }

  function Taken(r: Relations, idx: nat, acc: seq<Loc>): seq<seq<Loc>>
    requires idx < |r.elems| && r.Indexed()
    decreases |r.elems| - idx, 0
  {
    if CanTake(r, acc, r.elems[idx], idx) then Emitted(r, idx + 1, acc + [r.elems[idx]]) else []
  }

  // ---- the code ----

  method FindClash(pairs: seq<Pair>, acc: seq<Loc>, x: Loc) returns (fail: bool)
    ensures fail <==> Clashes(pairs, acc, x)
  {
    fail := false;
    for i := 0 to |pairs|
      invariant !fail && forall j :: 0 <= j < i ==>
                  !((pairs[j].0 in acc && pairs[j].1 == x) || (pairs[j].1 in acc && pairs[j].0 == x))
    {
      if (pairs[i].0 in acc && pairs[i].1 == x) || (pairs[i].1 in acc && pairs[i].0 == x) {
        return true;
      }
    }
  }

  method FindNeed(pairs: seq<Pair>, acc: seq<Loc>, x: Loc) returns (fail: bool)
    ensures fail <==> Needed(pairs, acc, x)
  {
    fail := false;
    for i := 0 to |pairs|
      invariant !fail && forall j :: 0 <= j < i ==> !(pairs[j].1 in acc && pairs[j].0 == x)
    {
      if pairs[i].1 in acc && pairs[i].0 == x {
        return true;
      }
    }
  }

  method FindLack(elems: seq<Loc>, pairs: seq<Pair>, acc: seq<Loc>, x: Loc, idx: nat) returns (fail: bool)
    requires forall p :: p in pairs && p.1 == x ==> p.0 in elems
    ensures fail <==> Lacks(elems, pairs, acc, x, idx)
  {
    fail := false;
    for i := 0 to |pairs|
      invariant !fail && forall j :: 0 <= j < i ==>
                  !(pairs[j].1 == x && pairs[j].0 !in acc && IndexOf(elems, pairs[j].0) < idx)
    {
      if pairs[i].1 == x && pairs[i].0 !in acc && IndexOf(elems, pairs[i].0) < idx {
        return true;
      }
    }
  }

  class GenComb {
    const r: Relations
    var res: seq<seq<Loc>>
    var acc: seq<Loc>

    constructor (r: Relations)
      ensures this.r == r && res == [] && acc == []
    {
      this.r := r;
      res, acc := [], [];
    }

    method MayTake(idx: nat) returns (ok: bool)
      requires r.WellFormed() && idx < |r.elems|
      ensures ok <==> CanTake(r, acc, r.elems[idx], idx)
    {
      var fail := FindClash(r.excl, acc, r.elems[idx]);
      if !fail {
        fail := FindClash(r.exclUndet, acc, r.elems[idx]);
      }
      if !fail {
        fail := FindLack(r.elems, r.impl, acc, r.elems[idx], idx);
      }
      ok := !fail;
    }

    method MaySkip(idx: nat) returns (ok: bool)
      requires idx < |r.elems|
      ensures ok <==> CanSkip(r, acc, r.elems[idx])
    {
      var fail := r.elems[idx] in r.always;
      if !fail {
        fail := FindNeed(r.impl, acc, r.elems[idx]);
      }
      if !fail {
        fail := FindNeed(r.implUndet, acc, r.elems[idx]);
      }
      ok := !fail;
    }

    method GetAllCombination(idx: nat)
      requires r.WellFormed() && idx <= |r.elems|
      modifies this
      ensures acc == old(acc) && res == old(res) + Emitted(r, idx, acc)
      decreases |r.elems| - idx, 1
    {
      if idx == |r.elems| {
        res := res + [acc];
        return;
      }
      for t := 0 to 2
        invariant acc == old(acc)
        invariant res == old(res) + (if t > 0 then Skipped(r, idx, acc) else [])
                                  + (if t > 1 then Taken(r, idx, acc) else [])
      {
        if t == 1 {
          Take(idx);
        } else {
          Skip(idx);
        }
      }
    }

    method Take(idx: nat)
      requires r.WellFormed() && idx < |r.elems|
      modifies this
      ensures acc == old(acc) && res == old(res) + Taken(r, idx, acc)
      decreases |r.elems| - idx, 0
    {
      var ok := MayTake(idx);
      if ok {
        acc := acc + [r.elems[idx]];
        GetAllCombination(idx + 1);
        acc := acc[..|acc| - 1];
      }
    }

    method Skip(idx: nat)
      requires r.WellFormed() && idx < |r.elems|
      modifies this
      ensures acc == old(acc) && res == old(res) + Skipped(r, idx, acc)
      decreases |r.elems| - idx, 0
    {
      var ok := MaySkip(idx);
      if ok {
        GetAllCombination(idx + 1);
      }
    }
  }

  // ---- ordered subsets ----

  /** The members of `c`, in order. */
  function Filter(s: seq<Loc>, c: set<Loc>): seq<Loc> {
    if s == [] then []
    else if s[|s| - 1] in c then Filter(s[..|s| - 1], c) + [s[|s| - 1]]
    else Filter(s[..|s| - 1], c)
  }

  lemma {:induction false} FilterMember(s: seq<Loc>, c: set<Loc>, x: Loc)
    ensures x in Filter(s, c) <==> x in s && x in c
  {
    if s != [] {
      FilterMember(s[..|s| - 1], c, x);
      assert s == s[..|s| - 1] + [s[|s| - 1]];
    }
  }

  lemma {:induction false} FilterAgrees(s: seq<Loc>, c: set<Loc>, d: set<Loc>)
    requires forall x :: x in s ==> (x in c <==> x in d)
    ensures Filter(s, c) == Filter(s, d)
  {
    if s != [] {
      FilterAgrees(s[..|s| - 1], c, d);
    }
  }

  lemma {:induction false} FilterNext(s: seq<Loc>, c: set<Loc>, j: nat)
    requires j < |s|
    ensures Filter(s[..j + 1], c) == if s[j] in c then Filter(s[..j], c) + [s[j]] else Filter(s[..j], c)
  {
    assert s[..j + 1][..j] == s[..j];
  }

  // ---- what is emitted ----

  /** The check of step `j` lets the decision of `c` pass. */
  ghost predicate Passes(r: Relations, c: set<Loc>, j: nat)
    requires r.WellFormed() && j < |r.elems|
  {
    if r.elems[j] in c then CanTake(r, Filter(r.elems[..j], c), r.elems[j], j)
    else CanSkip(r, Filter(r.elems[..j], c), r.elems[j])
  }

  ghost predicate PassesFrom(r: Relations, c: set<Loc>, idx: nat)
    requires r.WellFormed()
  {
    forall j :: idx <= j < |r.elems| ==> Passes(r, c, j)
  }

  lemma {:induction false} PassedIsEmitted(r: Relations, c: set<Loc>, idx: nat)
    requires r.WellFormed() && idx <= |r.elems| && PassesFrom(r, c, idx)
    ensures Filter(r.elems, c) in Emitted(r, idx, Filter(r.elems[..idx], c))
    decreases |r.elems| - idx
  {
    if idx == |r.elems| {
      assert r.elems[..idx] == r.elems;
    } else {
      FilterNext(r.elems, c, idx);
      PassedIsEmitted(r, c, idx + 1);
      var acc := Filter(r.elems[..idx], c);
      assert Passes(r, c, idx);
      assert Filter(r.elems, c) in if r.elems[idx] in c then Taken(r, idx, acc) else Skipped(r, idx, acc);
    }
  }

  lemma {:induction false} EmittedIsPassed(r: Relations, c: set<Loc>, idx: nat, x: seq<Loc>) returns (d: set<Loc>)
    requires r.WellFormed() && idx <= |r.elems| && x in Emitted(r, idx, Filter(r.elems[..idx], c))
    ensures PassesFrom(r, d, idx) && x == Filter(r.elems, d)
    ensures forall y :: y in r.elems[..idx] ==> (y in c <==> y in d)
    decreases |r.elems| - idx
  {
    if idx == |r.elems| {
      assert r.elems[..idx] == r.elems;
      d := c;
    } else {
      var e, acc := r.elems[idx], Filter(r.elems[..idx], c);
      assert e !in r.elems[..idx];
      var taken := x in Taken(r, idx, acc);
      var c' := if taken then c + {e} else c - {e};
      FilterAgrees(r.elems[..idx], c, c');
      FilterNext(r.elems, c', idx);
      d := EmittedIsPassed(r, c', idx + 1, x);
      assert forall y :: y in r.elems[..idx + 1] <==> y in r.elems[..idx] || y == e;
      FilterAgrees(r.elems[..idx], c, d);
      assert Passes(r, d, idx);
    }
  }

  /** The sets the relations allow: all that is always reached, no exclusive pair, all
      that is implied, and of the undetermined implications those whose conclusion
      comes later. */
  ghost predicate Allowed(r: Relations, c: set<Loc>)
    requires r.WellFormed()
  {
    && (forall x :: x in r.always && x in r.elems ==> x in c)
    && (forall p :: p in r.excl || p in r.exclUndet ==> p.0 == p.1 || p.0 !in c || p.1 !in c)
    && (forall p :: p in r.impl && p.1 in c ==> p.0 in c)
    && (forall p :: p in r.implUndet && Follows(r.elems, p.0, p.1) && p.1 in c ==> p.0 in c)
  }

  /** `u` comes after `v`. */
  ghost predicate Follows(elems: seq<Loc>, u: Loc, v: Loc) {
    exists i, j :: 0 <= i < j < |elems| && elems[i] == v && elems[j] == u
  }

  lemma {:induction false} AllowedPasses(r: Relations, c: set<Loc>, j: nat)
    requires r.WellFormed() && j < |r.elems| && Allowed(r, c)
    ensures Passes(r, c, j)
  {
    var x, acc := r.elems[j], Filter(r.elems[..j], c);
    forall y ensures y in acc <==> y in r.elems[..j] && y in c {
      FilterMember(r.elems[..j], c, y);
    }
    assert x !in acc;
    if x !in c {
      forall v | v in acc ensures Follows(r.elems, x, v) {
        var i :| 0 <= i < j && r.elems[i] == v;
      }
    }
  }

  /** What step `j` guarantees of a pair of its location with an earlier one. */
  lemma {:induction false} PassesMeans(r: Relations, c: set<Loc>, i: nat, j: nat, p: Pair)
    requires r.WellFormed() && i < j < |r.elems| && Passes(r, c, j) && Joins(p, r.elems[i], r.elems[j])
    ensures p in r.excl || p in r.exclUndet ==> r.elems[i] !in c || r.elems[j] !in c
    ensures p in r.impl && p.1 in c ==> p.0 in c
    ensures p in r.implUndet && p == (r.elems[j], r.elems[i]) && p.1 in c ==> p.0 in c
  {
    FilterMember(r.elems[..j], c, r.elems[i]);
    assert r.elems[..j][i] == r.elems[i];
    assert IndexOf(r.elems, r.elems[i]) == i;
  }

  ghost predicate Joins(p: Pair, a: Loc, b: Loc) {
    p == (a, b) || p == (b, a)
  }

  lemma {:induction false} PassesAllowed(r: Relations, c: set<Loc>)
    requires r.WellFormed() && PassesFrom(r, c, 0) && forall x :: x in c ==> x in r.elems
    ensures Allowed(r, c)
  {
    forall x | x in r.always && x in r.elems ensures x in c {
      var j :| 0 <= j < |r.elems| && r.elems[j] == x;
      assert Passes(r, c, j);
    }
    forall p | (p in r.excl || p in r.exclUndet) && p.0 != p.1 && p.0 in c ensures p.1 !in c {
      if p.1 in c {
        var i, j := BothOrders(r.elems, p);
        PassesMeans(r, c, i, j, p);
      }
    }
    forall p | p in r.impl && p.1 in c ensures p.0 in c {
      if p.0 != p.1 {
        var i, j := BothOrders(r.elems, p);
        PassesMeans(r, c, i, j, p);
      }
    }
    forall p | p in r.implUndet && Follows(r.elems, p.0, p.1) && p.1 in c ensures p.0 in c {
      var i, j :| 0 <= i < j < |r.elems| && r.elems[i] == p.1 && r.elems[j] == p.0;
      assert p == (r.elems[j], r.elems[i]);
      PassesMeans(r, c, i, j, p);
    }
  }

  lemma {:induction false} BothOrders(elems: seq<Loc>, p: Pair) returns (i: nat, j: nat)
    requires p.0 in elems && p.1 in elems && p.0 != p.1
    ensures i < j < |elems| && Joins(p, elems[i], elems[j])
  {
    i :| 0 <= i < |elems| && elems[i] == p.0;
    j :| 0 <= j < |elems| && elems[j] == p.1;
    assert p == (elems[i], elems[j]);
    if j < i {
      i, j := j, i;
    }
  }

  /** The generator is exact: it emits the ordered subsets that the relations allow,
      and nothing else. */
  lemma {:induction false} EmittedExact(r: Relations, x: seq<Loc>)
    requires r.WellFormed()
    ensures x in Emitted(r, 0, []) <==> x == Filter(r.elems, Elems(x)) && Allowed(r, Elems(x))
  {
    assert r.elems[..0] == [] && Filter([], {}) == [] && Filter([], Elems(x)) == [];
    if x in Emitted(r, 0, []) {
      var d := EmittedIsPassed(r, {}, 0, x);
      forall y ensures y in Elems(x) <==> y in r.elems && y in d {
        FilterMember(r.elems, d, y);
      }
      FilterAgrees(r.elems, d, Elems(x));
      forall j | 0 <= j < |r.elems| ensures Passes(r, Elems(x), j) {
        assert Passes(r, d, j);
        FilterAgrees(r.elems[..j], d, Elems(x));
      }
      PassesAllowed(r, Elems(x));
    }
    if x == Filter(r.elems, Elems(x)) && Allowed(r, Elems(x)) {
      forall j | 0 <= j < |r.elems| ensures Passes(r, Elems(x), j) {
        AllowedPasses(r, Elems(x), j);
      }
      PassedIsEmitted(r, Elems(x), 0);
    }
  }

  lemma {:induction false} EmittedBounds(r: Relations, idx: nat, acc: seq<Loc>, x: seq<Loc>)
    requires r.WellFormed() && idx <= |r.elems| && x in Emitted(r, idx, acc)
    ensures acc <= x && forall y :: y in x ==> y in acc || y in r.elems[idx..]
    decreases |r.elems| - idx
  {
    if idx < |r.elems| {
      var e := r.elems[idx];
      assert r.elems[idx..] == [e] + r.elems[idx + 1..];
      EmittedBounds(r, idx + 1, if x in Taken(r, idx, acc) then acc + [e] else acc, x);
    }
  }

  /** The first location in which the two sets differ is in the second. */
  ghost predicate Precedes(s: seq<Loc>, x: seq<Loc>, y: seq<Loc>) {
    exists k :: 0 <= k < |s| && DiffersAt(s, x, y, k)
  }

  ghost predicate DiffersAt(s: seq<Loc>, x: seq<Loc>, y: seq<Loc>, k: nat)
    requires k < |s|
  {
    s[k] !in x && s[k] in y && forall m :: 0 <= m < k ==> (s[m] in x <==> s[m] in y)
  }

  lemma {:induction false} EmittedAgrees(r: Relations, idx: nat, acc: seq<Loc>, x: seq<Loc>, m: nat)
    requires r.WellFormed() && m < idx <= |r.elems| && x in Emitted(r, idx, acc)
    ensures r.elems[m] in x <==> r.elems[m] in acc
  {
    EmittedBounds(r, idx, acc, x);
    assert r.elems[m] !in r.elems[idx..];
  }

  /** Of two sets, the one without the first location in which they differ comes first. */
  lemma {:induction false} EmittedInOrder(r: Relations, idx: nat, acc: seq<Loc>, i: nat, j: nat)
    requires r.WellFormed() && idx <= |r.elems| && i < j < |Emitted(r, idx, acc)|
    requires forall m :: idx <= m < |r.elems| ==> r.elems[m] !in acc
    ensures Precedes(r.elems, Emitted(r, idx, acc)[i], Emitted(r, idx, acc)[j])
    decreases |r.elems| - idx
  {
    var e, a, b := r.elems[idx], Skipped(r, idx, acc), Taken(r, idx, acc);
    if j < |a| {
      EmittedInOrder(r, idx + 1, acc, i, j);
    } else if i >= |a| {
      EmittedInOrder(r, idx + 1, acc + [e], i - |a|, j - |a|);
    } else {
      var x, y := a[i], b[j - |a|];
      EmittedAgrees(r, idx + 1, acc, x, idx);
      EmittedAgrees(r, idx + 1, acc + [e], y, idx);
      forall m | 0 <= m < idx ensures r.elems[m] in x <==> r.elems[m] in y {
        EmittedAgrees(r, idx + 1, acc, x, m);
        EmittedAgrees(r, idx + 1, acc + [e], y, m);
      }
      assert DiffersAt(r.elems, x, y, idx);
    }
  }

  /** No subset comes twice. */
  lemma {:induction false} EmittedOnce(r: Relations)
    requires r.WellFormed()
    ensures NoRepeats(Emitted(r, 0, []))
  {
    var res := Emitted(r, 0, []);
    forall i, j | 0 <= i < j < |res| ensures res[i] != res[j] {
      EmittedInOrder(r, 0, [], i, j);
    }
  }
}
