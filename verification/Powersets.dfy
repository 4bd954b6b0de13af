/** All non-empty subsets of the locations, as the code enumerates them: which they are,
    that none comes twice, and how many. */
module Powersets {
  import opened Bits
  import opened Collections
  import opened SubsetGen

  function Prepend(x: Loc, cs: seq<seq<Loc>>): (r: seq<seq<Loc>>)
    ensures |r| == |cs| && forall i :: 0 <= i < |cs| ==> r[i] == [x] + cs[i]
  {
    seq(|cs|, i requires 0 <= i < |cs| => [x] + cs[i])
  }

  /** The subsequences of length k, in the order of their indices. */
  function Combinations(s: seq<Loc>, k: nat): seq<seq<Loc>> {
    if k == 0 then [[]]
    else if s == [] then []
    else Prepend(s[0], Combinations(s[1..], k - 1)) + Combinations(s[1..], k)
  }

  function Powerset(s: seq<Loc>, k: nat): seq<seq<Loc>> {
    if k == 0 then [] else Powerset(s, k - 1) + Combinations(s, k)
  }

  lemma {:induction false} FilterFront(s: seq<Loc>, c: set<Loc>)
    requires s != []
    ensures Filter(s, c) == (if s[0] in c then [s[0]] else []) + Filter(s[1..], c)
  {
    if |s| > 1 {
      var k := |s| - 1;
      FilterFront(s[..k], c);
      assert s[..k][1..] == s[1..][..k - 1];
      assert s[1..][k - 1] == s[k];
    }
  }

  /** A subsequence that is listed by its own members. */
  ghost predicate Subset(s: seq<Loc>, c: seq<Loc>) {
    c == Filter(s, Elems(c))
  }

  lemma {:induction false} SubsetOf(s: seq<Loc>, c: seq<Loc>, x: Loc)
    requires Subset(s, c) && x in c
    ensures x in s
  {
    FilterMember(s, Elems(c), x);
  }

  lemma {:induction false} SubsetTaken(s: seq<Loc>, c: seq<Loc>)
    requires NoRepeats(s) && s != [] && Subset(s[1..], c)
    ensures Subset(s, [s[0]] + c)
  {
    var d := [s[0]] + c;
    FilterFront(s, Elems(d));
    assert s[0] in Elems(d);
    forall x | x in s[1..] ensures x in Elems(d) <==> x in Elems(c) {
    }
    FilterAgrees(s[1..], Elems(d), Elems(c));
  }

  lemma {:induction false} SubsetSkipped(s: seq<Loc>, c: seq<Loc>)
    requires NoRepeats(s) && s != [] && Subset(s[1..], c)
    ensures Subset(s, c)
  {
    FilterFront(s, Elems(c));
    if s[0] in c {
      SubsetOf(s[1..], c, s[0]);
    }
  }

  lemma {:induction false} PrependMember(x: Loc, cs: seq<seq<Loc>>, c: seq<Loc>) returns (i: nat)
    requires c in Prepend(x, cs)
    ensures i < |cs| && c == [x] + cs[i]
  {
    i :| 0 <= i < |cs| && Prepend(x, cs)[i] == c;
  }

  lemma {:induction false} CombinationIsSubset(s: seq<Loc>, k: nat, c: seq<Loc>)
    requires NoRepeats(s) && c in Combinations(s, k)
    ensures |c| == k && Subset(s, c)
  {
    if k == 0 {
      assert Elems(c) == {};
      FilterNone(s);
    } else if c in Combinations(s[1..], k) {
      CombinationIsSubset(s[1..], k, c);
      SubsetSkipped(s, c);
    } else {
      var cs := Combinations(s[1..], k - 1);
      var i := PrependMember(s[0], cs, c);
      CombinationIsSubset(s[1..], k - 1, cs[i]);
      SubsetTaken(s, cs[i]);
    }
  }

  lemma {:induction false} FilterNone(s: seq<Loc>)
    ensures Filter(s, {}) == []
  {
    if s != [] {
      FilterNone(s[..|s| - 1]);
    }
  }

  lemma {:induction false} SubsetIsCombination(s: seq<Loc>, c: set<Loc>)
    ensures Filter(s, c) in Combinations(s, |Filter(s, c)|) && |Filter(s, c)| <= |s|
  {
    if s != [] {
      FilterFront(s, c);
      SubsetIsCombination(s[1..], c);
      var rest := Filter(s[1..], c);
      if s[0] in c {
        var cs := Combinations(s[1..], |rest|);
        var i :| 0 <= i < |cs| && cs[i] == rest;
        assert Prepend(s[0], cs)[i] == Filter(s, c);
      } else if rest != [] {
        assert Filter(s, c) == rest;
      }
    }
  }

  lemma {:induction false} PowersetMember(s: seq<Loc>, k: nat, c: seq<Loc>)
    requires NoRepeats(s)
    ensures c in Powerset(s, k) <==> 1 <= |c| <= k && c in Combinations(s, |c|)
  {
    if k > 0 {
      PowersetMember(s, k - 1, c);
      if c in Combinations(s, k) {
        CombinationIsSubset(s, k, c);
      }
    }
  }

  /** The candidates are exactly the non-empty ordered subsets. */
  lemma {:induction false} CandidatesExact(s: seq<Loc>, c: seq<Loc>)
    requires NoRepeats(s)
    ensures c in Powerset(s, |s|) <==> c != [] && Subset(s, c)
  {
    PowersetMember(s, |s|, c);
    if c in Combinations(s, |c|) {
      CombinationIsSubset(s, |c|, c);
    }
    SubsetIsCombination(s, Elems(c));
  }

  lemma {:induction false} CombinationsOnce(s: seq<Loc>, k: nat, r: seq<seq<Loc>>)
    requires NoRepeats(s) && r == Combinations(s, k)
    ensures NoRepeats(r)
  {
    if s != [] && k > 0 {
      var a, b := Combinations(s[1..], k - 1), Combinations(s[1..], k);
      CombinationsOnce(s[1..], k - 1, a);
      CombinationsOnce(s[1..], k, b);
      forall c | c in Prepend(s[0], a) ensures c !in b {
        var i := PrependMember(s[0], a, c);
        if c in b {
          CombinationIsSubset(s[1..], k, c);
          SubsetOf(s[1..], c, c[0]);
        }
      }
      PrependOnce(s[0], a);
      ConcatNoRepeats(Prepend(s[0], a), b);
    }
  }

  lemma {:induction false} PrependOnce(x: Loc, cs: seq<seq<Loc>>)
    requires NoRepeats(cs)
    ensures NoRepeats(Prepend(x, cs))
  {
    forall i, j | 0 <= i < j < |cs| ensures [x] + cs[i] != [x] + cs[j] {
      assert ([x] + cs[i])[1..] == cs[i] && ([x] + cs[j])[1..] == cs[j];
    }
  }

  lemma {:induction false} CombinationLength(s: seq<Loc>, k: nat, r: seq<seq<Loc>>)
    requires r == Combinations(s, k)
    ensures forall c :: c in r ==> |c| == k
  {
    if s != [] && k > 0 {
      var a, b := Combinations(s[1..], k - 1), Combinations(s[1..], k);
      CombinationLength(s[1..], k - 1, a);
      CombinationLength(s[1..], k, b);
      PrependLength(s[0], a, k, Prepend(s[0], a));
      assert r == Prepend(s[0], a) + b;
    }
  }

  lemma {:induction false} PrependLength(x: Loc, cs: seq<seq<Loc>>, k: nat, r: seq<seq<Loc>>)
    requires r == Prepend(x, cs) && k > 0 && forall c :: c in cs ==> |c| == k - 1
    ensures forall c :: c in r ==> |c| == k
  {
    forall c | c in r ensures |c| == k {
      var i := PrependMember(x, cs, c);
      assert cs[i] in cs;
    }
  }

  lemma {:induction false} PowersetLength(s: seq<Loc>, k: nat, r: seq<seq<Loc>>)
    requires r == Powerset(s, k)
    ensures forall c :: c in r ==> |c| <= k
  {
    if k > 0 {
      var a, b := Powerset(s, k - 1), Combinations(s, k);
      PowersetLength(s, k - 1, a);
      CombinationLength(s, k, b);
      assert r == a + b;
    }
  }

  lemma {:induction false} LongerNoRepeats(a: seq<seq<Loc>>, b: seq<seq<Loc>>, k: nat, r: seq<seq<Loc>>)
    requires NoRepeats(a) && NoRepeats(b) && r == a + b
    requires (forall c :: c in a ==> |c| < k) && forall c :: c in b ==> |c| == k
    ensures NoRepeats(r)
  {
    ConcatNoRepeats(a, b);
  }

  lemma {:induction false} PowersetOnce(s: seq<Loc>, k: nat, r: seq<seq<Loc>>)
    requires NoRepeats(s) && r == Powerset(s, k)
    ensures NoRepeats(r)
  {
    if k > 0 {
      var a, b := Powerset(s, k - 1), Combinations(s, k);
      PowersetOnce(s, k - 1, a);
      CombinationsOnce(s, k, b);
      PowersetLength(s, k - 1, a);
      CombinationLength(s, k, b);
      LongerNoRepeats(a, b, k, r);
    }
  }

  /** The non-empty ordered subsets. */
  ghost function AllSets(s: seq<Loc>): (cs: set<seq<Loc>>)
    requires NoRepeats(s)
    ensures forall c :: c in cs <==> c != [] && Subset(s, c)
  {
    assert forall c :: c in Powerset(s, |s|) <==> c != [] && Subset(s, c) by {
      forall c ensures c in Powerset(s, |s|) <==> c != [] && Subset(s, c) {
        CandidatesExact(s, c);
      }
    }
    Elems(Powerset(s, |s|))
  }

  // ---- how many there are ----

  /** The number of ways to choose k of n. */
  function Choose(n: nat, k: nat): nat {
    if k == 0 then 1 else if n == 0 then 0 else Choose(n - 1, k - 1) + Choose(n - 1, k)
  }

  function ChooseUpTo(n: nat, k: nat): nat {
    if k == 0 then 0 else ChooseUpTo(n, k - 1) + Choose(n, k)
  }

  lemma {:induction false} CombinationCount(s: seq<Loc>, k: nat)
    ensures |Combinations(s, k)| == Choose(|s|, k)
  {
    if s != [] && k > 0 {
      CombinationCount(s[1..], k - 1);
      CombinationCount(s[1..], k);
    }
  }

  lemma {:induction false} PowersetCount(s: seq<Loc>, k: nat)
    ensures |Powerset(s, k)| == ChooseUpTo(|s|, k)
  {
    if k > 0 {
      PowersetCount(s, k - 1);
      CombinationCount(s, k);
    }
  }

  lemma {:induction false} ChooseSplit(n: nat, k: nat)
    requires n > 0 && k > 0
    ensures ChooseUpTo(n, k) == ChooseUpTo(n - 1, k - 1) + ChooseUpTo(n - 1, k) + 1
  {
    if k == 1 {
      assert ChooseUpTo(n, 0) == 0 && ChooseUpTo(n - 1, 0) == 0 && Choose(n - 1, 0) == 1;
    } else {
      ChooseSplit(n, k - 1);
    }
  }

  lemma {:induction false} ChooseNone(n: nat, k: nat)
    requires k > n
    ensures Choose(n, k) == 0
  {
    if n > 0 {
      ChooseNone(n - 1, k - 1);
      ChooseNone(n - 1, k);
    }
  }

  lemma {:induction false} ChooseAny(n: nat)
    ensures ChooseUpTo(n, n) == Pow2(n) - 1
  {
    if n > 0 {
      ChooseSplit(n, n);
      ChooseNone(n - 1, n);
      ChooseAny(n - 1);
    }
  }

  lemma {:induction false} CandidateCount(s: seq<Loc>)
    ensures |Powerset(s, |s|)| == Pow2(|s|) - 1
  {
    PowersetCount(s, |s|);
    ChooseAny(|s|);
  }
}
