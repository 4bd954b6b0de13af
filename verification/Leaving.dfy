/** The assertions about final cycles of a visit, and what they say of visits in
    consecutive cycles. */
module Leaving {
  import opened Traces

  // ---- the assertions ----

  /** The signal `k` cycles ago; before the first cycle it is low. */
  ghost predicate Past(s: Signal, n: nat, k: nat) {
    n >= k && s(n - k)
  }

  ghost predicate PastHpn(s: Signal, n: nat) {
    n >= 1 && Hpn(s, n - 1)
  }

  /** The signal falls after two or more cycles. */
  ghost predicate LeftLong(s: Signal, n: nat) {
    Past(s, n, 2) && Past(s, n, 1) && !s(n)
  }

  /** The assumption that the location stays for at least two cycles. */
  ghost predicate StaysTwo(s: Signal) {
    exists n: nat :: s(n) && s(n + 1)
  }

  /** HB_LEAVING: the final cycle of the first before the entry of the second. */
  ghost predicate AssertLeavingEnter(s1: Signal, s2: Signal) {
    forall n: nat :: LeftLong(s1, n) ==> !(PastHpn(s2, n) || Past(s2, n, 1))
  }

  /** The register was low one cycle ago, and the signal is high. */
  ghost predicate JustIn(s: Signal, n: nat) {
    !PastHpn(s, n) && s(n)
  }

  /** The entry of the first before the final cycle of the second. */
  ghost predicate AssertEnterLeaving(s1: Signal, s2: Signal) {
    forall n: nat :: JustIn(s1, n) && (Hpn(s2, n) || s2(n)) ==> s2(n + 1)
  }

  /** The final cycle of the first before that of the second. */
  ghost predicate AssertLeavingLeaving(s1: Signal, s2: Signal) {
    forall n: nat :: LeftLong(s1, n) ==> (Hpn(s2, n) && s2(n)) || !Hpn(s2, n)
  }

  /** The final cycle of the first is the entry of the second. */
  ghost predicate AssertLeavingIsEnter(s1: Signal, s2: Signal) {
    forall n: nat :: LeftLong(s1, n) ==> !PastHpn(s2, n) && Past(s2, n, 1)
  }

  /** The entry of the first is the final cycle of the second. */
  ghost predicate AssertEnterIsLeaving(s1: Signal, s2: Signal) {
    forall n: nat :: JustIn(s1, n) && Hpn(s2, n) && s2(n) ==> !s2(n + 1)
  }

  /** Both have the same final cycle. */
  ghost predicate AssertLeavingIsLeaving(s1: Signal, s2: Signal) {
    forall n: nat :: LeftLong(s1, n) ==> LeftLong(s2, n)
  }

  // ---- visits in consecutive cycles ----

  lemma {:induction false} ContiguousIs(s: Signal, last: nat, n: nat)
    requires Contiguous(s, last)
    ensures Visited(s) && First(s) <= last
    ensures s(n) <==> First(s) <= n <= last
    ensures Hpn(s, n) <==> First(s) < n
  {
    assert s(last);
    var f := First(s);
    assert s(f);
    HpnIsPast(s, n);
  }

  lemma {:induction false} LeftLongIs(s: Signal, last: nat, n: nat)
    requires Contiguous(s, last)
    ensures Visited(s) && (LeftLong(s, n) <==> First(s) < last && n == last + 1)
  {
    ContiguousIs(s, last, n);
    if n >= 2 {
      ContiguousIs(s, last, n - 1);
      ContiguousIs(s, last, n - 2);
    }
  }

  lemma {:induction false} StaysTwoIs(s: Signal, last: nat)
    requires Contiguous(s, last)
    ensures Visited(s) && (StaysTwo(s) <==> First(s) < last)
  {
    ContiguousIs(s, last, 0);
    if n: nat :| s(n) && s(n + 1) {
      ContiguousIs(s, last, n);
      ContiguousIs(s, last, n + 1);
    }
    if First(s) < last {
      ContiguousIs(s, last, First(s));
      ContiguousIs(s, last, First(s) + 1);
    }
  }

  /** HB_LEAVING says nothing of a visit of one cycle. */
  lemma {:induction false} LeavingEnterMeans(s1: Signal, l1: nat, s2: Signal, l2: nat)
    requires Contiguous(s1, l1) && Contiguous(s2, l2)
    ensures Visited(s1) && Visited(s2)
    ensures AssertLeavingEnter(s1, s2) <==> (First(s1) < l1 ==> l1 < First(s2))
    ensures AssertLeavingIsEnter(s1, s2) <==> (First(s1) < l1 ==> l1 == First(s2))
  {
    ContiguousIs(s1, l1, l1);
    ContiguousIs(s2, l2, l1);
    forall n: nat ensures LeftLong(s1, n) <==> First(s1) < l1 && n == l1 + 1 {
      LeftLongIs(s1, l1, n);
    }
    assert First(s1) < l1 ==> LeftLong(s1, l1 + 1);
  }

  lemma {:induction false} LeavingLeavingMeans(s1: Signal, l1: nat, s2: Signal, l2: nat)
    requires Contiguous(s1, l1) && Contiguous(s2, l2)
    ensures Visited(s1) && Visited(s2)
    ensures AssertLeavingLeaving(s1, s2) <==> (First(s1) < l1 ==> l1 < l2)
    ensures AssertLeavingIsLeaving(s1, s2) <==> (First(s1) < l1 ==> l1 == l2 && First(s2) < l2)
  {
    ContiguousIs(s1, l1, l1);
    ContiguousIs(s2, l2, l1 + 1);
    LeftLongIs(s2, l2, l1 + 1);
    forall n: nat ensures LeftLong(s1, n) <==> First(s1) < l1 && n == l1 + 1 {
      LeftLongIs(s1, l1, n);
    }
    assert First(s1) < l1 ==> LeftLong(s1, l1 + 1);
  }

  /** The register is read one cycle late, so the second cycle of a visit counts as an
      entry as well. */
  lemma {:induction false} JustInIs(s: Signal, last: nat, n: nat)
    requires Contiguous(s, last)
    ensures Visited(s) && (JustIn(s, n) <==> n == First(s) || (n == First(s) + 1 && n <= last))
  {
    ContiguousIs(s, last, n);
    if n >= 1 {
      ContiguousIs(s, last, n - 1);
    }
  }

  /** Both assertions in cycle `n`. */
  lemma {:induction false} InCycle(s: Signal, last: nat, n: nat)
    requires Contiguous(s, last)
    ensures Visited(s)
    ensures (Hpn(s, n) || s(n) ==> s(n + 1)) <==> (First(s) <= n ==> n < last)
    ensures (Hpn(s, n) && s(n) ==> !s(n + 1)) <==> (First(s) < n <= last ==> n == last)
  {
    ContiguousIs(s, last, n);
    ContiguousIs(s, last, n + 1);
  }

  lemma {:induction false} EnterLeavingMeans(s1: Signal, l1: nat, s2: Signal, l2: nat)
    requires Contiguous(s1, l1) && Contiguous(s2, l2)
    ensures Visited(s1) && Visited(s2)
    ensures AssertEnterLeaving(s1, s2) <==>
            && (First(s2) <= First(s1) ==> First(s1) < l2)
            && (First(s1) < l1 && First(s2) <= First(s1) + 1 ==> First(s1) + 1 < l2)
    ensures AssertEnterIsLeaving(s1, s2) <==>
            && (First(s2) < First(s1) <= l2 ==> First(s1) == l2)
            && (First(s1) < l1 && First(s2) <= First(s1) < l2 ==> First(s1) + 1 == l2)
  {
    JustInIs(s1, l1, 0);
    var f := First(s1);
    forall n: nat ensures JustIn(s1, n) <==> n == f || (n == f + 1 && n <= l1) {
      JustInIs(s1, l1, n);
    }
    InCycle(s2, l2, f);
    InCycle(s2, l2, f + 1);
    assert JustIn(s1, f);
    assert f < l1 ==> JustIn(s1, f + 1);
  }
}
