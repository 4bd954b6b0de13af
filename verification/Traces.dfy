/** Signals over clock cycles, the history registers that watch them, and the
    temporal properties written over both. */
module Traces {

  /** A one-bit signal, cycle by cycle from the first cycle after reset. */
  type Signal = nat -> bool

  /** The history register of a signal: cleared by reset, set from the cycle after
      the signal is first high. */
  ghost predicate Hpn(s: Signal, n: nat) {
    n > 0 && (Hpn(s, n - 1) || s(n - 1))
  }

  lemma {:induction false} HpnIsPast(s: Signal, n: nat)
    ensures Hpn(s, n) <==> exists i :: 0 <= i < n && s(i)
  {
    if n > 0 {
      HpnIsPast(s, n - 1);
      if s(n - 1) {
      } else if Hpn(s, n) {
        var i :| 0 <= i < n - 1 && s(i);
      }
    }
  }

  ghost predicate Visited(s: Signal) {
    exists i: nat :: s(i)
  }

  ghost predicate IsFirst(s: Signal, n: nat) {
    s(n) && forall i: nat :: i < n ==> !s(i)
  }

  lemma {:induction false} FirstExists(s: Signal, n: nat)
    requires s(n)
    ensures exists i: nat :: IsFirst(s, i)
  {
    if j: nat :| j < n && s(j) {
      FirstExists(s, j);
    } else {
      assert IsFirst(s, n);
    }
  }

  /** The first cycle of a visited location. */
  ghost function First(s: Signal): (n: nat)
    requires Visited(s)
    ensures IsFirst(s, n)
  {
    var i: nat :| s(i);
    FirstExists(s, i);
    var n: nat :| IsFirst(s, n);
    n
  }

  /** The location is entered in cycle `n`. */
  ghost predicate Enters(s: Signal, n: nat) {
    s(n) && !Hpn(s, n)
  }

  lemma {:induction false} EntersIffFirst(s: Signal, n: nat)
    ensures Enters(s, n) <==> Visited(s) && n == First(s)
  {
    HpnIsPast(s, n);
    if Enters(s, n) {
      assert s(n);
      var f := First(s);
      assert s(f) && f <= n;
    }
  }

  // ---- assertions and assumptions ----

  /** HB, and the assumption that the first location is entered before the second. */
  ghost predicate AssertHb(s1: Signal, s2: Signal) {
    forall n: nat :: Enters(s1, n) ==> !(Hpn(s2, n) || s2(n))
  }

  /** WHB. */
  ghost predicate AssertWhb(s1: Signal, s2: Signal) {
    forall n: nat :: Enters(s1, n) ==> !Hpn(s2, n)
  }

  /** WHB_CONCUR. */
  ghost predicate AssertConcur(s1: Signal, s2: Signal) {
    forall n: nat :: Enters(s1, n) ==> Enters(s2, n)
  }

  /** The assumption that both locations are entered in the same cycle. */
  ghost predicate AssumeConcur(s1: Signal, s2: Signal) {
    AssertConcur(s1, s2) && AssertConcur(s2, s1)
  }

  /** The register comparisons in the cycle a location is first entered. */
  lemma {:induction false} SeenAtFirst(s1: Signal, s2: Signal)
    requires Visited(s1)
    ensures Hpn(s2, First(s1)) <==> Visited(s2) && First(s2) < First(s1)
    ensures s2(First(s1)) || Hpn(s2, First(s1)) <==> Visited(s2) && First(s2) <= First(s1)
  {
    var n := First(s1);
    HpnIsPast(s2, n);
    if Hpn(s2, n) {
      var i :| 0 <= i < n && s2(i);
      assert s2(i);
    } else if s2(n) {
      assert s2(n);
    }
  }

  lemma {:induction false} HbMeans(s1: Signal, s2: Signal)
    ensures AssertHb(s1, s2) <==> (Visited(s1) && Visited(s2) ==> First(s1) < First(s2))
  {
    if Visited(s1) {
      SeenAtFirst(s1, s2);
      EntersIffFirst(s1, First(s1));
    }
    forall n: nat ensures Enters(s1, n) <==> Visited(s1) && n == First(s1) { EntersIffFirst(s1, n); }
  }

  lemma {:induction false} WhbMeans(s1: Signal, s2: Signal)
    ensures AssertWhb(s1, s2) <==> (Visited(s1) && Visited(s2) ==> First(s1) <= First(s2))
  {
    if Visited(s1) {
      SeenAtFirst(s1, s2);
      EntersIffFirst(s1, First(s1));
    }
    forall n: nat ensures Enters(s1, n) <==> Visited(s1) && n == First(s1) { EntersIffFirst(s1, n); }
  }

  lemma {:induction false} ConcurMeans(s1: Signal, s2: Signal)
    ensures AssertConcur(s1, s2) <==> (Visited(s1) ==> Visited(s2) && First(s1) == First(s2))
  {
    if Visited(s1) {
      EntersIffFirst(s1, First(s1));
      EntersIffFirst(s2, First(s1));
    }
    forall n: nat ensures Enters(s1, n) <==> Visited(s1) && n == First(s1) { EntersIffFirst(s1, n); }
  }

  // ---- covers ----

  /** All locations of the set have been visited by cycle `n`. */
  ghost predicate SetReached(locs: seq<Signal>, n: nat) {
    forall i :: 0 <= i < |locs| ==> Hpn(locs[i], n)
  }

  ghost predicate CoverHb(s1: Signal, s2: Signal, locs: seq<Signal>) {
    exists n: nat, m: nat :: n <= m && Enters(s1, n) && !(Hpn(s2, n) || s2(n)) && SetReached(locs, m)
  }

  ghost predicate CoverConcur(s1: Signal, s2: Signal, locs: seq<Signal>) {
    exists n: nat, m: nat :: n <= m && Enters(s1, n) && Enters(s2, n) && SetReached(locs, m)
  }

  ghost predicate AllVisited(locs: seq<Signal>) {
    forall i :: 0 <= i < |locs| ==> Visited(locs[i])
  }

  /** A trace that visits every location reaches the set at arbitrarily late cycles. */
  lemma {:induction false} SetReachedLate(locs: seq<Signal>, from: nat) returns (m: nat)
    requires AllVisited(locs)
    ensures m >= from && SetReached(locs, m)
  {
    if locs == [] {
      m := from;
    } else {
      var k := |locs| - 1;
      var rest := locs[..k];
      assert forall i :: 0 <= i < k ==> rest[i] == locs[i];
      var later := if First(locs[k]) + 1 >= from then First(locs[k]) + 1 else from;
      m := SetReachedLate(rest, later);
      HpnIsPast(locs[k], m);
      assert locs[k](First(locs[k]));
      forall i | 0 <= i < |locs| ensures Hpn(locs[i], m) {
        if i < k { assert Hpn(rest[i], m); }
      }
    }
  }

  /** On a trace that visits the whole set, what is covered is the order of first
      entry; so exactly one of the three covers of a pair is hit. */
  lemma {:induction false} CoverMeans(s1: Signal, s2: Signal, locs: seq<Signal>)
    requires AllVisited(locs) && Visited(s1) && Visited(s2)
    ensures CoverHb(s1, s2, locs) <==> First(s1) < First(s2)
    ensures CoverConcur(s1, s2, locs) <==> First(s1) == First(s2)
  {
    var f := First(s1);
    var m := SetReachedLate(locs, f);
    SeenAtFirst(s1, s2);
    EntersIffFirst(s1, f);
    EntersIffFirst(s2, f);
    if n: nat, l: nat :| n <= l && Enters(s1, n) && !(Hpn(s2, n) || s2(n)) && SetReached(locs, l) {
      EntersIffFirst(s1, n);
    }
    if n: nat, l: nat :| n <= l && Enters(s1, n) && Enters(s2, n) && SetReached(locs, l) {
      EntersIffFirst(s1, n);
      EntersIffFirst(s2, n);
    }
  }

  // ---- the three-way partition ----

  /** How the entries of a pair are ordered: first before second, after, or together. */
  datatype Order = Before | After | Together

  ghost predicate Assumed(s1: Signal, s2: Signal, o: Order) {
    match o
    case Before => AssertHb(s1, s2)
    case After => AssertHb(s2, s1)
    case Together => AssumeConcur(s1, s2)
  }

  ghost function OrderOf(s1: Signal, s2: Signal): Order
    requires Visited(s1) && Visited(s2)
  {
    if First(s1) < First(s2) then Before else if First(s1) > First(s2) then After else Together
  }

  lemma {:induction false} AssumedIffOrder(s1: Signal, s2: Signal, o: Order)
    requires Visited(s1) && Visited(s2)
    ensures Assumed(s1, s2, o) <==> o == OrderOf(s1, s2)
  {
    HbMeans(s1, s2);
    HbMeans(s2, s1);
    ConcurMeans(s1, s2);
    ConcurMeans(s2, s1);
  }

  /** The trace satisfies the assumptions of a combination of orders. */
  ghost predicate Satisfies(pairs: seq<(Signal, Signal)>, comb: seq<Order>) {
    |comb| == |pairs| && forall i :: 0 <= i < |pairs| ==> Assumed(pairs[i].0, pairs[i].1, comb[i])
  }

  ghost function OrdersOf(pairs: seq<(Signal, Signal)>): seq<Order>
    requires forall i :: 0 <= i < |pairs| ==> Visited(pairs[i].0) && Visited(pairs[i].1)
  {
    seq(|pairs|, i requires 0 <= i < |pairs| => OrderOf(pairs[i].0, pairs[i].1))
  }

  /** Every trace that visits all locations of the pairs satisfies the assumptions
      of exactly one combination of the full three-way product. */
  lemma {:induction false} Partition(pairs: seq<(Signal, Signal)>, comb: seq<Order>)
    requires forall i :: 0 <= i < |pairs| ==> Visited(pairs[i].0) && Visited(pairs[i].1)
    ensures Satisfies(pairs, comb) <==> comb == OrdersOf(pairs)
  {
    if |comb| == |pairs| {
      forall i | 0 <= i < |pairs|
        ensures Assumed(pairs[i].0, pairs[i].1, comb[i]) <==> comb[i] == OrdersOf(pairs)[i]
      {
        AssumedIffOrder(pairs[i].0, pairs[i].1, comb[i]);
      }
      if comb != OrdersOf(pairs) {
        var i :| 0 <= i < |pairs| && comb[i] != OrdersOf(pairs)[i];
      }
    }
  }

  // ---- leaving ----

  /** The signal is high in one block of consecutive cycles that ends with `last`. */
  ghost predicate Contiguous(s: Signal, last: nat) {
    && s(last)
    && (forall i: nat :: s(i) ==> i <= last)
    && forall i: nat, j: nat :: s(i) && i <= j <= last ==> s(j)
  }

  ghost predicate Exclusive(s1: Signal, s2: Signal) {
    forall n: nat :: !(s1(n) && s2(n))
  }

  /** Locations of one register are left in the order they are entered: entering `a`
      before `b` is entered, or even before `b` is left, forces the last cycle of
      `a` before the first cycle of `b`. */
  lemma {:induction false} LeaveOrder(a: Signal, b: Signal, lastA: nat, lastB: nat)
    requires Contiguous(a, lastA) && Contiguous(b, lastB) && Exclusive(a, b)
    ensures Visited(a) && Visited(b)
    ensures First(a) <= lastB ==> lastA < First(b)
    ensures First(a) < First(b) ==> lastA < First(b)
  {
  }
}
