/** The merge sort that orders line pointers by the stamp of their line. */
module MergeSort {
  import opened LineSet

  function Key(m: seq<LineState>, p: nat): nat {
    if p < |m| then m[p].order else 0
  }

  function Merge(m: seq<LineState>, a: seq<nat>, b: seq<nat>): (r: seq<nat>)
    ensures |r| == |a| + |b|
  {
    if b == [] then a
    else if a != [] && Key(m, a[0]) <= Key(m, b[0]) then [a[0]] + Merge(m, a[1..], b)
    else [b[0]] + Merge(m, a, b[1..])
  }

  function Sort(m: seq<LineState>, s: seq<nat>): (r: seq<nat>)
    ensures |r| == |s|
    decreases |s|
  {
    if |s| < 2 then s
    else if |s| == 2 then
      if Key(m, s[0]) > Key(m, s[1]) then [s[1], s[0]] else s
    else
      var mid := |s| / 2;
      Merge(m, Sort(m, s[..mid]), Sort(m, s[mid..]))
  }

  // ---- the result is a permutation ----

  lemma {:induction false} MergeKeeps(m: seq<LineState>, a: seq<nat>, b: seq<nat>)
    ensures multiset(Merge(m, a, b)) == multiset(a) + multiset(b)
  {
    if b == [] {
    } else if a != [] && Key(m, a[0]) <= Key(m, b[0]) {
      MergeKeeps(m, a[1..], b);
      ConsMultiset(a);
    } else {
      MergeKeeps(m, a, b[1..]);
      ConsMultiset(b);
    }
  }

  lemma ConsMultiset(s: seq<nat>)
    requires s != []
    ensures multiset(s) == multiset{s[0]} + multiset(s[1..])
  {
    assert s == [s[0]] + s[1..];
  }

  lemma {:induction false} SplitMultiset(s: seq<nat>, k: nat)
    requires k <= |s|
    ensures multiset(s) == multiset(s[..k]) + multiset(s[k..])
  {
    assert s == s[..k] + s[k..];
  }

  lemma {:induction false} SortTwoKeeps(m: seq<LineState>, s: seq<nat>)
    requires |s| == 2
    ensures multiset(Sort(m, s)) == multiset(s)
  {
    assert s == [s[0], s[1]];
  }

  lemma {:induction false} SortKeeps(m: seq<LineState>, s: seq<nat>)
    ensures multiset(Sort(m, s)) == multiset(s)
    decreases |s|
  {
    if |s| == 2 {
      SortTwoKeeps(m, s);
    } else if |s| > 2 {
      var k := |s| / 2;
      SortKeeps(m, s[..k]);
      SortKeeps(m, s[k..]);
      MergeKeeps(m, Sort(m, s[..k]), Sort(m, s[k..]));
      SplitMultiset(s, k);
    }
  }

  // ---- sorted and stable ----

  /** `p` belongs before `q`: its key is smaller, or equal and it came first. */
  ghost predicate Before(m: seq<LineState>, pos: nat -> int, p: nat, q: nat) {
    Key(m, p) < Key(m, q) || (Key(m, p) == Key(m, q) && pos(p) < pos(q))
  }

  ghost predicate Ranked(m: seq<LineState>, pos: nat -> int, s: seq<nat>) {
    forall i, j :: 0 <= i < j < |s| ==> Before(m, pos, s[i], s[j])
  }

  ghost predicate AllAfter(m: seq<LineState>, pos: nat -> int, p: nat, s: seq<nat>) {
    forall i :: 0 <= i < |s| ==> Before(m, pos, p, s[i])
  }

  /** Every element of `a` came before every element of `b`. */
  ghost predicate Earlier(pos: nat -> int, a: seq<nat>, b: seq<nat>) {
    forall i, j :: 0 <= i < |a| && 0 <= j < |b| ==> pos(a[i]) < pos(b[j])
  }

  lemma {:induction false} MergeAfter(m: seq<LineState>, pos: nat -> int, p: nat, a: seq<nat>, b: seq<nat>)
    requires AllAfter(m, pos, p, a) && AllAfter(m, pos, p, b)
    ensures AllAfter(m, pos, p, Merge(m, a, b))
  {
    if b == [] {
    } else if a != [] && Key(m, a[0]) <= Key(m, b[0]) {
      MergeAfter(m, pos, p, a[1..], b);
    } else {
      MergeAfter(m, pos, p, a, b[1..]);
    }
  }

  lemma {:induction false} MergeRanked(m: seq<LineState>, pos: nat -> int, a: seq<nat>, b: seq<nat>)
    requires Ranked(m, pos, a) && Ranked(m, pos, b) && Earlier(pos, a, b)
    ensures Ranked(m, pos, Merge(m, a, b))
  {
    if b == [] {
    } else if a != [] && Key(m, a[0]) <= Key(m, b[0]) {
      MergeRanked(m, pos, a[1..], b);
      assert AllAfter(m, pos, a[0], b);
      MergeAfter(m, pos, a[0], a[1..], b);
    } else {
      MergeRanked(m, pos, a, b[1..]);
      assert AllAfter(m, pos, b[0], a);
      MergeAfter(m, pos, b[0], a, b[1..]);
    }
  }

  /** Sorting puts the pointers in order of key, and those of equal key in the
      order they came in (`pos` is any numbering that increases along `s`). */
  lemma {:induction false} SortRanked(m: seq<LineState>, pos: nat -> int, s: seq<nat>)
    requires forall i, j :: 0 <= i < j < |s| ==> pos(s[i]) < pos(s[j])
    ensures Ranked(m, pos, Sort(m, s))
    decreases |s|
  {
    if |s| > 2 {
      var a, b := s[..|s| / 2], s[|s| / 2..];
      SortRanked(m, pos, a);
      SortRanked(m, pos, b);
      SortEarlier(m, pos, a, b);
      MergeRanked(m, pos, Sort(m, a), Sort(m, b));
    }
  }

  lemma {:induction false} SortEarlier(m: seq<LineState>, pos: nat -> int, a: seq<nat>, b: seq<nat>)
    requires Earlier(pos, a, b)
    ensures Earlier(pos, Sort(m, a), Sort(m, b))
  {
    SortKeeps(m, a);
    SortKeeps(m, b);
    forall i, j | 0 <= i < |a| && 0 <= j < |b| ensures pos(Sort(m, a)[i]) < pos(Sort(m, b)[j]) {
      assert Sort(m, a)[i] in multiset(a) && Sort(m, b)[j] in multiset(b);
      var x :| 0 <= x < |a| && a[x] == Sort(m, a)[i];
      var y :| 0 <= y < |b| && b[y] == Sort(m, b)[j];
    }
  }

  // ---- the code ----

  ghost predicate Points(s: seq<nat>, n: nat) {
    forall i :: 0 <= i < |s| ==> s[i] < n
  }

  /** A fresh copy of `n` elements from position `lo` on. */
  method Copy(arr: array<nat>, lo: nat, n: nat) returns (b: array<nat>)
    requires lo + n <= arr.Length
    ensures fresh(b) && b[..] == arr[lo..lo + n]
  {
    b := new nat[n];
    for i := 0 to n
      invariant forall j :: 0 <= j < i ==> b[j] == arr[lo + j]
    {
      b[i] := arr[lo + i];
    }
  }

  lemma PointsKept(m: seq<LineState>, s: seq<nat>, n: nat)
    requires Points(s, n)
    ensures Points(Sort(m, s), n)
  {
    SortKeeps(m, s);
    forall i | 0 <= i < |s| ensures Sort(m, s)[i] < n {
      assert Sort(m, s)[i] in multiset(s);
    }
  }

  method SortPointers(arr: array<nat>, mem: array<LineState>)
    requires Points(arr[..], mem.Length)
    modifies arr
    ensures arr[..] == Sort(mem[..], old(arr[..]))
    decreases arr.Length
  {
    var len := arr.Length;
    if len < 2 {
      return;
    }
    if len == 2 {
      SortTwo(arr, mem);
      return;
    }
    var mid := len / 2;
    var arr1 := Copy(arr, 0, mid);
    var arr2 := Copy(arr, mid, len - mid);
    assert arr1[..] == arr[..][..mid] && arr2[..] == arr[..][mid..];
    PointsKept(mem[..], arr1[..], mem.Length);
    PointsKept(mem[..], arr2[..], mem.Length);
    SortPointers(arr1, mem);
    SortPointers(arr2, mem);
    MergeInto(arr, arr1, arr2, mem);
  }

  method SortTwo(arr: array<nat>, mem: array<LineState>)
    requires arr.Length == 2 && Points(arr[..], mem.Length)
    modifies arr
    ensures arr[..] == Sort(mem[..], old(arr[..]))
  {
    assert arr[..] == [arr[0], arr[1]];
    if mem[arr[0]].order > mem[arr[1]].order {
      arr[0], arr[1] := arr[1], arr[0];
    }
    assert arr[..] == [arr[0], arr[1]];
  }

  /** Merges two sorted runs into the front of `arr`. */
  method MergeInto(arr: array<nat>, arr1: array<nat>, arr2: array<nat>, mem: array<LineState>)
    requires arr != arr1 && arr != arr2 && arr1.Length + arr2.Length == arr.Length
    requires Points(arr1[..], mem.Length) && Points(arr2[..], mem.Length)
    modifies arr
    ensures arr[..] == Merge(mem[..], arr1[..], arr2[..])
  {
    ghost var r := Merge(mem[..], arr1[..], arr2[..]);
    var m, n := 0, 0;
    assert Left(mem[..], arr1[..], arr2[..], r, 0, 0);
    for i := 0 to arr.Length
      invariant m + n == i && Left(mem[..], arr1[..], arr2[..], r, m, n)
      invariant forall j :: 0 <= j < i ==> arr[j] == r[j]
    {
      var p;
      p, m, n := Pick(arr1, arr2, mem, m, n, r);
      arr[i] := p;
    }
  }

  /** The next element, and how far both runs are used up after it. */
  method Pick(arr1: array<nat>, arr2: array<nat>, mem: array<LineState>, m: nat, n: nat, ghost r: seq<nat>)
      returns (p: nat, m': nat, n': nat)
    requires Points(arr1[..], mem.Length) && Points(arr2[..], mem.Length)
    requires Left(mem[..], arr1[..], arr2[..], r, m, n) && m + n < |r| == arr1.Length + arr2.Length
    ensures p == r[m + n] && m' + n' == m + n + 1 && Left(mem[..], arr1[..], arr2[..], r, m', n')
  {
    MergeNext(mem[..], arr1[..], arr2[..], r, m, n);
    if n >= arr2.Length || (m < arr1.Length && mem[arr1[m]].order <= mem[arr2[n]].order) {
      return arr1[m], m + 1, n;
    } else {
      return arr2[n], m, n + 1;
    }
  }

  /** What is left to merge is the rest of the result. */
  ghost predicate Left(ms: seq<LineState>, a: seq<nat>, b: seq<nat>, r: seq<nat>, m: nat, n: nat) {
    m <= |a| && n <= |b| && m + n <= |r| && Merge(ms, a[m..], b[n..]) == r[m + n..]
  }

  /** Which element comes next, and what is left to merge after it. */
  lemma {:induction false} MergeNext(ms: seq<LineState>, a: seq<nat>, b: seq<nat>, r: seq<nat>, m: nat, n: nat)
    requires Left(ms, a, b, r, m, n) && m + n < |a| + |b| == |r|
    ensures if n >= |b| || (m < |a| && Key(ms, a[m]) <= Key(ms, b[n]))
            then r[m + n] == a[m] && Left(ms, a, b, r, m + 1, n)
            else r[m + n] == b[n] && Left(ms, a, b, r, m, n + 1)
  {
  }
}
