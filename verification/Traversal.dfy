/** What a traversal of the cache lists. */
module Traversal {
  import opened Recency
  import opened Bits
  import opened LineSet
  import opened Layout
  import opened Tracking
  import opened MergeSort

  /** The first `n` pointers whose line has a nonzero stamp, in array order. */
  function Listed(c: seq<nat>, m: seq<LineState>, n: nat): seq<nat>
    requires n <= |c|
  {
    if n == 0 then []
    else Listed(c, m, n - 1) + if Key(m, c[n - 1]) != 0 then [c[n - 1]] else []
  }

  /** The pointers whose line has a nonzero tag. */
  function Tagged(m: seq<LineState>, s: seq<nat>): seq<nat> {
    if s == [] then []
    else
      var n := |s| - 1;
      Tagged(m, s[..n]) + if s[n] < |m| && m[s[n]].tag != 0 then [s[n]] else []
  }

  /** The address of a line, with bit 0 telling whether it was stored to. */
  function Entry(l: LineState, log2AddrLs: nat): nat {
    var addr := ShiftLeft(l.tag, log2AddrLs);
    if l.st && addr % 2 == 0 then addr + 1 else addr
  }

  function Entries(m: seq<LineState>, s: seq<nat>, log2AddrLs: nat): (r: seq<nat>)
    ensures |r| == |s|
    ensures forall i :: 0 <= i < |s| && s[i] < |m| ==> r[i] == Entry(m[s[i]], log2AddrLs)
  {
    seq(|s|, i requires 0 <= i < |s| => if s[i] < |m| then Entry(m[s[i]], log2AddrLs) else 0)
  }

  /** The lines a traversal visits, in the order it lists them. */
  function Visited(c: seq<nat>, m: seq<LineState>): seq<nat> {
    Tagged(m, Sort(m, Listed(c, m, |c|)))
  }

  // ---- order of the listing ----

  /** The position of pointer `p` in the pointer array. */
  ghost function PositionOf(c: seq<nat>, p: nat): int {
    if p in c then (var i :| 0 <= i < |c| && c[i] == p; i) else -1
  }

  ghost function Positions(c: seq<nat>): nat -> int {
    (p: nat) => PositionOf(c, p)
  }

  lemma {:induction false} PositionAt(c: seq<nat>, i: nat)
    requires Distinct(c) && i < |c|
    ensures PositionOf(c, c[i]) == i
  {
    var j := PositionOf(c, c[i]);
    assert j != i ==> Differ(c, i, j);
  }

  lemma {:induction false} ListedIncreasing(c: seq<nat>, m: seq<LineState>, n: nat)
    requires Distinct(c) && n <= |c|
    ensures forall i :: 0 <= i < |Listed(c, m, n)| ==> 0 <= PositionOf(c, Listed(c, m, n)[i]) < n
    ensures forall i, j :: 0 <= i < j < |Listed(c, m, n)| ==>
              PositionOf(c, Listed(c, m, n)[i]) < PositionOf(c, Listed(c, m, n)[j])
  {
    if n > 0 {
      ListedIncreasing(c, m, n - 1);
      PositionAt(c, n - 1);
    }
  }

  lemma {:induction false} ListedMembers(c: seq<nat>, m: seq<LineState>, n: nat, p: nat)
    requires n <= |c|
    ensures p in Listed(c, m, n) <==> p in c[..n] && Key(m, p) != 0
  {
    if n > 0 {
      ListedMembers(c, m, n - 1, p);
      assert c[..n] == c[..n - 1] + [c[n - 1]];
    }
  }

  lemma {:induction false} TaggedMembers(m: seq<LineState>, s: seq<nat>, p: nat)
    ensures p in Tagged(m, s) <==> p in s && p < |m| && m[p].tag != 0
  {
    if s != [] {
      var n := |s| - 1;
      TaggedMembers(m, s[..n], p);
      assert s == s[..n] + [s[n]];
    }
  }

  lemma {:induction false} TaggedRanked(m: seq<LineState>, pos: nat -> int, s: seq<nat>)
    requires Ranked(m, pos, s)
    ensures Ranked(m, pos, Tagged(m, s))
  {
    if s != [] {
      var n := |s| - 1;
      var a := Tagged(m, s[..n]);
      TaggedRanked(m, pos, s[..n]);
      forall i | 0 <= i < |a| ensures Before(m, pos, a[i], s[n]) {
        TaggedMembers(m, s[..n], a[i]);
        var j :| 0 <= j < n && s[..n][j] == a[i];
      }
    }
  }

  lemma {:induction false} VisitedMembers(c: seq<nat>, m: seq<LineState>, p: nat)
    ensures p in Visited(c, m) <==> p in c && p < |m| && m[p].tag != 0 && m[p].order != 0
  {
    var s := Listed(c, m, |c|);
    TaggedMembers(m, Sort(m, s), p);
    SortKeeps(m, s);
    assert p in Sort(m, s) <==> p in multiset(s);
    ListedMembers(c, m, |c|, p);
    assert c[..|c|] == c;
  }

  lemma {:induction false} VisitedRanked(c: seq<nat>, m: seq<LineState>)
    requires Distinct(c)
    ensures Ranked(m, Positions(c), Visited(c, m))
  {
    var s, pos := Listed(c, m, |c|), Positions(c);
    ListedIncreasing(c, m, |c|);
    SortRanked(m, pos, s);
    TaggedRanked(m, pos, Sort(m, s));
  }

  // ---- what the listing means for a run ----

  /** A visited line is at some position of the pointer array, and is a resident
      line stamped with its last access. */
  lemma {:induction false} VisitedLine(r: Run, p: nat)
    requires p in Visited(r.t.c, r.m)
    ensures p < |r.m| && r.m[p].tag != 0 && r.m[p].order != 0
    ensures var q := PositionOf(r.t.c, p);
            && 0 <= q < |r.t.c| && LineAt(r, q) == r.m[p]
            && FaithfulLine(r.m[p], r.init[r.t.g.setOf(r.m[p].tag)], r.t.g, r.h)
  {
    VisitedMembers(r.t.c, r.m, p);
    LineAtSet(r, PositionOf(r.t.c, p));
  }

  /** The listing is in increasing order of last access. */
  lemma {:induction false} VisitedInOrder(r: Run, i: nat, j: nat)
    requires i < j < |Visited(r.t.c, r.m)|
    ensures var v := Visited(r.t.c, r.m);
            v[i] < |r.m| && v[j] < |r.m| && r.m[v[i]].order < r.m[v[j]].order
  {
    var v := Visited(r.t.c, r.m);
    VisitedRanked(r.t.c, r.m);
    VisitedLine(r, v[i]);
    VisitedLine(r, v[j]);
    assert Before(r.m, Positions(r.t.c), v[i], v[j]);
    if r.m[v[i]].order == r.m[v[j]].order {
      SameStampSameLine(r, PositionOf(r.t.c, v[i]), PositionOf(r.t.c, v[j]));
    }
  }

  /** Lines with equal stamps and nonzero tags are one line. */
  lemma {:induction false} SameStampSameLine(r: Run, p: nat, q: nat)
    requires p < |r.t.c| && q < |r.t.c| && LineAt(r, p).tag != 0 && LineAt(r, q).tag != 0
    requires LineAt(r, p).order == LineAt(r, q).order
    ensures p == q
  {
    LineAtSet(r, p);
    LineAtSet(r, q);
    if p != q {
      LinesDiffer(r, p, q);
    }
  }

  /** Some listed line has the tag. */
  ghost predicate ListsTag(r: Run, u: Tag) {
    var v := Visited(r.t.c, r.m);
    exists i :: 0 <= i < |v| && v[i] < |r.m| && r.m[v[i]].tag == u
  }

  /** A nonzero tag is listed if and only if it is resident and its last access was
      not the very first of the run, which is stamped 0. */
  lemma {:induction false} VisitedTags(r: Run, u: Tag)
    requires u != 0
    ensures ListsTag(r, u) <==> HitsNow(r, u) && LastAccess(r.h, u) != 0
  {
    var v := Visited(r.t.c, r.m);
    if i :| 0 <= i < |v| && v[i] < |r.m| && r.m[v[i]].tag == u {
      VisitedLine(r, v[i]);
      var s := r.t.g.setOf(u);
      RunSet(r, s);
      LineAtSet(r, PositionOf(r.t.c, v[i]));
      HitIff(SetView(r.t, r.m, s), ResidentIn(r, s), u);
    }
    if HitsNow(r, u) && LastAccess(r.h, u) != 0 {
      var q := HeldSomewhere(r, u);
      LineAtSet(r, q);
      var p := r.t.c[q];
      VisitedMembers(r.t.c, r.m, p);
      var i :| 0 <= i < |v| && v[i] == p;
    }
  }

  // ---- the entries ----

  lemma {:induction false} OnlyAccess(r: Run, u: Tag)
    requires u != 0 && r.h == [Access(u, false)]
    ensures HitsNow(r, u) && !ListsTag(r, u)
  {
    assert r.h[0].tag == u;
    assert LineSet.Since(r.t.g, r.h, u) == {};
    RunHits(r, u);
    VisitedTags(r, u);
  }

  /** For one: after a single read of a fresh cache, the tag hits and is not listed. */
  lemma {:induction false} FirstAccessUnlisted(t: Arranged, m: seq<LineState>, u: Tag)
    requires |m| == |t.c| && (forall i :: 0 <= i < |m| ==> m[i].tag == 0) && u != 0
    ensures var r := Next(Fresh(t, m), Access(u, false));
            HitsNow(r, u) && !ListsTag(r, u)
  {
    var r := Next(Fresh(t, m), Access(u, false));
    assert r.h == [] + [Access(u, false)];
    OnlyAccess(r, u);
  }

  lemma {:induction false} ShiftLeftEven(a: nat, k: nat)
    requires k >= 1
    ensures ShiftLeft(a, k) % 2 == 0
    decreases k
  {
    if k > 1 {
      ShiftLeftEven(2 * a, k - 1);
    }
  }

  /** An entry is the address of the line, plus one if it was stored to: it gives back
      the tag and the store flag. */
  lemma {:induction false} EntryDecodes(l: LineState, log2AddrLs: nat)
    requires log2AddrLs >= 1
    ensures var a, p := Entry(l, log2AddrLs), Pow2(log2AddrLs);
            && a == l.tag * p + (if l.st then 1 else 0)
            && a / p == l.tag && a % p == (if l.st then 1 else 0)
  {
    var p := Pow2(log2AddrLs);
    ShiftLeftIsProduct(l.tag, log2AddrLs);
    ShiftLeftEven(l.tag, log2AddrLs);
    assert p >= 2;
    RemainderUnique(Entry(l, log2AddrLs), p, l.tag, if l.st then 1 else 0);
  }

  /** The line of `line` bytes that an address is in. */
  function LineOf(line: nat, a: nat): Tag
    requires line >= 1
  {
    a / line
  }

  /** A line of the listing: a resident tag other than 0 whose last access was not the
      first of the run, flagged if it was stored to since it was brought in. */
  ghost predicate ListedLine(r: Run, line: nat, a: nat)
    requires line >= 1
  {
    var u := LineOf(line, a);
    && u != 0 && LastAccess(r.h, u) > 0 && HitsNow(r, u)
    && a % line == if exists j: nat :: StoredAt(r.t.g, r.h, u, j) then 1 else 0
  }

  lemma {:induction false} EntryMeans(r: Run, p: nat, log2AddrLs: nat)
    requires p in Visited(r.t.c, r.m) && log2AddrLs >= 1
    ensures p < |r.m|
    ensures ListedLine(r, Pow2(log2AddrLs), Entry(r.m[p], log2AddrLs))
    ensures LineOf(Pow2(log2AddrLs), Entry(r.m[p], log2AddrLs)) == r.m[p].tag
    ensures r.m[p].order == LastAccess(r.h, r.m[p].tag)
  {
    VisitedLine(r, p);
    EntryDecodes(r.m[p], log2AddrLs);
    var v, u := Visited(r.t.c, r.m), r.m[p].tag;
    var i :| 0 <= i < |v| && v[i] == p;
    assert ListsTag(r, u);
    VisitedTags(r, u);
    StoredIsDirty(r, u);
  }

  /** The addresses that a traversal of the run lists. */
  ghost predicate IsListing(r: Run, log2AddrLs: nat, a: seq<nat>) {
    log2AddrLs >= 1 && a == Entries(r.m, Visited(r.t.c, r.m), log2AddrLs)
  }

  lemma {:induction false} ListingAt(r: Run, log2AddrLs: nat, a: seq<nat>, i: nat)
    requires IsListing(r, log2AddrLs, a) && i < |a|
    ensures ListedLine(r, Pow2(log2AddrLs), a[i])
    ensures var p := Visited(r.t.c, r.m)[i];
            && p < |r.m| && LineOf(Pow2(log2AddrLs), a[i]) == r.m[p].tag
            && r.m[p].order == LastAccess(r.h, LineOf(Pow2(log2AddrLs), a[i]))
  {
    EntryMeans(r, Visited(r.t.c, r.m)[i], log2AddrLs);
  }

  /** The listing is in increasing order of last access. */
  lemma {:induction false} ListingInOrder(r: Run, log2AddrLs: nat, a: seq<nat>, i: nat, j: nat)
    requires IsListing(r, log2AddrLs, a) && i < j < |a|
    ensures var line := Pow2(log2AddrLs);
            LastAccess(r.h, LineOf(line, a[i])) < LastAccess(r.h, LineOf(line, a[j]))
  {
    ListingAt(r, log2AddrLs, a, i);
    ListingAt(r, log2AddrLs, a, j);
    VisitedInOrder(r, i, j);
  }

  /** Every resident tag but 0 whose last access was not the first of the run is listed. */
  lemma {:induction false} ListingComplete(r: Run, log2AddrLs: nat, a: seq<nat>, u: Tag)
    requires IsListing(r, log2AddrLs, a) && u != 0 && HitsNow(r, u) && LastAccess(r.h, u) != 0
    ensures exists i :: 0 <= i < |a| && LineOf(Pow2(log2AddrLs), a[i]) == u
  {
    VisitedTags(r, u);
    var v := Visited(r.t.c, r.m);
    var i :| 0 <= i < |v| && v[i] < |r.m| && r.m[v[i]].tag == u;
    ListingAt(r, log2AddrLs, a, i);
  }

  // ---- the code ----

  method Collect(content: array<nat>, mem: array<LineState>) returns (arr: array<nat>)
    requires Points(content[..], mem.Length)
    ensures fresh(arr) && arr[..] == Listed(content[..], mem[..], content.Length)
  {
    var buf := new nat[content.Length];
    var cnt := 0;
    ghost var c, m := content[..], mem[..];
    for i := 0 to content.Length
      invariant cnt <= i && buf[..cnt] == Listed(c, m, i)
    {
      var l := content[i];
      if mem[l].order != 0 {
        ghost var before := buf[..cnt];
        buf[cnt] := l;
        cnt := cnt + 1;
        assert buf[..cnt] == before + [l];
      }
    }
    arr := Copy(buf, 0, cnt);
    assert arr[..] == buf[..cnt];
  }

  method EmitAll(arr: array<nat>, mem: array<LineState>, log2AddrLs: nat) returns (addrs: seq<nat>)
    requires Points(arr[..], mem.Length)
    ensures addrs == Entries(mem[..], Tagged(mem[..], arr[..]), log2AddrLs)
  {
    addrs := [];
    ghost var s, m := arr[..], mem[..];
    for i := 0 to arr.Length
      invariant addrs == Entries(m, Tagged(m, s[..i]), log2AddrLs)
    {
      assert s[..i + 1][..i] == s[..i];
      var l := mem[arr[i]];
      if l.tag != 0 {
        addrs := addrs + [Entry(l, log2AddrLs)];
      }
    }
    assert s[..arr.Length] == s;
  }

  /** The addresses of the visited lines, least recently used first. */
  method Traverse(content: array<nat>, mem: array<LineState>, log2AddrLs: nat) returns (addrs: seq<nat>)
    requires Points(content[..], mem.Length)
    ensures addrs == Entries(mem[..], Visited(content[..], mem[..]), log2AddrLs)
  {
    var arr := Collect(content, mem);
    ghost var c, m := content[..], mem[..];
    forall i | 0 <= i < |arr[..]| ensures arr[..][i] < mem.Length {
      ListedMembers(c, m, |c|, arr[..][i]);
    }
    PointsKept(m, arr[..], mem.Length);
    SortPointers(arr, mem);
    addrs := EmitAll(arr, mem, log2AddrLs);
  }
}
