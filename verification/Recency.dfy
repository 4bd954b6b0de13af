/** The specification of one set of an LRU cache: what the set holds after a run
    of accesses, and the stack-distance law that decides which accesses hit. */
module Recency {
  import opened Collections

  type Tag = nat

  /** `s` with every occurrence of `t` removed. */
  function Without(s: seq<Tag>, t: Tag): seq<Tag> {
    if s == [] then [] else (if s[0] == t then [] else [s[0]]) + Without(s[1..], t)
  }

  function Take(s: seq<Tag>, n: nat): seq<Tag> {
    if n <= |s| then s[..n] else s
  }

  /** The recency list after an access to `t`, cut to `ways` entries. */
  function Touch(s: seq<Tag>, t: Tag, ways: nat): seq<Tag> {
    Take([t] + Without(s, t), ways)
  }

  /** The touched tags a set of `ways` ways holds after the accesses `h` to it,
      most recently used first. */
  ghost function Resident(h: seq<Tag>, ways: nat): seq<Tag> {
    if h == [] then []
    else
      var s := Resident(h[..|h| - 1], ways);
      var t := h[|h| - 1];
      Touch(s, t, ways)
  }

  /** The recency stack of a set with unboundedly many ways. */
  ghost function Stack(h: seq<Tag>): seq<Tag> {
    if h == [] then []
    else
      var s := Stack(h[..|h| - 1]);
      var t := h[|h| - 1];
      [t] + Without(s, t)
  }

  /** An access hits when its tag is resident.  A set starts filled with lines of
      tag 0, so an access to tag 0 also hits while some line is still untouched. */
  predicate Hits(s: seq<Tag>, t: Tag, ways: nat) {
    t in s || (t == 0 && |s| < ways)
  }

  /** The distinct tags accessed after the last access to `t`, or since the start
      of the run if there was none. */
  ghost function Since(h: seq<Tag>, t: Tag): set<Tag> {
    set j | 0 <= j < |h| && t !in h[j..] :: h[j]
  }

  // ---- removing a tag ----

  lemma {:induction false} WithoutMember(s: seq<Tag>, t: Tag, u: Tag)
    ensures u in Without(s, t) <==> u in s && u != t
  {
    if s != [] {
      WithoutMember(s[1..], t, u);
      assert s == [s[0]] + s[1..];
    }
  }

  lemma {:induction false} WithoutAbsent(s: seq<Tag>, t: Tag)
    requires t !in s
    ensures Without(s, t) == s
  {
    if s != [] {
      WithoutAbsent(s[1..], t);
    }
  }

  lemma {:induction false} WithoutAppend(a: seq<Tag>, b: seq<Tag>, t: Tag)
    ensures Without(a + b, t) == Without(a, t) + Without(b, t)
  {
    if a == [] {
      assert a + b == b;
    } else {
      assert (a + b)[1..] == a[1..] + b;
      WithoutAppend(a[1..], b, t);
    }
  }

  /** Removing the only occurrence, at index `i`. */
  lemma {:induction false} WithoutAt(s: seq<Tag>, i: nat)
    requires i < |s| && NoRepeats(s)
    ensures Without(s, s[i]) == s[..i] + s[i + 1..]
  {
    if i == 0 {
      WithoutAbsent(s[1..], s[0]);
    } else {
      var r := s[1..];
      WithoutAt(r, i - 1);
      assert r[..i - 1] + r[i..] == s[1..i] + s[i + 1..];
    }
  }

  lemma {:induction false} TouchNoDup(s: seq<Tag>, t: Tag)
    requires NoRepeats(s)
    ensures NoRepeats([t] + Without(s, t))
  {
    WithoutMember(s, t, t);
    if t in s {
      var i :| 0 <= i < |s| && s[i] == t;
      WithoutAt(s, i);
    } else {
      WithoutAbsent(s, t);
    }
  }

  lemma {:induction false} StackNoDup(h: seq<Tag>)
    ensures NoRepeats(Stack(h))
  {
    if h != [] {
      StackNoDup(h[..|h| - 1]);
      TouchNoDup(Stack(h[..|h| - 1]), h[|h| - 1]);
    }
  }

  lemma {:induction false} StackMembers(h: seq<Tag>, t: Tag)
    ensures t in Stack(h) <==> t in h
  {
    if h != [] {
      StackMembers(h[..|h| - 1], t);
      assert h == h[..|h| - 1] + [h[|h| - 1]];
      WithoutMember(Stack(h[..|h| - 1]), h[|h| - 1], t);
    }
  }

  // ---- a bounded set holds a prefix of the unbounded stack ----

  /** Touching commutes with cutting to `ways` entries. */
  lemma {:induction false} TouchTake(s: seq<Tag>, t: Tag, ways: nat)
    requires NoRepeats(s)
    ensures Touch(Take(s, ways), t, ways) == Take([t] + Without(s, t), ways)
  {
    if t in s {
      TouchTakePresent(s, IndexOf(s, t), ways);
    } else {
      WithoutAbsent(s, t);
      WithoutAbsent(Take(s, ways), t);
    }
  }

  lemma {:induction false} TouchTakePresent(s: seq<Tag>, i: nat, ways: nat)
    requires NoRepeats(s) && i < |s|
    ensures Touch(Take(s, ways), s[i], ways) == Take([s[i]] + Without(s, s[i]), ways)
  {
    if ways < |s| {
      var c := s[..ways];
      if i < ways {
        assert Without(c, s[i]) == c[..i] + c[i + 1..] by { WithoutAt(c, i); }
        assert Without(s, s[i]) == s[..i] + s[i + 1..] by { WithoutAt(s, i); }
        CutKept(s, i, ways);
      } else {
        assert Without(c, s[i]) == c by { WithoutAbsent(c, s[i]); }
        assert Without(s, s[i]) == s[..i] + s[i + 1..] by { WithoutAt(s, i); }
        CutDropped(s, i, ways);
      }
    } else {
      assert Take(s, ways) == s;
    }
  }

  lemma {:induction false} CutKept(s: seq<Tag>, i: nat, ways: nat)
    requires i < ways < |s|
    ensures Take([s[i]] + (s[..ways][..i] + s[..ways][i + 1..]), ways) == Take([s[i]] + (s[..i] + s[i + 1..]), ways)
  {
  }

  lemma {:induction false} CutDropped(s: seq<Tag>, i: nat, ways: nat)
    requires ways <= i < |s|
    ensures Take([s[i]] + s[..ways], ways) == Take([s[i]] + (s[..i] + s[i + 1..]), ways)
  {
  }

  /** LRU inclusion: `ways` ways hold exactly the top `ways` entries of the stack. */
  lemma {:induction false} ResidentIsStackPrefix(h: seq<Tag>, ways: nat)
    ensures Resident(h, ways) == Take(Stack(h), ways)
  {
    if h != [] {
      var h' := h[..|h| - 1];
      ResidentIsStackPrefix(h', ways);
      StackNoDup(h');
      TouchTake(Stack(h'), h[|h| - 1], ways);
    }
  }

  lemma {:induction false} ResidentFacts(h: seq<Tag>, ways: nat)
    ensures |Resident(h, ways)| <= ways
    ensures NoRepeats(Resident(h, ways))
    ensures forall t :: t in Resident(h, ways) ==> t in h
  {
    ResidentIsStackPrefix(h, ways);
    StackNoDup(h);
    forall t | t in Resident(h, ways)
      ensures t in h
    {
      StackMembers(h, t);
    }
  }

  // ---- depth in the stack is the number of distinct tags since the last use ----

  lemma {:induction false} SinceStep(h: seq<Tag>, t: Tag)
    requires h != []
    ensures Since(h, t) ==
            var u := h[|h| - 1];
            if u == t then {}
            else Since(h[..|h| - 1], t) + {u}
  {
  }

  /** The entries above `t` in the stack are the tags accessed since its last use;
      if `t` was never accessed, they are the whole stack. */
  lemma {:induction false} AboveIsSince(h: seq<Tag>, t: Tag, i: nat)
    requires i <= |Stack(h)|
    requires i < |Stack(h)| ==> Stack(h)[i] == t
    requires i == |Stack(h)| ==> t !in Stack(h)
    ensures Elems(Stack(h)[..i]) == Since(h, t)
  {
    if h == [] {
    } else {
      var h', u := h[..|h| - 1], h[|h| - 1];
      var s', s := Stack(h'), Stack(h);
      SinceStep(h, t);
      StackNoDup(h);
      StackNoDup(h');
      if u == t {
        assert s[0] == t;
        assert i == 0;
      } else {
        assert i > 0;
        AboveStep(s', u, t, i);
        var k := if t in s' then IndexOf(s', t) else |s'|;
        AboveIsSince(h', t, k);
      }
    }
  }

  lemma {:induction false} AboveStep(s: seq<Tag>, u: Tag, t: Tag, i: nat)
    requires NoRepeats(s) && u != t
    requires i <= |[u] + Without(s, u)|
    requires i < |[u] + Without(s, u)| ==> ([u] + Without(s, u))[i] == t
    requires i == |[u] + Without(s, u)| ==> t !in [u] + Without(s, u)
    ensures var k := if t in s then IndexOf(s, t) else |s|;
            Elems(([u] + Without(s, u))[..i]) == Elems(s[..k]) + {u}
  {
    var k := if t in s then IndexOf(s, t) else |s|;
    WithoutMember(s, u, t);
    TouchNoDup(s, u);
    if u in s {
      var p := IndexOf(s, u);
      WithoutAt(s, p);
      assert [u] + (s[..p] + s[p + 1..]) == [u] + s[..p] + s[p + 1..];
      AboveMoved(s, p, t, k, i);
    } else {
      WithoutAbsent(s, u);
      AbovePushed(s, u, t, k, i);
    }
  }

  /** `u` was not on the stack and is pushed. */
  lemma {:induction false} AbovePushed(s: seq<Tag>, u: Tag, t: Tag, k: nat, i: nat)
    requires NoRepeats([u] + s) && u != t
    requires k <= |s| && (k < |s| ==> s[k] == t) && (k == |s| ==> t !in s)
    requires i <= |s| + 1 && (i <= |s| ==> ([u] + s)[i] == t) && (i == |s| + 1 ==> t !in [u] + s)
    ensures Elems(([u] + s)[..i]) == Elems(s[..k]) + {u}
  {
    var r := [u] + s;
    if k < |s| {
      assert r[k + 1] == t;
    }
    assert i == k + 1;
    assert r[..i] == [u] + s[..k];
  }

  /** A duplicate-free list has one index, or none, for `t`. */
  lemma {:induction false} SameIndex(r: seq<Tag>, t: Tag, i: nat, k: nat)
    requires NoRepeats(r) && i <= |r| && k <= |r|
    requires if i < |r| then r[i] == t else t !in r
    requires if k < |r| then r[k] == t else t !in r
    ensures i == k
  {
  }

  /** `s[p]` moves to the front. */
  lemma {:induction false} AboveMoved(s: seq<Tag>, p: nat, t: Tag, k: nat, i: nat)
    requires NoRepeats(s) && p < |s| && s[p] != t
    requires NoRepeats([s[p]] + s[..p] + s[p + 1..])
    requires k <= |s| && (k < |s| ==> s[k] == t) && (k == |s| ==> t !in s)
    requires i <= |s| && (i < |s| ==> ([s[p]] + s[..p] + s[p + 1..])[i] == t)
    requires i == |s| ==> t !in [s[p]] + s[..p] + s[p + 1..]
    ensures Elems(([s[p]] + s[..p] + s[p + 1..])[..i]) == Elems(s[..k]) + {s[p]}
  {
    var u := s[p];
    var r := [u] + s[..p] + s[p + 1..];
    if k < p {
      assert r[k + 1] == t;
      assert i == k + 1;
      assert r[..i] == [u] + s[..k];
    } else {
      if k < |s| {
        assert r[k] == t;
      } else {
        assert forall j :: 0 <= j < |r| ==> r[j] in s;
      }
      SameIndex(r, t, i, k);
      assert r[..i] == [u] + (s[..p] + s[p + 1..k]);
      assert s[..k] == s[..p] + ([u] + s[p + 1..k]);
      ElemsAppend(s[..p], s[p + 1..k]);
      ElemsAppend([u], s[p + 1..k]);
      ElemsAppend(s[..p], [u] + s[p + 1..k]);
      ElemsAppend([u], s[..p] + s[p + 1..k]);
    }
  }

  lemma {:induction false} ElemsAppend(a: seq<Tag>, b: seq<Tag>)
    ensures Elems(a + b) == Elems(a) + Elems(b)
  {
  }

  /** Stack distance.  After any run `h` of accesses to a set, an access hits
      exactly when fewer than `ways` distinct tags were accessed since its last
      access; tag 0 counts as accessed before the run started. */
  lemma {:induction false} StackDistance(h: seq<Tag>, ways: nat, t: Tag)
    ensures Hits(Resident(h, ways), t, ways) <==>
            (t in h || t == 0) && |Since(h, t)| < ways
    ensures t in Resident(h, ways) <==> t in h && |Since(h, t)| < ways
  {
    var s := Stack(h);
    ResidentIsStackPrefix(h, ways);
    StackNoDup(h);
    StackMembers(h, t);
    var i := if t in s then IndexOf(s, t) else |s|;
    AboveIsSince(h, t, i);
    ElemsSize(s[..i]);
    assert |Since(h, t)| == i;
    assert t in Take(s, ways) <==> t in s && i < ways by {
      if t in s && i < ways { assert Take(s, ways)[i] == t; }
    }
  }
}
