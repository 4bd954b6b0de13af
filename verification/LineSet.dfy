/** One set of the cache as a list of line values, most recently used first, and
    what a whole run of accesses makes of it. */
module LineSet {
  import opened Collections
  import opened Recency

  /** A cache line.  The store flag and the order stamp of a line that was never
      accessed are arbitrary; its tag is 0. */
  datatype LineState = LineState(tag: Tag, st: bool, order: nat)

  datatype Access = Access(tag: Tag, write: bool)

  /** The fields of the cache that never change: `setOf` is the set a tag selects. */
  datatype Geometry = Geometry(sets: nat, assoc: nat, log2Assoc: nat, log2AddrLs: nat, setOf: Tag -> nat) {
    ghost predicate Sane() {
      1 <= sets && 1 <= assoc && forall t :: setOf(t) < sets
    }
  }

  /** Where the element at `i` comes from when the one at `k` moves to the front. */
  function From(k: nat, i: nat): nat {
    if i == 0 then k else if i <= k then i - 1 else i
  }

  /** `s` with the element at `k` moved to the front. */
  function Front<T>(s: seq<T>, k: nat): (r: seq<T>)
    requires k < |s|
    ensures |r| == |s|
  {
    seq(|s|, i requires 0 <= i < |s| => s[From(k, i)])
  }

  /** The first way that shows `t`, or `|b|` if none does. */
  function FirstWay(b: seq<LineState>, t: Tag): (k: nat)
    ensures k <= |b|
    ensures forall i :: 0 <= i < k ==> b[i].tag != t
    ensures k < |b| ==> b[k].tag == t
  {
    if b == [] || b[0].tag == t then 0 else 1 + FirstWay(b[1..], t)
  }

  /** What an access stores in the line it moves to the front. */
  function Stamp(b: seq<LineState>, a: Access, now: nat): LineState {
    var k := FirstWay(b, a.tag);
    LineState(a.tag, a.write || (k < |b| && b[k].st), now)
  }

  /** The way an access moves to the front: the one it hits, else the oldest. */
  function Chosen(b: seq<LineState>, t: Tag): (k: nat)
    requires b != []
    ensures k < |b|
  {
    var k := FirstWay(b, t);
    if k < |b| then k else |b| - 1
  }

  /** The set after an access stamped `now`. */
  function Step(b: seq<LineState>, a: Access, now: nat): (r: seq<LineState>)
    requires b != []
    ensures |r| == |b|
  {
    Front(b, Chosen(b, a.tag))[0 := Stamp(b, a, now)]
  }

  /** Set `s` after the accesses `h`, each stamped with its position in the run. */
  ghost function BlockAfter(init: seq<LineState>, g: Geometry, s: nat, h: seq<Access>): (b: seq<LineState>)
    requires g.Sane() && init != []
    ensures |b| == |init|
  {
    if h == [] then init
    else
      var n := |h| - 1;
      var b := BlockAfter(init, g, s, h[..n]);
      if g.setOf(h[n].tag) == s then Step(b, h[n], n) else b
  }

  /** The tags of the accesses that go to set `s`. */
  ghost function Mine(g: Geometry, s: nat, h: seq<Access>): seq<Tag>
    requires g.Sane()
  {
    if h == [] then []
    else
      var n := |h| - 1;
      Mine(g, s, h[..n]) + if g.setOf(h[n].tag) == s then [h[n].tag] else []
  }

  /** The tag a set shows at way `i` when its recency list is `r`. */
  ghost function TagAt(r: seq<Tag>, i: nat): Tag {
    if i < |r| then r[i] else 0
  }

  ghost predicate Shows(b: seq<LineState>, r: seq<Tag>) {
    |r| <= |b| && forall i :: 0 <= i < |b| ==> b[i].tag == TagAt(r, i)
  }

  ghost predicate Empty(init: seq<LineState>) {
    init != [] && forall i :: 0 <= i < |init| ==> init[i].tag == 0
  }

  /** A set hits `t` exactly when its recency list does. */
  lemma {:induction false} HitIff(b: seq<LineState>, r: seq<Tag>, t: Tag)
    requires Shows(b, r)
    ensures FirstWay(b, t) < |b| <==> Hits(r, t, |b|)
  {
    var k := FirstWay(b, t);
    if t in r {
      var i := IndexOf(r, t);
      assert b[i].tag == t;
    } else if t == 0 && |r| < |b| {
      assert b[|r|].tag == 0;
    }
  }

  /** The position of `t` in the recency list, if it is there. */
  lemma {:induction false} FirstWayIsIndex(b: seq<LineState>, r: seq<Tag>, t: Tag)
    requires Shows(b, r) && NoRepeats(r)
    ensures var k := FirstWay(b, t);
            k < |b| ==> if t in r then k < |r| && r[k] == t else k == |r| && t == 0
  {
    var k := FirstWay(b, t);
    if k < |b| {
      if t in r {
        var i := IndexOf(r, t);
        assert b[i].tag == t;
      } else if t == 0 && |r| < |b| {
        assert b[|r|].tag == 0;
      }
    }
  }

  /** A step on the lines is a touch of the recency list, unless it is the tag-0
      miss that the code refuses. */
  lemma {:induction false} StepShows(b: seq<LineState>, r: seq<Tag>, a: Access, now: nat)
    requires b != [] && Shows(b, r) && NoRepeats(r)
    requires a.tag != 0 || FirstWay(b, a.tag) < |b|
    ensures Shows(Step(b, a, now), Touch(r, a.tag, |b|))
  {
    var t, k := a.tag, FirstWay(b, a.tag);
    FirstWayIsIndex(b, r, t);
    HitIff(b, r, t);
    if t in r {
      assert k < |r|;
      WithoutAt(r, k);
      ShowsMoved(b, r, k, Stamp(b, a, now));
    } else {
      WithoutAbsent(r, t);
      ShowsPushed(b, r, Chosen(b, t), Stamp(b, a, now));
    }
  }

  lemma {:induction false} ShowsMoved(b: seq<LineState>, r: seq<Tag>, k: nat, x: LineState)
    requires Shows(b, r) && k < |r| && x.tag == r[k]
    ensures Shows(Front(b, k)[0 := x], Take([x.tag] + (r[..k] + r[k + 1..]), |b|))
  {
  }

  lemma {:induction false} ShowsPushed(b: seq<LineState>, r: seq<Tag>, k: nat, x: LineState)
    requires Shows(b, r) && |r| <= k + 1 && k < |b| && (k == |r| || k == |b| - 1)
    ensures Shows(Front(b, k)[0 := x], Take([x.tag] + r, |b|))
  {
  }

  /** Runs that the code completes: no access is a tag-0 miss. */
  ghost predicate Completes(init: seq<LineState>, g: Geometry, s: nat, h: seq<Access>)
    requires g.Sane() && init != []
  {
    forall i :: 0 <= i < |h| && h[i].tag == 0 && g.setOf(0) == s ==>
      FirstWay(BlockAfter(init, g, s, h[..i]), 0) < |init|
  }

  lemma {:induction false} CompletesPrefix(init: seq<LineState>, g: Geometry, s: nat, h: seq<Access>, n: nat)
    requires g.Sane() && init != [] && Completes(init, g, s, h) && n <= |h|
    ensures Completes(init, g, s, h[..n])
  {
    forall i | 0 <= i < n ensures h[..n][..i] == h[..i] {}
  }

  /** The lines of a set refine its recency list, over every run. */
  lemma {:induction false} BlockShowsResident(init: seq<LineState>, g: Geometry, s: nat, h: seq<Access>)
    requires g.Sane() && Empty(init) && Completes(init, g, s, h)
    ensures Shows(BlockAfter(init, g, s, h), Resident(Mine(g, s, h), |init|))
  {
    if h != [] {
      var n := |h| - 1;
      var h', m' := h[..n], Mine(g, s, h[..n]);
      CompletesPrefix(init, g, s, h, n);
      BlockShowsResident(init, g, s, h');
      if g.setOf(h[n].tag) == s {
        ResidentFacts(m', |init|);
        assert Mine(g, s, h)[..|m'|] == m';
        StepShows(BlockAfter(init, g, s, h'), Resident(m', |init|), h[n], n);
      } else {
        assert Mine(g, s, h) == m';
      }
    }
  }

  // ---- hits ----

  /** The access hits after the run `h`. */
  ghost predicate HitsAfter(init: seq<LineState>, g: Geometry, h: seq<Access>, t: Tag)
    requires g.Sane() && init != []
  {
    FirstWay(BlockAfter(init, g, g.setOf(t), h), t) < |init|
  }

  ghost predicate Accessed(h: seq<Access>, t: Tag) {
    exists j :: 0 <= j < |h| && h[j].tag == t
  }

  /** The distinct other tags of the same set accessed since the last access to
      `t`, or since the start of the run if there was none. */
  ghost function Since(g: Geometry, h: seq<Access>, t: Tag): set<Tag>
    requires g.Sane()
  {
    set j | 0 <= j < |h| && g.setOf(h[j].tag) == g.setOf(t) && Unused(h, t, j) :: h[j].tag
  }

  ghost predicate Unused(h: seq<Access>, t: Tag, j: nat) {
    forall i :: j <= i < |h| ==> h[i].tag != t
  }

  lemma {:induction false} MineMembers(g: Geometry, h: seq<Access>, t: Tag)
    requires g.Sane()
    ensures t in Mine(g, g.setOf(t), h) <==> Accessed(h, t)
  {
    if h != [] {
      var n := |h| - 1;
      MineMembers(g, h[..n], t);
      assert h == h[..n] + [h[n]];
      if Accessed(h, t) && h[n].tag != t {
        var j :| 0 <= j < |h| && h[j].tag == t;
        assert h[..n][j].tag == t;
      }
    }
  }

  lemma {:induction false} SinceMine(g: Geometry, h: seq<Access>, t: Tag)
    requires g.Sane()
    ensures Since(g, h, t) == Recency.Since(Mine(g, g.setOf(t), h), t)
  {
    var s := g.setOf(t);
    if h == [] {
    } else {
      var n := |h| - 1;
      var h', m, m' := h[..n], Mine(g, s, h), Mine(g, s, h[..n]);
      SinceMine(g, h', t);
      SinceLast(g, h, t);
      if g.setOf(h[n].tag) == s {
        assert m[..|m| - 1] == m';
        SinceStep(m, t);
      } else {
        assert m == m';
      }
    }
  }

  lemma {:induction false} SinceLast(g: Geometry, h: seq<Access>, t: Tag)
    requires g.Sane() && h != []
    ensures var n, u := |h| - 1, h[|h| - 1].tag;
            Since(g, h, t) == if u == t then {}
                              else Since(g, h[..n], t) + (if g.setOf(u) == g.setOf(t) then {u} else {})
  {
  }

  /** Stack distance over whole runs: an access hits if and only if its tag was
      accessed before and fewer than `assoc` distinct other tags of its set were
      accessed since.  The empty lines of a set carry tag 0, so tag 0 counts as
      accessed before the run. */
  lemma {:induction false} HitIffStackDistance(init: seq<LineState>, g: Geometry, h: seq<Access>, t: Tag)
    requires g.Sane() && Empty(init) && Completes(init, g, g.setOf(t), h)
    ensures HitsAfter(init, g, h, t) <==> (Accessed(h, t) || t == 0) && |Since(g, h, t)| < |init|
  {
    var s := g.setOf(t);
    var m := Mine(g, s, h);
    BlockShowsResident(init, g, s, h);
    HitIff(BlockAfter(init, g, s, h), Resident(m, |init|), t);
    StackDistance(m, |init|, t);
    SinceMine(g, h, t);
    MineMembers(g, h, t);
  }

  // ---- stamps and store flags ----

  /** Position of the last access to `t`, or -1 if there was none. */
  ghost function LastAccess(h: seq<Access>, t: Tag): (i: int)
    ensures -1 <= i < |h|
    ensures i >= 0 ==> h[i].tag == t
    ensures forall j :: i < j < |h| ==> h[j].tag != t
  {
    if h == [] then -1
    else if h[|h| - 1].tag == t then |h| - 1
    else LastAccess(h[..|h| - 1], t)
  }

  /** The tag was written at `j`, and every later access to it hit. */
  ghost predicate WroteAt(init: seq<LineState>, g: Geometry, h: seq<Access>, t: Tag, j: nat)
    requires g.Sane() && init != []
  {
    && j < |h| && h[j] == Access(t, true)
    && forall i :: j < i < |h| && h[i].tag == t ==> HitsAfter(init, g, h[..i], t)
  }

  /** The tag was written since it was last brought in. */
  ghost predicate Dirty(init: seq<LineState>, g: Geometry, h: seq<Access>, t: Tag)
    requires g.Sane() && init != []
  {
    exists j: nat :: WroteAt(init, g, h, t, j)
  }

  lemma {:induction false} WroteAtStep(init: seq<LineState>, g: Geometry, h: seq<Access>, t: Tag, j: nat)
    requires g.Sane() && init != [] && h != [] && j < |h| - 1
    ensures var n := |h| - 1;
            WroteAt(init, g, h, t, j) <==>
            WroteAt(init, g, h[..n], t, j) && (h[n].tag == t ==> HitsAfter(init, g, h[..n], t))
  {
    var n := |h| - 1;
    var h' := h[..n];
    forall i | 0 <= i < n ensures h'[..i] == h[..i] && h'[i] == h[i] {}
    if WroteAt(init, g, h, t, j) {
      forall i | j < i < n && h'[i].tag == t ensures HitsAfter(init, g, h'[..i], t) {
        assert h[i].tag == t;
      }
    } else if h[j] == Access(t, true) {
      var i :| j < i < |h| && h[i].tag == t && !HitsAfter(init, g, h[..i], t);
      assert i < n ==> h'[i].tag == t;
    }
  }

  /** How the last access decides whether a tag is dirty. */
  lemma {:induction false} DirtyStep(init: seq<LineState>, g: Geometry, h: seq<Access>, t: Tag)
    requires g.Sane() && init != [] && h != []
    ensures var n := |h| - 1;
            Dirty(init, g, h, t) <==>
            if h[n].tag == t then h[n].write || (HitsAfter(init, g, h[..n], t) && Dirty(init, g, h[..n], t))
            else Dirty(init, g, h[..n], t)
  {
    var n := |h| - 1;
    if h[n] == Access(t, true) {
      assert WroteAt(init, g, h, t, n);
    }
    if Dirty(init, g, h, t) {
      var j: nat :| WroteAt(init, g, h, t, j);
      if j < n {
        WroteAtStep(init, g, h, t, j);
      }
    }
    if Dirty(init, g, h[..n], t) {
      var j: nat :| WroteAt(init, g, h[..n], t, j);
      WroteAtStep(init, g, h, t, j);
    }
  }

  /** The touched lines are stamped with their last access, and marked as stores
      exactly when they are dirty. */
  ghost predicate Faithful(b: seq<LineState>, touched: nat, init: seq<LineState>, g: Geometry, h: seq<Access>)
    requires g.Sane() && init != []
  {
    forall i :: 0 <= i < touched && i < |b| ==> FaithfulLine(b[i], init, g, h)
  }

  ghost predicate FaithfulLine(l: LineState, init: seq<LineState>, g: Geometry, h: seq<Access>)
    requires g.Sane() && init != []
  {
    && l.order == LastAccess(h, l.tag)
    && (l.tag != 0 ==> (l.st <==> Dirty(init, g, h, l.tag)))
  }

  lemma {:induction false} FaithfulKept(l: LineState, init: seq<LineState>, g: Geometry, h: seq<Access>)
    requires g.Sane() && init != [] && h != [] && h[|h| - 1].tag != l.tag
    requires FaithfulLine(l, init, g, h[..|h| - 1])
    ensures FaithfulLine(l, init, g, h)
  {
    DirtyStep(init, g, h, l.tag);
  }

  /** Over every run, a set's lines are faithful to the run. */
  lemma {:induction false} BlockFaithful(init: seq<LineState>, g: Geometry, s: nat, h: seq<Access>)
    requires g.Sane() && Empty(init) && Completes(init, g, s, h)
    ensures Faithful(BlockAfter(init, g, s, h), |Resident(Mine(g, s, h), |init|)|, init, g, h)
  {
    if h == [] {
    } else {
      var n, ways := |h| - 1, |init|;
      var h', m' := h[..n], Mine(g, s, h[..n]);
      var b, r := BlockAfter(init, g, s, h'), Resident(m', ways);
      CompletesPrefix(init, g, s, h, n);
      BlockFaithful(init, g, s, h');
      BlockShowsResident(init, g, s, h');
      ResidentFacts(m', ways);
      if g.setOf(h[n].tag) == s {
        assert Mine(g, s, h)[..|m'|] == m';
        FaithfulStep(b, r, init, g, s, h);
      } else {
        assert Mine(g, s, h) == m';
        forall i | 0 <= i < |r| ensures FaithfulLine(b[i], init, g, h) {
          ResidentInSet(g, s, h', ways, i);
          FaithfulKept(b[i], init, g, h);
        }
      }
    }
  }

  lemma {:induction false} MineInSet(g: Geometry, s: nat, h: seq<Access>)
    requires g.Sane()
    ensures forall t :: t in Mine(g, s, h) ==> g.setOf(t) == s
  {
    if h != [] {
      MineInSet(g, s, h[..|h| - 1]);
    }
  }

  lemma {:induction false} ResidentInSet(g: Geometry, s: nat, h: seq<Access>, ways: nat, i: nat)
    requires g.Sane() && i < |Resident(Mine(g, s, h), ways)|
    ensures g.setOf(Resident(Mine(g, s, h), ways)[i]) == s
  {
    MineInSet(g, s, h);
    ResidentFacts(Mine(g, s, h), ways);
  }

  lemma {:induction false} FaithfulStep(b: seq<LineState>, r: seq<Tag>, init: seq<LineState>, g: Geometry, s: nat,
                                        h: seq<Access>)
    requires g.Sane() && init != [] && h != [] && |b| == |init|
    requires g.setOf(h[|h| - 1].tag) == s && b == BlockAfter(init, g, s, h[..|h| - 1])
    requires Shows(b, r) && NoRepeats(r) && Faithful(b, |r|, init, g, h[..|h| - 1])
    requires h[|h| - 1].tag != 0 || FirstWay(b, h[|h| - 1].tag) < |b|
    ensures Faithful(Step(b, h[|h| - 1], |h| - 1), |Touch(r, h[|h| - 1].tag, |init|)|, init, g, h)
  {
    var n := |h| - 1;
    var a, k := h[n], FirstWay(b, h[n].tag);
    FirstWayIsIndex(b, r, a.tag);
    HitIff(b, r, a.tag);
    DirtyStep(init, g, h, a.tag);
    var b' := Step(b, a, n);
    assert FaithfulLine(b'[0], init, g, h);
    TouchSize(r, a.tag, |init|);
    forall i | 0 < i < |Touch(r, a.tag, |init|)| && i < |b'|
      ensures FaithfulLine(b'[i], init, g, h)
    {
      var c := Chosen(b, a.tag);
      var j := From(c, i);
      assert b'[i] == b[j] && j < |r|;
      assert b[j].tag == r[j];
      assert a.tag in r ==> c == k;
      FaithfulKept(b[j], init, g, h);
    }
  }

  lemma {:induction false} TouchSize(r: seq<Tag>, t: Tag, ways: nat)
    requires NoRepeats(r) && |r| <= ways
    ensures |Touch(r, t, ways)| == if t in r || |r| == ways then |r| else |r| + 1
  {
    if t in r {
      WithoutAt(r, IndexOf(r, t));
    } else {
      WithoutAbsent(r, t);
    }
  }

  /** Among the touched lines of a set, position is strictly decreasing in stamp. */
  ghost predicate Descending(b: seq<LineState>, touched: nat, now: nat) {
    && touched <= |b|
    && (forall i :: 0 <= i < touched ==> b[i].order < now)
    && (forall i, j :: 0 <= i < j < touched ==> b[i].order > b[j].order)
  }

  lemma {:induction false} BlockDescending(init: seq<LineState>, g: Geometry, s: nat, h: seq<Access>)
    requires g.Sane() && Empty(init) && Completes(init, g, s, h)
    ensures Descending(BlockAfter(init, g, s, h), |Resident(Mine(g, s, h), |init|)|, |h|)
  {
    if h != [] {
      var n, ways := |h| - 1, |init|;
      var h', m' := h[..n], Mine(g, s, h[..n]);
      var b, r := BlockAfter(init, g, s, h'), Resident(m', ways);
      CompletesPrefix(init, g, s, h, n);
      BlockDescending(init, g, s, h');
      BlockShowsResident(init, g, s, h');
      ResidentFacts(m', ways);
      if g.setOf(h[n].tag) == s {
        assert Mine(g, s, h)[..|m'|] == m';
        DescendingStep(b, r, h[n], n);
      } else {
        assert Mine(g, s, h) == m';
      }
    }
  }

  lemma {:induction false} DescendingStep(b: seq<LineState>, r: seq<Tag>, a: Access, now: nat)
    requires b != [] && Shows(b, r) && NoRepeats(r) && Descending(b, |r|, now)
    requires a.tag != 0 || FirstWay(b, a.tag) < |b|
    ensures Descending(Step(b, a, now), |Touch(r, a.tag, |b|)|, now + 1)
  {
    TouchSize(r, a.tag, |b|);
    FirstWayIsIndex(b, r, a.tag);
    HitIff(b, r, a.tag);
    var b', c, n := Step(b, a, now), Chosen(b, a.tag), |Touch(r, a.tag, |b|)|;
    forall i | 0 < i < n ensures From(c, i) < |r| && b'[i] == b[From(c, i)] && b'[i].order < now {}
    forall i, j | 0 <= i < j < n ensures b'[i].order > b'[j].order {
      if i > 0 {
        assert From(c, i) < From(c, j);
      }
    }
  }
}
