/** What the pointers and lines of the whole cache are after a run of accesses. */
module Tracking {
  import opened Collections
  import opened Recency
  import opened LineSet
  import opened Layout

  /** Hit and miss counters. */
  datatype Tally = Tally(readHit: nat, readMiss: nat, writeHit: nat, writeMiss: nat) {
    function Bump(write: bool, hit: bool): Tally {
      if write then
        if hit then this.(writeHit := writeHit + 1) else this.(writeMiss := writeMiss + 1)
      else
        if hit then this.(readHit := readHit + 1) else this.(readMiss := readMiss + 1)
    }
  }

  /** A whole-cache state together with the run that produced it: the pointers, the
      lines, the counters, the empty sets the run started from and its accesses. */
  datatype Snapshot = Snapshot(t: Table, m: seq<LineState>, n: Tally, init: seq<seq<LineState>>, h: seq<Access>)

  /** An access to `u` hits after the run `h` from the sets `init`. */
  ghost predicate HitsFrom(g: Geometry, init: seq<seq<LineState>>, h: seq<Access>, u: Tag) {
    && g.Sane() && g.setOf(u) < |init| && init[g.setOf(u)] != []
    && HitsAfter(init[g.setOf(u)], g, h, u)
  }

  /** The accesses of the run, counted by kind and outcome. */
  ghost function Tallied(g: Geometry, init: seq<seq<LineState>>, h: seq<Access>): Tally {
    if h == [] then Tally(0, 0, 0, 0)
    else
      var n := |h| - 1;
      Tallied(g, init, h[..n]).Bump(h[n].write, HitsFrom(g, init, h[..n], h[n].tag))
  }

  /** Set `s` is what the run `h` makes of the empty set `init`. */
  ghost predicate TracksSet(t: Arranged, m: seq<LineState>, init: seq<LineState>, s: nat, h: seq<Access>)
    requires |m| == |t.c| && s < t.g.sets
  {
    && |init| == t.g.assoc && Empty(init) && Completes(init, t.g, s, h)
    && SetView(t, m, s) == BlockAfter(init, t.g, s, h)
  }

  /** The lines past the last set are never touched. */
  ghost predicate TailEmpty(t: Arranged, m: seq<LineState>) {
    forall i :: Base(t.g.sets, t.g.assoc) <= i < |m| ==> m[i].tag == 0
  }

  /** Every set is what the run makes of its empty set. */
  ghost predicate IsRun(r: Snapshot) {
    && Laid(r.t) && |r.m| == |r.t.c| && |r.init| == r.t.g.sets
    && (forall s :: 0 <= s < r.t.g.sets ==> TracksSet(r.t, r.m, r.init[s], s, r.h))
    && TailEmpty(r.t, r.m)
    && r.n == Tallied(r.t.g, r.init, r.h)
  }

  type Run = r: Snapshot | IsRun(r)
    ghost witness Fresh(Identity(Geometry(1, 1, 0, 0, _ => 0), 1), [LineState(0, false, 0)])

  /** A cache of empty lines, before any access. */
  ghost function Fresh(t: Arranged, m: seq<LineState>): (r: Snapshot)
    requires |m| == |t.c| && forall i :: 0 <= i < |m| ==> m[i].tag == 0
    ensures IsRun(r) && r.t == t && r.m == m && r.h == [] && r.n == Tally(0, 0, 0, 0)
  {
    Snapshot(t, m, Tally(0, 0, 0, 0), seq(t.g.sets, s requires 0 <= s < t.g.sets => SetView(t, m, s)), [])
  }

  /** The lines of the set that tag `u` maps to. */
  ghost function SetFor(r: Run, u: Tag): (b: seq<LineState>)
    ensures b != [] && |b| == r.t.g.assoc
  {
    SetView(r.t, r.m, r.t.g.setOf(u))
  }

  /** An access the code completes: it hits, or its tag is not 0. */
  ghost predicate Accepted(r: Run, u: Tag) {
    u != 0 || HitsNow(r, u)
  }

  ghost function NextTable(r: Run, u: Tag): (t: Arranged)
    ensures t.g == r.t.g && |t.c| == |r.t.c|
  {
    Promote(r.t, r.t.g.setOf(u), Chosen(SetFor(r, u), u))
  }

  /** The line an access to `u` stamps. */
  ghost function Stamped(r: Run, u: Tag): (l: nat)
    ensures l < |r.m| && l < Base(r.t.g.sets, r.t.g.assoc)
  {
    BlocksDisjoint(r.t.g.setOf(u), r.t.g.sets, r.t.g.assoc);
    Target(r.t, r.t.g.setOf(u), Chosen(SetFor(r, u), u))
  }

  ghost function NextLines(r: Run, a: Access): seq<LineState> {
    r.m[Stamped(r, a.tag) := Stamp(SetFor(r, a.tag), a, |r.h|)]
  }

  /** A hit restamps its line; a write also marks it. */
  lemma {:induction false} LinesOnHit(r: Run, a: Access)
    requires HitsNow(r, a.tag)
    ensures var l := Stamped(r, a.tag);
            NextLines(r, a) == r.m[l := LineState(r.m[l].tag, a.write || r.m[l].st, |r.h|)]
  {
  }

  /** A miss overwrites the line it replaces. */
  lemma {:induction false} LinesOnMiss(r: Run, a: Access)
    requires !HitsNow(r, a.tag)
    ensures NextLines(r, a) == r.m[Stamped(r, a.tag) := LineState(a.tag, a.write, |r.h|)]
  {
  }

  lemma {:induction false} CompletesStep(init: seq<LineState>, g: Geometry, s: nat, h: seq<Access>, a: Access)
    requires g.Sane() && init != [] && Completes(init, g, s, h)
    requires a.tag == 0 && g.setOf(0) == s ==> FirstWay(BlockAfter(init, g, s, h), 0) < |init|
    ensures Completes(init, g, s, h + [a])
  {
    var h' := h + [a];
    forall i | 0 <= i < |h'| && h'[i].tag == 0 && g.setOf(0) == s
      ensures FirstWay(BlockAfter(init, g, s, h'[..i]), 0) < |init|
    {
      if i < |h| {
        assert h'[..i] == h[..i] && h[i] == h'[i];
      } else {
        assert h'[..i] == h;
      }
    }
  }

  lemma {:induction false} NextTracksSet(r: Run, a: Access, s: nat)
    requires Accepted(r, a.tag) && s < r.t.g.sets
    ensures TracksSet(NextTable(r, a.tag), NextLines(r, a), r.init[s], s, r.h + [a])
  {
    assert TracksSet(r.t, r.m, r.init[s], s, r.h);
    assert (r.h + [a])[..|r.h|] == r.h;
    CompletesStep(r.init[s], r.t.g, s, r.h, a);
    var own := r.t.g.setOf(a.tag);
    if s == own {
      OwnSetSteps(r.t, r.m, a, |r.h|);
    } else {
      OtherSetsKeep(r.t, r.m, own, Chosen(SetFor(r, a.tag), a.tag), Stamp(SetFor(r, a.tag), a, |r.h|), s);
    }
  }

  ghost predicate HitsNow(r: Run, u: Tag) {
    FirstWay(SetFor(r, u), u) < r.t.g.assoc
  }

  lemma {:induction false} NextTallied(r: Run, a: Access)
    ensures Tallied(r.t.g, r.init, r.h + [a]) == r.n.Bump(a.write, HitsNow(r, a.tag))
  {
  }

  lemma {:induction false} NextTracks(r: Run, a: Access)
    requires Accepted(r, a.tag)
    ensures forall s :: 0 <= s < r.t.g.sets ==>
              TracksSet(NextTable(r, a.tag), NextLines(r, a), r.init[s], s, r.h + [a])
  {
    forall s | 0 <= s < r.t.g.sets
      ensures TracksSet(NextTable(r, a.tag), NextLines(r, a), r.init[s], s, r.h + [a])
    {
      NextTracksSet(r, a, s);
    }
  }

  /** The state after one more access is again what the whole run makes of the
      empty sets. */
  ghost function Next(r: Run, a: Access): (r': Run)
    requires Accepted(r, a.tag)
    ensures r'.t == NextTable(r, a.tag) && r'.m == NextLines(r, a) && r'.init == r.init && r'.h == r.h + [a]
    ensures r'.n == r.n.Bump(a.write, HitsNow(r, a.tag))
  {
    NextTracks(r, a);
    NextTallied(r, a);
    Snapshot(NextTable(r, a.tag), NextLines(r, a), r.n.Bump(a.write, HitsNow(r, a.tag)), r.init, r.h + [a])
  }

  // ---- what holds of every run ----

  /** The tags of the set that are resident, most recently used first. */
  ghost function ResidentIn(r: Run, s: nat): seq<Tag>
    requires s < r.t.g.sets
  {
    Resident(Mine(r.t.g, s, r.h), r.t.g.assoc)
  }

  /** Stack distance: after any run, an access hits if and only if its tag was
      accessed before and fewer than `assoc` distinct other tags of its set were
      accessed since; tag 0 counts as accessed before the run. */
  lemma {:induction false} RunHits(r: Run, u: Tag)
    ensures HitsNow(r, u) <==> (Accessed(r.h, u) || u == 0) && |LineSet.Since(r.t.g, r.h, u)| < r.t.g.assoc
  {
    var s := r.t.g.setOf(u);
    assert TracksSet(r.t, r.m, r.init[s], s, r.h);
    HitIffStackDistance(r.init[s], r.t.g, r.h, u);
  }

  /** The stack-distance outcome of the access at position `i`: its tag came before,
      or is 0, and fewer than `assoc` distinct other tags of its set came since. */
  ghost predicate NearAt(g: Geometry, h: seq<Access>, i: nat)
    requires g.Sane() && i < |h|
  {
    var u := h[i].tag;
    (Accessed(h[..i], u) || u == 0) && |LineSet.Since(g, h[..i], u)| < g.assoc
  }

  /** An access of this kind with this stack-distance outcome. */
  ghost predicate OutcomeAt(g: Geometry, h: seq<Access>, i: nat, write: bool, near: bool)
    requires g.Sane() && i < |h|
  {
    h[i].write == write && NearAt(g, h, i) == near
  }

  /** How many of the first `n` accesses are of this kind with this outcome. */
  ghost function Outcomes(g: Geometry, h: seq<Access>, n: nat, write: bool, near: bool): nat
    requires g.Sane() && n <= |h|
  {
    |set i: nat | i < n && OutcomeAt(g, h, i, write, near)|
  }

  lemma {:induction false} OutcomesStep(g: Geometry, h: seq<Access>, n: nat, write: bool, near: bool)
    requires g.Sane() && n < |h|
    ensures Outcomes(g, h, n + 1, write, near) ==
            Outcomes(g, h, n, write, near) + if OutcomeAt(g, h, n, write, near) then 1 else 0
  {
    var before := set i: nat | i < n && OutcomeAt(g, h, i, write, near);
    var after := set i: nat | i < n + 1 && OutcomeAt(g, h, i, write, near);
    if OutcomeAt(g, h, n, write, near) {
      assert after == before + {n};
    } else {
      assert after == before;
    }
  }

  ghost function Counted(g: Geometry, h: seq<Access>, n: nat): Tally
    requires g.Sane() && n <= |h|
  {
    Tally(Outcomes(g, h, n, false, true), Outcomes(g, h, n, false, false),
          Outcomes(g, h, n, true, true), Outcomes(g, h, n, true, false))
  }

  lemma {:induction false} CountedStep(g: Geometry, h: seq<Access>, n: nat)
    requires g.Sane() && n < |h|
    ensures Counted(g, h, n + 1) == Counted(g, h, n).Bump(h[n].write, NearAt(g, h, n))
  {
    OutcomesStep(g, h, n, false, true);
    OutcomesStep(g, h, n, false, false);
    OutcomesStep(g, h, n, true, true);
    OutcomesStep(g, h, n, true, false);
  }

  lemma {:induction false} PrefixHits(r: Run, n: nat)
    requires n < |r.h|
    ensures HitsFrom(r.t.g, r.init, r.h[..n], r.h[n].tag) <==> NearAt(r.t.g, r.h, n)
  {
    var s := r.t.g.setOf(r.h[n].tag);
    assert TracksSet(r.t, r.m, r.init[s], s, r.h);
    CompletesPrefix(r.init[s], r.t.g, s, r.h, n);
    HitIffStackDistance(r.init[s], r.t.g, r.h[..n], r.h[n].tag);
  }

  lemma {:induction false} NoneCounted(g: Geometry, h: seq<Access>)
    requires g.Sane()
    ensures Counted(g, h, 0) == Tally(0, 0, 0, 0)
  {
  }

  lemma {:induction false} TalliedStep(g: Geometry, init: seq<seq<LineState>>, h: seq<Access>, n: nat)
    requires n < |h|
    ensures Tallied(g, init, h[..n + 1]) ==
            Tallied(g, init, h[..n]).Bump(h[n].write, HitsFrom(g, init, h[..n], h[n].tag))
  {
    assert h[..n + 1][..n] == h[..n];
  }

  /** Where hits are by stack distance, so are the counters. */
  lemma {:induction false} TalliedIsCounted(g: Geometry, init: seq<seq<LineState>>, h: seq<Access>, n: nat)
    requires g.Sane() && n <= |h|
    requires forall i :: 0 <= i < |h| ==> (HitsFrom(g, init, h[..i], h[i].tag) <==> NearAt(g, h, i))
    ensures Tallied(g, init, h[..n]) == Counted(g, h, n)
  {
    if n == 0 {
      NoneCounted(g, h);
    } else {
      TalliedIsCounted(g, init, h, n - 1);
      TalliedStep(g, init, h, n - 1);
      CountedStep(g, h, n - 1);
    }
  }

  /** Each counter is the number of positions of the run with that kind of access
      and that stack-distance outcome. */
  lemma {:induction false} RunCounters(r: Run)
    ensures var g, h := r.t.g, r.h;
            && r.n.readHit == |set i: nat | i < |h| && !h[i].write && NearAt(g, h, i)|
            && r.n.readMiss == |set i: nat | i < |h| && !h[i].write && !NearAt(g, h, i)|
            && r.n.writeHit == |set i: nat | i < |h| && h[i].write && NearAt(g, h, i)|
            && r.n.writeMiss == |set i: nat | i < |h| && h[i].write && !NearAt(g, h, i)|
  {
    var g, h := r.t.g, r.h;
    forall i | 0 <= i < |h| ensures HitsFrom(g, r.init, h[..i], h[i].tag) <==> NearAt(g, h, i) {
      PrefixHits(r, i);
    }
    TalliedIsCounted(g, r.init, h, |h|);
    assert h[..|h|] == h;
    assert (set i: nat | i < |h| && OutcomeAt(g, h, i, false, true))
        == set i: nat | i < |h| && !h[i].write && NearAt(g, h, i);
    assert (set i: nat | i < |h| && OutcomeAt(g, h, i, false, false))
        == set i: nat | i < |h| && !h[i].write && !NearAt(g, h, i);
    assert (set i: nat | i < |h| && OutcomeAt(g, h, i, true, true))
        == set i: nat | i < |h| && h[i].write && NearAt(g, h, i);
    assert (set i: nat | i < |h| && OutcomeAt(g, h, i, true, false))
        == set i: nat | i < |h| && h[i].write && !NearAt(g, h, i);
  }

  /** The tag was written at `j`, and every later access to it was near enough to hit. */
  ghost predicate StoredAt(g: Geometry, h: seq<Access>, u: Tag, j: nat)
    requires g.Sane()
  {
    && j < |h| && h[j] == Access(u, true)
    && forall i :: j < i < |h| && h[i].tag == u ==> NearAt(g, h, i)
  }

  lemma {:induction false} StoredIsDirty(r: Run, u: Tag)
    ensures (exists j: nat :: StoredAt(r.t.g, r.h, u, j)) <==> Dirty(r.init[r.t.g.setOf(u)], r.t.g, r.h, u)
  {
    var g, h, init := r.t.g, r.h, r.init[r.t.g.setOf(u)];
    assert TracksSet(r.t, r.m, init, g.setOf(u), h);
    forall i | 0 <= i < |h| && h[i].tag == u ensures HitsAfter(init, g, h[..i], u) <==> NearAt(g, h, i) {
      PrefixHits(r, i);
    }
    forall j: nat ensures StoredAt(g, h, u, j) <==> WroteAt(init, g, h, u, j) {}
  }

  /** Way `i` of set `s` shows its recency list, and a touched line carries the
      position of its last access and whether it was written since it came in. */
  lemma {:induction false} RunSet(r: Run, s: nat)
    requires s < r.t.g.sets
    ensures Shows(SetView(r.t, r.m, s), ResidentIn(r, s)) && NoRepeats(ResidentIn(r, s))
    ensures forall u :: u in ResidentIn(r, s) ==> r.t.g.setOf(u) == s
    ensures Descending(SetView(r.t, r.m, s), |ResidentIn(r, s)|, |r.h|)
    ensures Faithful(SetView(r.t, r.m, s), |ResidentIn(r, s)|, r.init[s], r.t.g, r.h)
  {
    assert TracksSet(r.t, r.m, r.init[s], s, r.h);
    BlockShowsResident(r.init[s], r.t.g, s, r.h);
    BlockDescending(r.init[s], r.t.g, s, r.h);
    BlockFaithful(r.init[s], r.t.g, s, r.h);
    ResidentFacts(Mine(r.t.g, s, r.h), r.t.g.assoc);
    MineInSet(r.t.g, s, r.h);
  }

  /** The set whose block holds position `p`. */
  ghost function BlockAt(p: nat, sets: nat, ways: nat): (s: nat)
    requires p < Base(sets, ways)
    ensures s < sets && Base(s, ways) <= p < Base(s, ways) + ways
  {
    if Base(sets - 1, ways) <= p then sets - 1 else BlockAt(p, sets - 1, ways)
  }

  /** The line at position `p` of the pointer array. */
  ghost function LineAt(r: Run, p: nat): LineState
    requires p < |r.t.c|
  {
    r.m[r.t.c[p]]
  }

  /** A line with a nonzero tag is a resident line of its own set. */
  lemma {:induction false} LineAtSet(r: Run, p: nat)
    requires p < |r.t.c| && LineAt(r, p).tag != 0
    ensures var u := LineAt(r, p).tag;
            var s := r.t.g.setOf(u);
            && u in ResidentIn(r, s)
            && FaithfulLine(LineAt(r, p), r.init[s], r.t.g, r.h)
            && p == Start(r.t, s) + IndexOf(ResidentIn(r, s), u)
  {
    var g := r.t.g;
    assert p < Base(g.sets, g.assoc);
    var s := BlockAt(p, g.sets, g.assoc);
    var i := p - Start(r.t, s);
    RunSet(r, s);
    assert SetView(r.t, r.m, s)[i] == LineAt(r, p);
    assert ResidentIn(r, s)[i] == LineAt(r, p).tag;
  }

  /** No nonzero tag is held twice. */
  lemma {:induction false} LinesDiffer(r: Run, p: nat, q: nat)
    requires p < |r.t.c| && q < |r.t.c| && p != q && LineAt(r, p).tag != 0
    ensures LineAt(r, p).tag != LineAt(r, q).tag
  {
    if LineAt(r, p).tag == LineAt(r, q).tag {
      LineAtSet(r, p);
      LineAtSet(r, q);
    }
  }

  /** A tag that hits is at some position. */
  lemma {:induction false} HeldSomewhere(r: Run, u: Tag) returns (p: nat)
    requires HitsNow(r, u)
    ensures p < |r.t.c| && LineAt(r, p).tag == u
  {
    var s := r.t.g.setOf(u);
    var k := FirstWay(SetFor(r, u), u);
    p := Start(r.t, s) + k;
    assert SetFor(r, u)[k] == LineAt(r, p);
  }
}
