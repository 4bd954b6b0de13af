/** How the cache core lays its sets out in one array of line pointers, and what a
    promotion of a pointer does to the lines each set shows. */
module Layout {
  import opened Bits
  import opened LineSet

  // ---- pointer arrays as values: a pointer is an index into the line array ----

  /** Where the pointer at `i` comes from when the one at `hi` moves down to `lo`. */
  function Source(lo: nat, hi: nat, i: nat): (j: nat)
    requires lo <= hi
    ensures j <= hi || j == i
  {
    if i == lo then hi else if lo < i <= hi then i - 1 else i
  }

  /** `c` with the pointer at `hi` moved down to `lo`, those in between shifted up. */
  function Promoted(c: seq<nat>, lo: nat, hi: nat): (r: seq<nat>)
    requires lo <= hi < |c|
    ensures |r| == |c|
  {
    seq(|c|, i requires 0 <= i < |c| => c[Source(lo, hi, i)])
  }

  ghost predicate Pointers(c: seq<nat>, n: nat) {
    |c| == n && forall i :: 0 <= i < n ==> c[i] < n
  }

  ghost predicate Differ(c: seq<nat>, i: nat, j: nat)
    requires i < |c| && j < |c|
  {
    c[i] != c[j]
  }

  ghost predicate Distinct(c: seq<nat>) {
    forall i, j :: 0 <= i < |c| && 0 <= j < |c| && i != j ==> Differ(c, i, j)
  }

  /** The lines that `ways` consecutive pointers show. */
  ghost function View(c: seq<nat>, m: seq<LineState>, lo: nat, ways: nat): (b: seq<LineState>)
    requires Pointers(c, |m|) && lo + ways <= |c|
    ensures |b| == ways
  {
    seq(ways, i requires 0 <= i < ways => m[c[lo + i]])
  }

  lemma {:induction false} PromotedPointers(c: seq<nat>, lo: nat, hi: nat)
    requires lo <= hi < |c| && Pointers(c, |c|) && Distinct(c)
    ensures Pointers(Promoted(c, lo, hi), |c|) && Distinct(Promoted(c, lo, hi))
  {
    var r := Promoted(c, lo, hi);
    forall i, j | 0 <= i < |c| && 0 <= j < |c| && i != j ensures Differ(r, i, j) {
      assert Differ(c, Source(lo, hi, i), Source(lo, hi, j));
    }
  }

  /** Promoting way `k` of a block moves its line to the front of that block. */
  lemma {:induction false} ViewPromoted(c: seq<nat>, m: seq<LineState>, lo: nat, k: nat, ways: nat)
    requires Pointers(c, |m|) && Distinct(c) && k < ways && lo + ways <= |c|
    ensures Pointers(Promoted(c, lo, lo + k), |m|)
    ensures View(Promoted(c, lo, lo + k), m, lo, ways) == Front(View(c, m, lo, ways), k)
  {
  }

  /** Writing the front line of a block changes the first entry of its view. */
  lemma {:induction false} ViewWritten(c: seq<nat>, m: seq<LineState>, lo: nat, ways: nat, x: LineState)
    requires Pointers(c, |m|) && Distinct(c) && 0 < ways && lo + ways <= |c|
    ensures View(c, m[c[lo] := x], lo, ways) == View(c, m, lo, ways)[0 := x]
  {
    forall i | lo < i < lo + ways ensures c[i] != c[lo] { assert Differ(c, i, lo); }
  }

  /** A block that neither operation touches keeps its view. */
  lemma {:induction false} ViewElsewhere(c: seq<nat>, m: seq<LineState>, lo: nat, k: nat, at: nat, ways: nat,
                                         x: LineState)
    requires Pointers(c, |m|) && Distinct(c) && k < ways && lo + ways <= |c| && at + ways <= |c|
    requires at + ways <= lo || lo + ways <= at
    ensures Pointers(Promoted(c, lo, lo + k), |m|)
    ensures View(Promoted(c, lo, lo + k), m[c[lo + k] := x], at, ways) == View(c, m, at, ways)
  {
    forall i | at <= i < at + ways ensures c[i] != c[lo + k] { assert Differ(c, i, lo + k); }
    PromotedPointers(c, lo, lo + k);
  }

  /** An access moves the chosen line to the front and writes it: a step of the set. */
  lemma {:induction false} ViewStep(c: seq<nat>, m: seq<LineState>, lo: nat, ways: nat, a: Access, now: nat)
    requires Pointers(c, |m|) && Distinct(c) && 0 < ways && lo + ways <= |c|
    ensures var b := View(c, m, lo, ways);
            var k := Chosen(b, a.tag);
            && Pointers(Promoted(c, lo, lo + k), |m|)
            && View(Promoted(c, lo, lo + k), m[c[lo + k] := Stamp(b, a, now)], lo, ways) == Step(b, a, now)
  {
    var b := View(c, m, lo, ways);
    var k := Chosen(b, a.tag);
    var c' := Promoted(c, lo, lo + k);
    ViewPromoted(c, m, lo, k, ways);
    PromotedPointers(c, lo, lo + k);
    ViewWritten(c', m, lo, ways, Stamp(b, a, now));
  }

  // ---- the layout of the sets ----

  /** The position of the first way of set `s`. */
  function Base(s: nat, ways: nat): nat {
    if s == 0 then 0 else Base(s - 1, ways) + ways
  }

  /** Blocks of different sets do not overlap. */
  lemma {:induction false} BlocksDisjoint(s: nat, t: nat, ways: nat)
    requires s < t
    ensures Base(s, ways) + ways <= Base(t, ways)
  {
    if s + 1 < t {
      BlocksDisjoint(s, t - 1, ways);
    }
  }

  lemma {:induction false} BaseIsShift(s: nat, k: nat)
    ensures Base(s, Pow2(k)) == ShiftLeft(s, k)
  {
    BaseIsProduct(s, Pow2(k));
    ShiftLeftIsProduct(s, k);
  }

  lemma {:induction false} BaseIsProduct(s: nat, ways: nat)
    ensures Base(s, ways) == s * ways
  {
    if s > 0 {
      BaseIsProduct(s - 1, ways);
      assert s * ways == (s - 1) * ways + ways;
    }
  }

  /** Every pointer of set `s` stays in the block the constructor gave the set. */
  ghost predicate Homed(c: seq<nat>, lo: nat, ways: nat) {
    forall i :: lo <= i < lo + ways && i < |c| ==> lo <= c[i] < lo + ways
  }

  /** The pointer array of a cache. */
  datatype Table = Table(g: Geometry, c: seq<nat>)

  /** The pointers permute the lines, each set keeping its own; the lines past the
      last set stay where they are. */
  ghost predicate Laid(t: Table) {
    && t.g.Sane() && Base(t.g.sets, t.g.assoc) <= |t.c|
    && Pointers(t.c, |t.c|) && Distinct(t.c)
    && (forall s :: 0 <= s < t.g.sets ==> Homed(t.c, Base(s, t.g.assoc), t.g.assoc))
    && (forall i :: Base(t.g.sets, t.g.assoc) <= i < |t.c| ==> t.c[i] == i)
  }

  type Arranged = t: Table | Laid(t) ghost witness Identity(Geometry(1, 1, 0, 0, _ => 0), 1)

  /** Every pointer at its own line, as the constructor leaves them. */
  ghost function Identity(g: Geometry, n: nat): (t: Table)
    requires g.Sane() && Base(g.sets, g.assoc) <= n
    ensures Laid(t) && t.g == g && |t.c| == n && forall i :: 0 <= i < n ==> t.c[i] == i
  {
    Table(g, seq(n, i requires 0 <= i < n => i))
  }

  /** The position of the first way of set `s`. */
  ghost function Start(t: Arranged, s: nat): (lo: nat)
    requires s < t.g.sets
    ensures lo == Base(s, t.g.assoc) && lo + t.g.assoc <= |t.c|
  {
    BlocksDisjoint(s, t.g.sets, t.g.assoc);
    Base(s, t.g.assoc)
  }

  /** The lines of set `s`, most recently used first. */
  ghost function SetView(t: Arranged, m: seq<LineState>, s: nat): (b: seq<LineState>)
    requires s < t.g.sets && |m| == |t.c|
    ensures |b| == t.g.assoc
  {
    View(t.c, m, Start(t, s), t.g.assoc)
  }

  lemma {:induction false} PromotedHomed(c: seq<nat>, lo: nat, k: nat, at: nat, ways: nat)
    requires k < ways && lo + ways <= |c| && Homed(c, at, ways)
    requires at == lo || at + ways <= lo || lo + ways <= at
    ensures Homed(Promoted(c, lo, lo + k), at, ways)
  {
  }

  lemma {:induction false} Apart(s: nat, t: nat, ways: nat)
    requires s != t
    ensures Base(s, ways) + ways <= Base(t, ways) || Base(t, ways) + ways <= Base(s, ways)
  {
    if s < t { BlocksDisjoint(s, t, ways); } else { BlocksDisjoint(t, s, ways); }
  }

  lemma {:induction false} PromotedHomedAll(t: Arranged, s: nat, k: nat)
    requires s < t.g.sets && k < t.g.assoc
    ensures forall u :: 0 <= u < t.g.sets ==>
              Homed(Promoted(t.c, Start(t, s), Start(t, s) + k), Base(u, t.g.assoc), t.g.assoc)
  {
    forall u | 0 <= u < t.g.sets
      ensures Homed(Promoted(t.c, Start(t, s), Start(t, s) + k), Base(u, t.g.assoc), t.g.assoc)
    {
      if u != s { Apart(s, u, t.g.assoc); }
      PromotedHomed(t.c, Start(t, s), k, Base(u, t.g.assoc), t.g.assoc);
    }
  }

  /** Way `k` of set `s` becomes its first. */
  ghost function Promote(t: Arranged, s: nat, k: nat): (t': Arranged)
    requires s < t.g.sets && k < t.g.assoc
    ensures t'.g == t.g && t'.c == Promoted(t.c, Start(t, s), Start(t, s) + k)
  {
    PromotedHomedAll(t, s, k);
    PromotedPointers(t.c, Start(t, s), Start(t, s) + k);
    BlocksDisjoint(s, t.g.sets, t.g.assoc);
    Table(t.g, Promoted(t.c, Start(t, s), Start(t, s) + k))
  }

  /** The line that way `k` of set `s` points to. */
  ghost function Target(t: Arranged, s: nat, k: nat): (l: nat)
    requires s < t.g.sets && k < t.g.assoc
    ensures l < |t.c| && Start(t, s) <= l < Start(t, s) + t.g.assoc
  {
    assert Homed(t.c, Base(s, t.g.assoc), t.g.assoc);
    t.c[Start(t, s) + k]
  }

  /** Moving the chosen line to the front and writing it takes its set one step. */
  lemma {:induction false} OwnSetSteps(t: Arranged, m: seq<LineState>, a: Access, now: nat)
    requires |m| == |t.c|
    ensures var s := t.g.setOf(a.tag);
            var b := SetView(t, m, s);
            var k := Chosen(b, a.tag);
            SetView(Promote(t, s, k), m[Target(t, s, k) := Stamp(b, a, now)], s) == Step(b, a, now)
  {
    ViewStep(t.c, m, Start(t, t.g.setOf(a.tag)), t.g.assoc, a, now);
  }

  /** The view of another set, given the pointers and lines after the step. */
  lemma {:induction false} OtherView(t: Arranged, t': Arranged, m: seq<LineState>, m': seq<LineState>,
                                     s: nat, k: nat, x: LineState, u: nat)
    requires |m| == |t.c| && s < t.g.sets && k < t.g.assoc && u < t.g.sets && u != s && t'.g == t.g
    requires t'.c == Promoted(t.c, Start(t, s), Start(t, s) + k) && m' == m[Target(t, s, k) := x]
    ensures SetView(t', m', u) == SetView(t, m, u)
  {
    Apart(s, u, t.g.assoc);
    ViewElsewhere(t.c, m, Start(t, s), k, Start(t, u), t.g.assoc, x);
  }

  /** ... and leaves every other set alone. */
  lemma {:induction false} OtherSetsKeep(t: Arranged, m: seq<LineState>, s: nat, k: nat, x: LineState, u: nat)
    requires |m| == |t.c| && s < t.g.sets && k < t.g.assoc && u < t.g.sets && u != s
    ensures SetView(Promote(t, s, k), m[Target(t, s, k) := x], u) == SetView(t, m, u)
  {
    OtherView(t, Promote(t, s, k), m, m[Target(t, s, k) := x], s, k, x, u);
  }

  lemma TablePoints(t: Arranged)
    ensures forall i :: 0 <= i < |t.c| ==> t.c[i] < |t.c|
  {
  }
}
