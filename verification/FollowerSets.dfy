/** Follower sets of decision points: reading them, and pruning all but the maximal. */
module FollowerSets {
  import Graph
  import opened Collections

  type Loc = Graph.Loc

  /** A line names a location, or lists a set of its followers. */
  datatype Line = Header(pl: Loc) | Followers(s: set<Loc>)

  // ---- what was read ----

  /** The location that line `i` is about, if any line before names one. */
  function Current(ls: seq<Line>): seq<Loc> {
    if ls == [] then []
    else match ls[|ls| - 1]
      case Header(pl) => [pl]
      case Followers(_) => Current(ls[..|ls| - 1])
  }

  ghost predicate Headed(ls: seq<Line>) {
    forall i :: 0 <= i < |ls| && ls[i].Followers? ==> Current(ls[..i]) != []
  }

  ghost predicate Named(ls: seq<Line>, k: Loc) {
    exists i :: 0 <= i < |ls| && ls[i] == Header(k)
  }

  /** The set is listed under the location. */
  ghost predicate ReadUnder(ls: seq<Line>, k: Loc, s: set<Loc>) {
    exists i :: 0 <= i < |ls| && ls[i] == Followers(s) && Current(ls[..i]) == [k]
  }

  /** The set is on a line below the name of the location, with no other name between. */
  ghost predicate ListedAt(ls: seq<Line>, k: Loc, s: set<Loc>, j: int, i: int) {
    && 0 <= j < i < |ls| && ls[j] == Header(k) && ls[i] == Followers(s)
    && forall m :: j < m < i ==> ls[m].Followers?
  }

  ghost predicate ListedUnder(ls: seq<Line>, k: Loc, s: set<Loc>) {
    exists j, i :: ListedAt(ls, k, s, j, i)
  }

  /** Some line before each list of followers names a location. */
  ghost predicate NamesFirst(ls: seq<Line>) {
    forall i :: 0 <= i < |ls| && ls[i].Followers? ==> exists j :: 0 <= j < i && ls[j].Header?
  }

  /** The last name is that of `k`, at line `j`. */
  ghost predicate LastNamed(ls: seq<Line>, k: Loc, j: int) {
    0 <= j < |ls| && ls[j] == Header(k) && forall m :: j < m < |ls| ==> ls[m].Followers?
  }

  /** The current location is the one last named. */
  lemma {:induction false} CurrentIs(ls: seq<Line>, k: Loc)
    ensures Current(ls) == [k] <==> exists j :: LastNamed(ls, k, j)
  {
    if ls != [] {
      var n := |ls| - 1;
      CurrentIs(ls[..n], k);
      if ls[n].Header? {
        assert ls[n].pl == k ==> LastNamed(ls, k, n);
      } else {
        if j :| LastNamed(ls, k, j) {
          assert LastNamed(ls[..n], k, j);
        }
        if j :| LastNamed(ls[..n], k, j) {
          assert forall m :: j < m < n ==> ls[m] == ls[..n][m];
          assert LastNamed(ls, k, j);
        }
      }
    }
  }

  lemma {:induction false} CurrentExists(ls: seq<Line>)
    ensures Current(ls) != [] <==> exists j :: 0 <= j < |ls| && ls[j].Header?
  {
    if ls != [] {
      var n := |ls| - 1;
      CurrentExists(ls[..n]);
      if j :| 0 <= j < |ls| && ls[j].Header? {
        assert j < n ==> ls[..n][j].Header?;
      }
    }
  }

  lemma {:induction false} ReadUnderIs(ls: seq<Line>, k: Loc, s: set<Loc>)
    ensures ReadUnder(ls, k, s) <==> ListedUnder(ls, k, s)
  {
    if i :| 0 <= i < |ls| && ls[i] == Followers(s) && Current(ls[..i]) == [k] {
      CurrentIs(ls[..i], k);
      var j :| LastNamed(ls[..i], k, j);
      assert forall m :: j < m < i ==> ls[m] == ls[..i][m];
      assert ListedAt(ls, k, s, j, i);
    }
    if j, i :| ListedAt(ls, k, s, j, i) {
      CurrentIs(ls[..i], k);
      assert LastNamed(ls[..i], k, j);
    }
  }

  lemma {:induction false} HeadedIs(ls: seq<Line>)
    ensures Headed(ls) <==> NamesFirst(ls)
  {
    forall i | 0 <= i < |ls| ensures Current(ls[..i]) != [] <==> exists j :: 0 <= j < i && ls[j].Header? {
      CurrentExists(ls[..i]);
      if j :| 0 <= j < i && ls[j].Header? {
        assert ls[..i][j].Header?;
      }
    }
  }

  ghost predicate UnionIs(sets: seq<set<Loc>>, all: set<Loc>) {
    (forall s :: s in sets ==> s <= all) && forall x :: x in all ==> exists s :: s in sets && x in s
  }

  /** What the tables hold for one location. */
  ghost predicate Row(ls: seq<Line>, k: Loc, v: seq<set<Loc>>, all: set<Loc>) {
    NoRepeats(v) && UnionIs(v, all) && forall s :: s in v <==> ReadUnder(ls, k, s)
  }

  /** The tables hold what the lines say. */
  ghost predicate Tables(ls: seq<Line>, sets: map<Loc, seq<set<Loc>>>, all: map<Loc, set<Loc>>) {
    && sets.Keys == all.Keys && (forall k :: k in sets <==> Named(ls, k))
    && forall k :: k in sets ==> Row(ls, k, sets[k], all[k])
  }

  // ---- pruning ----

  /** Empty, or contained in no other set. */
  ghost predicate Maximal(sets: seq<set<Loc>>, s: set<Loc>) {
    s == {} || forall t :: t in sets && s <= t ==> t == s
  }

  function Kept(sets: seq<set<Loc>>, from: seq<set<Loc>>): seq<set<Loc>> {
    if from == [] then []
    else
      var s := from[|from| - 1];
      if s == {} || forall t | t in sets :: t == s || !(s <= t) then Kept(sets, from[..|from| - 1]) + [s]
      else Kept(sets, from[..|from| - 1])
  }

  lemma {:induction false} KeptOnce(sets: seq<set<Loc>>, from: seq<set<Loc>>)
    requires NoRepeats(from)
    ensures NoRepeats(Kept(sets, from))
  {
    if from != [] {
      KeptOnce(sets, from[..|from| - 1]);
      KeptMember(sets, from[..|from| - 1], from[|from| - 1]);
    }
  }

  lemma {:induction false} KeptMember(sets: seq<set<Loc>>, from: seq<set<Loc>>, s: set<Loc>)
    ensures s in Kept(sets, from) <==> s in from && Maximal(sets, s)
  {
    if from != [] {
      KeptMember(sets, from[..|from| - 1], s);
      assert from == from[..|from| - 1] + [from[|from| - 1]];
    }
  }

  /** The non-empty kept sets are an antichain, and the empty set is kept if and only
      if it was read. */
  lemma {:induction false} KeptAntichain(sets: seq<set<Loc>>, s: set<Loc>, t: set<Loc>)
    ensures s in Kept(sets, sets) && t in Kept(sets, sets) && s <= t ==> s == {} || s == t
    ensures {} in Kept(sets, sets) <==> {} in sets
  {
    KeptMember(sets, sets, s);
    KeptMember(sets, sets, t);
    KeptMember(sets, sets, {});
  }

  /** Every non-empty set is contained in a kept one. */
  lemma {:induction false} KeptCovers(sets: seq<set<Loc>>, s: set<Loc>, all: set<Loc>) returns (t: set<Loc>)
    requires s in sets && s != {} && forall u :: u in sets ==> u <= all
    ensures t in Kept(sets, sets) && s <= t
    decreases |all - s|
  {
    KeptMember(sets, sets, s);
    t := s;
    if !Maximal(sets, s) {
      var u :| u in sets && s <= u && u != s;
      assert exists x :: x in u && x !in s;
      SubsetSmaller(all - u, all - s);
      t := KeptCovers(sets, u, all);
    }
  }

  /** Pruning loses no location: the kept sets still add up to all followers. */
  lemma {:induction false} KeptUnion(sets: seq<set<Loc>>, all: set<Loc>)
    requires UnionIs(sets, all)
    ensures UnionIs(Kept(sets, sets), all)
  {
    forall s | s in Kept(sets, sets) ensures s <= all {
      KeptMember(sets, sets, s);
    }
    forall x | x in all ensures exists s :: s in Kept(sets, sets) && x in s {
      var s :| s in sets && x in s;
      var t := KeptCovers(sets, s, all);
    }
  }

  // ---- the code ----

  method IsKept(sets: seq<set<Loc>>, s: set<Loc>) returns (add: bool)
    ensures add <==> Maximal(sets, s)
  {
    add := true;
    for i := 0 to |sets|
      invariant add && (s == {} || forall j :: 0 <= j < i && s <= sets[j] ==> sets[j] == s)
    {
      if sets[i] != s && s <= sets[i] && |s| > 0 {
        return false;
      }
    }
  }

  method Prune(sets: seq<set<Loc>>) returns (kept: seq<set<Loc>>)
    ensures kept == Kept(sets, sets)
  {
    kept := [];
    for i := 0 to |sets|
      invariant kept == Kept(sets, sets[..i])
    {
      assert sets[..i + 1][..i] == sets[..i];
      var add := IsKept(sets, sets[i]);
      if add {
        kept := kept + [sets[i]];
      }
    }
    assert sets[..|sets|] == sets;
  }

  lemma {:induction false} OneMoreLine(ls: seq<Line>, l: Line, k: Loc, s: set<Loc>)
    ensures Named(ls + [l], k) <==> Named(ls, k) || l == Header(k)
    ensures ReadUnder(ls + [l], k, s) <==> ReadUnder(ls, k, s) || (l == Followers(s) && Current(ls) == [k])
  {
    var n := |ls|;
    assert forall i :: 0 <= i < n ==> (ls + [l])[i] == ls[i] && (ls + [l])[..i] == ls[..i];
    assert (ls + [l])[n] == l && (ls + [l])[..n] == ls;
    if Named(ls, k) {
      var i :| 0 <= i < |ls| && ls[i] == Header(k);
      assert (ls + [l])[i] == Header(k);
    }
    if ReadUnder(ls, k, s) {
      var i :| 0 <= i < |ls| && ls[i] == Followers(s) && Current(ls[..i]) == [k];
      assert (ls + [l])[i] == Followers(s);
    }
  }

  lemma {:induction false} CurrentIsNamed(ls: seq<Line>)
    ensures Current(ls) != [] ==> |Current(ls)| == 1 && Named(ls, Current(ls)[0])
  {
    if ls != [] && ls[|ls| - 1].Followers? {
      CurrentIsNamed(ls[..|ls| - 1]);
      if Current(ls) != [] {
        var i :| 0 <= i < |ls| - 1 && ls[..|ls| - 1][i] == Header(Current(ls)[0]);
        assert ls[i] == Header(Current(ls)[0]);
      }
    }
  }

  /** A line about another location leaves the row as it is. */
  lemma {:induction false} RowStays(ls: seq<Line>, l: Line, k: Loc, v: seq<set<Loc>>, all: set<Loc>)
    requires Row(ls, k, v, all) && (l.Header? || Current(ls) != [k])
    ensures Row(ls + [l], k, v, all)
  {
    forall s ensures ReadUnder(ls + [l], k, s) <==> ReadUnder(ls, k, s) {
      OneMoreLine(ls, l, k, s);
    }
  }

  lemma {:induction false} RowGrows(ls: seq<Line>, k: Loc, v: seq<set<Loc>>, all: set<Loc>, s: set<Loc>)
    requires Row(ls, k, v, all) && Current(ls) == [k]
    ensures Row(ls + [Followers(s)], k, if s in v then v else v + [s], all + s)
  {
    var more := if s in v then v else v + [s];
    assert forall t :: t in more <==> t in v || t == s;
    forall t ensures ReadUnder(ls + [Followers(s)], k, t) <==> ReadUnder(ls, k, t) || t == s {
      OneMoreLine(ls, Followers(s), k, t);
    }
  }

  lemma {:induction false} RowStarts(ls: seq<Line>, k: Loc)
    requires !Named(ls, k)
    ensures Row(ls + [Header(k)], k, [], {})
  {
    forall s ensures !ReadUnder(ls + [Header(k)], k, s) {
      OneMoreLine(ls, Header(k), k, s);
      NotReadUnlessNamed(ls, k, s);
    }
  }

  /** A header enters its location, if new, with no sets. */
  function WithHeader(sets: map<Loc, seq<set<Loc>>>, k: Loc): map<Loc, seq<set<Loc>>> {
    if k in sets then sets else sets[k := []]
  }

  function WithFollowers(sets: map<Loc, seq<set<Loc>>>, k: Loc, s: set<Loc>): map<Loc, seq<set<Loc>>>
    requires k in sets
  {
    if s in sets[k] then sets else sets[k := sets[k] + [s]]
  }

  lemma {:induction false} HeaderStep(ls: seq<Line>, sets: map<Loc, seq<set<Loc>>>, all: map<Loc, set<Loc>>, k: Loc)
    requires Tables(ls, sets, all)
    ensures Tables(ls + [Header(k)], WithHeader(sets, k), if k in sets then all else all[k := {}])
  {
    forall j ensures Named(ls + [Header(k)], j) <==> Named(ls, j) || j == k {
      OneMoreLine(ls, Header(k), j, {});
    }
    forall j | j in sets ensures Row(ls + [Header(k)], j, sets[j], all[j]) {
      RowStays(ls, Header(k), j, sets[j], all[j]);
    }
    if k !in sets {
      RowStarts(ls, k);
    }
  }

  lemma {:induction false} NotReadUnlessNamed(ls: seq<Line>, k: Loc, s: set<Loc>)
    ensures ReadUnder(ls, k, s) ==> Named(ls, k)
  {
    if ReadUnder(ls, k, s) {
      var i :| 0 <= i < |ls| && ls[i] == Followers(s) && Current(ls[..i]) == [k];
      CurrentIsNamed(ls[..i]);
      var j :| 0 <= j < i && ls[..i][j] == Header(k);
      assert ls[j] == Header(k);
    }
  }

  /** A set of followers enters the tables of its location. */
  lemma {:induction false} FollowersStep(ls: seq<Line>, sets: map<Loc, seq<set<Loc>>>, all: map<Loc, set<Loc>>,
                                         k: Loc, s: set<Loc>)
    requires Tables(ls, sets, all) && Current(ls) == [k]
    ensures k in sets
    ensures Tables(ls + [Followers(s)], WithFollowers(sets, k, s), all[k := all[k] + s])
  {
    CurrentIsNamed(ls);
    var ls', sets', all' := ls + [Followers(s)], WithFollowers(sets, k, s), all[k := all[k] + s];
    forall j ensures Named(ls', j) <==> Named(ls, j) {
      OneMoreLine(ls, Followers(s), j, s);
    }
    forall j | j in sets' ensures Row(ls', j, sets'[j], all'[j]) {
      if j == k {
        RowGrows(ls, k, sets[k], all[k], s);
      } else {
        RowStays(ls, Followers(s), j, sets[j], all[j]);
      }
    }
  }

  method ReadLine(ghost ls: seq<Line>, l: Line, pl: seq<Loc>, sets: map<Loc, seq<set<Loc>>>, all: map<Loc, set<Loc>>)
      returns (pl': seq<Loc>, sets': map<Loc, seq<set<Loc>>>, all': map<Loc, set<Loc>>)
    requires Tables(ls, sets, all) && pl == Current(ls) && (l.Header? || pl != [])
    ensures Tables(ls + [l], sets', all') && pl' == Current(ls + [l])
  {
    pl', sets', all' := pl, sets, all;
    assert (ls + [l])[..|ls|] == ls;
    match l
    case Header(k) =>
      HeaderStep(ls, sets, all, k);
      pl' := [k];
      if k !in sets {
        sets', all' := sets[k := []], all[k := {}];
      }
    case Followers(s) =>
      CurrentIsNamed(ls);
      var k := pl[0];
      FollowersStep(ls, sets, all, k, s);
      all' := all[k := all[k] + s];
      if s !in sets[k] {
        sets' := sets[k := sets[k] + [s]];
      }
  }

  /** Fails exactly where followers come before any location is named. */
  method ReadLines(ls: seq<Line>) returns (ok: bool, sets: map<Loc, seq<set<Loc>>>, all: map<Loc, set<Loc>>)
    ensures ok <==> Headed(ls)
    ensures ok ==> Tables(ls, sets, all)
  {
    ok, sets, all := true, map[], map[];
    var pl: seq<Loc> := [];
    for i := 0 to |ls|
      invariant ok && Tables(ls[..i], sets, all) && pl == Current(ls[..i])
      invariant forall j :: 0 <= j < i && ls[j].Followers? ==> Current(ls[..j]) != []
    {
      assert ls[..i + 1] == ls[..i] + [ls[i]];
      if ls[i].Followers? && pl == [] {
        ok := false;
        return;
      }
      pl, sets, all := ReadLine(ls[..i], ls[i], pl, sets, all);
    }
    assert ls[..|ls|] == ls;
  }

  datatype Decisions = NoHeader | Decisions(kept: map<Loc, seq<set<Loc>>>, all: map<Loc, set<Loc>>)

  /** The maximal follower sets of every named location, each once, and all its followers. */
  method GetDecisions(ls: seq<Line>) returns (d: Decisions)
    ensures d.NoHeader? <==> !NamesFirst(ls)
    ensures d.Decisions? ==> forall k :: (k in d.kept <==> Named(ls, k)) && (k in d.all <==> Named(ls, k))
    ensures d.Decisions? ==> forall k :: k in d.kept && k in d.all ==> UnionIs(d.kept[k], d.all[k])
    ensures d.Decisions? ==> forall k :: k in d.kept ==> NoRepeats(d.kept[k])
    ensures d.Decisions? ==> forall k, s :: k in d.kept ==>
              (s in d.kept[k] <==>
                && ListedUnder(ls, k, s)
                && (s == {} || forall t :: ListedUnder(ls, k, t) && s <= t ==> t == s))
  {
    HeadedIs(ls);
    var ok, sets, all := ReadLines(ls);
    if !ok {
      return NoHeader;
    }
    var kept: map<Loc, seq<set<Loc>>> := map[];
    var todo := sets.Keys;
    while todo != {}
      invariant todo <= sets.Keys && kept.Keys == sets.Keys - todo
      invariant forall k :: k in kept ==> kept[k] == Kept(sets[k], sets[k])
      decreases todo
    {
      var k :| k in todo;
      var v := Prune(sets[k]);
      kept := kept[k := v];
      todo := todo - {k};
    }
    forall k | k in sets ensures UnionIs(kept[k], all[k]) && NoRepeats(kept[k]) {
      KeptUnion(sets[k], all[k]);
      KeptOnce(sets[k], sets[k]);
    }
    forall k, s ensures k in sets ==> (s in sets[k] <==> ListedUnder(ls, k, s)) {
      ReadUnderIs(ls, k, s);
    }
    forall k, s | k in sets ensures s in kept[k] <==> s in sets[k] && Maximal(sets[k], s) {
      KeptMember(sets[k], sets[k], s);
    }
    d := Decisions(kept, all);
  }
}
