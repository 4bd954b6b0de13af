/** Happens-before graphs over the entry and final-cycle events of locations:
    saturation with concurrent pairs, transitive closure and transitive reduction,
    and what each means for the cycles at which the events can happen. */
module Graph {
  import opened Collections

  type Loc = string

  /** Entering a location, or the final cycle in it. */
  datatype Node = Enter(loc: Loc) | Final(loc: Loc)

  type Edge = (Node, Node)

  /** A cycle for every event. */
  type Timing = Node -> int

  ghost predicate Ordered(t: Timing, es: set<Edge>) {
    forall e :: e in es ==> t(e.0) < t(e.1)
  }

  ghost predicate Closed(ns: set<Node>, es: set<Edge>) {
    forall e :: e in es ==> e.0 in ns && e.1 in ns
  }

  // ---- transitive closure ----

  function Through(es: set<Edge>, n: Node): set<Edge> {
    es + set p, q | p in es && q in es && p.1 == n && q.0 == n :: (p.0, q.1)
  }

  function Closure(ns: seq<Node>, es: set<Edge>): set<Edge> {
    if ns == [] then es else Through(Closure(ns[..|ns| - 1], es), ns[|ns| - 1])
  }

  ghost predicate Via(c: set<Edge>, m: Node) {
    forall u, v :: (u, m) in c && (m, v) in c ==> (u, v) in c
  }

  ghost predicate Transitive(c: set<Edge>) {
    forall u, m, v :: (u, m) in c && (m, v) in c ==> (u, v) in c
  }

  lemma {:induction false} ThroughMember(c: set<Edge>, n: Node, u: Node, v: Node)
    ensures (u, v) in Through(c, n) <==> (u, v) in c || ((u, n) in c && (n, v) in c)
  {
  }

  lemma {:induction false} ThroughVia(c: set<Edge>, n: Node, m: Node)
    requires Via(c, m) || m == n
    ensures Via(Through(c, n), m)
  {
    var d := Through(c, n);
    forall u, v | (u, m) in d && (m, v) in d ensures (u, v) in d {
      ThroughMember(c, n, u, m);
      ThroughMember(c, n, m, v);
      ThroughMember(c, n, u, v);
    }
  }

  lemma {:induction false} ClosureVia(ns: seq<Node>, es: set<Edge>, m: Node)
    requires m in ns
    ensures Via(Closure(ns, es), m)
  {
    var k := |ns| - 1;
    if ns[k] != m {
      assert ns == ns[..k] + [ns[k]];
      ClosureVia(ns[..k], es, m);
    }
    ThroughVia(Closure(ns[..k], es), ns[k], m);
  }

  /** The closure is contained in every transitive relation that contains the edges. */
  lemma {:induction false} ClosureLeast(ns: seq<Node>, es: set<Edge>, r: Edge -> bool)
    requires forall e :: e in es ==> r(e)
    requires forall u, m, v :: r((u, m)) && r((m, v)) ==> r((u, v))
    ensures forall e :: e in Closure(ns, es) ==> r(e)
  {
    if ns != [] {
      var k := |ns| - 1;
      ClosureLeast(ns[..k], es, r);
      forall e | e in Closure(ns, es) ensures r(e) {
        ThroughMember(Closure(ns[..k], es), ns[k], e.0, e.1);
        assert e == (e.0, e.1);
      }
    }
  }

  lemma {:induction false} ClosureContains(ns: seq<Node>, es: set<Edge>)
    ensures es <= Closure(ns, es)
  {
    if ns != [] {
      ClosureContains(ns[..|ns| - 1], es);
    }
  }

  ghost predicate Covers(ns: seq<Node>, es: set<Edge>) {
    forall e :: e in es ==> e.0 in ns && e.1 in ns
  }

  /** If `ns` lists every endpoint, the closure is transitive. */
  lemma {:induction false} ClosureTransitive(ns: seq<Node>, es: set<Edge>)
    requires Covers(ns, es)
    ensures Transitive(Closure(ns, es))
  {
    var c := Closure(ns, es);
    ClosureLeast(ns, es, (e: Edge) => e.0 in ns && e.1 in ns);
    forall u, m, v | (u, m) in c && (m, v) in c ensures (u, v) in c {
      assert m in ns;
      ClosureVia(ns, es, m);
    }
  }

  predicate Cyclic(ns: seq<Node>, c: set<Edge>) {
    exists n | n in ns :: (n, n) in c
  }

  /** Whatever a timing gives the edges, it gives the closure; so a cycle, and a
      self-loop in particular, leaves no timing. */
  lemma {:induction false} TimingOrdersClosure(t: Timing, ns: seq<Node>, es: set<Edge>)
    requires Ordered(t, es)
    ensures Ordered(t, Closure(ns, es)) && !Cyclic(ns, Closure(ns, es))
  {
    ClosureLeast(ns, es, (e: Edge) => t(e.0) < t(e.1));
  }

  // ---- saturation with concurrent pairs ----

  /** The in-edges of `a` copied to `b`. */
  function InCopied(es: set<Edge>, a: Node, b: Node): set<Edge> {
    es + set e | e in es && e.1 == a :: (e.0, b)
  }

  /** The out-edges of `a` copied to `b`. */
  function OutCopied(es: set<Edge>, a: Node, b: Node): set<Edge> {
    es + set e | e in es && e.0 == a :: (b, e.1)
  }

  function SaturatePair(es: set<Edge>, a: Node, b: Node): set<Edge> {
    OutCopied(OutCopied(InCopied(InCopied(es, a, b), b, a), a, b), b, a)
  }

  function Saturate(ns: set<Node>, es: set<Edge>, pairs: seq<Edge>): set<Edge> {
    if pairs == [] then es
    else
      var k := |pairs| - 1;
      var s := Saturate(ns, es, pairs[..k]);
      if pairs[k].0 in ns && pairs[k].1 in ns then SaturatePair(s, pairs[k].0, pairs[k].1) else s
  }

  /** The pairs whose nodes are in the graph happen in the same cycle. */
  ghost predicate Simultaneous(t: Timing, ns: set<Node>, pairs: seq<Edge>) {
    forall i :: 0 <= i < |pairs| && pairs[i].0 in ns && pairs[i].1 in ns ==> t(pairs[i].0) == t(pairs[i].1)
  }

  lemma {:induction false} SaturatePairOrdered(t: Timing, es: set<Edge>, a: Node, b: Node)
    requires t(a) == t(b) && Ordered(t, es)
    ensures Ordered(t, SaturatePair(es, a, b))
  {
    CopiedOrdered(t, es, a, b);
    var i := InCopied(InCopied(es, a, b), b, a);
    CopiedOrdered(t, InCopied(es, a, b), b, a);
    CopiedOrdered(t, i, a, b);
    CopiedOrdered(t, OutCopied(i, a, b), b, a);
  }

  lemma {:induction false} CopiedOrdered(t: Timing, es: set<Edge>, a: Node, b: Node)
    requires t(a) == t(b) && Ordered(t, es)
    ensures Ordered(t, InCopied(es, a, b)) && Ordered(t, OutCopied(es, a, b))
  {
  }

  lemma {:induction false} SaturateContains(ns: set<Node>, es: set<Edge>, pairs: seq<Edge>)
    ensures es <= Saturate(ns, es, pairs)
  {
    if pairs != [] {
      SaturateContains(ns, es, pairs[..|pairs| - 1]);
    }
  }

  lemma {:induction false} SaturateClosed(ns: set<Node>, es: set<Edge>, pairs: seq<Edge>)
    requires Closed(ns, es)
    ensures Closed(ns, Saturate(ns, es, pairs))
  {
    if pairs != [] {
      var k := |pairs| - 1;
      var s, a, b := Saturate(ns, es, pairs[..k]), pairs[k].0, pairs[k].1;
      SaturateClosed(ns, es, pairs[..k]);
      if a in ns && b in ns {
        CopiedClosed(ns, s, a, b);
        var i := InCopied(InCopied(s, a, b), b, a);
        CopiedClosed(ns, InCopied(s, a, b), b, a);
        CopiedClosed(ns, i, a, b);
        CopiedClosed(ns, OutCopied(i, a, b), b, a);
      }
    }
  }

  lemma {:induction false} CopiedClosed(ns: set<Node>, es: set<Edge>, a: Node, b: Node)
    requires Closed(ns, es) && a in ns && b in ns
    ensures Closed(ns, InCopied(es, a, b)) && Closed(ns, OutCopied(es, a, b))
  {
  }

  /** Saturation preserves meaning: a timing that respects the concurrent pairs
      orders the saturated graph if and only if it orders the original one. */
  lemma {:induction false} SaturationSound(t: Timing, ns: set<Node>, es: set<Edge>, pairs: seq<Edge>)
    requires Simultaneous(t, ns, pairs)
    ensures Ordered(t, Saturate(ns, es, pairs)) <==> Ordered(t, es)
  {
    SaturateContains(ns, es, pairs);
    if pairs != [] && Ordered(t, es) {
      var k := |pairs| - 1;
      assert forall i :: 0 <= i < k ==> pairs[..k][i] == pairs[i];
      SaturationSound(t, ns, es, pairs[..k]);
      if pairs[k].0 in ns && pairs[k].1 in ns {
        SaturatePairOrdered(t, Saturate(ns, es, pairs[..k]), pairs[k].0, pairs[k].1);
      }
    }
  }

  // ---- transitive reduction ----

  /** The edges that no longer path replaces; `c` is the closure. */
  function Reduction(es: set<Edge>, c: set<Edge>): set<Edge> {
    set e | e in es && !exists p | p in c :: p.0 == e.0 && (p.1, e.1) in c
  }

  /** The edge from entering a location to its own final cycle. */
  predicate IsStay(e: Edge) {
    e.0.Enter? && e.1 == Final(e.0.loc)
  }

  /** Stay edges may have length zero, all others are strict. */
  ghost predicate Respects(t: Timing, e: Edge) {
    if IsStay(e) then t(e.0) <= t(e.1) else t(e.0) < t(e.1)
  }

  ghost predicate RespectsAll(t: Timing, es: set<Edge>) {
    forall e :: e in es ==> Respects(t, e)
  }

  /** What lies strictly between two nodes. */
  ghost function Between(c: set<Edge>, u: Node, v: Node): set<Node> {
    set p | p in c && p.0 == u && (p.1, v) in c :: p.1
  }

  lemma {:induction false} BetweenMember(c: set<Edge>, u: Node, v: Node, w: Node)
    ensures w in Between(c, u, v) <==> (u, w) in c && (w, v) in c
  {
  }

  lemma {:induction false} BetweenShrinks(c: set<Edge>, u: Node, w: Node, v: Node)
    requires Transitive(c) && (u, w) in c && (w, v) in c
    requires forall n :: (n, n) !in c
    ensures Between(c, u, w) < Between(c, u, v) && Between(c, w, v) < Between(c, u, v)
  {
    BetweenMember(c, u, v, w);
    BetweenMember(c, u, w, w);
    BetweenMember(c, w, v, w);
    forall x | x in Between(c, u, w) ensures x in Between(c, u, v) {
      BetweenMember(c, u, w, x);
      BetweenMember(c, u, v, x);
    }
    forall x | x in Between(c, w, v) ensures x in Between(c, u, v) {
      BetweenMember(c, w, v, x);
      BetweenMember(c, u, v, x);
    }
  }

  /** A closure pair with nothing in between is an edge. */
  lemma {:induction false} ClosureStep(ns: seq<Node>, es: set<Edge>, u: Node, v: Node)
    requires Covers(ns, es) && (u, v) in Closure(ns, es) && Between(Closure(ns, es), u, v) == {}
    ensures (u, v) in Reduction(es, Closure(ns, es))
  {
    var c := Closure(ns, es);
    ClosureTransitive(ns, es);
    ClosureContains(ns, es);
    var r := (e: Edge) => e in es || (e in c && exists w :: (e.0, w) in c && (w, e.1) in c);
    forall a, m, b | r((a, m)) && r((m, b)) ensures r((a, b)) {
      assert (a, m) in c && (m, b) in c;
    }
    ClosureLeast(ns, es, r);
    assert r((u, v));
    forall w ensures !((u, w) in c && (w, v) in c) {
      BetweenMember(c, u, v, w);
    }
    forall p | p in c ensures !(p.0 == u && (p.1, v) in c) {
      assert p == (p.0, p.1);
    }
  }

  lemma {:induction false} NoLoops(ns: seq<Node>, es: set<Edge>)
    requires Covers(ns, es) && !Cyclic(ns, Closure(ns, es))
    ensures forall n :: (n, n) !in Closure(ns, es)
  {
    ClosureLeast(ns, es, (e: Edge) => e.0 in ns && e.1 in ns);
    forall n ensures (n, n) !in Closure(ns, es) {
      assert (n, n) in Closure(ns, es) ==> (n, n).0 in ns;
    }
  }

  /** Two stay edges are never consecutive, so two steps are strict. */
  lemma TwoStepsStrict(t: Timing, u: Node, w: Node, v: Node)
    requires t(u) < t(w) || (IsStay((u, w)) && t(u) <= t(w))
    requires t(w) < t(v) || (IsStay((w, v)) && t(w) <= t(v))
    ensures t(u) < t(v)
  {
  }

  /** Reduction preserves meaning: on an acyclic graph, a timing that respects the
      reduced edges orders every closure pair strictly, except a reduced stay edge. */
  lemma {:induction false} ReductionEntails(t: Timing, ns: seq<Node>, es: set<Edge>, u: Node, v: Node)
    requires Covers(ns, es) && !Cyclic(ns, Closure(ns, es))
    requires RespectsAll(t, Reduction(es, Closure(ns, es)))
    requires (u, v) in Closure(ns, es)
    ensures t(u) < t(v) || (IsStay((u, v)) && (u, v) in Reduction(es, Closure(ns, es)) && t(u) <= t(v))
    decreases |Between(Closure(ns, es), u, v)|
  {
    var c := Closure(ns, es);
    ClosureTransitive(ns, es);
    NoLoops(ns, es);
    if Between(c, u, v) == {} {
      ClosureStep(ns, es, u, v);
    } else {
      var w :| w in Between(c, u, v);
      BetweenMember(c, u, v, w);
      BetweenShrinks(c, u, w, v);
      SubsetSmaller(Between(c, u, w), Between(c, u, v));
      SubsetSmaller(Between(c, w, v), Between(c, u, v));
      ReductionEntails(t, ns, es, u, w);
      ReductionEntails(t, ns, es, w, v);
      TwoStepsStrict(t, u, w, v);
    }
  }

  /** On an acyclic graph the reduced edges have the same closure. */
  lemma {:induction false} ReductionReaches(ns: seq<Node>, es: set<Edge>, r: set<Edge>, u: Node, v: Node)
    requires Covers(ns, es) && !Cyclic(ns, Closure(ns, es)) && r == Reduction(es, Closure(ns, es))
    requires (u, v) in Closure(ns, es)
    ensures (u, v) in Closure(ns, r)
    decreases |Between(Closure(ns, es), u, v)|
  {
    var c := Closure(ns, es);
    ClosureTransitive(ns, es);
    NoLoops(ns, es);
    if Between(c, u, v) == {} {
      ClosureStep(ns, es, u, v);
      ClosureContains(ns, r);
    } else {
      var w :| w in Between(c, u, v);
      BetweenMember(c, u, v, w);
      BetweenShrinks(c, u, w, v);
      SubsetSmaller(Between(c, u, w), Between(c, u, v));
      SubsetSmaller(Between(c, w, v), Between(c, u, v));
      ReductionReaches(ns, es, r, u, w);
      ReductionReaches(ns, es, r, w, v);
      ClosureTransitive(ns, r);
    }
  }

  lemma {:induction false} ReductionKeepsClosure(ns: seq<Node>, es: set<Edge>)
    requires Covers(ns, es) && !Cyclic(ns, Closure(ns, es))
    ensures Closure(ns, Reduction(es, Closure(ns, es))) == Closure(ns, es)
  {
    var c := Closure(ns, es);
    var r := Reduction(es, c);
    ClosureContains(ns, es);
    ClosureTransitive(ns, es);
    ClosureLeast(ns, r, (e: Edge) => e in c);
    forall e | e in c ensures e in Closure(ns, r) {
      assert e == (e.0, e.1);
      ReductionReaches(ns, es, r, e.0, e.1);
    }
  }

  /** No reduced edge can be spared: without it the others no longer reach its target. */
  lemma {:induction false} ReductionMinimal(ns: seq<Node>, es: set<Edge>, e: Edge)
    requires Covers(ns, es) && e in Reduction(es, Closure(ns, es))
    ensures e !in Closure(ns, Reduction(es, Closure(ns, es)) - {e})
  {
    var c := Closure(ns, es);
    var rest := Reduction(es, c) - {e};
    ClosureContains(ns, es);
    ClosureTransitive(ns, es);
    var q := (d: Edge) => d in c && d != e;
    forall a, m, b | q((a, m)) && q((m, b)) ensures q((a, b)) {
      assert (a, m) in c && (a, m).0 == a;
    }
    ClosureLeast(ns, rest, q);
    assert !q(e);
  }
}
