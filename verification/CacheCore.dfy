/** The set-associative cache core: lookups and fills that keep the pointers of
    every set in recency order. */
module CacheCore {
  import opened Recency
  import opened Bits
  import opened LineSet
  import opened Layout

  /** Way `k` is where `tag` goes: it shows the tag, or nothing does and it is the oldest. */
  predicate Replaces(b: seq<LineState>, tag: Tag, k: nat) {
    k < |b| && if FirstWay(b, tag) < |b| then b[k].tag == tag else k == |b| - 1
  }

  class CacheAssoc {
    const g: Geometry
    const mem: array<LineState>
    const content: array<nat>

    /** What the pointers are. */
    ghost var table: Arranged

    ghost predicate Valid()
      reads this, mem, content
    {
      && g.assoc == Pow2(g.log2Assoc)
      && table.g == g && mem.Length == content.Length == |table.c|
      && forall i :: 0 <= i < content.Length ==> content[i] == table.c[i]
    }

    /** The lines of set `s`, most recently used first. */
    ghost function Lines(s: nat): (b: seq<LineState>)
      requires Valid() && s < g.sets
      reads this, mem, content
      ensures |b| == g.assoc
    {
      SetView(table, mem[..], s)
    }

    /** The number of the memory line that holds the address. */
    function CalcTag(addr: nat): (tag: Tag)
      ensures tag == addr / Pow2(g.log2AddrLs)
    {
      ShiftRightIsQuotient(addr, g.log2AddrLs);
      ShiftRight(addr, g.log2AddrLs)
    }

    /** The block of the tag's set lies inside the line array. */
    function CalcIndex4Tag(tag: Tag): (index: nat)
      requires Valid()
      reads this, mem, content
      ensures index == Start(table, g.setOf(tag)) && index + g.assoc <= content.Length
    {
      BaseIsShift(g.setOf(tag), g.log2Assoc);
      ghost var lo := Start(table, g.setOf(tag));
      ShiftLeft(g.setOf(tag), g.log2Assoc)
    }

    /** A cache of `size` bytes in lines of `lineSize`; the ways are a power of two. Every
        line starts with tag 0 and is its own pointer's target. */
    constructor (size: nat, assoc: nat, lineSize: nat, xorIndex: bool)
      requires lineSize > 0 && assoc == Pow2(CeilLog2(assoc)) && size / lineSize > assoc
      ensures Valid() && fresh(mem) && fresh(content)
      ensures mem.Length == size / lineSize
      ensures g.assoc == assoc && g.sets == mem.Length / assoc && g.log2AddrLs == CeilLog2(lineSize)
      ensures g.setOf == ((t: Tag) => SetIndex(t, g.sets, CeilLog2(g.sets), xorIndex))
      ensures table == Identity(g, mem.Length)
      ensures forall i :: 0 <= i < mem.Length ==> mem[i].tag == 0
    {
      var numLines := size / lineSize;
      var sets := numLines / assoc;
      EnoughLines(numLines, assoc);
      var geometry := Geometry(sets, assoc, CeilLog2(assoc), CeilLog2(lineSize),
                               t => SetIndex(t, sets, CeilLog2(sets), xorIndex));
      g := geometry;
      table := Identity(geometry, numLines);
      mem := new LineState[numLines];
      content := new nat[numLines];
      new;
      Initialize(mem, content);
    }

    /** Clears every tag and points every pointer at its own line. */
    static method Initialize(mem: array<LineState>, content: array<nat>)
      requires mem.Length == content.Length
      modifies mem, content
      ensures forall i :: 0 <= i < mem.Length ==> content[i] == i && mem[i].tag == 0
    {
      for i := 0 to mem.Length
        invariant forall j :: 0 <= j < i ==> content[j] == j && mem[j].tag == 0
      {
        mem[i] := mem[i].(tag := 0);
        content[i] := i;
      }
    }

    /** The first of `g.assoc` pointers whose line shows `tag`, or `g.assoc` if none does. */
    method Search(theSet: nat, tag: Tag) returns (k: nat)
      requires Valid() && theSet == Start(table, g.setOf(tag))
      ensures k == FirstWay(Lines(g.setOf(tag)), tag)
    {
      ghost var b := Lines(g.setOf(tag));
      assert forall i :: 0 <= i < g.assoc ==> b[i] == mem[content[theSet + i]];
      if mem[content[theSet]].tag == tag {
        FirstWayUnique(b, tag, 0);
        return 0;
      }
      k := 1;
      while k < g.assoc && mem[content[theSet + k]].tag != tag
        invariant 1 <= k <= g.assoc
        invariant forall i :: 0 <= i < k ==> b[i].tag != tag
      {
        k := k + 1;
      }
      FirstWayUnique(b, tag, k);
    }

    /** Shifts the pointers in [theSet, hit) up by one and puts the one at `hit` first. */
    method ShiftPointers(theSet: nat, hit: nat)
      requires theSet <= hit < content.Length
      modifies content
      ensures forall i :: 0 <= i < content.Length ==> content[i] == old(content[..])[Source(theSet, hit, i)]
    {
      ghost var c := content[..];
      var tmp := content[hit];
      var l := hit;
      while l > theSet
        invariant theSet <= l <= hit
        invariant forall i :: 0 <= i <= l || hit < i < content.Length ==> content[i] == c[i]
        invariant forall i :: l < i <= hit ==> content[i] == c[i - 1]
      {
        var prev := l - 1;
        content[l] := content[prev];
        l := prev;
      }
      content[theSet] := tmp;
    }

    /** Moves way `k` of set `s` to its front. */
    method Reorder(theSet: nat, k: nat, ghost s: nat)
      requires Valid() && s < g.sets && theSet == Start(table, s) && k < g.assoc
      modifies this, content
      ensures Valid() && table == Promote(old(table), s, k) && mem[..] == old(mem[..])
    {
      table := Promote(table, s, k);
      ShiftPointers(theSet, theSet + k);
    }

    /** Moves way `k` of set `s` to its front and returns its line. */
    method MoveToFront(theSet: nat, k: nat, ghost s: nat) returns (line: nat)
      requires Valid() && s < g.sets && theSet == Start(table, s) && k < g.assoc
      modifies this, content
      ensures Valid() && table == Promote(old(table), s, k) && mem[..] == old(mem[..])
      ensures line == Target(old(table), s, k)
    {
      line := content[theSet + k];
      Reorder(theSet, k, s);
    }

    /** Looks a tag up.  A hit moves its line to the front of the set and returns it. */
    method FindLine(tag: Tag) returns (found: bool, line: nat, ghost k: nat)
      requires Valid()
      modifies this, content
      ensures Valid() && mem[..] == old(mem[..])
      ensures k == FirstWay(old(Lines(g.setOf(tag))), tag)
      ensures found <==> k < g.assoc
      ensures found ==>
        var s := g.setOf(tag);
        line == Target(old(table), s, k) && table == Promote(old(table), s, k)
      ensures !found ==> table == old(table)
    {
      var theSet := CalcIndex4Tag(tag);
      var way := Search(theSet, tag);
      k := way;
      if way == g.assoc {
        return false, 0, k;
      }
      found := true;
      line := MoveToFront(theSet, way, g.setOf(tag));
    }

    /** The way to put `tag` in: one that shows it, searched from the oldest down
        after a look at the first, else the oldest. */
    method WayToReplace(theSet: nat, tag: Tag) returns (pos: nat)
      requires Valid() && theSet == Start(table, g.setOf(tag))
      ensures Replaces(Lines(g.setOf(tag)), tag, pos)
    {
      ghost var b := Lines(g.setOf(tag));
      assert forall i :: 0 <= i < g.assoc ==> b[i] == mem[content[theSet + i]];
      if mem[content[theSet]].tag == tag {
        return 0;
      }
      var lineHit, lineFree := -1, -1;
      var l := g.assoc - 1;
      while l >= 0 && lineHit < 0
        invariant -1 <= l < g.assoc && -1 <= lineHit < g.assoc
        invariant lineHit < 0 ==> forall i :: l < i < g.assoc ==> b[i].tag != tag
        invariant lineHit >= 0 ==> b[lineHit].tag == tag
        invariant l < g.assoc - 1 ==> lineFree >= 0
        decreases l, lineHit < 0
      {
        if mem[content[theSet + l]].tag == tag {
          lineHit := l;
        } else {
          // No line ever leaves the invalid state, so each candidate replaces the last.
          lineFree := l;
          l := l - 1;
        }
      }
      if lineHit < 0 {
        assert lineFree >= 0;
        lineFree := g.assoc - 1;
        return lineFree;
      }
      return lineHit;
    }

    /** Makes room for a tag: the line that shows it, else the oldest line of its
        set, moves to the front and is returned. */
    method FindLine2Replace(tag: Tag) returns (line: nat, ghost k: nat)
      requires Valid() && tag != 0
      modifies this, content
      ensures Valid() && mem[..] == old(mem[..])
      ensures Replaces(old(Lines(g.setOf(tag))), tag, k)
      ensures var s := g.setOf(tag);
              line == Target(old(table), s, k) && table == Promote(old(table), s, k)
    {
      var theSet := CalcIndex4Tag(tag);
      var pos := WayToReplace(theSet, tag);
      k := pos;
      line := MoveToFront(theSet, pos, g.setOf(tag));
    }

    /** Overwrites a line. */
    method SetLine(line: nat, x: LineState)
      requires Valid() && line < mem.Length
      modifies mem
      ensures Valid() && mem[..] == old(mem[..])[line := x]
    {
      mem[line] := x;
    }

    /** Brings a tag in: its line gets the tag and keeps its other fields. */
    method FillLine(tag: Tag) returns (line: nat, ghost k: nat)
      requires Valid() && tag != 0
      modifies this, content, mem
      ensures Valid()
      ensures Replaces(old(Lines(g.setOf(tag))), tag, k)
      ensures var s := g.setOf(tag);
              line == Target(old(table), s, k) && table == Promote(old(table), s, k)
      ensures line < mem.Length && mem[..] == old(mem[..])[line := old(mem[..])[line].(tag := tag)]
    {
      line, k := FindLine2Replace(tag);
      SetLine(line, mem[line].(tag := tag));
    }
  }

  lemma {:induction false} FirstWayUnique(b: seq<LineState>, t: Tag, k: nat)
    requires k <= |b| && (k < |b| ==> b[k].tag == t)
    requires forall i :: 0 <= i < k ==> b[i].tag != t
    ensures k == FirstWay(b, t)
  {
  }

  lemma {:induction false} EnoughLines(numLines: nat, assoc: nat)
    requires 1 <= assoc < numLines
    ensures 1 <= numLines / assoc && Base(numLines / assoc, assoc) <= numLines
  {
    BaseIsProduct(numLines / assoc, assoc);
  }

  /** Why the ways have to be a power of two: otherwise, with more sets than ways, the block
      of the last set runs past the lines. Here `sets` is the quotient of lines and ways. */
  lemma {:induction false} OddWaysOverrun(numLines: nat, assoc: nat, sets: nat)
    requires sets * assoc <= numLines < sets * assoc + assoc
    requires 1 <= assoc < sets && assoc < Pow2(CeilLog2(assoc))
    ensures ShiftLeft(sets - 1, CeilLog2(assoc)) + assoc > numLines
  {
    ShiftLeftIsProduct(sets - 1, CeilLog2(assoc));
    StrideTooLong(sets, assoc, Pow2(CeilLog2(assoc)));
  }

  lemma {:induction false} StrideTooLong(sets: nat, assoc: nat, stride: nat)
    requires sets > assoc && stride > assoc
    ensures (sets - 1) * stride + assoc >= sets * assoc + assoc
  {
    var d := stride - assoc - 1;
    assert (sets - 1) * stride == (sets - 1) * assoc + (sets - 1) + (sets - 1) * d;
    assert (sets - 1) * d >= 0;
    assert sets * assoc == (sets - 1) * assoc + assoc;
  }
}
