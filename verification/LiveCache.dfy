/** The cache model that replays a program's reads and writes: counters, order
    stamps and store flags on top of the cache core. */
module LiveCache {
  import opened Recency
  import opened Bits
  import opened LineSet
  import opened Layout
  import opened CacheCore
  import opened Tracking
  import opened Traversal

  class LiveCache {
    const bank: CacheAssoc
    var maxOrder: nat
    var nReadHit: nat
    var nReadMiss: nat
    var nWriteHit: nat
    var nWriteMiss: nat

    /** The run so far. */
    ghost var run: Run

    /** The bank holds the state of the run. */
    ghost predicate Synced()
      reads this, bank, bank.mem, bank.content
    {
      && bank.Valid() && run.t == bank.table && run.m == bank.mem[..]
      && maxOrder == |run.h|
    }

    function Counters(): Tally
      reads this
    {
      Tally(nReadHit, nReadMiss, nWriteHit, nWriteMiss)
    }

    /** The counters count the accesses of the run by kind and outcome. */
    ghost predicate Counted()
      reads this
    {
      Counters() == run.n
    }

    ghost predicate Valid()
      reads this, bank, bank.mem, bank.content
    {
      Synced() && Counted() && Pow2(bank.g.log2AddrLs) == 64
    }

    /** 16 ways and lines of 64 bytes. */
    constructor (size: nat)
      requires size / 64 > 16
      ensures Valid() && fresh(bank) && fresh(bank.mem) && fresh(bank.content) && run.h == []
      ensures bank.g.assoc == 16 && bank.g.sets == size / 64 / 16
      ensures forall k: nat, t: Tag :: bank.g.sets == Pow2(k) ==> bank.g.setOf(t) == t % Pow2(k)
    {
      assert Pow2(4) == 16 && Pow2(6) == 64;
      CeilLog2OfPow2(4);
      CeilLog2OfPow2(6);
      var b := new CacheAssoc(size, 16, 64, false);
      bank := b;
      maxOrder, nReadHit, nReadMiss, nWriteHit, nWriteMiss := 0, 0, 0, 0, 0;
      run := Fresh(b.table, b.mem[..]);
      PlainSets(b.g);
    }

    /** The state of the core is the next state of the run. */
    ghost predicate BankIs(r: Run)
      reads bank, bank.mem, bank.content
    {
      bank.Valid() && bank.table == r.t && bank.mem[..] == r.m
    }

    /** Looks the tag up; on a hit stamps its line, and a write marks it. */
    method Lookup(tag: Tag, write: bool) returns (found: bool)
      requires Synced() && Accepted(run, tag)
      modifies bank, bank.mem, bank.content
      ensures found <==> HitsNow(run, tag)
      ensures if found then BankIs(Next(run, Access(tag, write))) else BankIs(run)
    {
      var l: nat;
      ghost var k;
      found, l, k := bank.FindLine(tag);
      if found {
        LinesOnHit(run, Access(tag, write));
        var x := bank.mem[l].(order := maxOrder);
        if write {
          x := x.(st := true);
        }
        bank.SetLine(l, x);
      }
    }

    /** Brings the tag in and stamps its line. */
    method Fill(tag: Tag, write: bool)
      requires Synced() && tag != 0 && !HitsNow(run, tag)
      modifies bank, bank.mem, bank.content
      ensures BankIs(Next(run, Access(tag, write)))
    {
      var l, k := bank.FillLine(tag);
      LinesOnMiss(run, Access(tag, write));
      Overwritten(run.m, l, bank.mem[l], LineState(tag, write, maxOrder));
      bank.SetLine(l, bank.mem[l].(st := write, order := maxOrder));
    }

    /** Consumes a stamp: the run moves on to `r`, whose state the core already holds. */
    method Stamp(ghost r: Run)
      requires BankIs(r) && |r.h| == maxOrder + 1
      modifies this
      ensures Synced() && run == r
      ensures Counters() == old(Counters())
    {
      maxOrder := maxOrder + 1;
      run := r;
    }

    /** Counts one access. */
    method Bump(write: bool, hit: bool)
      requires Synced()
      modifies this
      ensures Synced() && run == old(run) && Counters() == old(Counters()).Bump(write, hit)
    {
      if write {
        if hit { nWriteHit := nWriteHit + 1; } else { nWriteMiss := nWriteMiss + 1; }
      } else {
        if hit { nReadHit := nReadHit + 1; } else { nReadMiss := nReadMiss + 1; }
      }
    }

    /** Looks the tag up; a hit is the next access of the run. */
    method TryHit(tag: Tag, write: bool) returns (found: bool)
      requires Synced() && Accepted(run, tag)
      modifies this, bank, bank.mem, bank.content
      ensures Synced() && (found <==> HitsNow(old(run), tag))
      ensures run == if found then Next(old(run), Access(tag, write)) else old(run)
      ensures Counters() == old(Counters())
    {
      found := Lookup(tag, write);
      if found {
        Stamp(Next(run, Access(tag, write)));
      }
    }

    /** A miss brings its tag in as the next access of the run. */
    method BringIn(tag: Tag, write: bool)
      requires Synced() && tag != 0 && !HitsNow(run, tag)
      modifies this, bank, bank.mem, bank.content
      ensures Synced() && run == Next(old(run), Access(tag, write))
      ensures Counters() == old(Counters())
    {
      Fill(tag, write);
      Stamp(Next(run, Access(tag, write)));
    }

    method Read(addr: nat)
      requires Valid() && Accepted(run, addr / 64)
      modifies this, bank, bank.mem, bank.content
      ensures Valid() && run == Next(old(run), Access(addr / 64, false))
    {
      ReadTag(bank.CalcTag(addr));
    }

    method ReadTag(tag: Tag)
      requires Valid() && Accepted(run, tag)
      modifies this, bank, bank.mem, bank.content
      ensures Valid() && run == Next(old(run), Access(tag, false))
    {
      var found := TryHit(tag, false);
      if found {
        Bump(false, true);
        return;
      }
      Bump(false, false);
      BringIn(tag, false);
    }

    method Write(addr: nat)
      requires Valid() && Accepted(run, addr / 64)
      modifies this, bank, bank.mem, bank.content
      ensures Valid() && run == Next(old(run), Access(addr / 64, true))
    {
      WriteTag(bank.CalcTag(addr));
    }

    method WriteTag(tag: Tag)
      requires Valid() && Accepted(run, tag)
      modifies this, bank, bank.mem, bank.content
      ensures Valid() && run == Next(old(run), Access(tag, true))
    {
      var found := TryHit(tag, true);
      if found {
        Bump(true, true);
        return;
      }
      Bump(true, false);
      BringIn(tag, true);
    }

    /** Lists the resident lines from least to most recently used. */
    method Traverse() returns (addrs: seq<nat>)
      requires Valid()
      ensures Listing(run, addrs)
    {
      TablePoints(bank.table);
      assert bank.content[..] == bank.table.c;
      addrs := Traversal.Traverse(bank.content, bank.mem, bank.g.log2AddrLs);
      ListingHolds(run, bank.g.log2AddrLs, addrs);
    }
  }

  /** `a` lists, in increasing order of last access, every resident line of the run whose
      tag is not 0 and whose last access was not the first. */
  ghost predicate Listing(r: Run, a: seq<nat>) {
    && (forall i :: 0 <= i < |a| ==> ListedLine(r, 64, a[i]))
    && (forall i, j :: 0 <= i < j < |a| ==> LastAccess(r.h, a[i] / 64) < LastAccess(r.h, a[j] / 64))
    && (forall u: Tag :: u != 0 && HitsNow(r, u) && LastAccess(r.h, u) != 0 ==>
          exists i :: 0 <= i < |a| && a[i] / 64 == u)
  }

  lemma {:induction false} ListingHolds(r: Run, log2AddrLs: nat, a: seq<nat>)
    requires IsListing(r, log2AddrLs, a) && Pow2(log2AddrLs) == 64
    ensures Listing(r, a)
  {
    forall i | 0 <= i < |a| ensures ListedLine(r, 64, a[i]) {
      ListingAt(r, log2AddrLs, a, i);
    }
    forall i, j | 0 <= i < j < |a| ensures LastAccess(r.h, a[i] / 64) < LastAccess(r.h, a[j] / 64) {
      ListingInOrder(r, log2AddrLs, a, i, j);
    }
    forall u: Tag | u != 0 && HitsNow(r, u) && LastAccess(r.h, u) != 0
      ensures exists i :: 0 <= i < |a| && a[i] / 64 == u
    {
      ListingComplete(r, log2AddrLs, a, u);
    }
  }

  /** Without the exclusive-or, a power of two of sets takes each tag by its remainder. */
  lemma {:induction false} PlainSets(g: Geometry)
    requires g.sets >= 1 && g.setOf == ((t: Tag) => SetIndex(t, g.sets, CeilLog2(g.sets), false))
    ensures forall k: nat, t: Tag :: g.sets == Pow2(k) ==> g.setOf(t) == t % Pow2(k)
  {
    forall k: nat, t: Tag | g.sets == Pow2(k) ensures g.setOf(t) == t % Pow2(k) {
      CeilLog2OfPow2(k);
      SetIndexIsRemainder(t, k);
    }
  }

  lemma Overwritten(m: seq<LineState>, l: nat, x: LineState, y: LineState)
    requires l < |m|
    ensures m[l := x][l := y] == m[l := y]
  {
  }
}
