/** The assignments a call makes while it holds the mutex add up to the call on values, and what they add to
    the ledger. */
module Sections {
  import opened Machine
  import opened Slabs
  import opened Accounting
  import opened Compaction
  import opened Books

  /** The book tells what the cache's tables and counter are. */
  ghost predicate Tells(d: Book, s: Slab) {
    d.flags == s.flags && d.tag == s.tag && d.used == s.used && d.due == Settled
  }

  function Both(e: Effect, f: Effect, d: Book): (r: Book) {
    Apply(f, Apply(e, d))
  }

  lemma DeleteSection(d: Book, s: Slab, b: nat)
    requires Shape(s) && b < s.n && Tells(d, s)
    ensures var r := Both(ClearUsed(b), CountOff, d);
      && Tells(r, DeleteBlock(s, b).value.0)
      && r.ledger == if Used(s.flags[b]) && s.used == 0 then d.ledger.(stuck := d.ledger.stuck + 1) else d.ledger
  {
  }

  lemma RestoreSection(d: Book, s: Slab, b: nat)
    requires Shape(s) && b < s.n && Tells(d, s)
    ensures var r, l := Both(RestoreFlag(b), CountOn, d), d.ledger;
      && Tells(r, RestoreBlock(s, b).value.0)
      && r.ledger.twice == l.twice + (if MarkFree(s.flags[b]) != 0 && Used(s.flags[b]) then 1 else 0)
      && r.ledger == l.(twice := r.ledger.twice, wraps := r.ledger.wraps)
  {
  }

  lemma SetUsedSection(d: Book, s: Slab, b: nat, use: bool)
    requires Shape(s) && b < s.n && Tells(d, s)
    ensures var r := if use then Both(Remark(b), CountOn, d) else Both(Unmark(b), CountOff, d); var l := d.ledger;
      && Tells(r, Slabs.SetUsed(s, b, use).value)
      && r.ledger.twice == l.twice + (if use && Used(s.flags[b]) then 1 else 0)
      && r.ledger.stuck == l.stuck + (if !use && Used(s.flags[b]) && s.used == 0 then 1 else 0)
      && r.ledger.phantom == l.phantom + (if !use && !Used(s.flags[b]) && s.used > 0 then 1 else 0)
  {
  }

  /** A load into a named block that returns. */
  lemma LoadSection(d: Book, s: Slab, b: nat, tag: uint32, data: seq<byte>, obj: nat)
    requires Shape(s) && b < s.n && Tells(d, s)
    requires AddBlock(s, Some(data), Slabs.Access(false, true, false, true), obj, b, tag).Done?
    ensures var r := Both(CountLoad(b), MarkLoaded(b, tag), d);
      && Tells(r, AddBlock(s, Some(data), Slabs.Access(false, true, false, true), obj, b, tag).value.0)
      && r.ledger.twice == d.ledger.twice + (if Used(s.flags[b]) then 1 else 0)
  {
  }

  /** One more object of a named block, the block not marked. */
  lemma PartSection(d: Book, s: Slab, b: nat, tag: uint32, data: seq<byte>, obj: nat)
    requires Shape(s) && b < s.n && Tells(d, s)
    requires AddBlock(s, Some(data), Slabs.Access(false, true, false, false), obj, b, tag).Done?
    ensures var r := Apply(CountPart(b), d);
      && Tells(r, AddBlock(s, Some(data), Slabs.Access(false, true, false, false), obj, b, tag).value.0)
      && r.ledger.parts == d.ledger.parts + 1
  {
  }

  /** A load into any block that returns, when nobody else has changed the flags since its search. */
  lemma LoadAnySection(d: Book, s: Slab, tag: uint32, data: seq<byte>, obj: nat)
    requires Shape(s) && Tells(d, s)
    requires AddBlock(s, Some(data), Slabs.Access(false, true, false, true), obj, ANY_CACHE_BLOCK, tag).Done?
    ensures var r := Apply(MarkFound(FirstFree(s.flags, 0), tag), d);
      && Tells(r, AddBlock(s, Some(data), Slabs.Access(false, true, false, true), obj, ANY_CACHE_BLOCK, tag).value.0)
      && r.ledger == d.ledger.(silent := d.ledger.silent + 1)
  {
  }

  // ---- Loops ----

  /** The assignments of a clearing loop from block i on. */
  function ClearFrom(which: uint32, d: Book, i: nat): (r: Book)
    decreases |d.flags| - i
  {
    if i >= |d.flags| then d
    else
      var e := Both(ClearTagged(i, which), CountOff, d);
      assert |e.flags| == |d.flags|;
      ClearFrom(which, e, i + 1)
  }

  lemma ClearRound(d: Book, s: Slab, which: uint32, i: nat)
    requires Shape(s) && i < s.n && Tells(d, ClearTo(s, which, i).0)
    ensures Tells(Both(ClearTagged(i, which), CountOff, d), ClearTo(s, which, i + 1).0)
  {
  }

  lemma {:induction false} ClearSection(d: Book, s: Slab, which: uint32, i: nat)
    requires Shape(s) && i <= s.n && Tells(d, ClearTo(s, which, i).0)
    ensures Tells(ClearFrom(which, d, i), ClearTo(s, which, s.n).0)
    decreases s.n - i
  {
    if i < s.n {
      ClearRound(d, s, which, i);
      ClearSection(Both(ClearTagged(i, which), CountOff, d), s, which, i + 1);
    }
  }

  function ChangeAllFrom(from: uint32, to: uint32, d: Book, i: nat): (r: Book)
    decreases |d.flags| - i
  {
    if i >= |d.flags| then d
    else
      var e := Apply(Books.Retag(i, from, to), d);
      assert e.flags == d.flags;
      ChangeAllFrom(from, to, e, i + 1)
  }

  lemma {:induction false} RetagSection(d: Book, s: Slab, from: uint32, to: uint32, i: nat)
    requires Shape(s) && i <= s.n && Tells(d, s.(tag := RetagTo(s.tag, from, to, i).0))
    ensures Tells(ChangeAllFrom(from, to, d, i), Slabs.Retag(s, from, to).0)
    decreases s.n - i
  {
    if i < s.n {
      RetagSection(Apply(Books.Retag(i, from, to), d), s, from, to, i + 1);
    }
  }

  // ---- Calls that change the size ----

  /** Heap content for a growing cache, as a slab's tables and as a book's. */
  predicate SameHeap(heap: Heap, junk: Junk, k: int) {
    && k <= |heap.flags| && k <= |heap.tag| && k <= |junk.flags| && k <= |junk.tag|
    && forall i :: 0 <= i < k ==> heap.flags[i] == junk.flags[i] && heap.tag[i] == junk.tag[i]
  }

  lemma ResizeSection(d: Book, s: Slab, m: uint32, heap: Heap, newBase: nat, junk: Junk)
    requires Shape(s) && Tells(d, s) && Exposes(junk, s, m) && m > 0 && SameHeap(heap, junk, m - s.n)
    ensures Tells(Apply(ResizeTo(m, heap), d), Slabs.Resize(s, m, newBase, junk).value)
    ensures var r, l := Apply(ResizeTo(m, heap), d), d.ledger;
      r.ledger == l.(lost := l.lost + (if m < s.n then Slabs.Count(s.flags[m..]) else 0),
                     exposed := l.exposed + if m > s.n then Slabs.Count(junk.flags[..m - s.n]) else 0)
  {
    if m > s.n {
      assert Exposed(heap.flags, m - s.n, 0) == junk.flags[..m - s.n];
      assert Exposed(heap.tag, m - s.n, 0) == junk.tag[..m - s.n];
    }
  }

  /** The walk's tables depend on nothing but the tables. */
  lemma {:induction false} WalkTables(s: Slab, t: Slab, i: nat)
    requires Shape(s) && Shape(t) && s.n == t.n && s.flags == t.flags && s.tag == t.tag && i <= s.n
    ensures var v, w := WalkTo(s, i), WalkTo(t, i);
      v.s.flags == w.s.flags && v.s.tag == w.s.tag && v.filling == w.filling && v.hole == w.hole
  {
    if i > 0 {
      WalkTables(s, t, i - 1);
    }
  }

  lemma PackSection(d: Book, s: Slab)
    requires Shape(s) && Tells(d, s)
    ensures Tells(Apply(Pack, d).(due := Settled), WalkTo(s, s.n).s) && Apply(Pack, d).due == Trim
  {
    WalkTables(TablesOf(d), s, s.n);
    WalkFrame(s, s.n);
  }

  lemma CompactSection(d: Book, s: Slab, heap: Heap, newBase: nat, junk: Junk)
    requires Shape(s) && Tells(d, s) && s.public && Exposes(junk, s, ShrinkSize(s.n, s.used))
    requires SameHeap(heap, junk, ShrinkSize(s.n, s.used) - s.n)
    ensures Tells(Both(Pack, Shrink(heap), d), Slabs.Compact(s, newBase, junk).value.0)
  {
    PackSection(d, s);
    WalkFrame(s, s.n);
    ShrinkSection(Apply(Pack, d), WalkTo(s, s.n).s, heap, newBase, junk);
  }

  lemma ShrinkSection(p: Book, w: Slab, heap: Heap, newBase: nat, junk: Junk)
    requires Shape(w) && Tells(p.(due := Settled), w) && p.due == Trim && Exposes(junk, w, ShrinkSize(w.n, w.used))
    requires SameHeap(heap, junk, ShrinkSize(w.n, w.used) - w.n)
    ensures var m := ShrinkSize(w.n, w.used);
      Tells(Apply(Shrink(heap), p), if m > 0 then Slabs.Resize(w, m, newBase, junk).value else w)
  {
    var m := ShrinkSize(w.n, w.used);
    var q := p.(due := Settled);
    assert Apply(ResizeTo(m, heap), q) == Apply(Shrink(heap), p);
    if m > 0 {
      ResizeSection(q, w, m, heap, newBase, junk);
    }
  }

  /** Merging like caches. */
  lemma MergeSection(d: Book, e: Book, s: Slab, t: Slab, tag: uint32, newBase: nat, junk: Junk)
    requires Shape(s) && Shape(t) && Tells(d, s) && Tells(e, t)
    requires s.n + t.n < U32 && Exposes(junk, s, s.n + t.n) && Slabs.Merge(s, t, tag, newBase, junk).Done?
    ensures Tells(Joined(d, e, tag), Slabs.Merge(s, t, tag, newBase, junk).value.0)
    ensures var r, l := Joined(d, e, tag), Sum(d.ledger, e.ledger);
      r.ledger == l.(wraps := l.wraps + if s.used + t.used < U32 then 0 else 1)
  {
    MergeFlags(s, t, tag, newBase, junk);
  }
}
