/** The used counter of a cache, assignment by assignment, and an account of everything that makes it differ
    from the number of used flags. */
module Books {
  import opened Machine
  import opened Slabs
  import opened Counting
  import opened Compaction
  import opened LockArrays

  /** What has made the counter differ from the flags so far. No call of the library keeps this; it is a
      record of the past.
      - twice: a used block was marked used and counted again
      - parts: an object was added to a named block without marking the block, but counted
      - silent: a load into any block marked a free block, which it does not count
      - stuck: a used block was freed while the counter was 0
      - phantom: cache_block_set_used freed a free block and lowered the counter
      - lost: used blocks cut off by a resize
      - exposed: used flags that a growing table found in the heap
      - thrown: counter values overwritten with 0
      - wraps: the counter passed 2^32 */
  datatype Ledger = Ledger(twice: nat, parts: nat, silent: nat, stuck: nat, phantom: nat, lost: nat, exposed: nat,
                           thrown: nat, wraps: nat)

  const BLANK := Ledger(0, 0, 0, 0, 0, 0, 0, 0, 0)

  function Drift(l: Ledger): (r: int) {
    l.twice + l.parts + l.stuck + l.lost - l.silent - l.phantom - l.exposed - l.thrown - U32 * l.wraps
  }

  function Sum(k: Ledger, l: Ledger): (r: Ledger)
    ensures Drift(r) == Drift(k) + Drift(l)
  {
    Ledger(k.twice + l.twice, k.parts + l.parts, k.silent + l.silent, k.stuck + l.stuck, k.phantom + l.phantom,
           k.lost + l.lost, k.exposed + l.exposed, k.thrown + l.thrown, k.wraps + l.wraps)
  }

  /** What a call still owes between two of its assignments.
      - Off: a used block has been freed, the counter not yet lowered; OffFree: a free block has been freed
      - On: a free block has been marked, the counter not yet raised; OnUsed: a used block has been marked
      - Mark: the counter has been raised, the block not yet marked
      - Trim: the used blocks have been packed, the size not yet changed */
  datatype Due = Settled | Off | OffFree | On | OnUsed | Mark(block: nat) | Trim

  datatype Book = Book(flags: seq<byte>, tag: seq<uint32>, used: uint32, due: Due, ledger: Ledger)

  /** The single assignments that calls make under the mutex. heap is what a growing table finds there. */
  datatype Effect =
    | ClearUsed(block: nat)
    | ClearTagged(block: nat, which: uint32)
    | Unmark(block: nat)
    | CountOff
    | Remark(block: nat)
    | RestoreFlag(block: nat)
    | CountOn
    | CountLoad(block: nat)
    | MarkLoaded(block: nat, tag: uint32)
    | CountPart(block: nat)
    | MarkFound(block: nat, tag: uint32)
    | Retag(block: nat, from: uint32, to: uint32)
    | Reset
    | Pack
    | ResizeTo(m: uint32, heap: Heap)
    | Shrink(heap: Heap)

  datatype Heap = Heap(flags: seq<byte>, tag: seq<uint32>, locks: seq<RwLock>)

  function FreeBlock(d: Book, b: nat, due: Due): (r: Book)
    requires b < |d.flags|
  {
    d.(flags := d.flags[b := MarkFree(d.flags[b])], due := due)
  }

  function MarkBlock(d: Book, b: nat, due: Due): (r: Book)
    requires b < |d.flags|
  {
    d.(flags := d.flags[b := MarkUsed(d.flags[b])], due := due)
  }

  function TagBlock(d: Book, b: nat, tag: uint32): (r: Book) {
    if b < |d.tag| then d.(tag := d.tag[b := tag]) else d
  }

  /** The counter raised by 1. */
  function Raise(d: Book, due: Due): (r: Book) {
    var l := if d.used + 1 < U32 then d.ledger else d.ledger.(wraps := d.ledger.wraps + 1);
    d.(used := Add32(d.used, 1), ledger := l, due := due)
  }

  function Twice(d: Book): (r: Book) {
    d.(ledger := d.ledger.(twice := d.ledger.twice + 1))
  }

  /** A table of k entries from the heap; 0 stands for entries not given. */
  function Exposed<T>(xs: seq<T>, k: nat, zero: T): (r: seq<T>)
    ensures |r| == k
  {
    seq(k, i requires 0 <= i < k => if i < |xs| then xs[i] else zero)
  }

  function Resized(d: Book, m: uint32, heap: Heap): (r: Book) {
    var n := |d.flags|;
    if m == n || m == 0 || |d.tag| != n then d
    else if m < n then
      d.(flags := d.flags[..m], tag := d.tag[..m],
         ledger := d.ledger.(lost := d.ledger.lost + Count(d.flags[m..])))
    else
      var fresh' := Exposed(heap.flags, m - n, 0);
      d.(flags := d.flags + fresh', tag := d.tag + Exposed(heap.tag, m - n, 0),
         ledger := d.ledger.(exposed := d.ledger.exposed + Count(fresh')))
  }

  /** Flags and tags as those of a cache of one-byte blocks. */
  function TablesOf(d: Book): (s: Slab)
    requires |d.flags| == |d.tag| < U32
    ensures Shape(s) && s.flags == d.flags && s.tag == d.tag && s.n == |d.flags|
  {
    Slab("", true, 0, |d.flags|, 0, 1, Repeat(256, 0), Repeat(256, 0), 0, Repeat(|d.flags|, 0), [],
         Repeat(|d.flags|, Repeat(256, 0)), d.flags, d.tag, [], [], [])
  }

  /** The walk of cache_compact over flags and tags. */
  function Packed(d: Book): (r: Book) {
    if |d.flags| != |d.tag| || |d.flags| >= U32 then d
    else
      var t := WalkTo(TablesOf(d), |d.flags|).s;
      d.(flags := t.flags, tag := t.tag, due := Trim)
  }

  function Apply(e: Effect, d: Book): (r: Book) {
    match e
    case ClearUsed(b) => if b < |d.flags| && Used(d.flags[b]) then FreeBlock(d, b, Off) else d
    case ClearTagged(b, which) =>
      if b < |d.flags| && b < |d.tag| && Clears(d.flags[b], d.tag[b], which) then FreeBlock(d, b, Off) else d
    case Unmark(b) => if b < |d.flags| then FreeBlock(d, b, if Used(d.flags[b]) then Off else OffFree) else d
    case CountOff =>
      if d.due == Off then
        if d.used > 0 then d.(used := d.used - 1, due := Settled)
        else d.(ledger := d.ledger.(stuck := d.ledger.stuck + 1), due := Settled)
      else if d.due == OffFree && d.used > 0 then
        d.(used := d.used - 1, ledger := d.ledger.(phantom := d.ledger.phantom + 1), due := Settled)
      else d.(due := Settled)
    case Remark(b) => if b < |d.flags| then MarkBlock(d, b, if Used(d.flags[b]) then OnUsed else On) else d
    case RestoreFlag(b) =>
      if b < |d.flags| && MarkFree(d.flags[b]) != 0 then MarkBlock(d, b, if Used(d.flags[b]) then OnUsed else On)
      else d
    case CountOn =>
      if d.due == On then Raise(d, Settled)
      else if d.due == OnUsed then Twice(Raise(d, Settled))
      else d
    case CountLoad(b) => if b < |d.flags| then Raise(d, Mark(b)) else d
    case MarkLoaded(b, tag) =>
      if d.due == Mark(b) && b < |d.flags| then
        TagBlock(MarkBlock(if Used(d.flags[b]) then Twice(d) else d, b, Settled), b, tag)
      else d
    case CountPart(b) =>
      if b < |d.flags| then Raise(d, Settled).(ledger := Raise(d, Settled).ledger.(parts := d.ledger.parts + 1)) else d
    case MarkFound(b, tag) =>
      if b >= |d.flags| then d
      else
        var l := if Used(d.flags[b]) then d.ledger else d.ledger.(silent := d.ledger.silent + 1);
        TagBlock(MarkBlock(d.(ledger := l), b, Settled), b, tag)
    case Retag(b, from, to) => if b < |d.tag| && d.tag[b] == from then d.(tag := d.tag[b := to]) else d
    case Reset => d.(used := 0, ledger := d.ledger.(thrown := d.ledger.thrown + d.used))
    case Pack => Packed(d)
    case ResizeTo(m, heap) => Resized(d, m, heap)
    case Shrink(heap) =>
      if d.due == Trim && |d.flags| < U32 then
        Resized(d.(due := Settled), ShrinkSize(|d.flags|, d.used), heap)
      else d
  }

  /** Cache 2 merged into cache 1: their flags one after the other, cache 2's blocks under the new tag. */
  function Joined(d: Book, e: Book, tag: uint32): (r: Book) {
    if |d.flags| + |e.flags| >= U32 then d
    else
      var l := Sum(d.ledger, e.ledger);
      Book(d.flags + e.flags, d.tag + Repeat(|e.flags|, tag), Add32(d.used, e.used), d.due,
           if d.used + e.used < U32 then l else l.(wraps := l.wraps + 1))
  }

  // ---- The law of the counter ----

  /** How far the counter is ahead of the flags while something is due. */
  function Ahead(due: Due): (r: int) {
    match due
    case Off => 1
    case On => -1
    case Mark(_) => 1
    case _ => 0
  }

  ghost predicate Law(d: Book) {
    && |d.flags| == |d.tag| < U32
    && d.used == Count(d.flags) + Drift(d.ledger) + Ahead(d.due)
    && (d.due.Mark? ==> d.due.block < |d.flags|)
    && (d.due.Trim? ==> forall k :: 0 <= k < |d.flags| ==> (Used(d.flags[k]) <==> k < Count(d.flags)))
  }

  /** What may be due when an assignment is made: nothing, or what the assignment settles. */
  predicate Settles(e: Effect, due: Due) {
    match due
    case Settled => true
    case Off => e.CountOff?
    case OffFree => e.CountOff?
    case On => e.CountOn?
    case OnUsed => e.CountOn?
    case Mark(b) => e.MarkLoaded? && e.block == b
    case Trim => e.Shrink?
  }

  /** Whether the assignment f settles whatever e may leave due. */
  predicate SettledBy(e: Effect, f: Effect) {
    match e
    case ClearUsed(_) => f.CountOff?
    case ClearTagged(_, _) => f.CountOff?
    case Unmark(_) => f.CountOff?
    case Remark(_) => f.CountOn?
    case RestoreFlag(_) => f.CountOn?
    case CountLoad(b) => f.MarkLoaded? && f.block == b
    case Pack => f.Shrink?
    case _ => true
  }

  /** The assignments that leave something due. */
  predicate Opens(e: Effect) {
    e.ClearUsed? || e.ClearTagged? || e.Unmark? || e.Remark? || e.RestoreFlag? || e.CountLoad? || e.Pack?
  }

  lemma FlagLaw(e: Effect, d: Book)
    requires Law(d) && d.due == Settled && Opens(e) && !e.Pack?
    ensures Law(Apply(e, d))
  {
    if !e.CountLoad? && e.block < |d.flags| {
      CountUpdate(d.flags, e.block, MarkFree(d.flags[e.block]));
      CountUpdate(d.flags, e.block, MarkUsed(d.flags[e.block]));
    }
  }

  lemma MarkLaw(e: Effect, d: Book)
    requires Law(d) && Settles(e, d.due) && (e.MarkLoaded? || e.MarkFound?)
    ensures Law(Apply(e, d))
  {
    if e.block < |d.flags| {
      CountUpdate(d.flags, e.block, MarkUsed(d.flags[e.block]));
    }
  }

  lemma ResizedLaw(d: Book, m: uint32, heap: Heap)
    requires Law(d) && d.due == Settled
    ensures Law(Resized(d, m, heap))
  {
    var n := |d.flags|;
    if 0 < m < n {
      assert d.flags[..m] + d.flags[m..] == d.flags;
      CountOfConcat(d.flags[..m], d.flags[m..]);
    } else if m > n {
      CountOfConcat(d.flags, Exposed(heap.flags, m - n, 0));
    }
  }

  lemma PackedLaw(d: Book)
    requires Law(d) && d.due == Settled
    ensures Law(Packed(d))
  {
    CompactionIsStable(TablesOf(d));
  }

  /** Every assignment, made when nothing else is due, keeps the law. */
  lemma ApplyLaw(e: Effect, d: Book)
    requires Law(d) && Settles(e, d.due)
    ensures Law(Apply(e, d))
  {
    if e.Pack? {
      PackedLaw(d);
    } else if Opens(e) {
      FlagLaw(e, d);
    } else if e.MarkLoaded? || e.MarkFound? {
      MarkLaw(e, d);
    } else if e.ResizeTo? {
      ResizedLaw(d, e.m, e.heap);
    } else if e.Shrink? && d.due == Trim {
      ResizedLaw(d.(due := Settled), ShrinkSize(|d.flags|, d.used), e.heap);
    }
  }

  /** What is due after it is due to it. */
  lemma ApplyDue(e: Effect, f: Effect, d: Book)
    requires Law(d) && Settles(e, d.due) && (Opens(e) ==> SettledBy(e, f))
    ensures Apply(e, d).due != Settled ==> Opens(e) && Settles(f, Apply(e, d).due)
  {
  }

  lemma JoinedLaw(d: Book, e: Book, tag: uint32)
    requires Law(d) && Law(e) && e.due == Settled && !d.due.Trim?
    ensures Law(Joined(d, e, tag))
  {
    CountOfConcat(d.flags, e.flags);
  }
}
