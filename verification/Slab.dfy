/** The block cache of cachelib.c as a value: one entry of the cache table with
    the memory it owns, and what each library call does to it. */
module Slabs {
  import opened Machine

  const BLOCK_ALLOC_QUANTUM: int := 8192
  const MAX_CACHE_BLOCK_OBJECTS: int := 256
  const ALL_CACHE_BLOCKS: uint32 := 0xFFFF_FFFF  // (-1) converted to the unsigned tag type
  const IMMORTAL_WORD: uint32 := 0xFFFF_FFFF  // half of (-1) converted to the unsigned 64-bit lifetime type

  /** The fixed tables of 256 words: object offsets, object sizes, and one row of object pointers per block. */
  type Table = t: seq<nat> | |t| == 256 witness seq(256, _ => 0)

  /** One cache table entry.
      arena is the mapped memory at address base; beyond holds the bytes of the
      backing file past the mapping, which no call ever truncates. lifetime is the lifetime array in words of
      4 bytes, two words a block, the low one first. */
  datatype Slab = Slab(
    march: string,
    public: bool,
    used: uint32,
    n: uint32,
    objects: nat,
    blockSize: nat,
    offset: Table,
    size: Table,
    base: nat,
    arena: seq<byte>,
    beyond: seq<byte>,
    ptr: seq<Table>,
    flags: seq<byte>,
    tag: seq<uint32>,
    lifetime: seq<uint32>,
    hubness: seq<uint32>,
    binding: seq<uint32>)

  /** Heap content that realloc exposes when the per-block arrays grow. */
  datatype Junk = Junk(flags: seq<byte>, tag: seq<uint32>, ptr: seq<Table>, lifetime: seq<uint32>)

  /** The per-block arrays have n entries and the mapping holds n blocks. */
  ghost predicate Shape(s: Slab) {
    && s.blockSize > 0
    && s.objects < MAX_CACHE_BLOCK_OBJECTS
    && |s.flags| == |s.tag| == |s.ptr| == s.n
    && |s.arena| == s.n * s.blockSize
  }

  // ---- Block flags: BLOCK_USED is bit 1 ----

  predicate Used(f: byte) {
    f % 4 >= 2
  }

  function MarkUsed(f: byte): (r: byte)
    ensures Used(r)
  {
    if Used(f) then f else f + 2
  }

  function MarkFree(f: byte): (r: byte)
    ensures !Used(r)
  {
    if Used(f) then f - 2 else f
  }

  function Bit(f: byte): nat {
    if Used(f) then 1 else 0
  }

  /** Number of used blocks below i. */
  function CountTo(flags: seq<byte>, i: nat): (c: nat)
    requires i <= |flags|
    ensures c <= i
  {
    if i == 0 then 0 else CountTo(flags, i - 1) + Bit(flags[i - 1])
  }

  function Count(flags: seq<byte>): (c: nat)
    ensures c <= |flags|
  {
    CountTo(flags, |flags|)
  }

  /** The indices below i of the used blocks, in order. */
  function UsedIdx(flags: seq<byte>, i: nat): (r: seq<nat>)
    requires i <= |flags|
    ensures |r| == CountTo(flags, i)
    ensures forall k :: 0 <= k < |r| ==> r[k] < i
  {
    if i == 0 then []
    else if Used(flags[i - 1]) then UsedIdx(flags, i - 1) + [i - 1]
    else UsedIdx(flags, i - 1)
  }

  /** u lists used blocks in strictly increasing order, so none lies below its rank. */
  ghost predicate Ranked(flags: seq<byte>, u: seq<nat>) {
    && (forall k :: 0 <= k < |u| ==> k <= u[k] < |flags| && Used(flags[u[k]]))
    && (forall k, l :: 0 <= k < l < |u| ==> u[k] < u[l])
  }

  lemma {:induction false} UsedIdxRanked(flags: seq<byte>, i: nat)
    requires i <= |flags|
    ensures Ranked(flags, UsedIdx(flags, i))
  {
    if i > 0 {
      UsedIdxRanked(flags, i - 1);
    }
  }

  lemma {:induction false} UsedIdxAgree(f: seq<byte>, g: seq<byte>, i: nat)
    requires i <= |f| && i <= |g| && forall k :: 0 <= k < i ==> f[k] == g[k]
    ensures UsedIdx(f, i) == UsedIdx(g, i)
  {
    if i > 0 {
      UsedIdxAgree(f, g, i - 1);
    }
  }

  /** Bytes of block k in a mapping cut into blocks of bs bytes. */
  function Block(arena: seq<byte>, bs: nat, k: nat): (r: seq<byte>)
    requires (k + 1) * bs <= |arena|
    ensures |r| == bs
  {
    assert (k + 1) * bs == k * bs + bs;
    arena[k * bs..(k + 1) * bs]
  }

  function BlockOf(s: Slab, k: nat): (r: seq<byte>)
    requires Shape(s) && k < s.n
    ensures |r| == s.blockSize
  {
    BlockBounds(k, s.n, s.blockSize);
    Block(s.arena, s.blockSize, k)
  }

  /** What a used block holds. */
  datatype Item = Item(tag: uint32, bytes: seq<byte>)

  /** The contents of the blocks listed by u. */
  function Items(s: Slab, u: seq<nat>): (r: seq<Item>)
    requires Shape(s) && forall k :: 0 <= k < |u| ==> u[k] < s.n
    ensures |r| == |u|
  {
    seq(|u|, k requires 0 <= k < |u| => Item(s.tag[u[k]], BlockOf(s, u[k])))
  }

  /** The used blocks in index order. */
  function Live(s: Slab): (r: seq<Item>)
    requires Shape(s)
    ensures |r| == Count(s.flags)
  {
    Items(s, UsedIdx(s.flags, s.n))
  }

  // ---- cache_access_object and the bytes behind the pointer it returns ----

  function AccessObject(s: Slab, block: nat, obj: nat): (r: Outcome<nat>)
    requires Shape(s)
    ensures r.Done? || r.Exit?
  {
    if block >= s.n || obj >= s.objects then Exit else Done(s.ptr[block][obj])
  }

  /** The mapping covers [addr, addr + len). */
  predicate Mapped(s: Slab, addr: nat, len: nat) {
    s.base <= addr && addr + len <= s.base + |s.arena|
  }

  function Load(s: Slab, addr: nat, len: nat): (r: Outcome<seq<byte>>) {
    if Mapped(s, addr, len) then Done(s.arena[addr - s.base..addr - s.base + len]) else Fault
  }

  /** The slab after data is written at addr. */
  function Store(s: Slab, addr: nat, data: seq<byte>): (r: Slab)
    requires Mapped(s, addr, |data|)
  {
    s.(arena := Patch(s.arena, addr - s.base, data))
  }

  function ReadObject(s: Slab, block: nat, obj: nat): (r: Outcome<seq<byte>>)
    requires Shape(s)
  {
    var a := AccessObject(s, block, obj);
    if a.Exit? then Exit else Load(s, a.value, s.size[obj])
  }

  /** Object offset, plus block offset, plus base of the mapping. */
  function PlaceOf(offset: Table, blockSize: nat, base: nat, i: nat, j: nat): (a: nat)
    requires j < MAX_CACHE_BLOCK_OBJECTS
  {
    ScaleMonotone(0, i, blockSize);
    offset[j] + i * blockSize + base
  }

  function Address(s: Slab, base: nat, i: nat, j: nat): (a: nat)
    requires j < MAX_CACHE_BLOCK_OBJECTS
  {
    PlaceOf(s.offset, s.blockSize, base, i, j)
  }

  /** Bytes of object j of block k, by position in the mapping. */
  function ObjectOf(s: Slab, k: nat, j: nat): (r: seq<byte>)
    requires Shape(s) && LaidOut(s) && k < s.n && j < s.objects
  {
    BlockOf(s, k)[s.offset[j]..s.offset[j] + s.size[j]]
  }

  /** Every object ends inside its block. */
  ghost predicate LaidOut(s: Slab)
    requires Shape(s)
  {
    forall j :: 0 <= j < s.objects ==> s.offset[j] + s.size[j] <= s.blockSize
  }

  /** Every object pointer is the address of its object: the pointer table agrees with the mapping. */
  ghost predicate Canonical(s: Slab)
    requires Shape(s)
  {
    forall i, j :: 0 <= i < s.n && 0 <= j < s.objects ==> s.ptr[i][j] == Address(s, s.base, i, j)
  }

  // ---- cache_add_block ----

  datatype Access = Access(rdlock: bool, wrlock: bool, havelock: bool, loaded: bool)

  const ANY_CACHE_BLOCK: int := -1

  /** Index of the first free block at or after from, or |flags|. */
  function FirstFree(flags: seq<byte>, from: nat): (r: nat)
    requires from <= |flags|
    ensures from <= r <= |flags|
    ensures forall k :: from <= k < r ==> Used(flags[k])
    ensures r < |flags| ==> !Used(flags[r])
    decreases |flags| - from
  {
    if from < |flags| && Used(flags[from]) then FirstFree(flags, from + 1) else from
  }

  /** bcopy of data into the object; a load also marks and tags the block. */
  function FillBlock(s: Slab, block: nat, obj: nat, data: seq<byte>, loaded: bool, tag: uint32): (r: Outcome<Slab>)
    requires Shape(s)
  {
    var a := AccessObject(s, block, obj);
    if a.Exit? then Exit
    else if !Mapped(s, a.value, |data|) then Fault
    else
      var t := Store(s, a.value, data);
      if loaded then Done(t.(flags := t.flags[block := MarkUsed(t.flags[block])], tag := t.tag[block := tag]))
      else Done(t)
  }

  /** cache_add_block. A named block bumps the used counter once per object written; any-block never does.
      On a full cache n_blocks is raised before cache_resize is asked for that very size, so nothing is
      allocated and the pointer of block n + 1 is read past the end of the pointer table. */
  function AddBlock(s: Slab, data: Option<seq<byte>>, access: Access, obj: nat, block: int, tag: uint32)
      : (r: Outcome<(Slab, nat)>)
    requires Shape(s)
  {
    if data.None? || access.rdlock || !(access.wrlock || access.havelock || access.loaded) then Exit
    else if block != ANY_CACHE_BLOCK then
      if block < 0 then Exit
      else
        match FillBlock(s, block, obj, data.value, access.loaded, tag)
        case Done(t) => Done((t.(used := Add32(t.used, 1)), block))
        case Exit => Exit
        case Fault => Fault
    else
      var i := FirstFree(s.flags, 0);
      if i < s.n then
        match FillBlock(s, i, obj, data.value, access.loaded, tag)
        case Done(t) => Done((t, i))
        case Exit => Exit
        case Fault => Fault
      else if obj >= s.objects then Exit
      else Fault
  }

  // ---- cache_delete_block, cache_restore_block, cache_block_set_used, cache_blocks_reset_used ----

  function Decrement(u: uint32): uint32 {
    if u > 0 then u - 1 else 0
  }

  function DeleteBlock(s: Slab, block: nat): (r: Outcome<(Slab, bool)>)
    requires Shape(s)
  {
    if block >= s.n then Exit
    else if Used(s.flags[block]) then
      Done((s.(flags := s.flags[block := MarkFree(s.flags[block])], used := Decrement(s.used)), true))
    else Done((s, false))
  }

  /** Tests flags & ~BLOCK_USED, that is, every flag bit except the used bit. */
  function RestoreBlock(s: Slab, block: nat): (r: Outcome<(Slab, bool)>)
    requires Shape(s)
  {
    if block >= s.n then Exit
    else if MarkFree(s.flags[block]) != 0 then
      Done((s.(flags := s.flags[block := MarkUsed(s.flags[block])], used := Add32(s.used, 1)), true))
    else Done((s, false))
  }

  function SetUsed(s: Slab, block: nat, use: bool): (r: Outcome<Slab>)
    requires Shape(s)
  {
    if block >= s.n then Exit
    else if use then
      Done(s.(flags := s.flags[block := MarkUsed(s.flags[block])], used := Add32(s.used, 1)))
    else
      Done(s.(flags := s.flags[block := MarkFree(s.flags[block])], used := Decrement(s.used)))
  }

  // ---- cache_clear, cache_change_blocktag ----

  predicate Clears(flag: byte, tag: uint32, which: uint32) {
    Used(flag) && (which == ALL_CACHE_BLOCKS || tag == which)
  }

  /** State of cache_clear's loop before it looks at block i, with the number cleared so far. */
  function ClearTo(s: Slab, which: uint32, i: nat): (r: (Slab, nat))
    requires Shape(s) && i <= s.n
    ensures Shape(r.0) && r.0.n == s.n
    ensures r.0.tag == s.tag && forall k :: i <= k < s.n ==> r.0.flags[k] == s.flags[k]
  {
    if i == 0 then (s, 0)
    else
      var (t, c) := ClearTo(s, which, i - 1);
      if Clears(t.flags[i - 1], t.tag[i - 1], which) then
        (t.(flags := t.flags[i - 1 := MarkFree(t.flags[i - 1])], used := Decrement(t.used)), c + 1)
      else (t, c)
  }

  /** cache_clear also drops the object table: n_objects becomes 0 whatever the tag. */
  function Clear(s: Slab, which: uint32): (r: (Slab, nat))
    requires Shape(s)
  {
    var (t, c) := ClearTo(s, which, s.n);
    (t.(objects := 0), c)
  }

  /** State of cache_change_blocktag's loop before it looks at block i, with the number changed so far. */
  function RetagTo(tag: seq<uint32>, a: uint32, b: uint32, i: nat): (r: (seq<uint32>, nat))
    requires i <= |tag|
    ensures |r.0| == |tag|
  {
    if i == 0 then (tag, 0)
    else
      var (t, c) := RetagTo(tag, a, b, i - 1);
      if t[i - 1] == a then (t[i - 1 := b], c + 1) else (t, c)
  }

  function Retag(s: Slab, a: uint32, b: uint32): (r: (Slab, nat))
    requires Shape(s)
  {
    var (t, c) := RetagTo(s.tag, a, b, s.n);
    (s.(tag := t), c)
  }

  // ---- move_block and the walk of cache_compact ----

  function CopyBlock(arena: seq<byte>, bs: nat, to: nat, from: nat): (r: seq<byte>)
    requires (to + 1) * bs <= |arena| && (from + 1) * bs <= |arena|
    ensures |r| == |arena|
  {
    assert (to + 1) * bs == to * bs + bs;
    Patch(arena, to * bs, Block(arena, bs, from))
  }

  /** memcpy of the bytes, then swap_cache_table_entries, then the two used bits. */
  function MoveBlock(s: Slab, block: nat, hole: nat): (r: Slab)
    requires Shape(s) && block < s.n && hole < s.n
    ensures Shape(r) && r.n == s.n
  {
    BlockBounds(block, s.n, s.blockSize);
    BlockBounds(hole, s.n, s.blockSize);
    var flags := Swap(s.flags, hole, block);
    var flags' := flags[hole := MarkUsed(flags[hole])];
    s.(arena := CopyBlock(s.arena, s.blockSize, hole, block),
       ptr := Swap(s.ptr, hole, block),
       tag := Swap(s.tag, hole, block),
       flags := flags'[block := MarkFree(flags'[block])])
  }

  datatype Walk = Walk(s: Slab, filling: bool, hole: nat, moved: nat)

  /** One round of cache_compact's loop, at block k. */
  function WalkStep(w: Walk, k: nat): (r: Walk)
    requires Shape(w.s) && k < w.s.n && (w.filling ==> w.hole < k)
    ensures Shape(r.s) && r.s.n == w.s.n
    ensures r.filling ==> r.hole <= k
  {
    if !Used(w.s.flags[k]) then
      if w.filling then w else Walk(w.s, true, k, w.moved)
    else if w.filling then Walk(MoveBlock(w.s, k, w.hole), true, w.hole + 1, w.moved + 1)
    else w
  }

  /** State of cache_compact's loop before it looks at block i. */
  function WalkTo(s: Slab, i: nat): (w: Walk)
    requires Shape(s) && i <= s.n
    ensures Shape(w.s) && w.s.n == s.n
    ensures w.filling ==> w.hole < i
  {
    if i == 0 then Walk(s, false, 0, 0) else WalkStep(WalkTo(s, i - 1), i - 1)
  }

  /** Size cache_compact asks for, in 32-bit unsigned arithmetic. */
  function ShrinkSize(n: uint32, used: uint32): (m: uint32) {
    Sub32(n, BLOCK_ALLOC_QUANTUM * (Sub32(n, used) / BLOCK_ALLOC_QUANTUM))
  }

  // ---- cache_resize ----

  /** Bytes of the backing file after posix_fallocate to need bytes. */
  function Extend(file: seq<byte>, need: nat): (r: seq<byte>)
    ensures |r| >= need && |r| >= |file| && r[..|file|] == file
  {
    if need <= |file| then file else file + seq(need - |file|, _ => 0)
  }

  /** Row i of the pointer table; entries past the last object keep what they held. */
  function RowOf(offset: Table, objects: nat, blockSize: nat, base: nat, i: nat, prior: Table): (r: Table) {
    seq(256, j requires 0 <= j < 256 => if j < objects then PlaceOf(offset, blockSize, base, i, j) else prior[j])
  }

  function Row(s: Slab, base: nat, i: nat, prior: Table): (r: Table) {
    RowOf(s.offset, s.objects, s.blockSize, base, i, prior)
  }

  ghost predicate Exposes(junk: Junk, s: Slab, m: nat) {
    && |junk.flags| >= m - |s.flags|
    && |junk.tag| >= m - |s.tag|
    && |junk.ptr| >= m - |s.ptr|
    && |junk.lifetime| >= m - |s.lifetime|
  }

  /** cache_resize of a shared mapping to m blocks, remapped at newBase. The lifetime array is
      reallocated at 4 bytes per 8-byte entry, hubness and binding are not reallocated, and the loop
      that means to initialise new blocks never runs. Mapping 0 bytes fails. */
  function Resize(s: Slab, m: uint32, newBase: nat, junk: Junk): (r: Outcome<Slab>)
    requires Shape(s) && Exposes(junk, s, m)
    ensures r.Done? <==> m == s.n || m > 0
    ensures r.Done? ==> Shape(r.value) && r.value.n == m
  {
    if m == s.n then Done(s)
    else if m == 0 then Exit
    else
      var need := m * s.blockSize;
      var file := Extend(s.arena + s.beyond, need);
      var rows := Realloc(s.ptr, m, junk.ptr);
      Done(s.(n := m, base := newBase, arena := file[..need], beyond := file[need..],
              flags := Realloc(s.flags, m, junk.flags),
              tag := Realloc(s.tag, m, junk.tag),
              lifetime := Realloc(s.lifetime, m, junk.lifetime),
              ptr := seq(m, i requires 0 <= i < m => Row(s, newBase, i, rows[i]))))
  }

  /** cache_compact: the number of blocks moved, and a resize if the mapping is shared. */
  function Compact(s: Slab, newBase: nat, junk: Junk): (r: Outcome<(Slab, nat)>)
    requires Shape(s) && Exposes(junk, s, ShrinkSize(s.n, s.used))
    ensures r.Done? ==> Shape(r.value.0)
  {
    var w := WalkTo(s, s.n);
    var m := ShrinkSize(s.n, s.used);
    if s.public && m > 0 then
      WalkKeepsLifetime(s, s.n);
      Done((Resize(w.s, m, newBase, junk).value, w.moved))
    else Done((w.s, w.moved))
  }

  lemma {:induction false} WalkKeepsLifetime(s: Slab, i: nat)
    requires Shape(s) && i <= s.n
    ensures WalkTo(s, i).s.lifetime == s.lifetime
  {
    if i > 0 {
      WalkKeepsLifetime(s, i - 1);
    }
  }

  // ---- cache_merge ----

  /** One round of cache_merge's loop: block k of src lands on block at + k of d. */
  function MergeStep(d: Slab, src: Slab, at: nat, tag: uint32, k: nat): (r: Outcome<Slab>)
    requires Shape(d) && Shape(src) && at + k < d.n && k < src.n
    ensures r.Done? ==> Shape(r.value) && r.value.n == d.n
  {
    var from, to, size := src.ptr[k][0], d.ptr[at + k][0], src.blockSize;
    if !Mapped(src, from, size) || !Mapped(d, to, size) then Fault
    else
      var e := Store(d, to, Load(src, from, size).value);
      Done(e.(flags := e.flags[at + k := src.flags[k]], tag := e.tag[at + k := tag]))
  }

  /** State of cache_merge's loop after k rounds. */
  function MergeTo(dst: Slab, src: Slab, at: nat, tag: uint32, k: nat): (r: Outcome<Slab>)
    requires Shape(dst) && Shape(src) && at + k <= dst.n && k <= src.n
    ensures r.Done? ==> Shape(r.value) && r.value.n == dst.n
  {
    if k == 0 then Done(dst)
    else
      var d := MergeTo(dst, src, at, tag, k - 1);
      if d.Done? then MergeStep(d.value, src, at, tag, k - 1) else d
  }

  /** The loop and the counter update of cache_merge, once cache 1 (at blocks long) has become d. */
  function MergeBlocks(d: Slab, t: Slab, at: nat, tag: uint32): (r: Outcome<(Slab, nat)>)
    requires Shape(d) && Shape(t) && d.n <= at + t.n
    ensures r.Done? ==> Shape(r.value.0)
  {
    var e := if d.n < at then Done(d) else MergeTo(d, t, at, tag, d.n - at);
    if e.Done? then Done((e.value.(used := Add32(e.value.used, t.used)), t.n)) else Fault
  }

  function Merge(s: Slab, t: Slab, tag: uint32, newBase: nat, junk: Junk): (r: Outcome<(Slab, nat)>)
    requires Shape(s) && Shape(t) && Exposes(junk, s, Add32(s.n, t.n))
    ensures r.Done? ==> Shape(r.value.0)
  {
    if s.march != t.march || s.blockSize != t.blockSize then Exit
    else
      var d := Resize(s, Add32(s.n, t.n), newBase, junk);
      if d.Done? then MergeBlocks(d.value, t, s.n, tag) else Exit
  }

  /** One round of the same loop when both caches are one: block k goes onto block at + k, and memcpy does not
      allow the two to overlap. */
  function SelfStep(d: Slab, at: nat, tag: uint32, k: nat): (r: Outcome<Slab>)
    requires Shape(d) && at + k < d.n
    ensures r.Done? ==> Shape(r.value) && r.value.n == d.n
  {
    var from, to, size := d.ptr[k][0], d.ptr[at + k][0], d.blockSize;
    if !Mapped(d, from, size) || !Mapped(d, to, size) || (from < to + size && to < from + size) then Fault
    else
      var e := Store(d, to, Load(d, from, size).value);
      Done(e.(flags := e.flags[at + k := d.flags[k]], tag := e.tag[at + k := tag]))
  }

  function SelfTo(d: Slab, at: nat, tag: uint32, k: nat): (r: Outcome<Slab>)
    requires Shape(d) && at + k <= d.n
    ensures r.Done? ==> Shape(r.value) && r.value.n == d.n
  {
    if k == 0 then Done(d)
    else
      var e := SelfTo(d, at, tag, k - 1);
      if e.Done? then SelfStep(e.value, at, tag, k - 1) else e
  }

  /** The loop and the counter update for a cache, at blocks long, that has become d. */
  function SelfBlocks(d: Slab, at: nat, tag: uint32): (r: Outcome<(Slab, nat)>)
    requires Shape(d)
    ensures r.Done? ==> Shape(r.value.0)
  {
    var e := if d.n < at then Done(d) else SelfTo(d, at, tag, d.n - at);
    if e.Done? then Done((e.value.(used := Add32(e.value.used, e.value.used)), at)) else Fault
  }

  /** cache_merge of a cache with itself: after the resize, what it copies from has changed as well. */
  function MergeSelf(s: Slab, tag: uint32, newBase: nat, junk: Junk): (r: Outcome<(Slab, nat)>)
    requires Shape(s) && Exposes(junk, s, Add32(s.n, s.n))
    ensures r.Done? ==> Shape(r.value.0)
  {
    var d := Resize(s, Add32(s.n, s.n), newBase, junk);
    if d.Done? then SelfBlocks(d.value, s.n, tag) else Exit
  }
}
