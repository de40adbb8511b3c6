/** cache_merge as concatenation, and when it is not. */
module Merging {
  import opened Machine
  import opened Slabs
  import opened Counting
  import opened Addressing
  import opened Resizing
  import opened Accounting

  /** The pointer of object 0 is the address of its block: what cache_merge takes it for. */
  ghost predicate BlockPointers(s: Slab)
    requires Shape(s)
  {
    Canonical(s) && s.objects > 0 && s.offset[0] == 0
  }

  /** A merge of such caches is refused. */
  predicate Unlike(s: Slab, t: Slab) {
    s.march != t.march || s.blockSize != t.blockSize
  }

  /** Reading a block's worth of bytes through the pointer of its first object gives the block. */
  ghost predicate ReadsOwn(t: Slab)
    requires Shape(t)
  {
    forall k :: 0 <= k < t.n ==> Load(t, t.ptr[k][0], t.blockSize) == Done(BlockOf(t, k))
  }

  lemma BlockPointersRead(t: Slab)
    requires Shape(t) && BlockPointers(t)
    ensures ReadsOwn(t)
  {
    forall k | 0 <= k < t.n
      ensures Load(t, t.ptr[k][0], t.blockSize) == Done(BlockOf(t, k))
    {
      LoadBlock(t, k);
      assert t.ptr[k][0] == t.base + k * t.blockSize;
    }
  }

  /** The bytes that the loop copies for block k of t. */
  function Loaded(t: Slab, k: nat): (bytes: seq<byte>)
    requires Shape(t) && k < t.n && Mapped(t, t.ptr[k][0], t.blockSize)
    ensures |bytes| == t.blockSize
  {
    Load(t, t.ptr[k][0], t.blockSize).value
  }

  ghost predicate LoadedBytes(dst: Slab, src: Slab, at: nat, k: nat, e: Slab)
    requires Shape(dst) && Shape(src) && at + k <= dst.n && k <= src.n && dst.blockSize == src.blockSize
    requires forall i :: 0 <= i < k ==> Mapped(src, src.ptr[i][0], src.blockSize)
  {
    && Shape(e)
    && e == dst.(arena := e.arena, flags := e.flags, tag := e.tag)
    && forall i :: 0 <= i < dst.n ==>
         BlockOf(e, i) == if at <= i < at + k then Loaded(src, i - at) else BlockOf(dst, i)
  }

  /** One round with a right pointer changes one block, one flag and one tag. */
  lemma StepBlock(d: Slab, src: Slab, at: nat, tag: uint32, k: nat, i: nat)
    requires Shape(d) && Shape(src) && at + k < d.n && k < src.n && i < d.n && d.blockSize == src.blockSize
    requires Mapped(src, src.ptr[k][0], src.blockSize) && d.ptr[at + k][0] == d.base + (at + k) * d.blockSize
    ensures var r := MergeStep(d, src, at, tag, k);
      && r.Done? && r.value == d.(arena := r.value.arena, flags := r.value.flags, tag := r.value.tag)
      && BlockOf(r.value, i) == if i == at + k then Loaded(src, k) else BlockOf(d, i)
  {
    StoreBlock(d, at + k, Loaded(src, k), i);
    var t := Store(d, d.base + (at + k) * d.blockSize, Loaded(src, k));
    var e := MergeStep(d, src, at, tag, k).value;
    assert e.arena == t.arena && BlockOf(e, i) == BlockOf(t, i);
  }

  lemma LoadOne(dst: Slab, src: Slab, at: nat, tag: uint32, k: nat, d: Slab)
    requires Shape(dst) && Shape(src) && at + k < dst.n && k < src.n && BlockPointers(dst)
    requires dst.blockSize == src.blockSize && forall i :: 0 <= i <= k ==> Mapped(src, src.ptr[i][0], src.blockSize)
    requires LoadedBytes(dst, src, at, k, d)
    ensures MergeStep(d, src, at, tag, k).Done?
    ensures LoadedBytes(dst, src, at, k + 1, MergeStep(d, src, at, tag, k).value)
  {
    hide MergeStep, Loaded, BlockOf, Mapped;
    assert dst.ptr[at + k][0] == dst.base + (at + k) * dst.blockSize;
    StepBlock(d, src, at, tag, k, at + k);
    var e := MergeStep(d, src, at, tag, k).value;
    forall i | 0 <= i < dst.n
      ensures BlockOf(e, i) == if at <= i < at + (k + 1) then Loaded(src, i - at) else BlockOf(dst, i)
    {
      StepBlock(d, src, at, tag, k, i);
    }
  }

  /** With block pointers in the cache merged into, the loop returns exactly when every pointer of the other leads
      to a block's worth of its mapping, and then copies what they lead to. */
  lemma {:induction false} MergeLoads(dst: Slab, src: Slab, at: nat, tag: uint32, k: nat)
    requires Shape(dst) && Shape(src) && at + k <= dst.n && k <= src.n
    requires BlockPointers(dst) && dst.blockSize == src.blockSize
    ensures var r := MergeTo(dst, src, at, tag, k);
      && !r.Exit? && (r.Done? <==> forall i :: 0 <= i < k ==> Mapped(src, src.ptr[i][0], src.blockSize))
      && (r.Done? ==> LoadedBytes(dst, src, at, k, r.value))
  {
    hide MergeStep;
    if k > 0 {
      MergeLoads(dst, src, at, tag, k - 1);
      var d := MergeTo(dst, src, at, tag, k - 1);
      if d.Done? && Mapped(src, src.ptr[k - 1][0], src.blockSize) {
        LoadOne(dst, src, at, tag, k - 1, d.value);
      } else if d.Done? {
        UnmappedStep(d.value, src, at, tag, k - 1);
      }
    }
  }

  lemma UnmappedStep(d: Slab, src: Slab, at: nat, tag: uint32, k: nat)
    requires Shape(d) && Shape(src) && at + k < d.n && k < src.n && !Mapped(src, src.ptr[k][0], src.blockSize)
    ensures MergeStep(d, src, at, tag, k) == Fault
  {
  }

  /** With block pointers on both sides the loop never faults and copies block by block. */
  lemma MergeBytes(dst: Slab, src: Slab, at: nat, tag: uint32, k: nat)
    requires Shape(dst) && Shape(src) && at + k <= dst.n && k <= src.n
    requires BlockPointers(dst) && BlockPointers(src) && dst.blockSize == src.blockSize
    ensures MergeTo(dst, src, at, tag, k).Done?
    ensures MergedBytes(dst, src, at, k, MergeTo(dst, src, at, tag, k).value)
  {
    hide MergeTo;
    BlockPointersRead(src);
    MergeLoads(dst, src, at, tag, k);
  }

  ghost predicate MergedBytes(dst: Slab, src: Slab, at: nat, k: nat, e: Slab)
    requires Shape(dst) && Shape(src) && at + k <= dst.n && k <= src.n
  {
    && Shape(e)
    && e == dst.(arena := e.arena, flags := e.flags, tag := e.tag)
    && forall i :: 0 <= i < dst.n ==>
         BlockOf(e, i) == if at <= i < at + k then BlockOf(src, i - at) else BlockOf(dst, i)
  }

  // ---- The live blocks of a concatenation ----

  function Retagged(items: seq<Item>, tag: uint32): (r: seq<Item>) {
    seq(|items|, k requires 0 <= k < |items| => items[k].(tag := tag))
  }

  /** e holds the first at blocks of d, then the blocks of t, behind sound pointers. */
  ghost predicate Laid(d: Slab, at: nat, t: Slab, e: Slab)
    requires Shape(d) && Shape(t) && at <= d.n
  {
    && Shape(e) && e.n == at + t.n && BlockPointers(e)
    && e.offset == d.offset && e.size == d.size && e.objects == d.objects && e.blockSize == d.blockSize
    && (forall i :: 0 <= i < at ==> BlockOf(e, i) == BlockOf(d, i))
    && (forall i :: at <= i < e.n ==> BlockOf(e, i) == BlockOf(t, i - at))
  }

  /** Merging like caches with sound pointers lays the blocks of cache 2 after those of cache 1. */
  lemma MergeContents(s: Slab, t: Slab, tag: uint32, newBase: nat, junk: Junk)
    requires Shape(s) && Shape(t) && s.n + t.n < U32 && Exposes(junk, s, s.n + t.n)
    requires s.march == t.march && s.blockSize == t.blockSize && s.n > 0
    requires BlockPointers(s) && BlockPointers(t)
    ensures var r := Merge(s, t, tag, newBase, junk);
      r.Done? && r.value.1 == t.n && Laid(s, s.n, t, r.value.0)
  {
    MergeIsAppend(s, t, tag, newBase, junk);
    GrownPointers(s, t, newBase, junk);
    var d := Grown(s, t, newBase, junk);
    AppendContents(d, t, s.n, tag);
    LaidThrough(s, d, t, MergeBlocks(d, t, s.n, tag).value.0);
  }

  lemma LaidThrough(s: Slab, d: Slab, t: Slab, e: Slab)
    requires Shape(s) && Shape(d) && Shape(t) && s.n <= d.n && Laid(d, s.n, t, e)
    requires d.offset == s.offset && d.size == s.size && d.objects == s.objects && d.blockSize == s.blockSize
    requires forall i :: 0 <= i < s.n ==> BlockOf(d, i) == BlockOf(s, i)
    ensures Laid(s, s.n, t, e)
  {
  }

  lemma {:induction false} AppendContents(d: Slab, t: Slab, at: nat, tag: uint32)
    requires Shape(d) && Shape(t) && d.n == at + t.n && BlockPointers(d) && BlockPointers(t)
    requires d.blockSize == t.blockSize
    ensures var r := MergeBlocks(d, t, at, tag);
      r.Done? && r.value.1 == t.n && Laid(d, at, t, r.value.0)
  {
    MergeBytes(d, t, at, tag, t.n);
    var e := MergeTo(d, t, at, tag, t.n).value;
    var r := MergeBlocks(d, t, at, tag).value.0;
    assert forall i :: 0 <= i < d.n ==> BlockOf(r, i) == BlockOf(e, i);
  }

  lemma GrownPointers(s: Slab, t: Slab, newBase: nat, junk: Junk)
    requires Shape(s) && Shape(t) && s.n + t.n < U32 && Exposes(junk, s, s.n + t.n)
    requires BlockPointers(s) && s.n > 0
    ensures var d := Grown(s, t, newBase, junk);
      && BlockPointers(d)
      && d.offset == s.offset && d.size == s.size && d.objects == s.objects && d.blockSize == s.blockSize
      && forall i :: 0 <= i < s.n ==> BlockOf(d, i) == BlockOf(s, i)
  {
    if t.n > 0 {
      ResizeContents(s, s.n + t.n, newBase, junk);
    }
  }

  /** Merging like caches with sound pointers concatenates their live blocks, those of cache 2 under
      the new tag, and adds their counters. */
  lemma MergeIsConcatenation(s: Slab, t: Slab, tag: uint32, newBase: nat, junk: Junk)
    requires Shape(s) && Shape(t) && s.n + t.n < U32 && Exposes(junk, s, s.n + t.n)
    requires s.march == t.march && s.blockSize == t.blockSize && s.n > 0
    requires BlockPointers(s) && BlockPointers(t)
    ensures var r := Merge(s, t, tag, newBase, junk);
      && r.Done?
      && Live(r.value.0) == Live(s) + Retagged(Live(t), tag)
      && r.value.0.used == Add32(s.used, t.used)
  {
    MergeContents(s, t, tag, newBase, junk);
    MergeFlags(s, t, tag, newBase, junk);
    LiveConcat(s, t, tag, Merge(s, t, tag, newBase, junk).value.0);
  }

  lemma {:induction false} LiveConcat(s: Slab, t: Slab, tag: uint32, e: Slab)
    requires Shape(s) && Shape(t) && Shape(e)
    requires e.flags == s.flags + t.flags && e.tag == s.tag + seq(t.n, _ => tag)
    requires Laid(s, s.n, t, e)
    ensures Live(e) == Live(s) + Retagged(Live(t), tag)
  {
    UsedIdxConcat(s.flags, t.flags, t.n);
    ItemsConcat(s, UsedIdx(s.flags, s.n), t, UsedIdx(t.flags, t.n), tag, e);
  }

  lemma {:induction false} ItemsConcat(s: Slab, u: seq<nat>, t: Slab, v: seq<nat>, tag: uint32, e: Slab)
    requires Shape(s) && Shape(t) && Laid(s, s.n, t, e) && e.tag == s.tag + seq(t.n, _ => tag)
    requires forall k :: 0 <= k < |u| ==> u[k] < s.n
    requires forall k :: 0 <= k < |v| ==> v[k] < t.n
    ensures Items(e, u + Shift(v, s.n)) == Items(s, u) + Retagged(Items(t, v), tag)
  {
    var w := u + Shift(v, s.n);
    forall k | 0 <= k < |w|
      ensures Items(e, w)[k] == (Items(s, u) + Retagged(Items(t, v), tag))[k]
    {
      if k >= |u| {
        assert BlockOf(e, w[k]) == BlockOf(t, w[k] - s.n);
      }
    }
  }

  // ---- A cache merged with itself ----

  lemma SelfOne(s: Slab, d: Slab, e: Slab, at: nat, tag: uint32, k: nat)
    requires Shape(s) && Shape(d) && at == s.n && k < at && at + k < d.n && s.blockSize == d.blockSize
    requires BlockPointers(s) && BlockPointers(d) && MergedBytes(d, s, at, k, e)
    requires BlockOf(d, k) == BlockOf(s, k) && e.flags[k] == s.flags[k]
    ensures SelfStep(e, at, tag, k) == MergeStep(e, s, at, tag, k)
  {
    assert e.ptr[k][0] == e.base + k * e.blockSize;
    assert e.ptr[at + k][0] == e.base + (at + k) * e.blockSize;
    assert s.ptr[k][0] == s.base + k * s.blockSize;
    LoadBlock(e, k);
    LoadBlock(s, k);
    ScaleMonotone(k + 1, at + k, e.blockSize);
    assert (k + 1) * e.blockSize == k * e.blockSize + e.blockSize;
  }

  lemma {:induction false} SelfLoop(s: Slab, d: Slab, at: nat, tag: uint32, k: nat)
    requires Shape(s) && Shape(d) && at == s.n && k <= at && at + k <= d.n && s.blockSize == d.blockSize
    requires BlockPointers(s) && BlockPointers(d)
    requires forall i :: 0 <= i < at ==> BlockOf(d, i) == BlockOf(s, i) && d.flags[i] == s.flags[i]
    ensures SelfTo(d, at, tag, k) == MergeTo(d, s, at, tag, k)
  {
    hide MergeStep;
    hide SelfStep;
    hide MergedBytes;
    if k > 0 {
      SelfLoop(s, d, at, tag, k - 1);
      MergeBytes(d, s, at, tag, k - 1);
      SelfFlags(d, s, at, tag, k - 1);
      SelfOne(s, d, MergeTo(d, s, at, tag, k - 1).value, at, tag, k - 1);
    }
  }

  lemma SelfFlags(d: Slab, s: Slab, at: nat, tag: uint32, k: nat)
    requires Shape(d) && Shape(s) && k < at && at + k <= d.n && k < s.n && MergeTo(d, s, at, tag, k).Done?
    ensures MergeTo(d, s, at, tag, k).value.flags[k] == d.flags[k]
  {
    MergeTables(d, s, at, tag, k);
  }

  lemma SelfAppend(s: Slab, d: Slab, tag: uint32)
    requires Shape(s) && Shape(d) && d.n == s.n + s.n && s.blockSize == d.blockSize && d.used == s.used
    requires BlockPointers(s) && BlockPointers(d)
    requires forall i :: 0 <= i < s.n ==> BlockOf(d, i) == BlockOf(s, i) && d.flags[i] == s.flags[i]
    ensures SelfBlocks(d, s.n, tag) == MergeBlocks(d, s, s.n, tag)
  {
    SelfLoop(s, d, s.n, tag, s.n);
    if MergeTo(d, s, s.n, tag, s.n).Done? {
      MergeTables(d, s, s.n, tag, s.n);
    }
    MergeBytes(d, s, s.n, tag, s.n);
  }

  lemma SelfPrepared(s: Slab, m: uint32, newBase: nat, junk: Junk)
    requires Shape(s) && BlockPointers(s) && 0 < s.n < m && Exposes(junk, s, m)
    ensures var d := Resize(s, m, newBase, junk).value;
      && d.blockSize == s.blockSize && d.used == s.used && BlockPointers(d)
      && forall i :: 0 <= i < s.n ==> BlockOf(d, i) == BlockOf(s, i) && d.flags[i] == s.flags[i]
  {
    ResizeContents(s, m, newBase, junk);
  }

  lemma MergeSelfUnfolds(s: Slab, tag: uint32, newBase: nat, junk: Junk)
    requires Shape(s) && Exposes(junk, s, Add32(s.n, s.n))
    ensures var d := Resize(s, Add32(s.n, s.n), newBase, junk);
      && MergeSelf(s, tag, newBase, junk) == (if d.Done? then SelfBlocks(d.value, s.n, tag) else Exit)
      && Merge(s, s, tag, newBase, junk) == (if d.Done? then MergeBlocks(d.value, s, s.n, tag) else Exit)
      && (d.Done? && (d.value.n < s.n || s.n == 0) ==>
            d.value.used == s.used && SelfBlocks(d.value, s.n, tag) == MergeBlocks(d.value, s, s.n, tag))
  {
  }

  /** Merging a cache with itself does what merging it with a copy of itself would do. */
  lemma MergeSelfIsCopy(s: Slab, tag: uint32, newBase: nat, junk: Junk)
    requires Shape(s) && BlockPointers(s) && Exposes(junk, s, Add32(s.n, s.n))
    ensures MergeSelf(s, tag, newBase, junk) == Merge(s, s, tag, newBase, junk)
  {
    hide MergeSelf;
    hide Merge;
    hide SelfBlocks;
    hide MergeBlocks;
    var m := Add32(s.n, s.n);
    MergeSelfUnfolds(s, tag, newBase, junk);
    if 0 < s.n < m {
      SelfPrepared(s, m, newBase, junk);
      SelfAppend(s, Resize(s, m, newBase, junk).value, tag);
    }
  }

  /** Copying block i onto block at + i, both through the pointers of their first objects, stays in the mapping and
      does not overlap. */
  predicate CopiesApart(d: Slab, at: nat, i: nat)
    requires at + i < |d.ptr|
  {
    var a, b, len := d.ptr[i][0], d.ptr[at + i][0], d.blockSize;
    Mapped(d, a, len) && Mapped(d, b, len) && (a + len <= b || b + len <= a)
  }

  /** With whatever pointers, the loop over one cache returns exactly when it reads and writes inside the mapping
      and never copies a range onto one that overlaps it. */
  lemma {:induction false} SelfReturns(d: Slab, at: nat, tag: uint32, k: nat)
    requires Shape(d) && at + k <= d.n
    ensures var r := SelfTo(d, at, tag, k);
      && !r.Exit?
      && (r.Done? <==> forall i :: 0 <= i < k ==> CopiesApart(d, at, i))
      && (r.Done? ==> r.value.ptr == d.ptr && r.value.base == d.base && |r.value.arena| == |d.arena|
                      && r.value.blockSize == d.blockSize)
  {
    hide SelfStep, CopiesApart;
    if k > 0 {
      SelfReturns(d, at, tag, k - 1);
      var r := SelfTo(d, at, tag, k - 1);
      if r.Done? {
        SelfStepReturns(d, r.value, at, tag, k - 1);
      }
    }
  }

  lemma SelfStepReturns(d: Slab, e: Slab, at: nat, tag: uint32, k: nat)
    requires Shape(d) && Shape(e) && at + k < d.n == e.n && e.blockSize == d.blockSize
    requires e.ptr == d.ptr && e.base == d.base && |e.arena| == |d.arena|
    ensures var r := SelfStep(e, at, tag, k);
      && !r.Exit?
      && (r.Done? <==> CopiesApart(d, at, k))
      && (r.Done? ==> r.value.blockSize == d.blockSize && r.value.ptr == d.ptr && r.value.base == d.base
                      && |r.value.arena| == |d.arena|)
  {
  }

  /** A merge whose block count wraps leaves with an error if nothing would be left of it. Otherwise it cuts
      cache 1 down to the wrapped count, copies nothing, and still adds the counters and returns cache 2's count;
      merging a cache with itself does the same. */
  lemma MergeWraps(s: Slab, t: Slab, tag: uint32, newBase: nat, junk: Junk)
    requires Shape(s) && Shape(t) && !Unlike(s, t) && s.n + t.n >= U32 && Exposes(junk, s, s.n + t.n - U32)
    ensures var m, r := s.n + t.n - U32, Merge(s, t, tag, newBase, junk);
      if m == 0 then r.Exit?
      else
        && r.Done? && r.value.1 == t.n && r.value.0.n == m && r.value.0.used == Add32(s.used, t.used)
        && (forall k :: 0 <= k < m ==>
              && BlockOf(r.value.0, k) == BlockOf(s, k)
              && r.value.0.flags[k] == s.flags[k] && r.value.0.tag[k] == s.tag[k])
    ensures s == t ==> MergeSelf(s, tag, newBase, junk) == Merge(s, t, tag, newBase, junk)
  {
    if s.n + t.n > U32 {
      ResizeContents(s, s.n + t.n - U32, newBase, junk);
    }
  }
}
