/** Calls that work on what other calls leave: first fit, merging then compacting, merging after clearing. */
module Combined {
  import opened Machine
  import opened Slabs
  import opened Addressing
  import opened Shrinking
  import opened Accounting
  import opened Merging
  import opened Simulation

  /** A load that asks for any block gets the least free block, which alone changes: its bytes from the
      object's offset on, its tag, and its used bit. The used counter does not count it. With no free block
      the call reads past the end of the pointer table. */
  lemma AnyBlockExact(s: Slab, data: seq<byte>, access: Access, obj: nat, tag: uint32)
    requires Sound(s) && obj < s.objects && s.offset[obj] + |data| <= s.blockSize
    requires access.loaded && !access.rdlock
    ensures var r := AddBlock(s, Some(data), access, obj, ANY_CACHE_BLOCK, tag);
      && !r.Exit?
      && (r.Done? <==> exists k :: 0 <= k < s.n && !Slots(s)[k].used)
      && (r.Done? ==>
            var (t, k) := r.value;
            && Sound(t) && k < s.n && !Slots(s)[k].used && (forall i :: 0 <= i < k ==> Slots(s)[i].used)
            && Slots(t) == Slots(s)[k := Slot(true, tag, Patch(Slots(s)[k].bytes, s.offset[obj], data))]
            && t.used == s.used)
  {
    var k := FirstFree(s.flags, 0);
    if k < s.n {
      FillPlace(s, k, obj, data, true, tag);
      FilledContents(s, k, obj, data, true, tag);
      assert !Slots(s)[k].used;
    }
  }

  /** Compacting after a merge leaves the live blocks of cache 1, then those of cache 2 under the new tag,
      in the first blocks. */
  lemma MergeThenCompact(s: Slab, t: Slab, tag: uint32, base1: nat, junk1: Junk, base2: nat, junk2: Junk)
    requires Shape(s) && Shape(t) && s.n + t.n < U32 && Exposes(junk1, s, s.n + t.n)
    requires s.march == t.march && s.blockSize == t.blockSize && s.n > 0
    requires BlockPointers(s) && BlockPointers(t) && Accurate(s) && Accurate(t)
    requires var e := Merge(s, t, tag, base1, junk1);
      e.Done? && Exposes(junk2, e.value.0, ShrinkSize(e.value.0.n, e.value.0.used))
    ensures var e := Merge(s, t, tag, base1, junk1).value.0;
      var r := Compact(e, base2, junk2);
      && r.Done?
      && Live(r.value.0) == Live(s) + Retagged(Live(t), tag)
      && Packed(r.value.0.flags, s.used + t.used)
  {
    MergeIsConcatenation(s, t, tag, base1, junk1);
    var e := Merge(s, t, tag, base1, junk1).value.0;
    assert Count(e.flags) == |Live(e)| == s.used + t.used == e.used;
    AccurateCompact(e, base2, junk2);
  }

  /** With a right counter compaction keeps the live blocks and packs them. */
  lemma AccurateCompact(e: Slab, base: nat, junk: Junk)
    requires Shape(e) && Accurate(e) && Exposes(junk, e, ShrinkSize(e.n, e.used))
    ensures var r := Compact(e, base, junk);
      r.Done? && Live(r.value.0) == Live(e) && Packed(r.value.0.flags, e.used)
  {
    ShrinkChoice(e.n, e.used);
    CompactOutcome(e, base, junk);
    CompactLosesNothing(e, base, junk);
    var t := Compact(e, base, junk).value.0;
    assert t.flags[..t.n] == t.flags;
  }

  // ---- Merging into a cache whose object table cache_clear has dropped ----

  /** The pointer of block k's first object leads to len bytes of the mapping. */
  ghost predicate Lands(d: Slab, k: nat, len: nat)
    requires Shape(d) && k < d.n
  {
    Mapped(d, d.ptr[k][0], len)
  }

  lemma {:induction false} StrayMerge(d: Slab, t: Slab, at: nat, tag: uint32, k: nat)
    requires Shape(d) && Shape(t) && at + k <= d.n && k <= t.n && BlockPointers(t)
    ensures var r := MergeTo(d, t, at, tag, k);
      && !r.Exit?
      && (r.Done? <==> forall i :: at <= i < at + k ==> Lands(d, i, t.blockSize))
      && (r.Done? ==> r.value.ptr == d.ptr && r.value.base == d.base && |r.value.arena| == |d.arena|)
  {
    hide MergeStep;
    if k > 0 {
      StrayMerge(d, t, at, tag, k - 1);
      LoadBlock(t, k - 1);
      assert t.ptr[k - 1][0] == t.base + (k - 1) * t.blockSize;
      var r := MergeTo(d, t, at, tag, k - 1);
      if r.Done? {
        StrayStep(d, r.value, t, at, tag, k - 1);
      }
    }
  }

  lemma StrayStep(d: Slab, e: Slab, t: Slab, at: nat, tag: uint32, k: nat)
    requires Shape(d) && Shape(e) && Shape(t) && at + k < d.n && e.n == d.n && k < t.n
    requires Mapped(t, t.ptr[k][0], t.blockSize)
    requires e.ptr == d.ptr && e.base == d.base && |e.arena| == |d.arena|
    ensures var r := MergeStep(e, t, at, tag, k);
      && !r.Exit?
      && (r.Done? <==> Lands(d, at + k, t.blockSize))
      && (r.Done? ==> r.value.ptr == d.ptr && r.value.base == d.base && |r.value.arena| == |d.arena|)
  {
  }

  /** With no objects on the cache merged into, no pointer of a new block is ever set: the merge writes
      each block of cache 2 through whatever the heap held, and faults unless every one of those stray
      pointers happens to lead into the mapping. */
  lemma MergeIntoCleared(s: Slab, t: Slab, tag: uint32, newBase: nat, junk: Junk)
    requires Shape(s) && Shape(t) && s.n + t.n < U32 && s.n > 0 && t.n > 0 && Exposes(junk, s, s.n + t.n)
    requires s.march == t.march && s.blockSize == t.blockSize && BlockPointers(t)
    requires s.objects == 0
    ensures var d := Resize(s, s.n + t.n, newBase, junk).value; var r := Merge(s, t, tag, newBase, junk);
      && !r.Exit?
      && (r.Done? <==> forall i :: 0 <= i < t.n ==> Mapped(d, junk.ptr[i][0], s.blockSize))
  {
    hide Merge, MergeBlocks;
    MergeIsAppend(s, t, tag, newBase, junk);
    UnsetPointers(s, s.n + t.n, newBase, junk, t.n);
    StrayAppend(Grown(s, t, newBase, junk), junk.ptr, t, s.n, tag);
  }

  lemma StrayAppend(d: Slab, rows: seq<Table>, t: Slab, at: nat, tag: uint32)
    requires Shape(d) && Shape(t) && d.n == at + t.n && t.n <= |rows| && BlockPointers(t)
    requires forall i :: 0 <= i < t.n ==> d.ptr[at + i][0] == rows[i][0]
    ensures var r := MergeBlocks(d, t, at, tag);
      !r.Exit? && (r.Done? <==> forall i :: 0 <= i < t.n ==> Mapped(d, rows[i][0], t.blockSize))
  {
    StrayMerge(d, t, at, tag, t.n);
    StrayRows(d, rows, at, t.n, t.blockSize);
  }

  lemma StrayRows(d: Slab, rows: seq<Table>, at: nat, k: nat, len: nat)
    requires Shape(d) && d.n == at + k && k <= |rows|
    requires forall i :: 0 <= i < k ==> d.ptr[at + i][0] == rows[i][0]
    ensures (forall i :: at <= i < at + k ==> Lands(d, i, len))
      <==> (forall i :: 0 <= i < k ==> Mapped(d, rows[i][0], len))
  {
    if forall i :: at <= i < at + k ==> Lands(d, i, len) {
      forall i | 0 <= i < k
        ensures Mapped(d, rows[i][0], len)
      {
        assert Lands(d, at + i, len);
      }
    }
    if forall i :: 0 <= i < k ==> Mapped(d, rows[i][0], len) {
      forall i | at <= i < at + k
        ensures Lands(d, i, len)
      {
        assert d.ptr[at + (i - at)][0] == rows[i - at][0];
      }
    }
  }

  lemma UnsetPointers(s: Slab, m: uint32, newBase: nat, junk: Junk, k: nat)
    requires Shape(s) && s.objects == 0 && m == s.n + k && k > 0 && Exposes(junk, s, m)
    ensures var d := Resize(s, m, newBase, junk).value;
      forall i :: 0 <= i < k ==> d.ptr[s.n + i][0] == junk.ptr[i][0]
  {
    assert m != s.n;
  }

  // ---- Which bytes the stray writes overwrite ----

  /** The pointer of block at + i leads to a range of a block's length that includes byte x of the mapping. */
  predicate Covers(d: Slab, at: nat, i: nat, x: nat) {
    at + i < |d.ptr| && d.ptr[at + i][0] <= d.base + x < d.ptr[at + i][0] + d.blockSize
  }

  /** The last of the first k writes that covers byte x. */
  function LastOver(d: Slab, at: nat, k: nat, x: nat): (r: Option<nat>)
    ensures r.Some? ==> r.value < k && Covers(d, at, r.value, x)
    ensures forall i :: (if r.Some? then r.value + 1 else 0) <= i < k ==> !Covers(d, at, i, x)
  {
    if k == 0 then None else if Covers(d, at, k - 1, x) then Some(k - 1) else LastOver(d, at, k - 1, x)
  }

  /** Byte x of the mapping after k writes: that of the last block whose pointer covers it, or the old one. */
  predicate Overlaid(d: Slab, after: seq<byte>, t: Slab, at: nat, k: nat, x: nat)
    requires Shape(d) && Shape(t) && k <= t.n && x < |d.arena| == |after| && d.blockSize == t.blockSize
  {
    match LastOver(d, at, k, x)
    case None => after[x] == d.arena[x]
    case Some(i) => after[x] == BlockOf(t, i)[d.base + x - d.ptr[at + i][0]]
  }

  /** One more write. */
  lemma OverlaidStep(d: Slab, was: seq<byte>, after: seq<byte>, t: Slab, at: nat, k: nat, x: nat)
    requires Shape(d) && Shape(t) && at + k < d.n && k < t.n && x < |d.arena| == |was| && d.blockSize == t.blockSize
    requires Overlaid(d, was, t, at, k, x) && Lands(d, at + k, t.blockSize)
    requires after == Patch(was, d.ptr[at + k][0] - d.base, BlockOf(t, k))
    ensures Overlaid(d, after, t, at, k + 1, x)
  {
    PatchByte(was, d.ptr[at + k][0] - d.base, BlockOf(t, k), x);
  }

  lemma PatchByte(xs: seq<byte>, at: nat, data: seq<byte>, x: nat)
    requires at + |data| <= |xs| && x < |xs|
    ensures Patch(xs, at, data)[x] == if at <= x < at + |data| then data[x - at] else xs[x]
  {
  }

  lemma OverlaidNothing(d: Slab, t: Slab, at: nat, x: nat)
    requires Shape(d) && Shape(t) && at <= d.n && x < |d.arena| && d.blockSize == t.blockSize
    ensures Overlaid(d, d.arena, t, at, 0, x)
  {
  }

  lemma StrayWrite(d: Slab, e: Slab, t: Slab, at: nat, tag: uint32, k: nat)
    requires Shape(d) && Shape(e) && Shape(t) && at + k < d.n && e.n == d.n && k < t.n && BlockPointers(t)
    requires e.ptr == d.ptr && e.base == d.base && |e.arena| == |d.arena| && MergeStep(e, t, at, tag, k).Done?
    ensures Lands(d, at + k, t.blockSize)
    ensures var u := MergeStep(e, t, at, tag, k).value;
      && u.arena == Patch(e.arena, d.ptr[at + k][0] - d.base, BlockOf(t, k))
      && u.ptr == d.ptr && u.base == d.base && |u.arena| == |d.arena|
  {
    LoadBlock(t, k);
    assert t.ptr[k][0] == t.base + k * t.blockSize;
  }

  lemma {:induction false} StrayBytes(d: Slab, t: Slab, at: nat, tag: uint32, k: nat, x: nat)
    requires Shape(d) && Shape(t) && at + k <= d.n && k <= t.n && BlockPointers(t) && x < |d.arena|
    requires d.blockSize == t.blockSize && MergeTo(d, t, at, tag, k).Done?
    ensures var e := MergeTo(d, t, at, tag, k).value;
      && e.ptr == d.ptr && e.base == d.base && |e.arena| == |d.arena|
      && Overlaid(d, e.arena, t, at, k, x)
  {
    hide MergeStep;
    hide Overlaid;
    if k == 0 {
      OverlaidNothing(d, t, at, x);
    } else {
      StrayBytes(d, t, at, tag, k - 1, x);
      var e := MergeTo(d, t, at, tag, k - 1).value;
      StrayWrite(d, e, t, at, tag, k - 1);
      OverlaidStep(d, e.arena, MergeTo(d, t, at, tag, k).value.arena, t, at, k - 1, x);
    }
  }

  /** When such a merge returns, each byte of the mapping is that of the last block of cache 2 whose stray
      pointer covers it, or what it was. */
  lemma MergeIntoClearedBytes(s: Slab, t: Slab, tag: uint32, newBase: nat, junk: Junk, x: nat)
    requires Shape(s) && Shape(t) && s.n + t.n < U32 && s.n > 0 && t.n > 0 && Exposes(junk, s, s.n + t.n)
    requires s.march == t.march && s.blockSize == t.blockSize && BlockPointers(t)
    requires s.objects == 0 && Merge(s, t, tag, newBase, junk).Done?
    requires x < (s.n + t.n) * s.blockSize
    ensures var d := Resize(s, s.n + t.n, newBase, junk).value; var e := Merge(s, t, tag, newBase, junk).value.0;
      && (forall i :: 0 <= i < t.n ==> d.ptr[s.n + i][0] == junk.ptr[i][0])
      && |e.arena| == |d.arena| == (s.n + t.n) * s.blockSize && Overlaid(d, e.arena, t, s.n, t.n, x)
  {
    hide Overlaid, Merge, MergeBlocks;
    MergeIsAppend(s, t, tag, newBase, junk);
    UnsetPointers(s, s.n + t.n, newBase, junk, t.n);
    StrayAppendBytes(Grown(s, t, newBase, junk), t, s.n, tag, x);
  }

  lemma StrayAppendBytes(d: Slab, t: Slab, at: nat, tag: uint32, x: nat)
    requires Shape(d) && Shape(t) && d.n == at + t.n && BlockPointers(t) && x < |d.arena|
    requires d.blockSize == t.blockSize && MergeBlocks(d, t, at, tag).Done?
    ensures var e := MergeBlocks(d, t, at, tag).value.0;
      |e.arena| == |d.arena| && Overlaid(d, e.arena, t, at, t.n, x)
  {
    hide Overlaid;
    StrayBytes(d, t, at, tag, t.n, x);
  }
}
