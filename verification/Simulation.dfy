/** Runs of calls against the store a caller has in mind: numbered slots, each used or not, with a tag
    and the bytes of a block. */
module Simulation {
  import opened Machine
  import opened Slabs
  import opened Counting
  import opened Addressing
  import opened Calls
  import opened Compaction
  import opened Resizing
  import opened Shrinking
  import opened Accounting
  import opened Tagging
  import opened Merging

  datatype Slot = Slot(used: bool, tag: uint32, bytes: seq<byte>)

  function SlotOf(s: Slab, k: nat): (r: Slot)
    requires Shape(s) && k < s.n
  {
    Slot(Used(s.flags[k]), s.tag[k], BlockOf(s, k))
  }

  function Slots(s: Slab): (r: seq<Slot>)
    requires Shape(s)
    ensures |r| == s.n
  {
    seq(s.n, k requires 0 <= k < s.n => SlotOf(s, k))
  }

  /** The used slots in order, without their numbers. */
  function LiveSlots(a: seq<Slot>): (r: seq<Item>) {
    if a == [] then []
    else
      var last := a[|a| - 1];
      LiveSlots(a[..|a| - 1]) + if last.used then [Item(last.tag, last.bytes)] else []
  }

  lemma {:induction false} LiveSlotsOf(s: Slab, i: nat)
    requires Shape(s) && i <= s.n
    ensures var u := UsedIdx(s.flags, i);
      LiveSlots(Slots(s)[..i]) == seq(|u|, k requires 0 <= k < |u| => Item(s.tag[u[k]], BlockOf(s, u[k])))
  {
    if i > 0 {
      LiveSlotsOf(s, i - 1);
      UsedIdxStep(s.flags, i);
      assert Slots(s)[..i][..i - 1] == Slots(s)[..i - 1];
      assert Slots(s)[..i][i - 1] == SlotOf(s, i - 1);
    }
  }

  lemma LiveIsLiveSlots(s: Slab)
    requires Shape(s)
    ensures LiveSlots(Slots(s)) == Live(s)
  {
    LiveSlotsOf(s, s.n);
    assert Slots(s)[..s.n] == Slots(s);
  }

  /** Where a call that adds data puts it. */
  function Target(a: seq<Slot>, block: int): (k: int) {
    if block != ANY_CACHE_BLOCK then block else FirstUnused(a, 0)
  }

  function FirstUnused(a: seq<Slot>, from: nat): (k: nat)
    requires from <= |a|
    decreases |a| - from
  {
    if from < |a| && a[from].used then FirstUnused(a, from + 1) else from
  }

  /** What the caller expects of one call that returns, on slots a, leaving slots b; at is the offset of
      the object written. Only compaction may renumber; only growth may leave slots unspecified. */
  ghost predicate Expected(a: seq<Slot>, c: Call, at: nat, b: seq<Slot>) {
    match c
    case Add(data, access, _, block, tag) =>
      var k := Target(a, block);
      && 0 <= k < |a| && data.Some? && at + |data.value| <= |a[k].bytes|
      && b == a[k := Slot(a[k].used || access.loaded, if access.loaded then tag else a[k].tag,
                          Patch(a[k].bytes, at, data.value))]
    case Delete(k) => k < |a| && b == a[k := a[k].(used := false)]
    case Restore(k) => k < |a| && b == a
    case Use(k, use) => k < |a| && b == a[k := a[k].(used := use)]
    case ResetUsed => b == a
    case ClearTag(which) =>
      && |b| == |a|
      && forall k :: 0 <= k < |a| ==>
           b[k] == if which == ALL_CACHE_BLOCKS || a[k].tag == which then a[k].(used := false) else a[k]
    case ChangeTag(from, to) =>
      |b| == |a| && forall k :: 0 <= k < |a| ==> b[k] == if a[k].tag == from then a[k].(tag := to) else a[k]
    case SetTag(tag, k) => k < |a| && b == a[k := a[k].(tag := tag)]
    case CompactCall(_, _) =>
      var k := Min(|a|, |b|);
      && LiveSlots(b[..k]) == LiveSlots(a)[..Min(|LiveSlots(a)|, |b|)]
      && forall i :: 0 <= i < k ==> (b[i].used <==> i < |LiveSlots(a)|)
    case ResizeCall(m, _, _) => |b| == m && b[..Min(m, |a|)] == a[..Min(m, |a|)]
    case MergeCall(src, tag, _, _) =>
      && Shape(src)
      && b == a + seq(src.n, k requires 0 <= k < src.n => SlotOf(src, k).(tag := tag))
  }

  // ---- The invariant of a run ----

  /** No flag bit other than the used bit is set. */
  ghost predicate Plain(flags: seq<byte>) {
    forall k :: 0 <= k < |flags| ==> MarkFree(flags[k]) == 0
  }

  /** A cache whose pointers agree with its mapping. */
  ghost predicate Sound(s: Slab) {
    && Shape(s) && s.n > 0
    && LaidOut(s)
    && Canonical(s)
    && s.offset[0] == 0
    && Plain(s.flags)
  }

  /** The arguments of a call that adds data are refused. */
  predicate Refused(s: Slab, data: Option<seq<byte>>, access: Access, obj: nat, block: int) {
    || data.None? || access.rdlock || !(access.wrlock || access.havelock || access.loaded)
    || obj >= s.objects || (block != ANY_CACHE_BLOCK && !(0 <= block < s.n))
  }

  /** The calls that keep it so, as a caller can tell beforehand: data that fits its object's part of the
      block and, for any-block, a free block to put it in, unless the call is refused anyway; a compaction that
      moves nothing or changes the size; heap content without stray flag bits in the new blocks; a merge, into a
      cache whose object table has not been cleared, of one whose first pointers lead to its blocks. */
  ghost predicate Proper(s: Slab, c: Call)
    requires Sound(s) && Feasible(s, c)
  {
    match c
    case Add(data, access, obj, block, _) =>
      Refused(s, data, access, obj, block) ||
      (s.offset[obj] + |data.value| <= s.blockSize && (block == ANY_CACHE_BLOCK ==> FirstFree(s.flags, 0) < s.n))
    case CompactCall(_, junk) =>
      && Plain(Growth(s, junk))
      && (SizeAfter(s) != s.n || Count(s.flags) == FirstFree(s.flags, 0) || s.objects == 0)
    case ResizeCall(m, _, junk) => m > s.n ==> Plain(junk.flags[..m - s.n])
    case MergeCall(src, _, _, _) =>
      Unlike(s, src) || src.n == 0 || (s.objects > 0 && ReadsOwn(src) && Plain(src.flags))
    case _ => true
  }

  /** Reading any object of a sound cache through its pointer gives the bytes of its slot. */
  lemma SoundRead(s: Slab, k: nat, j: nat)
    requires Sound(s) && k < s.n && j < s.objects
    ensures ReadObject(s, k, j) == Done(Slots(s)[k].bytes[s.offset[j]..s.offset[j] + s.size[j]])
  {
    CanonicalRead(s, k, j);
  }

  lemma {:induction false} FirstUnusedIsFirstFree(s: Slab, i: nat)
    requires Shape(s) && i <= s.n
    ensures FirstUnused(Slots(s), i) == FirstFree(s.flags, i)
    decreases s.n - i
  {
    if i < s.n {
      FirstUnusedIsFirstFree(s, i + 1);
    }
  }

  /** Through a sound pointer the bytes land at the object's place in block k. */
  lemma FillPlace(s: Slab, k: nat, obj: nat, data: seq<byte>, loaded: bool, tag: uint32)
    requires Sound(s) && k < s.n && obj < s.objects && s.offset[obj] + |data| <= s.blockSize
    ensures k * s.blockSize + s.offset[obj] + |data| <= |s.arena|
    ensures FillBlock(s, k, obj, data, loaded, tag) == Done(Filled(s, k, obj, data, loaded, tag))
  {
    BlockBounds(k, s.n, s.blockSize);
    var addr := s.ptr[k][obj];
    assert addr == Address(s, s.base, k, obj);
    assert addr - s.base == k * s.blockSize + s.offset[obj];
  }

  function Filled(s: Slab, k: nat, obj: nat, data: seq<byte>, loaded: bool, tag: uint32): (t: Slab)
    requires Shape(s) && k < s.n && obj < s.objects && k * s.blockSize + s.offset[obj] + |data| <= |s.arena|
    ensures Shape(t) && t.n == s.n
  {
    s.(arena := Patch(s.arena, k * s.blockSize + s.offset[obj], data),
       flags := if loaded then s.flags[k := MarkUsed(s.flags[k])] else s.flags,
       tag := if loaded then s.tag[k := tag] else s.tag)
  }

  lemma FilledContents(s: Slab, k: nat, obj: nat, data: seq<byte>, loaded: bool, tag: uint32)
    requires Sound(s) && k < s.n && obj < s.objects && s.offset[obj] + |data| <= s.blockSize
    requires k * s.blockSize + s.offset[obj] + |data| <= |s.arena|
    ensures var t := Filled(s, k, obj, data, loaded, tag);
      && Sound(t)
      && Slots(t) == Slots(s)[k := Slot(Used(s.flags[k]) || loaded, if loaded then tag else s.tag[k],
                                        Patch(BlockOf(s, k), s.offset[obj], data))]
  {
    var t := Filled(s, k, obj, data, loaded, tag);
    forall i | 0 <= i < s.n
      ensures BlockOf(t, i) == if i == k then Patch(BlockOf(s, k), s.offset[obj], data) else BlockOf(s, i)
    {
      PatchInBlock(s, k, s.offset[obj], data, i);
      assert BlockOf(t, i) == BlockOf(s.(arena := t.arena), i);
    }
  }

  // ---- Call by call ----

  /** The cache is still sound and its slots are what the caller expects. */
  ghost predicate Follows(s: Slab, c: Call, t: Slab)
    requires Shape(s)
  {
    && Sound(t)
    && Expected(Slots(s), c, if c.Add? && c.obj < MAX_CACHE_BLOCK_OBJECTS then s.offset[c.obj] else 0, Slots(t))
  }

  lemma RefusedExits(s: Slab, data: Option<seq<byte>>, access: Access, obj: nat, block: int, tag: uint32)
    requires Shape(s) && Refused(s, data, access, obj, block)
    ensures AddBlock(s, data, access, obj, block, tag).Exit?
  {
  }

  /** A call that is not refused, with data that fits and a block to put it in, fills that block. */
  lemma AddFills(s: Slab, data: seq<byte>, access: Access, obj: nat, block: int, tag: uint32)
    requires Sound(s) && !Refused(s, Some(data), access, obj, block)
    requires Proper(s, Add(Some(data), access, obj, block, tag))
    ensures var k := if block == ANY_CACHE_BLOCK then FirstFree(s.flags, 0) else block;
      && 0 <= k < s.n && k * s.blockSize + s.offset[obj] + |data| <= |s.arena|
      && var t := Filled(s, k, obj, data, access.loaded, tag);
      AddBlock(s, Some(data), access, obj, block, tag)
        == Done((t.(used := if block == ANY_CACHE_BLOCK then s.used else Add32(s.used, 1)), k))
  {
    var k := if block == ANY_CACHE_BLOCK then FirstFree(s.flags, 0) else block;
    FillPlace(s, k, obj, data, access.loaded, tag);
  }

  lemma FilledFollows(s: Slab, data: seq<byte>, access: Access, obj: nat, block: int, tag: uint32, k: nat, u: uint32)
    requires Sound(s) && k < s.n && obj < s.objects && s.offset[obj] + |data| <= s.blockSize
    requires k * s.blockSize + s.offset[obj] + |data| <= |s.arena|
    requires k == if block == ANY_CACHE_BLOCK then FirstFree(s.flags, 0) else block
    ensures Follows(s, Add(Some(data), access, obj, block, tag),
                    Filled(s, k, obj, data, access.loaded, tag).(used := u))
  {
    hide Filled;
    FirstUnusedIsFirstFree(s, 0);
    FilledContents(s, k, obj, data, access.loaded, tag);
    SameSlots(Filled(s, k, obj, data, access.loaded, tag), u);
  }

  lemma SameSlots(t: Slab, u: uint32)
    requires Sound(t)
    ensures Sound(t.(used := u)) && Slots(t.(used := u)) == Slots(t)
  {
    assert forall i :: 0 <= i < t.n ==> BlockOf(t.(used := u), i) == BlockOf(t, i);
  }

  lemma {:induction false} AddFollows(s: Slab, data: Option<seq<byte>>, access: Access, obj: nat, block: int,
                                      tag: uint32)
    requires Sound(s) && Proper(s, Add(data, access, obj, block, tag))
    ensures var r := AddBlock(s, data, access, obj, block, tag);
      !r.Fault? && (r.Done? ==> Follows(s, Add(data, access, obj, block, tag), r.value.0))
  {
    hide AddBlock, Filled, Follows, Canonical, Plain;
    if Refused(s, data, access, obj, block) {
      RefusedExits(s, data, access, obj, block, tag);
    } else {
      AddFills(s, data.value, access, obj, block, tag);
      var k := if block == ANY_CACHE_BLOCK then FirstFree(s.flags, 0) else block;
      FilledFollows(s, data.value, access, obj, block, tag, k,
                    if block == ANY_CACHE_BLOCK then s.used else Add32(s.used, 1));
    }
  }

  lemma FlagFollows(s: Slab, k: nat, f: byte, u: uint32)
    requires Sound(s) && k < s.n && MarkFree(f) == 0
    ensures var t := s.(flags := s.flags[k := f], used := u);
      Sound(t) && Slots(t) == Slots(s)[k := Slots(s)[k].(used := Used(f))]
  {
    var t := s.(flags := s.flags[k := f], used := u);
    assert forall i :: 0 <= i < s.n ==> BlockOf(t, i) == BlockOf(s, i);
  }

  lemma TablesFollow(s: Slab, t: Slab)
    requires Sound(s) && Shape(t) && t == s.(flags := t.flags, tag := t.tag, used := t.used, objects := t.objects)
    requires t.objects <= s.objects && Plain(t.flags)
    ensures Sound(t) && forall i :: 0 <= i < s.n ==> Slots(t)[i] == Slot(Used(t.flags[i]), t.tag[i], BlockOf(s, i))
  {
    assert forall i :: 0 <= i < s.n ==> BlockOf(t, i) == BlockOf(s, i);
  }

  lemma ClearFollows(s: Slab, which: uint32)
    requires Sound(s)
    ensures Follows(s, ClearTag(which), Clear(s, which).0)
  {
    ClearExact(s, which, s.n);
    TablesFollow(s, Clear(s, which).0);
  }

  lemma ChangeTagFollows(s: Slab, a: uint32, b: uint32)
    requires Sound(s)
    ensures Follows(s, ChangeTag(a, b), Retag(s, a, b).0)
  {
    RetagExact(s.tag, a, b, s.n);
    TablesFollow(s, Retag(s, a, b).0);
  }

  lemma {:induction false} WalkPlain(s: Slab, i: nat)
    requires Shape(s) && i <= s.n && Plain(s.flags)
    ensures Plain(WalkTo(s, i).s.flags)
  {
    if i > 0 {
      WalkPlain(s, i - 1);
    }
  }

  lemma {:induction false} CompactStaysSound(s: Slab, newBase: nat, junk: Junk)
    requires Sound(s) && Exposes(junk, s, ShrinkSize(s.n, s.used)) && Proper(s, CompactCall(newBase, junk))
    ensures Compact(s, newBase, junk).Done? && Sound(Compact(s, newBase, junk).value.0)
  {
    WalkFrame(s, s.n);
    WalkPlain(s, s.n);
    if SizeAfter(s) != s.n {
      ResizeSound(WalkTo(s, s.n).s, SizeAfter(s), newBase, junk);
    } else if s.objects > 0 {
      PackedExact(s.flags);
      WalkIdle(s, Count(s.flags), s.n);
    }
  }

  /** A change of size makes every pointer right again. */
  lemma ResizeSound(w: Slab, m: uint32, newBase: nat, junk: Junk)
    requires Shape(w) && LaidOut(w) && w.offset[0] == 0 && Plain(w.flags) && 0 < m != w.n && Exposes(junk, w, m)
    ensures Sound(Resize(w, m, newBase, junk).value) <==> (m > w.n ==> Plain(junk.flags[..m - w.n]))
  {
    ResizeContents(w, m, newBase, junk);
    ResizedPlain(w, m, newBase, junk);
  }

  lemma ResizedPlain(w: Slab, m: uint32, newBase: nat, junk: Junk)
    requires Shape(w) && m > 0 && Exposes(junk, w, m) && Plain(w.flags)
    ensures Plain(Resize(w, m, newBase, junk).value.flags) <==> (m > w.n ==> Plain(junk.flags[..m - w.n]))
  {
    if m > w.n {
      var f, e := Resize(w, m, newBase, junk).value.flags, junk.flags[..m - w.n];
      assert f == w.flags + e;
      assert forall k :: 0 <= k < |e| ==> f[w.n + k] == e[k];
    }
  }

  lemma {:induction false} CompactFollows(s: Slab, newBase: nat, junk: Junk)
    requires Sound(s) && Exposes(junk, s, ShrinkSize(s.n, s.used)) && Proper(s, CompactCall(newBase, junk))
    ensures Compact(s, newBase, junk).Done?
    ensures Follows(s, CompactCall(newBase, junk), Compact(s, newBase, junk).value.0)
  {
    CompactStaysSound(s, newBase, junk);
    CompactOutcome(s, newBase, junk);
    var t := Compact(s, newBase, junk).value.0;
    PackedSlots(s, t, Min(s.n, t.n), Min(Count(s.flags), t.n), Growth(s, junk));
  }

  lemma PackedSlots(s: Slab, t: Slab, k: nat, c: nat, e: seq<byte>)
    requires Shape(s) && Shape(t) && k == Min(s.n, t.n) && c == Min(Count(s.flags), t.n) && TwoPart(t.flags, k, c, e)
    requires Kept(t, k) == Live(s)[..c]
    ensures LiveSlots(Slots(t)[..k]) == LiveSlots(Slots(s))[..Min(|LiveSlots(Slots(s))|, t.n)]
    ensures forall i :: 0 <= i < k ==> (Slots(t)[i].used <==> i < |LiveSlots(Slots(s))|)
  {
    LiveIsLiveSlots(s);
    LiveSlotsOf(t, k);
    assert forall i :: 0 <= i < k ==> t.flags[i] == t.flags[..k][i];
  }

  lemma ResizeFollows(s: Slab, m: uint32, newBase: nat, junk: Junk)
    requires Sound(s) && Exposes(junk, s, m) && Resize(s, m, newBase, junk).Done?
    ensures Expected(Slots(s), ResizeCall(m, newBase, junk), 0, Slots(Resize(s, m, newBase, junk).value))
    ensures Sound(Resize(s, m, newBase, junk).value) <==> (m > s.n ==> Plain(junk.flags[..m - s.n]))
  {
    if m != s.n {
      ResizeSound(s, m, newBase, junk);
      ResizeContents(s, m, newBase, junk);
      var t := Resize(s, m, newBase, junk).value;
      assert Slots(t)[..Min(m, s.n)] == Slots(s)[..Min(m, s.n)];
    }
  }

  lemma PlainConcat(f: seq<byte>, g: seq<byte>)
    ensures Plain(f + g) <==> Plain(f) && Plain(g)
  {
    var h := f + g;
    assert forall k :: 0 <= k < |f| ==> h[k] == f[k];
    assert forall k :: 0 <= k < |g| ==> h[|f| + k] == g[k];
  }

  /** What a merge into a sound cache with objects leaves when it returns: the blocks of cache 1, and whatever the
      first pointers of cache 2 lead to. */
  lemma MergeLeaves(s: Slab, t: Slab, tag: uint32, newBase: nat, junk: Junk)
    requires Sound(s) && Shape(t) && s.objects > 0 && !Unlike(s, t)
    requires s.n + t.n < U32 && Exposes(junk, s, s.n + t.n)
    ensures var r := Merge(s, t, tag, newBase, junk);
      && !r.Exit? && (r.Done? <==> forall i :: 0 <= i < t.n ==> Mapped(t, t.ptr[i][0], t.blockSize))
      && (r.Done? ==> var e := r.value.0;
            && Shape(e) && e.n == s.n + t.n && BlockPointers(e) && LaidOut(e)
            && e.flags == s.flags + t.flags && e.tag == s.tag + seq(t.n, _ => tag)
            && e.blockSize == s.blockSize && e.offset == s.offset && e.objects == s.objects && e.size == s.size
            && (forall i :: 0 <= i < s.n ==> BlockOf(e, i) == BlockOf(s, i))
            && forall i :: 0 <= i < t.n ==> BlockOf(e, s.n + i) == Loaded(t, i))
  {
    MergeIsAppend(s, t, tag, newBase, junk);
    GrownPointers(s, t, newBase, junk);
    var d := Grown(s, t, newBase, junk);
    MergeLoads(d, t, s.n, tag, t.n);
    hide Merge, Grown, MergeTo, LaidOut;
    if MergeBlocks(d, t, s.n, tag).Done? {
      MergeFlags(s, t, tag, newBase, junk);
      MergedBlocks(s, d, t, tag);
    }
  }

  lemma MergedBlocks(s: Slab, d: Slab, t: Slab, tag: uint32)
    requires Sound(s) && Shape(d) && Shape(t) && d.n == s.n + t.n && BlockPointers(d) && s.blockSize == t.blockSize
    requires d.offset == s.offset && d.size == s.size && d.objects == s.objects && d.blockSize == s.blockSize
    requires forall i :: 0 <= i < s.n ==> BlockOf(d, i) == BlockOf(s, i)
    requires forall i :: 0 <= i < t.n ==> Mapped(t, t.ptr[i][0], t.blockSize)
    requires MergeTo(d, t, s.n, tag, t.n).Done? && LoadedBytes(d, t, s.n, t.n, MergeTo(d, t, s.n, tag, t.n).value)
    ensures MergeBlocks(d, t, s.n, tag).Done?
    ensures var e := MergeBlocks(d, t, s.n, tag).value.0;
      && Shape(e) && BlockPointers(e) && LaidOut(e) && e.blockSize == s.blockSize && e.offset == s.offset
      && e.objects == s.objects && e.size == s.size
      && (forall i :: 0 <= i < s.n ==> BlockOf(e, i) == BlockOf(s, i))
      && forall i :: 0 <= i < t.n ==> BlockOf(e, s.n + i) == Loaded(t, i)
  {
    hide MergeTo;
    var x := MergeTo(d, t, s.n, tag, t.n).value;
    var e := MergeBlocks(d, t, s.n, tag).value.0;
    assert e.arena == x.arena && e.ptr == x.ptr && e.base == x.base && e.blockSize == x.blockSize;
    assert forall i :: 0 <= i < d.n ==> BlockOf(e, i) == BlockOf(x, i);
  }

  /** Which merges do what the caller expects. */
  lemma MergeFollowsExact(s: Slab, t: Slab, tag: uint32, newBase: nat, junk: Junk)
    requires Sound(s) && Shape(t) && s.objects > 0 && !Unlike(s, t)
    requires s.n + t.n < U32 && Exposes(junk, s, s.n + t.n)
    ensures var r := Merge(s, t, tag, newBase, junk);
      r.Done? && Follows(s, MergeCall(t, tag, newBase, junk), r.value.0) <==> ReadsOwn(t) && Plain(t.flags)
  {
    MergeLeaves(s, t, tag, newBase, junk);
    PlainConcat(s.flags, t.flags);
    var r := Merge(s, t, tag, newBase, junk);
    if r.Done? {
      MergedSlots(s, t, tag, r.value.0);
    }
  }

  /** A merge of a cache without blocks. */
  lemma MergeNothing(s: Slab, t: Slab, tag: uint32, newBase: nat, junk: Junk)
    requires Sound(s) && Shape(t) && t.n == 0 && !Unlike(s, t) && s.n < U32 && Exposes(junk, s, s.n)
    ensures var r := Merge(s, t, tag, newBase, junk);
      r.Done? && Follows(s, MergeCall(t, tag, newBase, junk), r.value.0)
  {
    var u := Merge(s, t, tag, newBase, junk).value.0;
    assert u == s.(used := u.used);
    assert forall i :: 0 <= i < s.n ==> BlockOf(u, i) == BlockOf(s, i);
    assert Slots(u) == Slots(s);
    assert Slots(s) + [] == Slots(s);
  }

  lemma MergeFollows(s: Slab, t: Slab, tag: uint32, newBase: nat, junk: Junk)
    requires Sound(s) && Shape(t) && s.n + t.n < U32 && Exposes(junk, s, s.n + t.n)
    requires Unlike(s, t) || t.n == 0 || (s.objects > 0 && ReadsOwn(t) && Plain(t.flags))
    ensures var r := Merge(s, t, tag, newBase, junk);
      !r.Fault? && (r.Done? ==> Follows(s, MergeCall(t, tag, newBase, junk), r.value.0))
  {
    if !Unlike(s, t) {
      if t.n == 0 {
        MergeNothing(s, t, tag, newBase, junk);
      } else {
        MergeFollowsExact(s, t, tag, newBase, junk);
      }
    }
  }

  /** The slots are those of cache 1 and then those of cache 2 exactly when its pointers lead to its blocks. */
  lemma MergedSlots(s: Slab, t: Slab, tag: uint32, e: Slab)
    requires Shape(s) && Shape(t) && Shape(e) && e.n == s.n + t.n && s.blockSize == t.blockSize == e.blockSize
    requires e.flags == s.flags + t.flags && e.tag == s.tag + seq(t.n, _ => tag)
    requires forall i :: 0 <= i < s.n ==> BlockOf(e, i) == BlockOf(s, i)
    requires forall i :: 0 <= i < t.n ==> Mapped(t, t.ptr[i][0], t.blockSize) && BlockOf(e, s.n + i) == Loaded(t, i)
    ensures Slots(e) == Slots(s) + seq(t.n, k requires 0 <= k < t.n => SlotOf(t, k).(tag := tag)) <==> ReadsOwn(t)
  {
    var right := Slots(s) + seq(t.n, k requires 0 <= k < t.n => SlotOf(t, k).(tag := tag));
    forall i | 0 <= i < t.n
      ensures Slots(e)[s.n + i] == right[s.n + i] <==> Loaded(t, i) == BlockOf(t, i)
    {
      assert right[s.n + i] == Slot(Used(t.flags[i]), tag, BlockOf(t, i));
      assert Slots(e)[s.n + i] == Slot(Used(t.flags[i]), tag, Loaded(t, i));
    }
    forall i | 0 <= i < s.n
      ensures Slots(e)[i] == right[i]
    {
    }
    if Slots(e) == right {
      forall k | 0 <= k < t.n
        ensures Load(t, t.ptr[k][0], t.blockSize) == Done(BlockOf(t, k))
      {
        assert Slots(e)[s.n + k] == right[s.n + k];
      }
    }
    if ReadsOwn(t) {
      forall j | 0 <= j < e.n
        ensures Slots(e)[j] == right[j]
      {
        assert j >= s.n ==> Load(t, t.ptr[j - s.n][0], t.blockSize) == Done(BlockOf(t, j - s.n));
      }
    }
  }

  /** The calls that only set flags, tags or the counter. */
  lemma {:induction false} TableCallFollows(s: Slab, c: Call)
    requires Sound(s) && (c.Delete? || c.Restore? || c.Use? || c.ResetUsed? || c.SetTag?)
    ensures !Step(s, c).Fault?
    ensures Step(s, c).Done? ==> Follows(s, c, Step(s, c).value)
  {
    match c
    case Delete(k) => if k < s.n { FlagFollows(s, k, MarkFree(s.flags[k]), Decrement(s.used)); }
    case Restore(k) =>
    case Use(k, use) =>
      if k < s.n {
        FlagFollows(s, k, if use then MarkUsed(s.flags[k]) else MarkFree(s.flags[k]), SetUsed(s, k, use).value.used);
      }
    case ResetUsed => TablesFollow(s, s.(used := 0));
    case SetTag(tag, k) => if k < s.n { TablesFollow(s, s.(tag := s.tag[k := tag])); }
  }

  /** A proper call on a sound cache never touches memory it does not own, and when it returns the cache
      is sound and its slots are what the caller expects. */
  lemma {:induction false} StepFollows(s: Slab, c: Call)
    requires Sound(s) && Feasible(s, c) && Proper(s, c)
    ensures !Step(s, c).Fault?
    ensures Step(s, c).Done? ==> Follows(s, c, Step(s, c).value)
  {
    hide AddBlock, Compact, Merge, Clear, Retag, Expected, Canonical, LaidOut;
    match c
    case Add(data, access, obj, block, tag) => AddFollows(s, data, access, obj, block, tag);
    case ClearTag(which) => ClearFollows(s, which);
    case ChangeTag(a, b) => ChangeTagFollows(s, a, b);
    case CompactCall(base, junk) => CompactFollows(s, base, junk);
    case ResizeCall(m, base, junk) => if Resize(s, m, base, junk).Done? { ResizeFollows(s, m, base, junk); }
    case MergeCall(src, tag, base, junk) => MergeFollows(s, src, tag, base, junk);
    case _ => TableCallFollows(s, c);
  }

  // ---- Runs ----

  ghost predicate ProperRun(s: Slab, calls: seq<Call>)
    requires Shape(s) && FeasibleRun(s, calls)
    decreases |calls|
  {
    calls == [] ||
    (Sound(s) && Proper(s, calls[0]) &&
     (Step(s, calls[0]).Done? ==> ProperRun(Step(s, calls[0]).value, calls[1..])))
  }

  /** Every call of the run that returns leaves the slots the caller expects. */
  ghost predicate AsExpected(s: Slab, calls: seq<Call>)
    requires Shape(s) && FeasibleRun(s, calls)
    decreases |calls|
  {
    calls == [] || !Step(s, calls[0]).Done? ||
    (Follows(s, calls[0], Step(s, calls[0]).value) && AsExpected(Step(s, calls[0]).value, calls[1..]))
  }

  /** Over any run of proper calls from a sound cache: no call touches memory it does not own, every call
      that returns does to the slots what the caller expects, and the cache stays sound, so by SoundRead
      every object read through its pointer is the one in its slot. */
  lemma {:induction false} RunFollows(s: Slab, calls: seq<Call>)
    requires Sound(s) && FeasibleRun(s, calls) && ProperRun(s, calls)
    ensures !Run(s, calls).Fault?
    ensures AsExpected(s, calls)
    ensures Run(s, calls).Done? ==> Sound(Run(s, calls).value)
    decreases |calls|
  {
    if calls != [] {
      StepFollows(s, calls[0]);
      if Step(s, calls[0]).Done? {
        RunFollows(Step(s, calls[0]).value, calls[1..]);
      }
    }
  }

  /** In a sound cache cache_restore_block never restores: it returns FALSE and changes nothing, so by
      RunFollows no run of proper calls ever sees it undo a deletion. */
  lemma RestoreNeverRestores(s: Slab, k: nat)
    requires Sound(s) && k < s.n
    ensures RestoreBlock(s, k) == Done((s, false))
  {
  }

  /** Restoring right after deleting a used block gives back the cache exactly when the block carries some
      flag bit besides the used bit and the counter was not 0, as a load into any block leaves it. */
  lemma RestoreUndoesDelete(s: Slab, k: nat)
    requires Shape(s) && k < s.n && Used(s.flags[k])
    ensures RestoreBlock(DeleteBlock(s, k).value.0, k) == Done((s, true)) <==> MarkFree(s.flags[k]) != 0 && s.used > 0
  {
    var t := DeleteBlock(s, k).value.0;
    assert MarkUsed(MarkFree(s.flags[k])) == s.flags[k];
    assert t.flags[k := s.flags[k]] == s.flags;
  }

  /** The answer of cache_delete_block: TRUE exactly for a used block, of which there is then one less; otherwise
      nothing changes. So a second delete of a block is answered with FALSE. */
  lemma DeleteAnswers(s: Slab, k: nat)
    requires Shape(s)
    ensures DeleteBlock(s, k).Done? <==> k < s.n
    ensures k < s.n ==>
      var (t, freed) := DeleteBlock(s, k).value;
      && (freed <==> Slots(s)[k].used)
      && (if freed then Count(t.flags) == Count(s.flags) - 1 && !Slots(t)[k].used else t == s)
      && DeleteBlock(t, k) == Done((t, false))
  {
    if k < s.n {
      CountUpdate(s.flags, k, MarkFree(s.flags[k]));
    }
  }
}
