/** What compaction drops after loads into any block: a run from cache_create to the loss. */
module Losses {
  import opened Machine
  import opened Slabs
  import opened Calls
  import opened Resizing
  import opened Shrinking
  import opened Simulation
  import opened Combined
  import opened Layout

  /** A load of data that fits its object, into whichever block is free. */
  predicate AnyLoad(s: Slab, c: Call) {
    && c.Add? && c.data.Some? && c.block == ANY_CACHE_BLOCK
    && c.access.loaded && !c.access.rdlock
    && c.obj < s.objects < MAX_CACHE_BLOCK_OBJECTS && s.offset[c.obj] + |c.data.value| <= s.blockSize
  }

  ghost predicate AnyLoads(s: Slab, calls: seq<Call>) {
    forall i :: 0 <= i < |calls| ==> AnyLoad(s, calls[i])
  }

  /** The slot a load leaves where slot a was. */
  function Filled(s: Slab, a: Slot, c: Call): (r: Slot)
    requires AnyLoad(s, c) && |a.bytes| == s.blockSize
  {
    Slot(true, c.tag, Patch(a.bytes, s.offset[c.obj], c.data.value))
  }

  /** Everything about a cache that no load into any block changes. */
  ghost predicate Alike(s: Slab, t: Slab) {
    && t.n == s.n && t.public == s.public && t.used == s.used && t.objects == s.objects
    && t.blockSize == s.blockSize && t.offset == s.offset && t.size == s.size
  }

  lemma OneLoad(s: Slab, c: Call, k: nat)
    requires Sound(s) && AnyLoad(s, c) && Packed(s.flags, k) && k < s.n
    ensures Step(s, c).Done?
    ensures var t := Step(s, c).value;
      && Sound(t) && Alike(s, t) && Packed(t.flags, k + 1)
      && Slots(t) == Slots(s)[k := Filled(s, Slots(s)[k], c)]
  {
    assert !Slots(s)[k].used;
    AnyBlockExact(s, c.data.value, c.access, c.obj, c.tag);
    FirstFreeExact(s.flags, 0, k);
    var t := Step(s, c).value;
    forall i | 0 <= i < s.n
      ensures Used(t.flags[i]) <==> i < k + 1
    {
      assert Slots(t)[i].used == Used(t.flags[i]);
    }
  }

  /** t is s with the calls' data in the blocks from k on. */
  ghost predicate LoadedFrom(s: Slab, t: Slab, calls: seq<Call>, k: nat)
    requires Shape(s) && Shape(t) && AnyLoads(s, calls)
  {
    && Alike(s, t)
    && forall i :: 0 <= i < s.n ==>
         Slots(t)[i] == if k <= i < k + |calls| then Filled(s, Slots(s)[i], calls[i - k]) else Slots(s)[i]
  }

  lemma LoadThenMore(s: Slab, t: Slab, u: Slab, calls: seq<Call>, k: nat)
    requires Shape(s) && Shape(t) && Shape(u) && calls != [] && AnyLoads(s, calls) && k + |calls| <= s.n
    requires Alike(s, t) && Slots(t) == Slots(s)[k := Filled(s, Slots(s)[k], calls[0])]
    requires AnyLoads(t, calls[1..]) && LoadedFrom(t, u, calls[1..], k + 1)
    ensures LoadedFrom(s, u, calls, k)
  {
  }

  /** Loads into any block, while blocks are free, fill one block after the other and count none of them. */
  lemma {:induction false} LoadRun(s: Slab, calls: seq<Call>, k: nat)
    requires Sound(s) && AnyLoads(s, calls) && Packed(s.flags, k) && k + |calls| <= s.n
    ensures FeasibleRun(s, calls) && Run(s, calls).Done?
    ensures var t := Run(s, calls).value;
      Sound(t) && Packed(t.flags, k + |calls|) && LoadedFrom(s, t, calls, k)
    decreases |calls|
  {
    if calls != [] {
      OneLoad(s, calls[0], k);
      var t := Step(s, calls[0]).value;
      LoadRun(t, calls[1..], k + 1);
      LoadThenMore(s, t, Run(t, calls[1..]).value, calls, k);
    }
  }

  /** How many blocks compaction leaves a cache whose counter says that none is used. */
  function Remainder(n: nat): (m: nat) {
    if n % BLOCK_ALLOC_QUANTUM == 0 then n else n % BLOCK_ALLOC_QUANTUM
  }

  /** From cache_create on: after any number of such loads the counter is still 0, and compaction of the shared
      cache keeps the first n modulo 8192 of the blocks loaded, or all if that is 0. */
  lemma LoadsThenCompact(march: string, size: seq<uint64>, n: int, base: nat, file: seq<byte>, calls: seq<Call>,
                         newBase: nat, junk: Junk)
    requires Creatable(size, n, file) && |calls| <= n
    requires var r := Create(march, true, size, n, base, file); r.Done? ==> AnyLoads(r.value, calls)
    requires |junk.flags| >= n && |junk.tag| >= n && |junk.ptr| >= n && |junk.lifetime| >= n
    ensures Create(march, true, size, n, base, file).Done?
    ensures var s := Create(march, true, size, n, base, file).value;
      && Sound(s) && FeasibleRun(s, calls) && Run(s, calls).Done?
      && var t := Run(s, calls).value;
      && t.used == 0 && |Live(t)| == |calls|
      && (forall i :: 0 <= i < |calls| ==>
            var x := Filled(s, Slots(s)[i], calls[i]); Live(t)[i] == Item(x.tag, x.bytes))
      && Exposes(junk, t, ShrinkSize(t.n, t.used))
      && Live(Compact(t, newBase, junk).value.0) == Live(t)[..Min(|calls|, Remainder(n))]
  {
    CreateSound(march, true, size, n, base, file);
    var s := Create(march, true, size, n, base, file).value;
    assert Packed(s.flags, 0) by {
      assert forall k :: 0 <= k < n ==> Slots(s)[k].used == Used(s.flags[k]);
    }
    LoadRun(s, calls, 0);
    var t := Run(s, calls).value;
    PackedCount(t.flags, |calls|);
    PackedLive(t, |calls|);
    FilledLive(s, t, calls);
    CreatedCounter(march, size, n, base, file);
    CompactUncounted(t, newBase, junk);
  }

  lemma FilledLive(s: Slab, t: Slab, calls: seq<Call>)
    requires Shape(s) && Shape(t) && Alike(s, t) && AnyLoads(s, calls) && |calls| <= s.n
    requires |Live(t)| == |calls| && forall i :: 0 <= i < |calls| ==> Live(t)[i] == Item(t.tag[i], BlockOf(t, i))
    requires forall i :: 0 <= i < |calls| ==> Slots(t)[i] == Filled(s, Slots(s)[i], calls[i])
    ensures forall i :: 0 <= i < |calls| ==>
      var x := Filled(s, Slots(s)[i], calls[i]); Live(t)[i] == Item(x.tag, x.bytes)
  {
    assert forall i :: 0 <= i < |calls| ==> Slots(t)[i] == SlotOf(t, i);
  }

  lemma CreatedCounter(march: string, size: seq<uint64>, n: int, base: nat, file: seq<byte>)
    requires n < U32 && Create(march, true, size, n, base, file).Done?
    ensures var s := Create(march, true, size, n, base, file).value; s.used == 0 && s.public
  {
  }

  lemma CompactUncounted(t: Slab, newBase: nat, junk: Junk)
    requires Shape(t) && t.public && t.used == 0
    requires |junk.flags| >= t.n && |junk.tag| >= t.n && |junk.ptr| >= t.n && |junk.lifetime| >= t.n
    ensures SizeAfter(t) == Remainder(t.n) <= t.n && Exposes(junk, t, ShrinkSize(t.n, 0))
    ensures Live(Compact(t, newBase, junk).value.0) == Live(t)[..Min(Count(t.flags), Remainder(t.n))]
  {
    ShrinkChoice(t.n, 0);
    assert ShrinkSize(t.n, 0) == t.n % BLOCK_ALLOC_QUANTUM;
    CompactOutcome(t, newBase, junk);
    var u := Compact(t, newBase, junk).value.0;
    NothingArrives(u, Remainder(t.n));
  }

  /** The smallest case: one block more than a quantum, and four loads. Three of the four are lost. A block for
      one object of a byte takes two. */
  lemma CompactLosesLoadedBlocks(file: seq<byte>, data: byte, newBase: nat, junk: Junk)
    requires |file| == 2 * 8193
    requires |junk.flags| >= 8193 && |junk.tag| >= 8193 && |junk.ptr| >= 8193 && |junk.lifetime| >= 8193
    ensures var r := Create("", true, [1], 8193, 0, file); var calls := FourLoads(data);
      && r.Done? && FeasibleRun(r.value, calls) && Run(r.value, calls).Done?
      && var t := Run(r.value, calls).value;
      && Exposes(junk, t, ShrinkSize(t.n, t.used))
      && |Live(t)| == 4 && Live(Compact(t, newBase, junk).value.0) == Live(t)[..1]
  {
    SmallCache(file);
    LoadsThenCompact("", [1], 8193, 0, file, FourLoads(data), newBase, junk);
  }

  function FourLoads(data: byte): (r: seq<Call>)
    ensures |r| == 4
  {
    Repeat(4, Add(Some([data]), Access(false, true, false, true), 0, ANY_CACHE_BLOCK, 7))
  }

  lemma SmallCache(file: seq<byte>)
    requires |file| == 2 * 8193
    ensures Creatable([1], 8193, file) && TrueBlockSize([1]) == 2 && Create("", true, [1], 8193, 0, file).Done?
    ensures var s := Create("", true, [1], 8193, 0, file).value;
      s.n == 8193 && s.objects == 1 && s.offset[0] == 0 && s.blockSize == 2
  {
    assert BlockSizeOf([1]) == 2;
  }
}
