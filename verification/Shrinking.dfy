/** The size cache_compact asks cache_resize for, and the whole call: walk, then resize. */
module Shrinking {
  import opened Machine
  import opened Slabs
  import opened Counting
  import opened Compaction
  import opened Resizing

  /** The size asked for is the one within a quantum above the used counter, modulo 2^32, that differs
      from the present size by whole quanta. When the counter does not exceed the size nothing wraps. */
  lemma ShrinkChoice(n: uint32, used: uint32)
    ensures var m := ShrinkSize(n, used);
      && Sub32(m, used) < BLOCK_ALLOC_QUANTUM
      && (n - m) % BLOCK_ALLOC_QUANTUM == 0
      && (used <= n ==> used <= m <= n && m - used < BLOCK_ALLOC_QUANTUM)
      && (n < used <= U32 - BLOCK_ALLOC_QUANTUM ==> used <= m && m - used < BLOCK_ALLOC_QUANTUM)
  {
    var free := Sub32(n, used);
    var q := free / BLOCK_ALLOC_QUANTUM;
    assert free == BLOCK_ALLOC_QUANTUM * q + free % BLOCK_ALLOC_QUANTUM;
  }

  lemma ShrinkUnique(n: uint32, used: uint32, x: uint32)
    requires Sub32(x, used) < BLOCK_ALLOC_QUANTUM && (n - x) % BLOCK_ALLOC_QUANTUM == 0
    ensures x == ShrinkSize(n, used)
  {
    ShrinkChoice(n, used);
    var m := ShrinkSize(n, used);
    SameResidue(n, x, m);
    var a, b := Sub32(x, used), Sub32(m, used);
    assert (a - b) % BLOCK_ALLOC_QUANTUM == 0;
  }

  lemma SameResidue(n: int, x: int, m: int)
    requires (n - x) % BLOCK_ALLOC_QUANTUM == 0 && (n - m) % BLOCK_ALLOC_QUANTUM == 0
    ensures (x - m) % BLOCK_ALLOC_QUANTUM == 0
  {
    var p, q := (n - x) / BLOCK_ALLOC_QUANTUM, (n - m) / BLOCK_ALLOC_QUANTUM;
    assert x - m == BLOCK_ALLOC_QUANTUM * (q - p);
  }

  function RoundUp(x: nat): (r: nat) {
    (x + BLOCK_ALLOC_QUANTUM - 1) / BLOCK_ALLOC_QUANTUM * BLOCK_ALLOC_QUANTUM
  }

  /** A counter above the size makes cache_compact ask for a larger cache, by whole quanta, unless that many
      blocks do not fit 32 bits; then the size asked for wraps to what is left of the old one modulo a quantum. */
  lemma GrowthExact(n: uint32, used: uint32)
    ensures ShrinkSize(n, used) > n <==> n < used && n + RoundUp(used - n) < U32
    ensures n < used ==>
      ShrinkSize(n, used) == if n + RoundUp(used - n) < U32 then n + RoundUp(used - n) else n % BLOCK_ALLOC_QUANTUM
  {
    if n < used {
      var x, q := used - n, (used - n + BLOCK_ALLOC_QUANTUM - 1) / BLOCK_ALLOC_QUANTUM;
      WrappedQuanta(x, q);
      assert Sub32(n, used) == U32 - x;
      assert RoundUp(x) == BLOCK_ALLOC_QUANTUM * q;
      if n + RoundUp(x) >= U32 {
        SmallRest(n, used);
      }
    }
  }

  lemma WrappedQuanta(x: nat, q: nat)
    requires 0 < x < U32 && q == (x + BLOCK_ALLOC_QUANTUM - 1) / BLOCK_ALLOC_QUANTUM
    ensures (U32 - x) / BLOCK_ALLOC_QUANTUM == 0x8_0000 - q && 0 < q <= 0x8_0000
  {
    assert U32 == BLOCK_ALLOC_QUANTUM * 0x8_0000;
  }

  lemma SmallRest(n: uint32, used: uint32)
    requires n < used && n + RoundUp(used - n) >= U32
    ensures n + RoundUp(used - n) - U32 == n % BLOCK_ALLOC_QUANTUM
  {
    var q := (used - n + BLOCK_ALLOC_QUANTUM - 1) / BLOCK_ALLOC_QUANTUM;
    assert U32 == BLOCK_ALLOC_QUANTUM * 0x8_0000;
    var m := n + RoundUp(used - n) - U32;
    assert m == n - BLOCK_ALLOC_QUANTUM * (0x8_0000 - q);
    assert 0 <= m < BLOCK_ALLOC_QUANTUM;
  }

  /** Number of blocks after cache_compact. */
  function SizeAfter(s: Slab): (m: uint32) {
    var m := ShrinkSize(s.n, s.used);
    if s.public && m > 0 then m else s.n
  }

  /** The flags of the new blocks when cache_compact makes the cache larger: what the heap held. */
  function Growth(s: Slab, junk: Junk): (e: seq<byte>)
    requires Exposes(junk, s, ShrinkSize(s.n, s.used)) && |s.flags| == s.n
    ensures |e| == if SizeAfter(s) > s.n then SizeAfter(s) - s.n else 0
  {
    if SizeAfter(s) > s.n then junk.flags[..SizeAfter(s) - s.n] else []
  }

  /** The used blocks are exactly those below c. */
  ghost predicate Packed(flags: seq<byte>, c: nat) {
    forall k :: 0 <= k < |flags| ==> (Used(flags[k]) <==> k < c)
  }

  lemma {:induction false} PackedCount(flags: seq<byte>, c: nat)
    requires Packed(flags, c)
    ensures Count(flags) == Min(c, |flags|)
  {
    PrefixUsed(flags, c, |flags|);
  }

  lemma {:induction false} FirstFreeExact(flags: seq<byte>, from: nat, at: nat)
    requires from <= at <= |flags| && (forall k :: from <= k < at ==> Used(flags[k]))
    requires at < |flags| ==> !Used(flags[at])
    ensures FirstFree(flags, from) == at
    decreases at - from
  {
    if from < at {
      FirstFreeExact(flags, from + 1, at);
    }
  }

  /** No block to move means the used blocks are packed. */
  lemma PackedExact(flags: seq<byte>)
    ensures Packed(flags, Count(flags)) <==> FirstFree(flags, 0) == Count(flags)
  {
    var f := FirstFree(flags, 0);
    if Packed(flags, Count(flags)) {
      FirstFreeExact(flags, 0, Count(flags));
    } else if f == Count(flags) {
      CountFull(flags[..f], f);
      SplitCount(flags, f);
    }
  }

  // ---- Flags in two parts: packed ones, then those of new blocks ----

  ghost predicate TwoPart(flags: seq<byte>, k: nat, c: nat, e: seq<byte>) {
    |flags| == k + |e| && Packed(flags[..k], c) && c <= k && flags[k..] == e
  }

  lemma TwoPartCount(flags: seq<byte>, k: nat, c: nat, e: seq<byte>)
    requires TwoPart(flags, k, c, e)
    ensures Count(flags) == c + Count(e)
  {
    assert flags == flags[..k] + e;
    CountOfConcat(flags[..k], e);
    PackedCount(flags[..k], c);
  }

  /** The whole is packed when the new part is free, or when the first part is full and the new one packed. */
  lemma TwoPartPacked(flags: seq<byte>, k: nat, c: nat, e: seq<byte>)
    requires TwoPart(flags, k, c, e)
    ensures FirstFree(flags, 0) == Count(flags)
      <==> Count(e) == 0 || (c == k && FirstFree(e, 0) == Count(e))
  {
    TwoPartCount(flags, k, c, e);
    var low := flags[..k];
    assert flags == low + e;
    if c < k {
      assert low[c] == flags[c] && forall i :: 0 <= i < c ==> low[i] == flags[i];
      FirstFreeExact(flags, 0, c);
    } else {
      var f := FirstFree(e, 0);
      assert forall i :: 0 <= i < k ==> low[i] == flags[i];
      assert forall i :: k <= i < |flags| ==> flags[i] == e[i - k];
      FirstFreeExact(flags, 0, k + f);
      CountZero(e, |e|);
    }
  }

  /** The contents of the used blocks from block k on. */
  function Arrived(t: Slab, k: nat): (r: seq<Item>)
    requires Shape(t) && k <= t.n
  {
    Items(t, Shift(UsedIdx(t.flags[k..], t.n - k), k))
  }

  /** The contents of the used blocks below k. */
  function Kept(t: Slab, k: nat): (r: seq<Item>)
    requires Shape(t) && k <= t.n
  {
    Items(t, UsedIdx(t.flags, k))
  }

  lemma ItemsAppend(t: Slab, u: seq<nat>, v: seq<nat>)
    requires Shape(t) && (forall i :: 0 <= i < |u| ==> u[i] < t.n) && (forall i :: 0 <= i < |v| ==> v[i] < t.n)
    ensures Items(t, u + v) == Items(t, u) + Items(t, v)
  {
  }

  lemma ItemsKept(w: Slab, t: Slab, c: nat, u: seq<nat>, live: seq<Item>)
    requires Shape(w) && Shape(t) && w.blockSize == t.blockSize && c <= w.n && c <= t.n && c <= |live|
    requires forall i :: 0 <= i < c ==> live[i] == Item(w.tag[i], BlockOf(w, i))
    requires forall i :: 0 <= i < c ==> t.tag[i] == w.tag[i] && BlockOf(t, i) == BlockOf(w, i)
    requires |u| == c && forall i :: 0 <= i < c ==> u[i] == i
    ensures Items(t, u) == live[..c]
  {
  }

  lemma TwoPartLive(w: Slab, t: Slab, k: nat, c: nat, e: seq<byte>)
    requires Shape(w) && Shape(t) && k <= w.n && k <= t.n && TwoPart(t.flags, k, c, e)
    requires w.blockSize == t.blockSize && c <= |Live(w)|
    requires forall i :: 0 <= i < c ==> Live(w)[i] == Item(w.tag[i], BlockOf(w, i))
    requires forall i :: 0 <= i < k ==> t.tag[i] == w.tag[i] && BlockOf(t, i) == BlockOf(w, i)
    ensures Kept(t, k) == Live(w)[..c] && Live(t) == Live(w)[..c] + Arrived(t, k)
  {
    var low, live := t.flags[..k], Live(w);
    assert t.flags == low + e;
    UsedIdxConcat(low, e, |e|);
    PrefixUsed(low, c, k);
    UsedIdxAgree(low, t.flags, k);
    var u, v := UsedIdx(low, k), Shift(UsedIdx(e, |e|), k);
    ItemsAppend(t, u, v);
    ItemsKept(w, t, c, u, live);
  }

  lemma PackedLive(s: Slab, c: nat)
    requires Shape(s) && Packed(s.flags, c)
    ensures |Live(s)| == Min(c, s.n)
    ensures forall k :: 0 <= k < |Live(s)| ==> Live(s)[k] == Item(s.tag[k], BlockOf(s, k))
  {
    PrefixUsed(s.flags, c, s.n);
  }

  /** Flags of a packed cache resized to m blocks. */
  lemma ResizedFlags(w: Slab, m: uint32, newBase: nat, junk: Junk, c: nat)
    requires Shape(w) && Packed(w.flags, c) && c <= w.n && 0 < m && Exposes(junk, w, m)
    ensures var t := Resize(w, m, newBase, junk).value;
      TwoPart(t.flags, Min(w.n, m), Min(c, m), if m > w.n then junk.flags[..m - w.n] else [])
  {
    var t := Resize(w, m, newBase, junk).value;
    var k := Min(w.n, m);
    assert t.flags[..k] == w.flags[..k];
  }

  lemma ResizePacked(w: Slab, m: uint32, newBase: nat, junk: Junk, c: nat)
    requires Shape(w) && Packed(w.flags, c) && c == Count(w.flags) && 0 < m && Exposes(junk, w, m)
    ensures var r := Resize(w, m, newBase, junk); var k := Min(w.n, m);
      && r.Done? && r.value.used == w.used && r.value.public == w.public && r.value.n == m
      && TwoPart(r.value.flags, k, Min(c, m), if m > w.n then junk.flags[..m - w.n] else [])
      && Kept(r.value, k) == Live(w)[..Min(c, m)]
      && Live(r.value) == Live(w)[..Min(c, m)] + Arrived(r.value, k)
  {
    var t := Resize(w, m, newBase, junk).value;
    if m != w.n {
      ResizeContents(w, m, newBase, junk);
    }
    ResizedFlags(w, m, newBase, junk, c);
    PackedLive(w, c);
    TwoPartLive(w, t, Min(w.n, m), Min(c, m), if m > w.n then junk.flags[..m - w.n] else []);
  }

  /** cache_compact, whatever the counter says: it returns; the cache has SizeAfter(s) blocks; below both sizes
      the used blocks are packed in order, as many as fit; and if the cache has grown, the new blocks carry the
      flags the heap held. */
  lemma CompactOutcome(s: Slab, newBase: nat, junk: Junk)
    requires Shape(s) && Exposes(junk, s, ShrinkSize(s.n, s.used))
    ensures var r, m := Compact(s, newBase, junk), SizeAfter(s); var k, c := Min(s.n, m), Min(Count(s.flags), m);
      && r.Done? && r.value.0.n == m
      && r.value.1 == Count(s.flags) - FirstFree(s.flags, 0)
      && TwoPart(r.value.0.flags, k, c, Growth(s, junk))
      && Kept(r.value.0, k) == Live(s)[..c] && Live(r.value.0) == Live(s)[..c] + Arrived(r.value.0, k)
      && r.value.0.used == s.used && r.value.0.public == s.public
  {
    CompactionIsStable(s);
    MovesCounted(s);
    WalkFrame(s, s.n);
    var w := WalkTo(s, s.n).s;
    var c := Count(s.flags);
    PackedLive(w, c);
    PackedCount(w.flags, c);
    if s.public && ShrinkSize(s.n, s.used) > 0 {
      ResizePacked(w, SizeAfter(s), newBase, junk, c);
    } else {
      assert w.flags[..s.n] == w.flags;
      TwoPartLive(w, w, s.n, c, []);
    }
  }

  lemma NothingArrives(t: Slab, k: nat)
    requires Shape(t) && k <= t.n
    ensures |Arrived(t, k)| == Count(t.flags[k..])
  {
  }

  /** Compaction leaves the live blocks as they are exactly when the size it picks holds all of them and the
      new blocks, if it grows the cache, happen to be free. A right counter makes sure of both. */
  lemma CompactLosesNothing(s: Slab, newBase: nat, junk: Junk)
    requires Shape(s) && Exposes(junk, s, ShrinkSize(s.n, s.used))
    ensures Live(Compact(s, newBase, junk).value.0) == Live(s)
      <==> Count(s.flags) <= SizeAfter(s) && forall i :: 0 <= i < |Growth(s, junk)| ==> !Used(Growth(s, junk)[i])
    ensures Count(s.flags) <= s.used <= s.n ==> Live(Compact(s, newBase, junk).value.0) == Live(s)
  {
    CompactOutcome(s, newBase, junk);
    ShrinkChoice(s.n, s.used);
    var t, k := Compact(s, newBase, junk).value.0, Min(s.n, SizeAfter(s));
    NothingArrives(t, k);
    CountZero(Growth(s, junk), |Growth(s, junk)|);
    assert Live(s)[..|Live(s)|] == Live(s);
    if Live(t) == Live(s) {
      assert |Arrived(t, k)| == Count(s.flags) - Min(Count(s.flags), SizeAfter(s));
    }
  }

  /** The number of used blocks afterwards: as many as fit, and those that appear. */
  lemma CompactCount(s: Slab, newBase: nat, junk: Junk)
    requires Shape(s) && Exposes(junk, s, ShrinkSize(s.n, s.used))
    ensures Count(Compact(s, newBase, junk).value.0.flags) == Min(Count(s.flags), SizeAfter(s)) + Count(Growth(s, junk))
  {
    CompactOutcome(s, newBase, junk);
    var t := Compact(s, newBase, junk).value.0;
    TwoPartCount(t.flags, Min(s.n, SizeAfter(s)), Min(Count(s.flags), SizeAfter(s)), Growth(s, junk));
  }

  /** A walk over packed blocks moves nothing. */
  lemma {:induction false} WalkIdle(s: Slab, c: nat, i: nat)
    requires Shape(s) && Packed(s.flags, c) && i <= s.n
    ensures WalkTo(s, i).s == s && WalkTo(s, i).moved == 0 && (WalkTo(s, i).filling <==> c < i)
  {
    if i > 0 {
      WalkIdle(s, c, i - 1);
    }
  }

  /** The size picked is the one picked again. */
  lemma SizeSettles(n: uint32, used: uint32)
    ensures ShrinkSize(ShrinkSize(n, used), used) == ShrinkSize(n, used)
  {
    ShrinkChoice(n, used);
    ShrinkUnique(ShrinkSize(n, used), used, ShrinkSize(n, used));
  }

  /** A cache of the size it would be compacted to is left as it is exactly when its used blocks are packed. */
  lemma CompactIdle(t: Slab, newBase: nat, junk: Junk)
    requires Shape(t) && Exposes(junk, t, ShrinkSize(t.n, t.used)) && SizeAfter(t) == t.n
    ensures Compact(t, newBase, junk) == Done((t, 0)) <==> FirstFree(t.flags, 0) == Count(t.flags)
  {
    PackedExact(t.flags);
    CompactOutcome(t, newBase, junk);
    if Packed(t.flags, Count(t.flags)) {
      WalkIdle(t, Count(t.flags), t.n);
    }
  }

  /** A second compaction moves no block, asks for no new size and leaves the whole state as it is exactly
      when the first one exposed no used flag, or filled the old size and exposed them without a gap. So it
      always does unless the cache has grown. */
  lemma {:induction false} CompactIdempotent(s: Slab, base1: nat, junk1: Junk, base2: nat, junk2: Junk)
    requires Shape(s) && Exposes(junk1, s, ShrinkSize(s.n, s.used))
    requires var t := Compact(s, base1, junk1).value.0; Exposes(junk2, t, ShrinkSize(t.n, t.used))
    ensures var t, e := Compact(s, base1, junk1).value.0, Growth(s, junk1);
      && (Compact(t, base2, junk2) == Done((t, 0))
          <==> Count(e) == 0 || (Count(s.flags) == s.n && FirstFree(e, 0) == Count(e)))
      && (SizeAfter(s) <= s.n ==> Compact(t, base2, junk2) == Done((t, 0)))
  {
    CompactOutcome(s, base1, junk1);
    SizeSettles(s.n, s.used);
    var t := Compact(s, base1, junk1).value.0;
    CompactIdle(t, base2, junk2);
    TwoPartPacked(t.flags, Min(s.n, SizeAfter(s)), Min(Count(s.flags), SizeAfter(s)), Growth(s, junk1));
  }
}
