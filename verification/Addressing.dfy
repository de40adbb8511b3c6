/** Reading through a pointer against reading by position. */
module Addressing {
  import opened Machine
  import opened Slabs

  /** The canonical address of an object leads to that object's bytes. */
  lemma LoadAtAddress(s: Slab, k: nat, j: nat)
    requires Shape(s) && LaidOut(s) && k < s.n && j < s.objects
    ensures Load(s, Address(s, s.base, k, j), s.size[j]) == Done(ObjectOf(s, k, j))
  {
    BlockBounds(k, s.n, s.blockSize);
    var at := k * s.blockSize;
    assert BlockOf(s, k)[s.offset[j]..s.offset[j] + s.size[j]]
        == s.arena[at + s.offset[j]..at + s.offset[j] + s.size[j]];
  }

  lemma CanonicalRead(s: Slab, k: nat, j: nat)
    requires Shape(s) && LaidOut(s) && Canonical(s) && k < s.n && j < s.objects
    ensures ReadObject(s, k, j) == Done(ObjectOf(s, k, j))
  {
    LoadAtAddress(s, k, j);
  }

  /** Two slabs with one geometry whose block k has the same bytes agree on block k's objects. */
  lemma SameBlockSameObject(s: Slab, t: Slab, k: nat, l: nat, j: nat)
    requires Shape(s) && Shape(t) && LaidOut(s) && LaidOut(t) && k < s.n && l < t.n
    requires s.offset == t.offset && s.size == t.size && j < s.objects && j < t.objects
    requires BlockOf(s, k) == BlockOf(t, l)
    ensures ObjectOf(s, k, j) == ObjectOf(t, l, j)
  {
  }

  /** Writing inside block i changes that block alone. */
  lemma PatchInBlock(s: Slab, i: nat, at: nat, data: seq<byte>, k: nat)
    requires Shape(s) && i < s.n && k < s.n && at + |data| <= s.blockSize
    ensures i * s.blockSize + at + |data| <= |s.arena|
    ensures
      var t := s.(arena := Patch(s.arena, i * s.blockSize + at, data));
      BlockOf(t, k) == if k == i then Patch(BlockOf(s, i), at, data) else BlockOf(s, k)
  {
    var bs := s.blockSize;
    BlockBounds(i, s.n, bs);
    BlockBounds(k, s.n, bs);
    SliceOfPatch(s.arena, i * bs + at, data, k * bs, (k + 1) * bs);
    if k < i {
      ScaleMonotone(k + 1, i, bs);
    } else if i < k {
      ScaleMonotone(i + 1, k, bs);
    }
  }

  /** Writing a whole block's worth of bytes at the address of block i replaces that block. */
  lemma StoreBlock(s: Slab, i: nat, data: seq<byte>, k: nat)
    requires Shape(s) && i < s.n && k < s.n && |data| == s.blockSize
    ensures Mapped(s, s.base + i * s.blockSize, |data|)
    ensures BlockOf(Store(s, s.base + i * s.blockSize, data), k) == if k == i then data else BlockOf(s, k)
  {
    PatchInBlock(s, i, 0, data, k);
  }

  lemma LoadBlock(s: Slab, i: nat)
    requires Shape(s) && i < s.n
    ensures Load(s, s.base + i * s.blockSize, s.blockSize) == Done(BlockOf(s, i))
  {
    BlockBounds(i, s.n, s.blockSize);
  }
}
