/** cache_resize: what survives, what reappears, and what is left uninitialised. */
module Resizing {
  import opened Machine
  import opened Slabs

  function Min(a: nat, b: nat): nat {
    if a <= b then a else b
  }

  /** Blocks below both sizes keep their bytes, flag and tag; blocks above the old size carry whatever
      flag and tag the heap held; and every object pointer is right for the new base. */
  lemma ResizeContents(s: Slab, m: uint32, newBase: nat, junk: Junk)
    requires Shape(s) && Exposes(junk, s, m) && m > 0 && m != s.n
    ensures var r := Resize(s, m, newBase, junk);
      && r.Done? && Shape(r.value) && r.value.n == m && r.value.base == newBase
      && r.value.objects == s.objects && r.value.used == s.used
      && (forall k :: 0 <= k < Min(s.n, m) ==>
            && BlockOf(r.value, k) == BlockOf(s, k)
            && r.value.flags[k] == s.flags[k] && r.value.tag[k] == s.tag[k])
      && (forall k :: s.n <= k < m ==>
            r.value.flags[k] == junk.flags[k - s.n] && r.value.tag[k] == junk.tag[k - s.n])
      && Canonical(r.value)
  {
    var r := Resize(s, m, newBase, junk).value;
    forall k | 0 <= k < Min(s.n, m)
      ensures BlockOf(r, k) == BlockOf(s, k)
    {
      ResizeBlock(s, m, newBase, junk, k);
    }
  }

  lemma ResizeBlock(s: Slab, m: uint32, newBase: nat, junk: Junk, k: nat)
    requires Shape(s) && Exposes(junk, s, m) && m > 0 && m != s.n && k < s.n && k < m
    ensures BlockOf(Resize(s, m, newBase, junk).value, k) == BlockOf(s, k)
  {
    BlockBounds(k, s.n, s.blockSize);
    BlockBounds(k, m, s.blockSize);
    var need := m * s.blockSize;
    var file := Extend(s.arena + s.beyond, need);
    SlicePrefix(file, s.arena, s.beyond, k * s.blockSize, (k + 1) * s.blockSize);
    assert file[..need][k * s.blockSize..(k + 1) * s.blockSize] == file[k * s.blockSize..(k + 1) * s.blockSize];
  }

  /** Bytes past the old size are those that the backing file already had there, and 0 past its end. */
  lemma NewBytes(s: Slab, m: uint32, newBase: nat, junk: Junk, x: nat)
    requires Shape(s) && Exposes(junk, s, m) && m > 0 && m != s.n && x < m * s.blockSize
    ensures var r, file := Resize(s, m, newBase, junk).value, s.arena + s.beyond;
      && |r.arena| == m * s.blockSize && r.arena[x] == (if x < |file| then file[x] else 0)
      && |r.arena + r.beyond| == if |file| < m * s.blockSize then m * s.blockSize else |file|
  {
    var file := s.arena + s.beyond;
    var long := Extend(file, m * s.blockSize);
    assert x < |file| ==> long[x] == file[x];
  }

  /** Pointers past the last object are not set: they stay what they were, or what the heap held. */
  lemma OtherPointers(s: Slab, m: uint32, newBase: nat, junk: Junk, k: nat, j: nat)
    requires Shape(s) && Exposes(junk, s, m) && m > 0 && m != s.n && k < m && s.objects <= j < MAX_CACHE_BLOCK_OBJECTS
    ensures Resize(s, m, newBase, junk).value.ptr[k][j] == if k < s.n then s.ptr[k][j] else junk.ptr[k - s.n][j]
  {
  }

  /** Of the lifetimes m words stay, half as many as m blocks have: the old words first, then what the heap held. */
  lemma ResizeLifetimes(s: Slab, m: uint32, newBase: nat, junk: Junk, w: nat)
    requires Shape(s) && Exposes(junk, s, m) && m > 0 && m != s.n && w < m
    ensures var r := Resize(s, m, newBase, junk).value.lifetime;
      |r| == m && r[w] == if w < |s.lifetime| then s.lifetime[w] else junk.lifetime[w - |s.lifetime|]
  {
  }

  lemma SlicePrefix(file: seq<byte>, a: seq<byte>, b: seq<byte>, lo: nat, hi: nat)
    requires |a + b| <= |file| && file[..|a + b|] == a + b && lo <= hi <= |a|
    ensures file[lo..hi] == a[lo..hi]
  {
    forall i | lo <= i < hi
      ensures file[i] == a[i]
    {
      assert file[i] == file[..|a + b|][i] == (a + b)[i];
    }
  }

  /** The backing file never shrinks, so going to m blocks and back restores the mapped bytes of every
      block, also of those that were cut off; flags and tags survive only below m. */
  lemma ResizeRoundTrip(s: Slab, m: uint32, base1: nat, base2: nat, junk1: Junk, junk2: Junk)
    requires Shape(s) && Exposes(junk1, s, m) && 0 < m && 0 < s.n && m != s.n
    requires Exposes(junk2, Resize(s, m, base1, junk1).value, s.n)
    ensures var r := Resize(Resize(s, m, base1, junk1).value, s.n, base2, junk2);
      && r.Done? && Shape(r.value) && r.value.n == s.n
      && r.value.arena == s.arena
      && Canonical(r.value)
      && r.value.flags[..Min(s.n, m)] == s.flags[..Min(s.n, m)]
      && r.value.tag[..Min(s.n, m)] == s.tag[..Min(s.n, m)]
      && (s.n < m ==> r.value.flags == s.flags && r.value.tag == s.tag)
  {
    var t := Resize(s, m, base1, junk1).value;
    var file := Extend(s.arena + s.beyond, m * s.blockSize);
    assert t.arena + t.beyond == file;
    var file' := Extend(file, s.n * s.blockSize);
    assert file'[..|s.arena|] == s.arena by {
      assert file'[..|file|] == file;
      assert file[..|s.arena + s.beyond|][..|s.arena|] == s.arena;
    }
    ResizeContents(t, s.n, base2, junk2);
  }
}
