/** What cache_compact, taken as a whole, does to reading through the object pointers. */
module CompactReads {
  import opened Machine
  import opened Slabs
  import opened Addressing
  import opened Compaction
  import opened Indexed
  import opened Resizing
  import opened Shrinking
  import opened Simulation
  import opened LockArrays

  /** Compaction leaves a sound cache exactly when it changes the size or has nothing to move, and exposes no
      flag with other bits set. */
  lemma CompactSoundExact(s: Slab, newBase: nat, junk: Junk)
    requires Sound(s) && s.objects > 0 && Exposes(junk, s, ShrinkSize(s.n, s.used))
    ensures Sound(Compact(s, newBase, junk).value.0)
      <==> Plain(Growth(s, junk)) && (SizeAfter(s) != s.n || Count(s.flags) == FirstFree(s.flags, 0))
  {
    hide TwoPart;
    CompactOutcome(s, newBase, junk);
    if SizeAfter(s) != s.n {
      WalkFrame(s, s.n);
      WalkPlain(s, s.n);
      ResizeSound(WalkTo(s, s.n).s, SizeAfter(s), newBase, junk);
    } else if Count(s.flags) == FirstFree(s.flags, 0) {
      CompactStaysSound(s, newBase, junk);
    } else {
      MovedRow(s);
      assert Compact(s, newBase, junk).value.0 == WalkTo(s, s.n).s;
    }
  }

  /** If the walk moves anything, the pointer row of the first hole no longer leads to the first hole. */
  lemma {:induction false} MovedRow(s: Slab)
    requires Sound(s) && s.objects > 0 && FirstFree(s.flags, 0) < Count(s.flags)
    ensures !Canonical(WalkTo(s, s.n).s)
  {
    hide WalkTo, UsedIdx, LaidOut, Plain;
    WalkFrame(s, s.n);
    UsedIdxRanked(s.flags, s.n);
    var f := FirstFree(s.flags, 0);
    RowOfUsed(s, f);
    RankedInPlace(s.flags, f);
    var t, x := WalkTo(s, s.n).s, UsedIdx(s.flags, s.n)[f];
    assert x > f;
    ScaleMonotone(f + 1, x, s.blockSize);
    assert (f + 1) * s.blockSize == f * s.blockSize + s.blockSize;
    assert t.ptr[f][0] == Address(s, s.base, x, 0);
    assert Address(t, t.base, f, 0) < Address(s, s.base, x, 0);
  }

  /** Reading every block that was live through its pointer after compaction is right exactly when the new
      size holds them all and the call changed the size or the flags were untangled, provided the live
      blocks can be told apart by object j. */
  lemma CompactReadsExact(s: Slab, j: nat, newBase: nat, junk: Junk)
    requires Sound(s) && j < s.objects && Exposes(junk, s, ShrinkSize(s.n, s.used))
    requires var u := UsedIdx(s.flags, s.n);
      forall a, b :: 0 <= a < b < |u| ==> ObjectOf(s, u[a], j) != ObjectOf(s, u[b], j)
    ensures var u := UsedIdx(s.flags, s.n); var t := Compact(s, newBase, junk).value.0;
      Count(s.flags) <= SizeAfter(s) && (SizeAfter(s) != s.n || Untangled(s.flags))
      <==> forall k :: 0 <= k < |u| ==> ReadObject(t, k, j) == Done(ObjectOf(s, u[k], j))
  {
    CompactOutcome(s, newBase, junk);
    var t := Compact(s, newBase, junk).value.0;
    var u := UsedIdx(s.flags, s.n);
    if SizeAfter(s) == s.n {
      IndexViewExact(s, j);
      assert t == WalkTo(s, s.n).s;
    } else if Count(s.flags) <= SizeAfter(s) {
      forall k | 0 <= k < |u|
        ensures ReadObject(t, k, j) == Done(ObjectOf(s, u[k], j))
      {
        ResizedRead(s, k, j, newBase, junk);
      }
    } else {
      assert ReadObject(t, SizeAfter(s), j).Exit?;
    }
  }

  lemma ResizedRead(s: Slab, k: nat, j: nat, newBase: nat, junk: Junk)
    requires Sound(s) && j < s.objects && Exposes(junk, s, ShrinkSize(s.n, s.used))
    requires SizeAfter(s) != s.n && k < Count(s.flags) && k < SizeAfter(s)
    ensures ReadObject(Compact(s, newBase, junk).value.0, k, j)
         == Done(ObjectOf(s, UsedIdx(s.flags, s.n)[k], j))
  {
    WalkProgress(s, s.n);
    WalkFrame(s, s.n);
    var w := WalkTo(s, s.n).s;
    ResizeContents(w, SizeAfter(s), newBase, junk);
    var t := Compact(s, newBase, junk).value.0;
    CanonicalRead(t, k, j);
    SameBlockSameObject(t, s, k, UsedIdx(s.flags, s.n)[k], j);
  }

  // ---- A cache that compaction scrambles ----

  const ONE_BYTE_OBJECT: Table := seq(256, j => if j == 0 then 1 else 0)
  const NO_OFFSET: Table := seq(256, _ => 0)

  /** Three one-byte blocks holding 7, 8 and 9, the first of them free. */
  function HoleFirst(): (s: Slab)
    ensures Sound(s) && s.objects == 1 && s.n == 3
  {
    Slab("x86_64", true, 2, 3, 1, 1, NO_OFFSET, ONE_BYTE_OBJECT, 0, [7, 8, 9], [],
         seq(3, i requires 0 <= i < 3 => seq(256, j requires 0 <= j < 256 => if j == 0 then i else 0)),
         [0, 2, 2], [0, 5, 5], [0, 0, 0], [0, 0, 0], [0, 0, 0])
  }

  /** With the first of three blocks free, block 0 reads as block 2 after compaction, not as block 1. */
  lemma HoleFirstReads(s: Slab, newBase: nat, junk: Junk)
    requires Sound(s) && s.flags == [0, 2, 2] && s.used == 2 && s.objects > 0
    requires Exposes(junk, s, ShrinkSize(s.n, s.used))
    ensures UsedIdx(s.flags, s.n) == [1, 2]
    ensures ReadObject(Compact(s, newBase, junk).value.0, 0, 0) == Done(ObjectOf(s, 2, 0))
  {
    assert UsedIdx(s.flags, 1) == [];
    assert UsedIdx(s.flags, 2) == [1];
    assert UsedIdx(s.flags, 3) == [1, 2];
    assert ShrinkSize(3, 2) == 3;
    IndexedRead(s, 0, 0);
    assert Compact(s, newBase, junk).value.0 == WalkTo(s, s.n).s;
  }

  /** Its first live block holds 8; after compaction, block 0 reads as 9. */
  lemma CompactionScrambles(newBase: nat, junk: Junk)
    requires Exposes(junk, HoleFirst(), ShrinkSize(3, 2))
    ensures Live(HoleFirst())[0].bytes == [8]
    ensures ReadObject(Compact(HoleFirst(), newBase, junk).value.0, 0, 0) == Done([9])
  {
    var s := HoleFirst();
    HoleFirstReads(s, newBase, junk);
    HoleFirstBytes();
  }

  lemma HoleFirstBytes()
    ensures var s := HoleFirst(); ObjectOf(s, 2, 0) == [9] && BlockOf(s, 1) == [8]
  {
  }
}
