/** The array of read-write locks of a cache, one for each block: what locking does to an entry, and how
    compaction and a change of size rearrange the entries. */
module LockArrays {
  import opened Machine
  import opened Slabs
  import opened Compaction
  import opened Indexed

  /** A block lock with the threads that hold it, as often as they read. What a growing array finds in the heap
      need not be held by anyone who knows it. */
  datatype RwLock = RwLock(writer: Option<nat>, readers: multiset<nat>)

  const UNLOCKED := RwLock(None, multiset{})

  /** pthread_rwlock_unlock by thread t. For a lock that t does not hold C leaves undefined what happens; here
      nothing does. */
  function Unlocked(l: RwLock, t: nat): (r: RwLock) {
    if l.writer == Some(t) then l.(writer := None) else l.(readers := l.readers - multiset{t})
  }

  /** cache_resize reallocates the array and initialises no new entry; entries not given are unlocked. */
  function Fitted(ls: seq<RwLock>, m: nat, heap: seq<RwLock>): (r: seq<RwLock>)
    ensures |r| == m
  {
    seq(m, k requires 0 <= k < m =>
      if k < |ls| then ls[k] else if k - |ls| < |heap| then heap[k - |ls|] else UNLOCKED)
  }

  // ---- Compaction swaps the entries of a block and the hole it fills, as it swaps their pointer rows ----

  /** A cache of one-byte blocks with these flags, whose pointer rows carry their own index. */
  function Numbered(flags: seq<byte>): (s: Slab)
    requires |flags| < U32
    ensures Shape(s) && s.flags == flags && s.n == |flags|
  {
    Slab("", true, 0, |flags|, 0, 1, Repeat(256, 0), Repeat(256, 0), 0, Repeat(|flags|, 0), [],
         seq(|flags|, k requires 0 <= k < |flags| => Repeat(256, k)), flags, Repeat(|flags|, 0), [], [], [])
  }

  /** The pointer row of which block the walk leaves at each index. */
  function Places(flags: seq<byte>): (r: seq<nat>)
    requires |flags| < U32
    ensures |r| == |flags|
  {
    var t := WalkTo(Numbered(flags), |flags|).s;
    seq(|flags|, k requires 0 <= k < |flags| => t.ptr[k][0])
  }

  function Rearranged(ls: seq<RwLock>, flags: seq<byte>): (r: seq<RwLock>)
    ensures |r| == |ls|
  {
    if |ls| != |flags| || |flags| >= U32 then ls
    else
      PlacesBelow(flags);
      seq(|ls|, k requires 0 <= k < |ls| => ls[Places(flags)[k]])
  }

  lemma {:induction false} SameElements(xs: seq<Table>, ys: seq<Table>, k: nat)
    requires multiset(xs) == multiset(ys) && k < |xs|
    ensures xs[k] in ys
  {
    assert xs[k] in multiset(xs);
  }

  lemma PlacesBelow(flags: seq<byte>)
    requires |flags| < U32
    ensures forall k :: 0 <= k < |flags| ==> Places(flags)[k] < |flags|
  {
    var s := Numbered(flags);
    WalkFrame(s, s.n);
    var t := WalkTo(s, s.n).s;
    forall k | 0 <= k < |flags|
      ensures Places(flags)[k] < |flags|
    {
      SameElements(t.ptr, s.ptr, k);
    }
  }

  /** Where the walk has taken each entry before block i: the index carried by the numbered rows. */
  ghost predicate Carried(s: Slab, t: Slab, w: Slab)
    requires Shape(s) && Shape(t) && Shape(w) && s.n == t.n == w.n
  {
    forall k :: 0 <= k < s.n ==>
      var p := w.ptr[k][0];
      p < s.n && t.ptr[k] == s.ptr[p] && t.tag[k] == s.tag[p] && MarkFree(t.flags[k]) == MarkFree(s.flags[p])
  }

  lemma MoveCarries(s: Slab, t: Slab, w: Slab, block: nat, hole: nat)
    requires Shape(s) && Shape(t) && Shape(w) && s.n == t.n == w.n && hole < block < s.n
    requires t.flags == w.flags && Carried(s, t, w)
    ensures Carried(s, MoveBlock(t, block, hole), MoveBlock(w, block, hole))
    ensures MoveBlock(t, block, hole).flags == MoveBlock(w, block, hole).flags
  {
  }

  /** Two walks at the same point of the same flags. */
  ghost predicate InStep(s: Slab, v: Walk, w: Walk)
    requires Shape(s)
  {
    && Shape(v.s) && Shape(w.s) && s.n == v.s.n == w.s.n
    && v.s.flags == w.s.flags && v.filling == w.filling && v.hole == w.hole && Carried(s, v.s, w.s)
  }

  lemma StepInStep(s: Slab, v: Walk, w: Walk, i: nat)
    requires Shape(s) && InStep(s, v, w) && i < s.n && (v.filling ==> v.hole < i)
    ensures InStep(s, WalkStep(v, i), WalkStep(w, i))
  {
    hide Carried, MoveBlock;
    if Used(v.s.flags[i]) && v.filling {
      MoveCarries(s, v.s, w.s, i, v.hole);
    }
  }

  /** Pointer row, tag and all flag bits but the used bit of an entry go the same way. */
  lemma {:induction false} EntriesFollow(s: Slab, i: nat)
    requires Shape(s) && i <= s.n
    ensures InStep(s, WalkTo(s, i), WalkTo(Numbered(s.flags), i))
  {
    hide WalkStep;
    if i > 0 {
      hide InStep;
      EntriesFollow(s, i - 1);
      StepInStep(s, WalkTo(s, i - 1), WalkTo(Numbered(s.flags), i - 1), i - 1);
    }
  }

  /** So every entry of the compacted cache, pointer row, tag and flag bits but the used bit, is the entry of block
      Places: whatever the walk swaps as it swaps the rows goes there too. */
  lemma PlacesOfEntries(s: Slab)
    requires Shape(s)
    ensures var t := WalkTo(s, s.n).s;
      forall k :: 0 <= k < s.n ==>
        var p := Places(s.flags)[k];
        p < s.n && t.ptr[k] == s.ptr[p] && t.tag[k] == s.tag[p] && MarkFree(t.flags[k]) == MarkFree(s.flags[p])
  {
    EntriesFollow(s, s.n);
  }

  /** Whether compaction takes another block's entry to index k. */
  predicate Displaces(flags: seq<byte>, k: nat) {
    k < |flags| && FirstFree(flags, 0) <= k && (k < Count(flags) || Used(flags[k]))
  }

  /** One round leaves the row at index k unless it moves block k or fills hole k. */
  lemma StepRow(w: Walk, i: nat, k: nat)
    requires Shape(w.s) && i < w.s.n && k < w.s.n && (w.filling ==> w.hole < i)
    requires Used(w.s.flags[i]) && w.filling ==> k != i && k != w.hole
    ensures WalkStep(w, i).s.ptr[k] == w.s.ptr[k]
  {
  }

  /** Past the used blocks the row of a free block stays. */
  lemma {:induction false} FreeStay(s: Slab, i: nat, k: nat)
    requires Shape(s) && i <= s.n && k < s.n && !Used(s.flags[k]) && CountTo(s.flags, i) <= k
    ensures WalkTo(s, i).s.ptr[k] == s.ptr[k]
  {
    if i > 0 {
      FreeStay(s, i - 1, k);
      WalkProgress(s, i - 1);
      StepRow(WalkTo(s, i - 1), i - 1, k);
    }
  }

  /** No two indices get the same entry. */
  lemma PlacesDiffer(flags: seq<byte>, k: nat, l: nat)
    requires |flags| < U32 && k < l < |flags|
    ensures Places(flags)[k] != Places(flags)[l]
  {
    var s := Numbered(flags);
    WalkFrame(s, s.n);
    var t := WalkTo(s, s.n).s;
    NoRepeats(s.ptr);
    SameElements(t.ptr, s.ptr, k);
    SameElements(t.ptr, s.ptr, l);
    Twice(t.ptr, k, l);
  }

  lemma {:induction false} NoRepeats(rows: seq<Table>)
    requires forall k :: 0 <= k < |rows| ==> rows[k] == Repeat(256, k)
    ensures forall x :: multiset(rows)[x] <= 1
  {
    if rows != [] {
      var init, last := rows[..|rows| - 1], rows[|rows| - 1];
      NoRepeats(init);
      assert rows == init + [last];
      assert last[0] == |rows| - 1 && forall j :: 0 <= j < |init| ==> init[j][0] == j;
      assert last !in init;
    }
  }

  lemma Twice(rows: seq<Table>, k: nat, l: nat)
    requires k < l < |rows|
    ensures rows[k] == rows[l] ==> multiset(rows)[rows[k]] >= 2
  {
    assert rows == rows[..l] + [rows[l]] + rows[l + 1..];
    assert rows[..l] == rows[..k] + [rows[k]] + rows[k + 1..l];
  }

  /** The k-th used block's entry comes to index k. */
  lemma PlacesOfUsed(flags: seq<byte>, k: nat)
    requires |flags| < U32 && k < Count(flags)
    ensures Places(flags)[k] == UsedIdx(flags, |flags|)[k]
  {
    hide WalkTo, UsedIdx, CountTo, Places, Numbered;
    RowOfUsed(Numbered(flags), k);
    PlaceIs(flags, k);
    RowNumber(flags, UsedIdx(flags, |flags|)[k]);
  }

  lemma PlaceIs(flags: seq<byte>, k: nat)
    requires |flags| < U32 && k < |flags|
    ensures Places(flags)[k] == WalkTo(Numbered(flags), |flags|).s.ptr[k][0]
  {
  }

  lemma RowNumber(flags: seq<byte>, k: nat)
    requires |flags| < U32 && k < |flags|
    ensures Numbered(flags).ptr[k][0] == k
  {
  }

  lemma RowOfUsed(s: Slab, k: nat)
    requires Shape(s) && k < Count(s.flags)
    ensures WalkTo(s, s.n).s.ptr[k] == s.ptr[UsedIdx(s.flags, s.n)[k]]
  {
    hide BytesAt, CountersAt, WalkTo, UsedIdx;
    WalkProgress(s, s.n);
  }

  /** Of the first used blocks those before the first hole are where they were. */
  lemma RankedInPlace(flags: seq<byte>, k: nat)
    requires k < Count(flags)
    ensures UsedIdx(flags, |flags|)[k] == k <==> k < FirstFree(flags, 0)
  {
    var u, f := UsedIdx(flags, |flags|), FirstFree(flags, 0);
    UsedIdxRanked(flags, |flags|);
    LeadingUsed(flags, f, |flags|);
    if u[k] == k && f <= k {
      RankFixed(flags, u, k, f);
    }
  }

  /** Past the used blocks, the entry of a used block has gone elsewhere. */
  lemma UsedGo(flags: seq<byte>, k: nat)
    requires |flags| < U32 && Count(flags) <= k < |flags| && Used(flags[k])
    ensures Places(flags)[k] != k
  {
    var u := UsedIdx(flags, |flags|);
    UsedIdxComplete(flags, |flags|, k);
    var j :| 0 <= j < |u| && u[j] == k;
    PlacesOfUsed(flags, j);
    PlacesDiffer(flags, j, k);
  }

  /** Compaction leaves an entry where it is exactly when its block lies before the first hole, or is free and
      lies past the used blocks. */
  lemma PlacesExact(flags: seq<byte>, k: nat)
    requires |flags| < U32 && k < |flags|
    ensures Places(flags)[k] == k <==> !Displaces(flags, k)
  {
    if k < Count(flags) {
      PlacesOfUsed(flags, k);
      RankedInPlace(flags, k);
    } else if Used(flags[k]) {
      UsedGo(flags, k);
      BeforeHoleCounted(flags, k);
    } else {
      FreeStay(Numbered(flags), |flags|, k);
    }
  }

  lemma BeforeHoleCounted(flags: seq<byte>, k: nat)
    requires Count(flags) <= k
    ensures FirstFree(flags, 0) <= k
  {
    LeadingUsed(flags, FirstFree(flags, 0), |flags|);
  }
}
