/** cache_compact: a stable in-place compaction of the mapped bytes, what the
    object pointers see of it, and the size it shrinks to. */
module Compaction {
  import opened Machine
  import opened Slabs
  import opened Addressing

  lemma BlockOfCopy(s: Slab, to: nat, from: nat, k: nat)
    requires Shape(s) && to < s.n && from < s.n && k < s.n
    ensures (to + 1) * s.blockSize <= |s.arena| && (from + 1) * s.blockSize <= |s.arena|
    ensures
      var t := s.(arena := CopyBlock(s.arena, s.blockSize, to, from));
      BlockOf(t, k) == BlockOf(s, if k == to then from else k)
  {
    BlockBounds(to, s.n, s.blockSize);
    BlockBounds(from, s.n, s.blockSize);
    PatchInBlock(s, to, 0, BlockOf(s, from), k);
  }

  /** How many used blocks do not already sit at their compacted index. */
  function Displaced(u: seq<nat>): (d: nat)
    ensures d <= |u|
  {
    if |u| == 0 then 0
    else Displaced(u[..|u| - 1]) + if u[|u| - 1] != |u| - 1 then 1 else 0
  }

  // What the walk has done to s before it looks at block i, given the used blocks u
  // it has passed: its counters, the tables, the bytes.

  ghost predicate CountersAt(u: seq<nat>, i: nat, w: Walk) {
    && (w.filling <==> |u| < i)
    && (w.filling ==> w.hole == |u|)
    && w.moved == Displaced(u)
  }

  ghost predicate TablesAt(s: Slab, u: seq<nat>, i: nat, t: Slab)
    requires Shape(s) && Shape(t) && t.n == s.n && i <= s.n
    requires |u| <= i && forall k :: 0 <= k < |u| ==> u[k] < i
  {
    && (forall k :: 0 <= k < |u| ==>
          t.flags[k] == s.flags[u[k]] && t.tag[k] == s.tag[u[k]] && t.ptr[k] == s.ptr[u[k]])
    && (forall k :: |u| <= k < i ==> !Used(t.flags[k]))
    && (forall k :: i <= k < s.n ==>
          t.flags[k] == s.flags[k] && t.tag[k] == s.tag[k] && t.ptr[k] == s.ptr[k])
  }

  ghost predicate BytesAt(s: Slab, u: seq<nat>, t: Slab)
    requires Shape(s) && Shape(t) && t.n == s.n
    requires |u| <= s.n && forall k :: 0 <= k < |u| ==> u[k] < s.n
  {
    forall k :: 0 <= k < s.n ==> BlockOf(t, k) == BlockOf(s, if k < |u| then u[k] else k)
  }

  ghost predicate Progress(s: Slab, u: seq<nat>, i: nat, w: Walk)
    requires Shape(s) && i <= s.n
  {
    && |u| <= i && (forall k :: 0 <= k < |u| ==> u[k] < i)
    && Shape(w.s) && w.s.n == s.n
    && CountersAt(u, i, w) && TablesAt(s, u, i, w.s) && BytesAt(s, u, w.s)
  }

  lemma {:induction false} WalkProgress(s: Slab, i: nat)
    requires Shape(s) && i <= s.n
    ensures Progress(s, UsedIdx(s.flags, i), i, WalkTo(s, i))
  {
    if i > 0 {
      WalkProgress(s, i - 1);
      StepProgress(s, UsedIdx(s.flags, i - 1), i, WalkTo(s, i - 1));
    }
  }

  lemma {:induction false} StepProgress(s: Slab, u: seq<nat>, i: nat, w: Walk)
    requires Shape(s) && 0 < i <= s.n && Progress(s, u, i - 1, w)
    ensures w.filling ==> w.hole < i - 1
    ensures Progress(s, if Used(s.flags[i - 1]) then u + [i - 1] else u, i, WalkStep(w, i - 1))
  {
    assert w.s.flags[i - 1] == s.flags[i - 1];
    if !Used(s.flags[i - 1]) {
      HoleProgress(s, u, i, w);
    } else if w.filling {
      MoveProgress(s, u, i, w);
    } else {
      StayProgress(s, u, i, w);
    }
  }

  lemma {:induction false} StayProgress(s: Slab, u: seq<nat>, i: nat, w: Walk)
    requires Shape(s) && 0 < i <= s.n && Progress(s, u, i - 1, w)
    requires !w.filling && Used(s.flags[i - 1])
    ensures Progress(s, u + [i - 1], i, w)
  {
    AppendDisplaced(u, i - 1);
    StayKeeps(s, u, i, w.s);
  }

  lemma {:induction false} HoleProgress(s: Slab, u: seq<nat>, i: nat, w: Walk)
    requires Shape(s) && 0 < i <= s.n && Progress(s, u, i - 1, w)
    requires !Used(s.flags[i - 1])
    ensures Progress(s, u, i, if w.filling then w else Walk(w.s, true, i - 1, w.moved))
  {
  }

  lemma {:induction false} MoveProgress(s: Slab, u: seq<nat>, i: nat, w: Walk)
    requires Shape(s) && 0 < i <= s.n && Progress(s, u, i - 1, w)
    requires w.filling && Used(s.flags[i - 1])
    ensures Progress(s, u + [i - 1], i, Walk(MoveBlock(w.s, i - 1, w.hole), true, w.hole + 1, w.moved + 1))
  {
    AppendDisplaced(u, i - 1);
    MoveKeepsTables(s, u, i, w.s);
    MoveKeepsBytes(s, u, i, w.s);
  }

  lemma AppendDisplaced(u: seq<nat>, x: nat)
    ensures Displaced(u + [x]) == Displaced(u) + if x != |u| then 1 else 0
  {
    assert (u + [x])[..|u|] == u;
  }

  lemma StayKeeps(s: Slab, u: seq<nat>, i: nat, t: Slab)
    requires Shape(s) && Shape(t) && t.n == s.n && 0 < i <= s.n
    requires |u| == i - 1 && forall k :: 0 <= k < |u| ==> u[k] < i - 1
    requires TablesAt(s, u, i - 1, t) && BytesAt(s, u, t)
    ensures TablesAt(s, u + [i - 1], i, t) && BytesAt(s, u + [i - 1], t)
  {
  }

  lemma {:induction false} MoveKeepsTables(s: Slab, u: seq<nat>, i: nat, t: Slab)
    requires Shape(s) && Shape(t) && t.n == s.n && 0 < i <= s.n
    requires |u| < i - 1 && forall k :: 0 <= k < |u| ==> u[k] < i - 1
    requires TablesAt(s, u, i - 1, t) && Used(s.flags[i - 1])
    ensures TablesAt(s, u + [i - 1], i, MoveBlock(t, i - 1, |u|))
  {
    var r := MoveBlock(t, i - 1, |u|);
    assert r.flags[|u|] == s.flags[i - 1] && r.tag[|u|] == s.tag[i - 1] && r.ptr[|u|] == s.ptr[i - 1];
  }

  lemma {:induction false} MoveKeepsBytes(s: Slab, u: seq<nat>, i: nat, t: Slab)
    requires Shape(s) && Shape(t) && t.n == s.n && 0 < i <= s.n
    requires |u| < i - 1 && forall k :: 0 <= k < |u| ==> u[k] < i - 1
    requires BytesAt(s, u, t)
    ensures BytesAt(s, u + [i - 1], MoveBlock(t, i - 1, |u|))
  {
    var r := MoveBlock(t, i - 1, |u|);
    var u' := u + [i - 1];
    forall k | 0 <= k < s.n
      ensures BlockOf(r, k) == BlockOf(s, if k < |u'| then u'[k] else k)
    {
      BlockOfMove(t, i - 1, |u|, k);
    }
  }

  lemma BlockOfMove(s: Slab, block: nat, hole: nat, k: nat)
    requires Shape(s) && block < s.n && hole < s.n && k < s.n
    ensures BlockOf(MoveBlock(s, block, hole), k) == BlockOf(s, if k == hole then block else k)
  {
    BlockOfCopy(s, hole, block, k);
  }

  /** The walk changes only bytes, pointers, tags and flags, and permutes the pointer rows. */
  lemma {:induction false} WalkFrame(s: Slab, i: nat)
    requires Shape(s) && i <= s.n
    ensures var t := WalkTo(s, i).s;
      && t == s.(arena := t.arena, ptr := t.ptr, tag := t.tag, flags := t.flags)
      && multiset(t.ptr) == multiset(s.ptr)
  {
    if i > 0 {
      WalkFrame(s, i - 1);
      var w := WalkTo(s, i - 1);
      if Used(w.s.flags[i - 1]) && w.filling {
        SwapPermutes(w.s.ptr, w.hole, i - 1);
      }
    }
  }

  /** And the tags. */
  lemma {:induction false} WalkTags(s: Slab, i: nat)
    requires Shape(s) && i <= s.n
    ensures multiset(WalkTo(s, i).s.tag) == multiset(s.tag)
  {
    if i > 0 {
      WalkTags(s, i - 1);
      var w := WalkTo(s, i - 1);
      if Used(w.s.flags[i - 1]) && w.filling {
        SwapPermutes(w.s.tag, w.hole, i - 1);
      }
    }
  }

  // ---- Consequences for the whole walk ----

  /** If the used blocks are exactly those below c, the live indices are 0, 1, ..., in order. */
  lemma {:induction false} PrefixUsed(flags: seq<byte>, c: nat, i: nat)
    requires i <= |flags| && forall k :: 0 <= k < i ==> (Used(flags[k]) <==> k < c)
    ensures |UsedIdx(flags, i)| == if i <= c then i else c
    ensures forall k :: 0 <= k < |UsedIdx(flags, i)| ==> UsedIdx(flags, i)[k] == k
    ensures Displaced(UsedIdx(flags, i)) == 0
  {
    if i > 0 {
      PrefixUsed(flags, c, i - 1);
      var u := UsedIdx(flags, i - 1);
      assert (u + [i - 1])[..|u|] == u;
    }
  }

  /** Stable compaction: slot k ends up with the tag and the bytes of the k-th used block, the used
      slots are exactly the first Count of them, and every byte past those is left as it was. */
  lemma CompactionIsStable(s: Slab)
    requires Shape(s)
    ensures var t := WalkTo(s, s.n).s; var c := Count(s.flags);
      && Live(t) == Live(s)
      && (forall k :: 0 <= k < s.n ==> (Used(t.flags[k]) <==> k < c))
      && (forall k :: c <= k < s.n ==> BlockOf(t, k) == BlockOf(s, k))
  {
    WalkProgress(s, s.n);
    UsedIdxRanked(s.flags, s.n);
    var t := WalkTo(s, s.n).s;
    var u := UsedIdx(s.flags, s.n);
    UsedPrefix(s, u, t);
    PrefixUsed(t.flags, |u|, s.n);
    PrefixLive(s, u, t);
  }

  lemma UsedPrefix(s: Slab, u: seq<nat>, t: Slab)
    requires Shape(s) && Shape(t) && t.n == s.n && |u| <= s.n && Ranked(s.flags, u)
    requires TablesAt(s, u, s.n, t)
    ensures forall k :: 0 <= k < s.n ==> (Used(t.flags[k]) <==> k < |u|)
  {
  }

  lemma PrefixLive(s: Slab, u: seq<nat>, t: Slab)
    requires Shape(s) && Shape(t) && t.n == s.n && u == UsedIdx(s.flags, s.n)
    requires TablesAt(s, u, s.n, t) && BytesAt(s, u, t)
    requires var v := UsedIdx(t.flags, s.n); |v| == |u| && forall k :: 0 <= k < |v| ==> v[k] == k
    ensures Live(t) == Live(s)
  {
    var v := UsedIdx(t.flags, s.n);
    forall k | 0 <= k < |u|
      ensures Live(t)[k] == Live(s)[k]
    {
      assert v[k] == k;
    }
  }

  /** The return value counts the used blocks that lie above the first hole. */
  lemma MovesCounted(s: Slab)
    requires Shape(s)
    ensures WalkTo(s, s.n).moved == Count(s.flags) - FirstFree(s.flags, 0)
  {
    WalkProgress(s, s.n);
    DisplacedAboveHole(s.flags, FirstFree(s.flags, 0), s.n);
  }

  lemma {:induction false} DisplacedAboveHole(flags: seq<byte>, f: nat, i: nat)
    requires i <= |flags| && f <= |flags|
    requires (forall k :: 0 <= k < f ==> Used(flags[k])) && (f < |flags| ==> !Used(flags[f]))
    ensures AboveHole(UsedIdx(flags, i), f, i)
  {
    if i > 0 {
      DisplacedAboveHole(flags, f, i - 1);
      AppendDisplaced(UsedIdx(flags, i - 1), i - 1);
    }
  }

  /** Of the used blocks u below i, those from the first hole f on are displaced. */
  ghost predicate AboveHole(u: seq<nat>, f: nat, i: nat) {
    && Displaced(u) == |u| - (if i <= f then i else f)
    && (if i <= f then |u| == i else |u| < i)
  }
}
