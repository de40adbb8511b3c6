/** cache_change_blocktag and cache_clear: exactly which blocks they touch, and what they do together. */
module Tagging {
  import opened Machine
  import opened Slabs
  import opened Counting
  import opened Compaction
  import opened Accounting

  ghost predicate ClearedBelow(s: Slab, which: uint32, i: nat, t: Slab)
    requires Shape(s) && i <= s.n
  {
    && Shape(t)
    && t == s.(flags := t.flags, used := t.used)
    && forall k :: 0 <= k < s.n ==>
         t.flags[k] == if k < i && Clears(s.flags[k], s.tag[k], which) then MarkFree(s.flags[k]) else s.flags[k]
  }

  lemma {:induction false} ClearExact(s: Slab, which: uint32, i: nat)
    requires Shape(s) && i <= s.n
    ensures ClearedBelow(s, which, i, ClearTo(s, which, i).0)
  {
    if i > 0 {
      ClearExact(s, which, i - 1);
    }
  }

  ghost predicate RetaggedBelow(tag: seq<uint32>, a: uint32, b: uint32, i: nat, t: seq<uint32>, c: nat)
    requires i <= |tag|
  {
    && |t| == |tag|
    && (forall k :: 0 <= k < |tag| ==> t[k] == if k < i && tag[k] == a then b else tag[k])
    && c == multiset(tag[..i])[a]
  }

  lemma {:induction false} RetagExact(tag: seq<uint32>, a: uint32, b: uint32, i: nat)
    requires i <= |tag|
    ensures RetaggedBelow(tag, a, b, i, RetagTo(tag, a, b, i).0, RetagTo(tag, a, b, i).1)
  {
    if i > 0 {
      RetagExact(tag, a, b, i - 1);
      assert tag[..i] == tag[..i - 1] + [tag[i - 1]];
    }
  }

  /** cache_change_blocktag returns the number of blocks that carried the old tag, used or not. */
  lemma RetagCounts(s: Slab, a: uint32, b: uint32)
    requires Shape(s)
    ensures Retag(s, a, b).1 == multiset(s.tag)[a]
    ensures a != b ==> Retag(Retag(s, a, b).0, a, b).1 == 0
  {
    RetagExact(s.tag, a, b, s.n);
    assert s.tag[..s.n] == s.tag;
    var t := Retag(s, a, b).0.tag;
    RetagExact(t, a, b, s.n);
    assert t[..s.n] == t;
    if a != b {
      assert a !in t;
    }
  }

  /** Retagging a to b and then clearing b frees exactly the used blocks tagged a or b, returns how many
      those were, lowers an accurate counter by as many, and leaves every other flag and tag alone. */
  lemma RetagThenClear(s: Slab, a: uint32, b: uint32)
    requires Shape(s) && b != ALL_CACHE_BLOCKS
    ensures var t := Retag(s, a, b).0; var (u, c) := Clear(t, b);
      && Shape(u) && u.n == s.n
      && (forall k :: 0 <= k < s.n ==>
            u.flags[k] == if Used(s.flags[k]) && (s.tag[k] == a || s.tag[k] == b) then MarkFree(s.flags[k])
                          else s.flags[k])
      && (forall k :: 0 <= k < s.n ==> u.tag[k] == if s.tag[k] == a then b else s.tag[k])
      && c == Count(s.flags) - Count(u.flags)
      && (Accurate(s) ==> u.used == s.used - c)
  {
    RetagExact(s.tag, a, b, s.n);
    var t := Retag(s, a, b).0;
    ClearExact(t, b, s.n);
    ClearCounts(t, b, s.n);
  }

  /** Compaction only moves tags: retagging right after its walk changes as many blocks as right before it. */
  lemma RetagAfterWalk(s: Slab, a: uint32, b: uint32)
    requires Shape(s)
    ensures Retag(WalkTo(s, s.n).s, a, b).1 == Retag(s, a, b).1
  {
    WalkTags(s, s.n);
    RetagCounts(s, a, b);
    RetagCounts(WalkTo(s, s.n).s, a, b);
  }

  /** The whole of cache_clear: the used blocks with the tag lose their used flag and are counted in the answer,
      bytes and tags stay, and no object of any block can be read any more, whatever the tag. */
  lemma ClearCall(s: Slab, which: uint32)
    requires Shape(s)
    ensures var (t, c) := Clear(s, which);
      && Shape(t) && t.n == s.n && t.tag == s.tag && t.arena == s.arena && t.ptr == s.ptr
      && c == Count(s.flags) - Count(t.flags) && t.used == (if s.used >= c then s.used - c else 0)
      && (forall k :: 0 <= k < s.n ==>
            t.flags[k] == if which == ALL_CACHE_BLOCKS || s.tag[k] == which then MarkFree(s.flags[k]) else s.flags[k])
      && forall k, j :: ReadObject(t, k, j) == Exit
  {
    ClearExact(s, which, s.n);
    ClearCounts(s, which, s.n);
  }
}
