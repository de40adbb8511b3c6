/** What the object pointers show after cache_compact's walk. The walk copies the bytes of a block
    and also swaps the pointer rows, so a moved block is still read at its old place. */
module Indexed {
  import opened Machine
  import opened Slabs
  import opened Addressing
  import opened Compaction

  /** Where block k's pointer row leads after the walk: to whatever now lies at the old place
      of the k-th used block. */
  function Source(u: seq<nat>, k: nat): (r: nat)
    requires k < |u|
  {
    if u[k] < |u| then u[u[k]] else u[k]
  }

  /** Reading block k through its pointer after the walk gives, exactly, the object of block Source(u, k). */
  lemma IndexedRead(s: Slab, k: nat, j: nat)
    requires Shape(s) && LaidOut(s) && Canonical(s)
    requires k < Count(s.flags) && j < s.objects
    ensures var u := UsedIdx(s.flags, s.n);
      ReadObject(WalkTo(s, s.n).s, k, j) == Done(ObjectOf(s, Source(u, k), j))
  {
    WalkProgress(s, s.n);
    WalkFrame(s, s.n);
    var u := UsedIdx(s.flags, s.n);
    var t := WalkTo(s, s.n).s;
    assert t.ptr[k][j] == Address(t, t.base, u[k], j);
    LoadAtAddress(t, u[k], j);
    SameBlockSameObject(t, s, u[k], Source(u, k), j);
  }

  /** No used block lies between the first hole and the number of used blocks. */
  ghost predicate Untangled(flags: seq<byte>) {
    forall k :: FirstFree(flags, 0) <= k < Count(flags) ==> !Used(flags[k])
  }

  lemma {:induction false} UsedIdxComplete(flags: seq<byte>, i: nat, x: nat)
    requires x < i <= |flags| && Used(flags[x])
    ensures x in UsedIdx(flags, i)
  {
    if x < i - 1 {
      UsedIdxComplete(flags, i - 1, x);
    }
  }

  lemma {:induction false} LeadingUsed(flags: seq<byte>, f: nat, i: nat)
    requires f <= i <= |flags| && forall k :: 0 <= k < f ==> Used(flags[k])
    ensures Leads(UsedIdx(flags, i), f)
  {
    if i > f {
      LeadingUsed(flags, f, i - 1);
    } else if i > 0 {
      LeadingUsed(flags, f - 1, i - 1);
      FullPrefix(flags, i - 1);
    }
  }

  ghost predicate Leads(u: seq<nat>, f: nat) {
    f <= |u| && forall k :: 0 <= k < f ==> u[k] == k
  }

  lemma {:induction false} FullPrefix(flags: seq<byte>, i: nat)
    requires i <= |flags| && forall k :: 0 <= k < i ==> Used(flags[k])
    ensures |UsedIdx(flags, i)| == i
  {
    if i > 0 {
      FullPrefix(flags, i - 1);
    }
  }

  /** Untangled says of the flags what Source needs of the ranks. */
  lemma UntangledRanks(flags: seq<byte>)
    ensures var u := UsedIdx(flags, |flags|);
      Untangled(flags) <==> forall k :: 0 <= k < |u| ==> u[k] == k || u[k] >= |u|
  {
    var u := UsedIdx(flags, |flags|);
    var f := FirstFree(flags, 0);
    UsedIdxRanked(flags, |flags|);
    LeadingUsed(flags, f, |flags|);
    if Untangled(flags) {
      forall k | 0 <= k < |u| && u[k] < |u|
        ensures u[k] == k
      {
        if u[k] < f {
          assert u[u[k]] == u[k];
        }
      }
    } else {
      var x :| f <= x < |u| && Used(flags[x]);
      UsedIdxComplete(flags, |flags|, x);
      var k :| 0 <= k < |u| && u[k] == x;
      if k == x {
        RankFixed(flags, u, x, f);
        assert false;
      }
    }
  }

  /** If u[x] == x then every index up to x is used. */
  lemma RankFixed(flags: seq<byte>, u: seq<nat>, x: nat, f: nat)
    requires Ranked(flags, u) && x < |u| && u[x] == x && f <= x
    ensures Used(flags[f])
  {
    Squeeze(u, f, x);
  }

  lemma {:induction false} Squeeze(u: seq<nat>, f: nat, x: nat)
    requires f <= x < |u| && u[x] == x
    requires forall k :: 0 <= k < |u| ==> k <= u[k]
    requires forall k, l :: 0 <= k < l < |u| ==> u[k] < u[l]
    ensures u[f] == f
    decreases x - f
  {
    if f < x {
      Squeeze(u, f + 1, x);
    }
  }

  /** Reading through the index after the walk is right for every live block exactly when the flags
      were untangled, provided the live blocks can be told apart by object j. */
  lemma IndexViewExact(s: Slab, j: nat)
    requires Shape(s) && LaidOut(s) && Canonical(s) && j < s.objects
    requires var u := UsedIdx(s.flags, s.n);
      forall a, b :: 0 <= a < b < |u| ==> ObjectOf(s, u[a], j) != ObjectOf(s, u[b], j)
    ensures var u := UsedIdx(s.flags, s.n); var t := WalkTo(s, s.n).s;
      Untangled(s.flags) <==> forall k :: 0 <= k < |u| ==> ReadObject(t, k, j) == Done(ObjectOf(s, u[k], j))
  {
    var u := UsedIdx(s.flags, s.n);
    var t := WalkTo(s, s.n).s;
    UntangledRanks(s.flags);
    UsedIdxRanked(s.flags, s.n);
    forall k | 0 <= k < |u|
      ensures ReadObject(t, k, j) == Done(ObjectOf(s, u[k], j)) <==> u[k] == k || u[k] >= |u|
    {
      IndexedRead(s, k, j);
      if u[k] < |u| && u[k] != k {
        assert k < u[k];
        assert ObjectOf(s, u[k], j) != ObjectOf(s, u[u[k]], j);
      }
    }
  }
}
