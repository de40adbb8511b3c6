/** Locks that compaction carries to another block while a thread listing tags holds them. */
module Orphans {
  import opened Machine
  import opened LockArrays
  import opened Books
  import opened Locks
  import opened Discipline
  import opened Exclusion
  import opened Waiting
  import opened Sharing

  /** The entry records more reads of thread u than there are. */
  predicate Misread(l: RwLock, u: nat, rd: nat) {
    l.writer.None? && l.readers[u] > rd
  }

  /** The lock of block k records a reader who does not know of it, and nobody writes the block. */
  ghost predicate Orphan(s: System, k: Key, u: nat) {
    && u < |s.threads| && Misread(LockAt(s, k), u, s.threads[u].rd[k])
    && forall v :: 0 <= v < |s.threads| ==> !Writes(s, v, k)
  }

  /** While a lock is read by mistake nobody gets it to write. */
  lemma OrphanRefuses(s: System, k: Key, u: nat, t: nat)
    requires Orphan(s, k, u) && t < |s.threads| && s.threads[t].now != [] && s.threads[t].now[0] == Wr(k)
    ensures !CanStep(s, t)
  {
    assert u in LockAt(s, k).readers;
  }

  lemma StillMisread(l: RwLock, u: nat, rd: nat, t: nat)
    requires Misread(l, u, rd)
    ensures Misread(RwLock(None, l.readers + multiset{t}), u, if u == t then rd + 1 else rd)
    ensures rd > 0 || u != t ==> Misread(Unlocked(l, t), u, if u == t then rd - 1 else rd)
  {
  }

  /** A thread reads block k, or gives up a read lock it has there. */
  lemma LockingOrphan(s: System, k: Key, u: nat, t: nat)
    requires Safe(s) && Orphan(s, k, u) && CanStep(s, t)
    requires s.threads[t].now != [] && (s.threads[t].now[0] == Rd(k) || s.threads[t].now[0] == Release(k))
    ensures Orphan(Next(s, t), k, u)
  {
    hide Next, Misread, LockAt, Unlocked;
    assert Orderly(s.threads[t]) && Allowed(s.threads[t]);
    OrphanInRange(s, k, u);
    LockTaken(s, t, k);
    StillMisread(LockAt(s, k), u, s.threads[u].rd[k], t);
    TakesBlock(s, t, u, k);
    TakesBlock(s, t, t, k);
    assert !Writes(s, t, k);
    ReadsOnly(s.threads[t], k);
    hide After;
    forall v | 0 <= v < |s.threads|
      ensures !Writes(Next(s, t), v, k)
    {
      assert !Writes(s, v, k);
      TakesBlock(s, t, v, k);
    }
  }

  lemma ReadsOnly(x: Thread, k: Key)
    requires x.now != [] && (x.now[0] == Rd(k) || x.now[0] == Release(k)) && k !in x.wr
    requires x.now[0] == Release(k) ==> k in x.rd
    ensures k !in After(x, []).wr && After(x, []).rd[k] == if x.now[0] == Rd(k) then x.rd[k] + 1 else x.rd[k] - 1
  {
  }

  lemma OrphanInRange(s: System, k: Key, u: nat)
    requires Orphan(s, k, u)
    ensures InRange(s, k)
  {
  }

  lemma NextOrphan(listed: nat -> bool, s: System, k: Key, u: nat, t: nat)
    requires Safe(s) && AllApart(listed, s) && listed(k.cache) && Orphan(s, k, u) && CanStep(s, t)
    ensures Orphan(Next(s, t), k, u)
  {
    hide Next, Safe;
    var p := s.threads[t].now;
    assert ThreadApart(listed, s.threads[t]);
    if p != [] && p[0] == Wr(k) {
      OrphanRefuses(s, k, u, t);
    } else if p != [] && LocksBlock(p[0], k) {
      LockingOrphan(s, k, u, t);
    } else {
      assert p != [] ==> ActApart(listed, p[0]);
      OtherLocks(s, t, k);
      forall v | 0 <= v < |s.threads|
        ensures (Writes(Next(s, t), v, k) <==> Writes(s, v, k)) && Next(s, t).threads[v].rd[k] == s.threads[v].rd[k]
      {
        OtherHolds(s, t, v, k);
      }
    }
  }

  /** It stays so under every schedule that does not rearrange the cache again: no thread that asks to write
      the block ever gets it. */
  lemma {:induction false} OrphanStarves(listed: nat -> bool, s: System, schedule: seq<nat>, k: Key, u: nat)
    requires Safe(s) && AllApart(listed, s) && listed(k.cache) && Orphan(s, k, u) && CanRun(s, schedule)
    ensures var r := Run(s, schedule);
      && Orphan(r, k, u)
      && forall t: nat :: t < |r.threads| && r.threads[t].now != [] && r.threads[t].now[0] == Wr(k) ==> !CanStep(r, t)
    decreases |schedule|
  {
    hide Safe, AllApart;
    if schedule == [] {
      forall t: nat | t < |s.threads| && s.threads[t].now != [] && s.threads[t].now[0] == Wr(k)
        ensures !CanStep(s, t)
      {
        OrphanRefuses(s, k, u, t);
      }
    } else {
      NextOrphan(listed, s, k, u, schedule[0]);
      NextSafe(s, schedule[0]);
      Exclusion.NextApart(listed, s, schedule[0]);
      OrphanStarves(listed, Next(s, schedule[0]), schedule[1..], k, u);
    }
  }

  /** A thread packs the used blocks of a cache while thread u, listing tags, stands at block b. The lock it holds
      comes to block p: then nobody knows who holds p, and u is at a block it has no lock of, exactly when
      compaction displaces b. */
  lemma OrphanedExact(s: System, t: nat, u: nat, c: nat, b: nat, p: nat)
    requires Safe(s) && Recorded(s) && CanStep(s, t) && t < |s.threads| && u < |s.threads|
    requires s.threads[t].now != [] && s.threads[t].now[0] == Do(c, Pack) && Listing(s, u, Key(c, b))
    requires var d := s.book(c); |s.locks(c)| == |d.flags| == |d.tag| < U32
    requires b < |s.locks(c)| && p < |s.locks(c)| && Places(s.book(c).flags)[p] == b
    requires forall k :: 0 <= k < |s.locks(c)| ==> Backs(s, u, Key(c, k))
    ensures Orphan(Next(s, t), Key(c, p), u) <==> Displaces(s.book(c).flags, b)
    ensures RecordedAt(Next(s, t), u, Key(c, b)) <==> !Displaces(s.book(c).flags, b)
  {
    hide Next, Safe, Displaces;
    var flags := s.book(c).flags;
    PlacesExact(flags, b);
    OnePlace(flags, p, b);
    PackedLocks(s, t, c, b);
    PackedLocks(s, t, c, p);
    NobodyWrites(s, t, c);
    OneHold(s, u, Key(c, b));
    assert RecordedAt(s, u, Key(c, b)) && Backs(s, u, Key(c, b)) && Backs(s, u, Key(c, Places(flags)[b]));
    assert forall v, j :: 0 <= v < |s.threads| ==> (Writes(Next(s, t), v, Key(c, j)) <==> Writes(s, v, Key(c, j)));
    Carried(s, Next(s, t), u, c, b, p, Places(flags)[b]);
  }

  lemma OnePlace(flags: seq<byte>, p: nat, b: nat)
    requires |flags| < U32 && p < |flags| && b < |flags| && Places(flags)[p] == b
    ensures p == b <==> Places(flags)[b] == b
  {
    if p < b {
      PlacesDiffer(flags, p, b);
    } else if b < p {
      PlacesDiffer(flags, b, p);
    }
  }

  /** The lock of block b has gone to p and that of q has come to b. */
  lemma Carried(s: System, r: System, u: nat, c: nat, b: nat, p: nat, q: nat)
    requires |r.threads| == |s.threads| && u < |s.threads|
    requires r.threads[u].wr == s.threads[u].wr && r.threads[u].rd == s.threads[u].rd
    requires forall l :: s.threads[u].rd[l] == if l == Key(c, b) then 1 else 0
    requires RecordedAt(s, u, Key(c, b)) && Backs(s, u, Key(c, b)) && Backs(s, u, Key(c, q))
    requires LockAt(r, Key(c, p)) == LockAt(s, Key(c, b)) && LockAt(r, Key(c, b)) == LockAt(s, Key(c, q))
    requires forall v :: 0 <= v < |s.threads| ==> !Writes(r, v, Key(c, p)) && !Writes(r, v, Key(c, b))
    requires p == b <==> q == b
    ensures Orphan(r, Key(c, p), u) <==> p != b
    ensures RecordedAt(r, u, Key(c, b)) <==> p == b
  {
    assert s.threads[u].rd[Key(c, b)] == 1;
    assert s.threads[u].rd[Key(c, p)] == if p == b then 1 else 0;
    assert s.threads[u].rd[Key(c, q)] == if q == b then 1 else 0;
  }

  lemma PackedLocks(s: System, t: nat, c: nat, k: nat)
    requires CanStep(s, t) && s.threads[t].now != [] && s.threads[t].now[0] == Do(c, Pack)
    requires var d := s.book(c); |s.locks(c)| == |d.flags| == |d.tag| < U32
    requires k < |s.locks(c)|
    ensures Places(s.book(c).flags)[k] < |s.locks(c)|
    ensures LockAt(Next(s, t), Key(c, k)) == s.locks(c)[Places(s.book(c).flags)[k]]
    ensures forall v :: 0 <= v < |s.threads| ==>
      Next(s, t).threads[v].wr == s.threads[v].wr && Next(s, t).threads[v].rd == s.threads[v].rd
  {
    PlacesBelow(s.book(c).flags);
  }

  /** A bare lister holds one block only. */
  lemma OneHold(s: System, u: nat, k: Key)
    requires u < |s.threads| && Listing(s, u, k)
    ensures forall l :: s.threads[u].rd[l] == if l == k then 1 else 0
  {
  }

  lemma NobodyWrites(s: System, t: nat, c: nat)
    requires Safe(s) && CanStep(s, t) && s.threads[t].now != [] && s.threads[t].now[0] == Do(c, Pack)
    ensures forall v, b :: 0 <= v < |s.threads| ==> !Writes(s, v, Key(c, b))
  {
    assert Orderly(s.threads[t]) && Allowed(s.threads[t]) && Owns(s, t, c);
    forall v, b | 0 <= v < |s.threads|
      ensures !Writes(s, v, Key(c, b))
    {
      assert Orderly(s.threads[v]);
      assert Key(c, b) in s.threads[v].wr ==> Owns(s, v, c);
    }
  }
}
