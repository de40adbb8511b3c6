/** When threads wait for ever: with block locks that mean what they say, only for merges in a ring. */
module Waiting {
  import opened Machine
  import opened LockArrays
  import opened Books
  import opened Locks
  import opened Discipline
  import opened Exclusion

  // ---- Locks that nobody has taken are not locked ----

  /** Of cache c the locks below known(c) are known to be those that threads have taken, and with None all. */
  predicate Below(known: nat -> Option<nat>, k: Key) {
    known(k.cache).Some? ==> k.block < known(k.cache).value
  }

  predicate FreeHeap(heap: Heap) {
    forall i :: 0 <= i < |heap.locks| ==> heap.locks[i] == UNLOCKED
  }

  /** A call takes known locks only and keeps them known: either every array that grows finds unlocked locks in
      the heap; or the calls name blocks below a bound that no change of size goes below, and there is no call
      that goes through all blocks, nor compaction. */
  predicate OpKnown(known: nat -> Option<nat>, op: Op) {
    match op
    case Delete(c, b) => Below(known, Key(c, b))
    case Restore(c, b) => Below(known, Key(c, b))
    case Access(c, b, _) => Below(known, Key(c, b))
    case LockBlock(c, b, _) => Below(known, Key(c, b))
    case Load(c, b, _) => Below(known, Key(c, b))
    case AddPart(c, b) => Below(known, Key(c, b))
    case HeldLoad(c, b, _) => Below(known, Key(c, b))
    case ChangeTag(c, _, _) => known(c).None?
    case TagStats(c) => known(c).None?
    case LoadAny(c, _) => known(c).None?
    case Compact(c, heap) => known(c).None? && FreeHeap(heap)
    case Resize(c, m, heap) => if known(c).Some? then m == 0 || known(c).value <= m else FreeHeap(heap)
    case Merge(c, _, _, heap) => known(c).Some? || FreeHeap(heap)
    case _ => true
  }

  predicate ActKnown(known: nat -> Option<nat>, a: Act) {
    match a
    case Wr(k) => Below(known, k)
    case Rd(k) => Below(known, k)
    case Do(c, Pack) => known(c).None?
    case Do(c, Shrink(heap)) => known(c).None? && FreeHeap(heap)
    case Do(c, ResizeTo(m, heap)) => if known(c).Some? then m == 0 || known(c).value <= m else FreeHeap(heap)
    case Join(c, _, _, heap) => known(c).Some? || FreeHeap(heap)
    case Each(c, visit, _) => visit.ClearTag? || known(c).None?
    case _ => true
  }

  ghost predicate ThreadKnown(known: nat -> Option<nat>, t: Thread) {
    && (forall i :: 0 <= i < |t.now| ==> ActKnown(known, t.now[i]))
    && (forall i :: 0 <= i < |t.calls| ==> OpKnown(known, t.calls[i]))
  }

  lemma RoundKnown(known: nat -> Option<nat>, t: Thread, flags: seq<byte>)
    requires t.now != [] && t.now[0].Each? && ThreadKnown(known, t)
    ensures ThreadKnown(known, After(t, flags))
  {
    var a, rest := t.now[0], t.now[1..];
    assert ActKnown(known, a);
    RoundIs(t, flags);
    FrontKnown(known, a, flags);
    CallsKept(t, flags);
    hide ActKnown, OpKnown, After, RoundActs;
    forall i | 0 <= i < |rest|
      ensures ActKnown(known, rest[i])
    {
      assert rest[i] == t.now[i + 1];
    }
  }

  lemma FrontKnown(known: nat -> Option<nat>, a: Act, flags: seq<byte>)
    requires a.Each? && ActKnown(known, a)
    ensures var p := RoundActs(a.cache, a.visit, a.block, flags);
      forall i :: 0 <= i < |p| ==> ActKnown(known, p[i])
  {
  }

  lemma AfterKnown(known: nat -> Option<nat>, t: Thread, flags: seq<byte>)
    requires t.now != [] && ThreadKnown(known, t)
    ensures ThreadKnown(known, After(t, flags))
  {
    hide ActKnown, OpKnown;
    if t.now[0].Each? {
      RoundKnown(known, t, flags);
    }
  }

  lemma ProgramKnown(known: nat -> Option<nat>, op: Op)
    requires OpKnown(known, op)
    ensures forall i :: 0 <= i < |Program(op)| ==> ActKnown(known, Program(op)[i])
  {
  }

  /** Every array has a lock for each block, and the known ones are there. */
  ghost predicate Sized(known: nat -> Option<nat>, s: System) {
    forall c :: |s.locks(c)| == |s.book(c).flags| && (known(c).Some? ==> known(c).value <= |s.locks(c)|)
  }

  /** A lock entry claims no more of a thread than that it writes the block or reads it so many times. */
  predicate Claims(l: RwLock, u: nat, wr: bool, rd: nat) {
    (l.writer == Some(u) ==> wr) && l.readers[u] <= rd
  }

  predicate Backs(s: System, u: nat, k: Key) {
    if u < |s.threads| then Claims(LockAt(s, k), u, Writes(s, u, k), s.threads[u].rd[k])
    else Claims(LockAt(s, k), u, false, 0)
  }

  /** Every hold that a known lock records is a hold some thread has. */
  ghost predicate Backed(known: nat -> Option<nat>, s: System) {
    forall k, u :: Below(known, k) ==> Backs(s, u, k)
  }

  ghost predicate AllKnown(known: nat -> Option<nat>, s: System) {
    forall t :: 0 <= t < |s.threads| ==> ThreadKnown(known, s.threads[t])
  }

  lemma NextKnown(known: nat -> Option<nat>, s: System, t: nat)
    requires AllKnown(known, s) && CanStep(s, t)
    ensures AllKnown(known, Next(s, t))
  {
    hide ActKnown, OpKnown;
    var x := s.threads[t];
    assert ThreadKnown(known, x);
    if x.now == [] {
      ProgramKnown(known, x.calls[0]);
    } else {
      AfterKnown(known, x, Seen(s.book, x.now[0]));
    }
  }

  lemma AppliedSize(e: Effect, d: Book)
    ensures !Reshapes(e) || e.Pack? ==> |Apply(e, d).flags| == |d.flags|
    ensures e.ResizeTo? ==> |Apply(e, d).flags| == |d.flags| || (|Apply(e, d).flags| == e.m && e.m > 0)
  {
  }

  lemma NextSized(known: nat -> Option<nat>, s: System, t: nat)
    requires AllKnown(known, s) && Sized(known, s) && CanStep(s, t)
    ensures Sized(known, Next(s, t))
  {
    hide Apply;
    var x, r := s.threads[t], Next(s, t);
    assert ThreadKnown(known, x);
    if x.now != [] {
      assert ActKnown(known, x.now[0]);
      if x.now[0].Do? {
        AppliedSize(x.now[0].effect, s.book(x.now[0].cache));
      }
    }
  }

  lemma UnheldUnlocked(known: nat -> Option<nat>, s: System, k: Key)
    requires Backed(known, s) && Below(known, k) && NoneHeld(s, k.cache)
    ensures LockAt(s, k) == UNLOCKED
  {
    var l := LockAt(s, k);
    forall u: nat
      ensures l.writer != Some(u) && l.readers[u] == 0
    {
      assert Backs(s, u, k);
      assert u < |s.threads| ==> NoneOf(s.threads[u], k.cache);
    }
    assert l.readers == multiset{};
  }

  /** Rearranging an array of which nobody holds a known lock leaves all known locks unlocked. */
  lemma RearrangedUnlocked(known: nat -> Option<nat>, s: System, t: nat, k: Key)
    requires AllKnown(known, s) && Sized(known, s) && Backed(known, s) && CanStep(s, t) && s.threads[t].now != []
    requires match s.threads[t].now[0]
      case Do(x, e) => x == k.cache && Reshapes(e)
      case Join(x, _, _, _) => x == k.cache
      case _ => false
    requires Below(known, k) && NoneHeld(s, k.cache)
    ensures LockAt(Next(s, t), k) == UNLOCKED
  {
    var a, c, r := s.threads[t].now[0], k.cache, Next(s, t);
    assert ThreadKnown(known, s.threads[t]) && ActKnown(known, a);
    assert |s.locks(c)| == |s.book(c).flags|;
    forall b | 0 <= b < |s.locks(c)| && Below(known, Key(c, b))
      ensures s.locks(c)[b] == UNLOCKED
    {
      UnheldUnlocked(known, s, Key(c, b));
    }
    NewArray(known, s, t, c);
  }

  /** Entry by entry, a rearranged array: an old entry, a new one, or one past the end. */
  lemma NewArray(known: nat -> Option<nat>, s: System, t: nat, c: nat)
    requires AllKnown(known, s) && Sized(known, s) && CanStep(s, t) && s.threads[t].now != []
    requires match s.threads[t].now[0]
      case Do(x, e) => x == c && Reshapes(e)
      case Join(x, _, _, _) => x == c
      case _ => false
    requires forall b :: 0 <= b < |s.locks(c)| && Below(known, Key(c, b)) ==> s.locks(c)[b] == UNLOCKED
    ensures forall b :: 0 <= b < |Next(s, t).locks(c)| && Below(known, Key(c, b)) ==> Next(s, t).locks(c)[b] == UNLOCKED
  {
    hide Apply;
    var a := s.threads[t].now[0];
    assert ThreadKnown(known, s.threads[t]) && ActKnown(known, a);
    if a.Do? {
      AppliedSize(a.effect, s.book(c));
      if a.effect.Pack? && |s.book(c).flags| < U32 {
        PlacesBelow(s.book(c).flags);
      }
    }
  }

  lemma OtherBacks(s: System, t: nat, u: nat, k: Key)
    requires CanStep(s, t) && Backs(s, u, k)
    requires s.threads[t].now != [] ==> !LocksBlock(s.threads[t].now[0], k)
    requires s.threads[t].now != [] ==> match s.threads[t].now[0]
      case Do(c, e) => Reshapes(e) ==> c != k.cache
      case Join(c, _, _, _) => c != k.cache
      case _ => true
    ensures Backs(Next(s, t), u, k)
  {
    hide Next, LockAt;
    OtherLocks(s, t, k);
    if u < |s.threads| {
      OtherHolds(s, t, u, k);
    }
  }

  lemma ReleaseClaims(l: RwLock, t: nat, wr: bool, rd: nat, u: nat, wr2: bool, rd2: nat)
    requires Knows(l, t, wr, rd) && (wr || rd > 0) && Claims(l, t, wr, rd)
    requires Claims(l, u, wr2, rd2) && (u == t ==> wr2 == wr && rd2 == rd)
    ensures Claims(Unlocked(l, t), u, wr2 && u != t, if u == t && !wr then rd2 - 1 else rd2)
  {
  }

  lemma ReleaseBacks(s: System, t: nat, u: nat, k: Key)
    requires Safe(s) && CanStep(s, t) && RecordedAt(s, t, k) && Backs(s, t, k) && Backs(s, u, k)
    requires s.threads[t].now != [] && s.threads[t].now[0] == Release(k)
    ensures Backs(Next(s, t), u, k)
  {
    hide Next, Knows, Claims, LockAt;
    assert Orderly(s.threads[t]) && Allowed(s.threads[t]) && RecordedAt(s, t, k);
    LockTaken(s, t, k);
    var x := s.threads[t];
    var wr2, rd2 := u < |s.threads| && k in s.threads[u].wr, if u < |s.threads| then s.threads[u].rd[k] else 0;
    ReleaseClaims(LockAt(s, k), t, k in x.wr, x.rd[k], u, wr2, rd2);
    HeldInRange(s, t, k);
    if u < |s.threads| {
      TakesBlock(s, t, u, k);
    }
  }

  lemma TakeBacks(s: System, t: nat, u: nat, k: Key)
    requires CanStep(s, t) && Backs(s, u, k)
    requires s.threads[t].now != [] && (s.threads[t].now[0] == Wr(k) || s.threads[t].now[0] == Rd(k))
    ensures Backs(Next(s, t), u, k)
  {
    hide Next;
    LockTaken(s, t, k);
    if u < |s.threads| {
      TakesBlock(s, t, u, k);
    }
  }

  lemma NextBacked(listed: nat -> bool, known: nat -> Option<nat>, s: System, t: nat)
    requires Safe(s) && AllApart(listed, s) && Recorded(s) && CanStep(s, t)
    requires AllKnown(known, s) && Sized(known, s) && Backed(known, s)
    ensures Backed(known, Next(s, t))
  {
    hide Safe, AllApart, RecordedAt, Next, LockAt, AllKnown, Sized;
    var r, p := Next(s, t), s.threads[t].now;
    forall k, u | Below(known, k)
      ensures Backs(r, u, k)
    {
      assert Backs(s, u, k) && Backs(s, t, k) && RecordedAt(s, t, k);
      if p != [] && p[0] == Release(k) {
        ReleaseBacks(s, t, u, k);
      } else if p != [] && LocksBlock(p[0], k) {
        TakeBacks(s, t, u, k);
      } else if p != [] && ((p[0].Do? && p[0].cache == k.cache && Reshapes(p[0].effect))
                            || (p[0].Join? && p[0].one == k.cache)) {
        RearrangedAlone(listed, s, t, k.cache);
        RearrangedUnlocked(known, s, t, k);
      } else {
        OtherBacks(s, t, u, k);
      }
    }
  }
}
