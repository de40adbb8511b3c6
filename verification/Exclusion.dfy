/** Mutual exclusion, for any number of threads running any calls under any schedule. */
module Exclusion {
  import opened Machine
  import opened LockArrays
  import opened Books
  import opened Locks
  import opened Discipline

  /** A lone read lock of a thread listing tags, about to be released. */
  predicate Bare(t: Thread) {
    && t.mine == multiset{} && t.wr == {}
    && |t.now| > 1 && t.now[0].Release? && t.rd == multiset{t.now[0].key} && Lists(t.now[1], t.now[0].key.cache)
  }

  /** Block locks are held under the mutex, or bare. */
  predicate Held(t: Thread) {
    && (forall k :: k in t.wr ==> k.cache in t.mine && k !in t.rd)
    && (Bare(t) || forall k :: k in t.rd ==> k.cache in t.mine)
  }

  ghost predicate Orderly(t: Thread) {
    Disciplined(t) && Held(t) && forall i :: 0 <= i < |t.calls| ==> Fits(t.calls[i])
  }

  lemma LockHeld(t: Thread)
    requires Held(t) && t.now != [] && (t.now[0].Lock? || t.now[0].Check? || t.now[0].Do? || t.now[0].Join?)
    ensures Held(After(t, []))
  {
    var r := After(t, []);
    assert forall c :: c in t.mine ==> c in r.mine;
  }

  lemma UnlockHeld(t: Thread)
    requires Held(t) && t.now != [] && t.now[0].Unlock? && Allowed(t)
    ensures Held(After(t, []))
  {
    var r, c := After(t, []), t.now[0].cache;
    assert forall m :: m in t.mine && (m != c || t.mine[c] != 1) ==> m in r.mine;
  }

  lemma WrHeld(t: Thread)
    requires Held(t) && t.now != [] && t.now[0].Wr? && Allowed(t)
    ensures Held(After(t, []))
  {
  }

  lemma RdHeld(t: Thread)
    requires Held(t) && t.now != [] && t.now[0].Rd? && Allowed(t)
    ensures Held(After(t, []))
  {
    var r, k := After(t, []), t.now[0].key;
    assert forall l :: l in r.rd ==> l in t.rd || l == k;
    if k.cache !in t.mine {
      assert r.rd == multiset{k};
    }
  }

  lemma ReleaseHeld(t: Thread)
    requires Held(t) && t.now != [] && t.now[0].Release? && Allowed(t)
    ensures Held(After(t, []))
  {
    var r := After(t, []);
    assert forall l :: l in r.rd ==> l in t.rd;
    if Bare(t) {
      assert r.rd == multiset{};
    }
  }

  lemma LoopHeld(t: Thread, flags: seq<byte>)
    requires Held(t) && Loops(t) && Allowed(t)
    ensures Held(After(t, flags))
  {
    var r := After(t, flags);
    assert r.mine == t.mine && r.wr == t.wr && r.rd == t.rd;
    assert !Bare(t);
  }

  lemma AfterHeld(t: Thread, flags: seq<byte>)
    requires Held(t) && t.now != [] && Allowed(t)
    ensures Held(After(t, flags))
  {
    match t.now[0]
    case Lock(_) => LockHeld(t);
    case Check(_) => LockHeld(t);
    case Do(_, _) => LockHeld(t);
    case Join(_, _, _, _) => LockHeld(t);
    case Unlock(_) => UnlockHeld(t);
    case Wr(_) => WrHeld(t);
    case Rd(_) => RdHeld(t);
    case Release(_) => ReleaseHeld(t);
    case Each(_, _, _) => LoopHeld(t, flags);
  }

  lemma AfterOrderly(t: Thread, flags: seq<byte>)
    requires Orderly(t) && t.now != []
    ensures Orderly(After(t, flags))
  {
    hide After, Held, Allowed;
    assert Allowed(t);
    AfterDisciplined(t, flags);
    AfterHeld(t, flags);
    CallsKept(t, flags);
  }

  lemma CallsKept(t: Thread, flags: seq<byte>)
    requires t.now != []
    ensures After(t, flags).calls == t.calls || After(t, flags).calls == []
  {
  }

  lemma BeginOrderly(t: Thread)
    requires Orderly(t) && t.now == [] && t.calls != []
    ensures Orderly(Begin(t))
  {
    ProgramDisciplined(t.calls[0]);
    OnlyNow(Free(Program(t.calls[0])), t.calls[1..]);
  }

  // ---- Mutexes ----

  ghost predicate AllOrderly(s: System) {
    forall t :: 0 <= t < |s.threads| ==> Orderly(s.threads[t])
  }

  /** A mutex has one owner. */
  ghost predicate OneOwner(s: System) {
    forall t, u, c :: 0 <= t < |s.threads| && 0 <= u < |s.threads| && Owns(s, t, c) && Owns(s, u, c) ==> t == u
  }

  ghost predicate Safe(s: System) {
    AllOrderly(s) && OneOwner(s)
  }

  lemma NextOrderly(s: System, t: nat)
    requires AllOrderly(s) && CanStep(s, t)
    ensures AllOrderly(Next(s, t))
  {
    hide Disciplined, Held, Fits;
    var x := s.threads[t];
    if x.now == [] {
      BeginOrderly(x);
    } else {
      AfterOrderly(x, Seen(s.book, x.now[0]));
    }
  }

  /** What a thread holds after an act it held before, or the act took it. */
  lemma AfterTakes(t: Thread, flags: seq<byte>, c: nat)
    requires t.now != []
    ensures c in After(t, flags).mine ==> c in t.mine || t.now[0] == Lock(c)
  {
  }

  lemma NoNewOwner(s: System, t: nat, v: nat, c: nat)
    requires CanStep(s, t) && v < |s.threads|
    ensures var r, x := Next(s, t), s.threads[t];
      && (Owns(r, v, c) ==> Owns(s, v, c) || (v == t && x.now != [] && x.now[0] == Lock(c)))
      && (x.now != [] && x.now[0] == Lock(c) ==> v == t || !Owns(s, v, c))
  {
    var x := s.threads[t];
    if x.now != [] {
      AfterTakes(x, Seen(s.book, x.now[0]), c);
    }
  }

  lemma NextOneOwner(s: System, t: nat)
    requires OneOwner(s) && CanStep(s, t)
    ensures OneOwner(Next(s, t))
  {
    hide Next;
    var r := Next(s, t);
    forall v, w, c | 0 <= v < |r.threads| && 0 <= w < |r.threads| && Owns(r, v, c) && Owns(r, w, c)
      ensures v == w
    {
      NoNewOwner(s, t, v, c);
      NoNewOwner(s, t, w, c);
    }
  }

  lemma NextSafe(s: System, t: nat)
    requires Safe(s) && CanStep(s, t)
    ensures Safe(Next(s, t))
  {
    NextOrderly(s, t);
    NextOneOwner(s, t);
  }

  /** Whatever the schedule and whatever becomes of the block locks, the threads keep to the rules and each
      mutex has one owner. */
  lemma {:induction false} RunSafe(s: System, schedule: seq<nat>)
    requires Safe(s) && CanRun(s, schedule)
    ensures Safe(Run(s, schedule))
    decreases |schedule|
  {
    hide Safe;
    if schedule != [] {
      NextSafe(s, schedule[0]);
      RunSafe(Next(s, schedule[0]), schedule[1..]);
    }
  }

  // ---- Caches whose tags are listed are not rearranged ----

  /** The call compacts cache c, changes its size or merges into it. */
  predicate Rearranges(op: Op, c: nat) {
    match op
    case Compact(x, _) => x == c
    case Resize(x, _, _) => x == c
    case Merge(x, _, _, _) => x == c
    case _ => false
  }

  ghost predicate OpApart(listed: nat -> bool, op: Op) {
    (op.TagStats? ==> listed(op.cache)) && forall c :: Rearranges(op, c) ==> !listed(c)
  }

  predicate ActApart(listed: nat -> bool, a: Act) {
    match a
    case Do(c, e) => Reshapes(e) ==> !listed(c)
    case Join(c, _, _, _) => !listed(c)
    case Each(c, ListTags, _) => listed(c)
    case _ => true
  }

  ghost predicate ThreadApart(listed: nat -> bool, t: Thread) {
    && (forall i :: 0 <= i < |t.now| ==> ActApart(listed, t.now[i]))
    && (forall i :: 0 <= i < |t.calls| ==> OpApart(listed, t.calls[i]))
  }

  lemma AfterApart(listed: nat -> bool, t: Thread, flags: seq<byte>)
    requires t.now != [] && ThreadApart(listed, t)
    ensures ThreadApart(listed, After(t, flags))
  {
    assert ActApart(listed, t.now[0]);
  }

  lemma ProgramApart(listed: nat -> bool, op: Op)
    requires OpApart(listed, op)
    ensures forall i :: 0 <= i < |Program(op)| ==> ActApart(listed, Program(op)[i])
  {
    assert forall c :: Rearranges(op, c) ==> !listed(c);
  }

  ghost predicate AllApart(listed: nat -> bool, s: System) {
    forall t :: 0 <= t < |s.threads| ==> ThreadApart(listed, s.threads[t])
  }

  lemma NextApart(listed: nat -> bool, s: System, t: nat)
    requires AllApart(listed, s) && CanStep(s, t)
    ensures AllApart(listed, Next(s, t))
  {
    var x := s.threads[t];
    assert ThreadApart(listed, x);
    if x.now == [] {
      ProgramApart(listed, x.calls[0]);
    } else {
      AfterApart(listed, x, Seen(s.book, x.now[0]));
    }
  }

  // ---- Block locks ----

  /** A lock entry knows of a thread that writes the block or reads it so many times. */
  predicate Knows(l: RwLock, t: nat, wr: bool, rd: nat) {
    && (wr ==> l == RwLock(Some(t), multiset{}))
    && (rd > 0 ==> l.writer.None?)
    && rd <= l.readers[t]
  }

  /** The array knows of every hold that thread t has on block k. */
  ghost predicate RecordedAt(s: System, t: nat, k: Key)
    requires t < |s.threads|
  {
    Knows(LockAt(s, k), t, Writes(s, t, k), s.threads[t].rd[k])
  }

  ghost predicate Recorded(s: System) {
    forall t, k :: 0 <= t < |s.threads| ==> RecordedAt(s, t, k)
  }

  /** A block lock has one writer or only readers. */
  ghost predicate OneWriter(s: System) {
    forall t, u, k :: 0 <= t < |s.threads| && 0 <= u < |s.threads| && Writes(s, t, k) ==>
      !Reads(s, u, k) && (Writes(s, u, k) ==> t == u)
  }

  lemma RecordedOneWriter(s: System)
    requires Recorded(s)
    ensures OneWriter(s)
  {
    forall t, u, k | 0 <= t < |s.threads| && 0 <= u < |s.threads| && Writes(s, t, k)
      ensures !Reads(s, u, k) && (Writes(s, u, k) ==> t == u)
    {
      assert RecordedAt(s, t, k) && RecordedAt(s, u, k);
    }
  }

  /** Nobody holds a block of cache c. */
  ghost predicate NoneHeld(s: System, c: nat) {
    forall u :: 0 <= u < |s.threads| ==> NoneOf(s.threads[u], c)
  }

  /** While a thread rearranges an unlisted cache nobody holds a block of it. */
  lemma RearrangedAlone(listed: nat -> bool, s: System, t: nat, c: nat)
    requires Safe(s) && AllApart(listed, s) && t < |s.threads| && s.threads[t].now != []
    requires match s.threads[t].now[0]
      case Do(x, e) => x == c && Reshapes(e)
      case Join(x, _, _, _) => x == c
      case _ => false
    ensures NoneHeld(s, c)
  {
    assert Orderly(s.threads[t]) && Allowed(s.threads[t]) && Owns(s, t, c);
    assert ThreadApart(listed, s.threads[t]) && ActApart(listed, s.threads[t].now[0]);
    forall u | 0 <= u < |s.threads| && u != t
      ensures NoneOf(s.threads[u], c)
    {
      assert Orderly(s.threads[u]) && !Owns(s, u, c);
      if Bare(s.threads[u]) {
        assert ThreadApart(listed, s.threads[u]) && ActApart(listed, s.threads[u].now[1]);
      }
    }
  }

  /** An act that does not rearrange c's tables changes at most the lock of the block it names. */
  lemma OtherLocks(s: System, t: nat, k: Key)
    requires CanStep(s, t)
    requires s.threads[t].now != [] ==> match s.threads[t].now[0]
      case Wr(l) => l != k
      case Rd(l) => l != k
      case Release(l) => l != k
      case Do(c, e) => Reshapes(e) ==> c != k.cache
      case Join(c, _, _, _) => c != k.cache
      case _ => true
    ensures LockAt(Next(s, t), k) == LockAt(s, k)
  {
  }

  /** Nor does it change anybody's hold on another block. */
  lemma OtherHolds(s: System, t: nat, u: nat, k: Key)
    requires CanStep(s, t) && u < |s.threads|
    requires u == t && s.threads[t].now != [] ==>
      s.threads[t].now[0] != Wr(k) && s.threads[t].now[0] != Rd(k) && s.threads[t].now[0] != Release(k)
    ensures var r := Next(s, t);
      && (Writes(r, u, k) <==> Writes(s, u, k)) && (Reads(r, u, k) <==> Reads(s, u, k))
      && r.threads[u].rd[k] == s.threads[u].rd[k]
  {
  }

  predicate LocksBlock(a: Act, k: Key) {
    a == Wr(k) || a == Rd(k) || a == Release(k)
  }

  /** The lock of a block that a thread takes or releases. */
  lemma LockTaken(s: System, t: nat, k: Key)
    requires CanStep(s, t) && s.threads[t].now != [] && LocksBlock(s.threads[t].now[0], k)
    ensures var l := LockAt(s, k);
      LockAt(Next(s, t), k) ==
        if !InRange(s, k) then UNLOCKED
        else match s.threads[t].now[0]
             case Wr(_) => RwLock(Some(t), multiset{})
             case Rd(_) => RwLock(None, l.readers + multiset{t})
             case _ => Unlocked(l, t)
  {
  }

  lemma TakesBlock(s: System, t: nat, u: nat, k: Key)
    requires CanStep(s, t) && s.threads[t].now != [] && LocksBlock(s.threads[t].now[0], k) && u < |s.threads|
    ensures Next(s, t).threads[u] == if u == t then After(s.threads[t], []) else s.threads[u]
  {
  }

  lemma WrRecorded(s: System, t: nat, u: nat, k: Key)
    requires Safe(s) && CanStep(s, t) && u < |s.threads| && RecordedAt(s, t, k) && RecordedAt(s, u, k)
    requires s.threads[t].now != [] && s.threads[t].now[0] == Wr(k)
    ensures RecordedAt(Next(s, t), u, k)
  {
    hide Next;
    assert Orderly(s.threads[t]) && Allowed(s.threads[t]) && RecordedAt(s, u, k);
    LockTaken(s, t, k);
    TakesBlock(s, t, u, k);
  }

  lemma RdRecorded(s: System, t: nat, u: nat, k: Key)
    requires Safe(s) && CanStep(s, t) && u < |s.threads| && RecordedAt(s, t, k) && RecordedAt(s, u, k)
    requires s.threads[t].now != [] && s.threads[t].now[0] == Rd(k)
    ensures RecordedAt(Next(s, t), u, k)
  {
    hide Next;
    assert Orderly(s.threads[t]) && Allowed(s.threads[t]) && RecordedAt(s, u, k);
    LockTaken(s, t, k);
    TakesBlock(s, t, u, k);
  }

  lemma ReleaseKnows(l: RwLock, t: nat, wr: bool, rd: nat, u: nat, wr2: bool, rd2: nat)
    requires Knows(l, t, wr, rd) && (wr || rd > 0)
    requires Knows(l, u, wr2, rd2) && (u == t ==> wr2 == wr && rd2 == rd)
    ensures Knows(Unlocked(l, t), u, wr2 && u != t, if u == t && !wr then rd2 - 1 else rd2)
  {
  }

  lemma ReleaseRecorded(s: System, t: nat, u: nat, k: Key)
    requires Safe(s) && CanStep(s, t) && u < |s.threads| && RecordedAt(s, t, k) && RecordedAt(s, u, k)
    requires s.threads[t].now != [] && s.threads[t].now[0] == Release(k)
    ensures RecordedAt(Next(s, t), u, k)
  {
    hide Next, Knows, LockAt;
    assert Orderly(s.threads[t]) && Allowed(s.threads[t]) && RecordedAt(s, t, k) && RecordedAt(s, u, k);
    LockTaken(s, t, k);
    TakesBlock(s, t, u, k);
    var x := s.threads[t];
    ReleaseKnows(LockAt(s, k), t, k in x.wr, x.rd[k], u, Writes(s, u, k), s.threads[u].rd[k]);
    HeldInRange(s, t, k);
  }

  /** Only locks that the array has are held. */
  lemma HeldInRange(s: System, t: nat, k: Key)
    requires t < |s.threads| && RecordedAt(s, t, k) && (Writes(s, t, k) || Reads(s, t, k))
    ensures InRange(s, k)
  {
  }

  /** A thread that takes or releases block k. */
  lemma TakenRecorded(s: System, t: nat, u: nat, k: Key)
    requires Safe(s) && CanStep(s, t) && u < |s.threads| && RecordedAt(s, t, k) && RecordedAt(s, u, k)
    requires s.threads[t].now != [] && LocksBlock(s.threads[t].now[0], k)
    ensures RecordedAt(Next(s, t), u, k)
  {
    match s.threads[t].now[0]
    case Wr(_) => WrRecorded(s, t, u, k);
    case Rd(_) => RdRecorded(s, t, u, k);
    case Release(_) => ReleaseRecorded(s, t, u, k);
  }

  lemma NextRecorded(listed: nat -> bool, s: System, t: nat)
    requires Safe(s) && AllApart(listed, s) && Recorded(s) && CanStep(s, t)
    ensures Recorded(Next(s, t))
  {
    hide Safe, AllApart, Next, LockAt;
    var r, p := Next(s, t), s.threads[t].now;
    forall u, k | 0 <= u < |r.threads|
      ensures RecordedAt(r, u, k)
    {
      assert RecordedAt(s, u, k) && RecordedAt(s, t, k);
      if p != [] && LocksBlock(p[0], k) {
        TakenRecorded(s, t, u, k);
      } else if p != [] && ((p[0].Do? && p[0].cache == k.cache && Reshapes(p[0].effect))
                            || (p[0].Join? && p[0].one == k.cache)) {
        RearrangedAlone(listed, s, t, k.cache);
        OtherHolds(s, t, u, k);
        assert NoneOf(s.threads[u], k.cache);
      } else {
        OtherLocks(s, t, k);
        OtherHolds(s, t, u, k);
      }
    }
  }

  lemma {:induction false} RunRecorded(listed: nat -> bool, s: System, schedule: seq<nat>)
    requires Safe(s) && AllApart(listed, s) && Recorded(s) && CanRun(s, schedule)
    ensures Safe(Run(s, schedule)) && AllApart(listed, Run(s, schedule)) && Recorded(Run(s, schedule))
    decreases |schedule|
  {
    hide Safe, AllApart, Recorded;
    if schedule != [] {
      NextSafe(s, schedule[0]);
      NextApart(listed, s, schedule[0]);
      NextRecorded(listed, s, schedule[0]);
      RunRecorded(listed, Next(s, schedule[0]), schedule[1..]);
    }
  }

  // ---- All calls ----

  ghost predicate AllFit(calls: seq<seq<Op>>) {
    forall t, i :: 0 <= t < |calls| && 0 <= i < |calls[t]| ==> Fits(calls[t][i])
  }

  /** No cache is both listed by some call and compacted, resized or merged into by another. */
  ghost predicate CallsApart(listed: nat -> bool, calls: seq<seq<Op>>) {
    forall t, i :: 0 <= t < |calls| && 0 <= i < |calls[t]| ==> OpApart(listed, calls[t][i])
  }

  lemma StartSafe(calls: seq<seq<Op>>, book: nat -> Book)
    requires AllFit(calls)
    ensures Safe(Start(calls, book)) && Recorded(Start(calls, book))
    ensures forall listed :: CallsApart(listed, calls) ==> AllApart(listed, Start(calls, book))
  {
  }

  /** Any number of threads, each running any list of fitting calls on any caches, under any schedule: every
      mutex has one owner; and if no cache is both listed and rearranged, every block has one writer or only
      readers, whatever locks a growing array finds in the heap. */
  lemma CallsSafe(listed: nat -> bool, calls: seq<seq<Op>>, book: nat -> Book, schedule: seq<nat>)
    requires AllFit(calls) && CanRun(Start(calls, book), schedule)
    ensures OneOwner(Run(Start(calls, book), schedule))
    ensures CallsApart(listed, calls) ==> OneWriter(Run(Start(calls, book), schedule))
  {
    StartSafe(calls, book);
    RunSafe(Start(calls, book), schedule);
    if CallsApart(listed, calls) {
      RunRecorded(listed, Start(calls, book), schedule);
      RecordedOneWriter(Run(Start(calls, book), schedule));
    }
  }
}
