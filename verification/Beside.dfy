/** One thread lists the tags of a cache while another compacts it and then deletes a block: exactly when both
    come to hold the block, and exactly when they can deadlock. */
module Beside {
  import opened Machine
  import opened LockArrays
  import opened Books
  import opened Locks
  import opened Discipline
  import opened Exclusion
  import opened Waiting
  import opened Rings
  import opened Deadlocks
  import opened Sharing
  import opened Orphans

  /** Cache c with its book at first, what compaction may find in the heap, and the block deleted afterwards. */
  datatype Case = Case(c: nat, d: Book, heap: Heap, p: nat)

  /** The book and the array of locks are those of a cache with nothing due. */
  predicate Sound(e: Case) {
    |e.d.flags| == |e.d.tag| < U32 && e.d.due == Settled
  }

  function PackedBook(e: Case): (d: Book) {
    Apply(Pack, e.d)
  }

  function Trimmed(e: Case): (d: Book) {
    Apply(Shrink(e.heap), PackedBook(e))
  }

  /** Number of blocks after the compaction. */
  function SizeLeft(e: Case): (m: nat) {
    |Trimmed(e).flags|
  }

  function ListAndCompact(e: Case, book: nat -> Book): (s: System) {
    Start([[TagStats(e.c)], [Compact(e.c, e.heap), Delete(e.c, e.p)]], book)
  }

  // ---- The second thread, act by act ----

  const WORK: nat := 12

  function CompactActs(e: Case): (p: seq<Act>) {
    [Lock(e.c), Do(e.c, Pack), Do(e.c, Shrink(e.heap)), Unlock(e.c)]
  }

  function DeleteActs(e: Case): (p: seq<Act>) {
    var k := Key(e.c, e.p);
    [Lock(e.c), Wr(k), Do(e.c, ClearUsed(e.p)), Do(e.c, CountOff), Release(k), Unlock(e.c)]
  }

  function WorkerAt(e: Case, j: nat): (x: Thread) {
    var k := Key(e.c, e.p);
    if j == 0 then Thread(multiset{}, {}, multiset{}, [], [Compact(e.c, e.heap), Delete(e.c, e.p)])
    else if j <= 5 then
      Thread(if j == 1 || j == 5 then multiset{} else multiset{e.c}, {}, multiset{}, CompactActs(e)[j - 1..],
             [Delete(e.c, e.p)])
    else if j <= WORK then
      Thread(if j == 6 || j == 12 then multiset{} else multiset{e.c}, if 8 <= j <= 10 then {k} else {}, multiset{},
             DeleteActs(e)[j - 6..], [])
    else Thread(multiset{}, {}, multiset{}, [], [])
  }

  lemma WorkerGoesOn(e: Case, j: nat)
    requires j < WORK
    ensures var x := WorkerAt(e, j);
      && (x.now == [] ==> x.calls != [] && Begin(x) == WorkerAt(e, j + 1))
      && (x.now != [] ==> !x.now[0].Each? && After(x, []) == WorkerAt(e, j + 1))
  {
    if j <= 5 {
      CompactorGoesOn(e, j);
    } else {
      DeleterGoesOn(e, j);
    }
  }

  lemma CompactorGoesOn(e: Case, j: nat)
    requires j <= 5
    ensures var x := WorkerAt(e, j);
      && (x.now == [] ==> x.calls != [] && Begin(x) == WorkerAt(e, j + 1))
      && (x.now != [] ==> !x.now[0].Each? && After(x, []) == WorkerAt(e, j + 1))
  {
    var c := e.c;
    assert Program(Compact(c, e.heap)) == CompactActs(e) && Program(Delete(c, e.p)) == DeleteActs(e);
    assert multiset{} + multiset{c} == multiset{c} && multiset{c} - multiset{c} == multiset{};
    assert CompactActs(e)[0..] == CompactActs(e) && DeleteActs(e)[0..] == DeleteActs(e);
    assert 1 <= j <= 4 ==> CompactActs(e)[j - 1..][1..] == CompactActs(e)[j..];
    assert [Compact(c, e.heap), Delete(c, e.p)][1..] == [Delete(c, e.p)] && [Delete(c, e.p)][1..] == [];
  }

  lemma DeleterGoesOn(e: Case, j: nat)
    requires 6 <= j < WORK
    ensures var x := WorkerAt(e, j);
      x.now != [] && !x.now[0].Each? && After(x, []) == WorkerAt(e, j + 1)
  {
    var c, k := e.c, Key(e.c, e.p);
    assert multiset{} + multiset{c} == multiset{c} && multiset{c} - multiset{c} == multiset{};
    assert {} + {k} == {k} && {k} - {k} == {};
    assert DeleteActs(e)[j - 6..][1..] == DeleteActs(e)[j - 5..];
  }

  // ---- What is kept ----

  /** The first thread only reads blocks of the cache, one at a time. */
  predicate OnlyLists(t: Thread, c: nat) {
    && (t.calls == [] || t.calls == [TagStats(c)]) && t.wr == {} && t.mine == multiset{}
    && forall i :: 0 <= i < |t.now| ==>
         match t.now[i]
         case Rd(k) => k.cache == c
         case Release(k) => k.cache == c
         case Each(x, visit, _) => x == c && visit == ListTags
         case _ => false
  }

  lemma ListerGoesOn(t: Thread, c: nat, flags: seq<byte>)
    requires OnlyLists(t, c)
    ensures t.now != [] ==> OnlyLists(After(t, flags), c)
    ensures t.now == [] && t.calls != [] ==> OnlyLists(Begin(t), c)
  {
  }

  /** The book of the cache as far as it matters, with j acts of the second thread done. */
  predicate BookAt(e: Case, j: nat, d: Book) {
    && (j <= 2 ==> d == e.d) && (j == 3 ==> d == PackedBook(e))
    && (j > 3 ==> |d.flags| == SizeLeft(e))
  }

  ghost predicate Inv(s: System, e: Case, j: nat) {
    && |s.threads| == 2 && Safe(s) && Sound(e) && j <= WORK
    && OnlyLists(s.threads[0], e.c) && s.threads[1] == WorkerAt(e, j)
    && BookAt(e, j, s.book(e.c)) && |s.locks(e.c)| == |s.book(e.c).flags|
    && (j >= 8 ==> e.p < SizeLeft(e))
  }

  lemma WorkerBook(e: Case, j: nat, d: Book)
    requires Sound(e) && j < WORK && BookAt(e, j, d) && WorkerAt(e, j).now != []
    ensures var a := WorkerAt(e, j).now[0];
      && !a.Join? && (a.Do? ==> a.cache == e.c) && BookAt(e, j + 1, if a.Do? then Apply(a.effect, d) else d)
      && (a.Do? && j != 2 && j != 3 ==> !Reshapes(a.effect))
      && (j == 2 ==> a == Do(e.c, Pack)) && (j == 3 ==> a == Do(e.c, Shrink(e.heap)))
  {
  }

  lemma NextParts(s: System, t: nat, c: nat)
    requires CanStep(s, t) && |s.locks(c)| == |s.book(c).flags|
    ensures var x, r := s.threads[t], Next(s, t);
      && r.threads == s.threads[t := ThreadAfter(s, t)]
      && (x.now == [] || !x.now[0].Join? ==>
            && |r.locks(c)| == |r.book(c).flags|
            && r.book(c) == if x.now != [] && x.now[0].Do? && x.now[0].cache == c then Apply(x.now[0].effect, s.book(c))
                            else s.book(c))
  {
    var x := s.threads[t];
    if x.now != [] && x.now[0].Do? {
      AppliedSize(x.now[0].effect, s.book(c));
    }
  }

  lemma NextInv(s: System, e: Case, j: nat, t: nat)
    requires Inv(s, e, j) && CanStep(s, t)
    ensures t < 2 && (t == 0 ==> Inv(Next(s, t), e, j)) && (t == 1 ==> j < WORK && Inv(Next(s, t), e, j + 1))
  {
    hide Inv, Next, CanStep;
    StepsTwo(s, e, j, t);
    if t == 0 {
      ListerStep(s, e, j);
    } else {
      WorkerStep(s, e, j);
    }
  }

  lemma StepsTwo(s: System, e: Case, j: nat, t: nat)
    requires Inv(s, e, j) && CanStep(s, t)
    ensures t < 2
  {
  }

  lemma ListerStep(s: System, e: Case, j: nat)
    requires Inv(s, e, j) && CanStep(s, 0)
    ensures Inv(Next(s, 0), e, j)
  {
    NextSafe(s, 0);
    hide Safe, Next, CanStep, WorkerAt, BookAt;
    var x := s.threads[0];
    NextParts(s, 0, e.c);
    ListerGoesOn(x, e.c, if x.now == [] then [] else Seen(s.book, x.now[0]));
    UnfinishedStep(s, 0);
  }

  lemma UnfinishedStep(s: System, t: nat)
    requires CanStep(s, t)
    ensures Unfinished(s, t)
  {
  }

  lemma WorkerStep(s: System, e: Case, j: nat)
    requires Inv(s, e, j) && CanStep(s, 1)
    ensures j < WORK && Inv(Next(s, 1), e, j + 1)
  {
    NextSafe(s, 1);
    hide Safe, Next, BookAt;
    NextParts(s, 1, e.c);
    WorkerUnfinished(e, j);
    WorkerGoesOn(e, j);
    if s.threads[1].now != [] {
      WorkerBook(e, j, s.book(e.c));
    }
    if j == 7 {
      DeleterBook(s, e);
    }
    if j == 0 || j == 5 {
      Beginning(e, j, s.book(e.c));
    }
  }

  lemma WorkerUnfinished(e: Case, j: nat)
    requires j <= WORK
    ensures WorkerAt(e, j).now != [] || WorkerAt(e, j).calls != [] <==> j < WORK
    ensures WorkerAt(e, j).now == [] <==> j == 0 || j == 5 || j == WORK
  {
  }

  lemma Beginning(e: Case, j: nat, d: Book)
    requires BookAt(e, j, d) && (j == 0 || j == 5)
    ensures BookAt(e, j + 1, d)
  {
  }

  lemma DeleterBook(s: System, e: Case)
    requires |s.threads| == 2 && s.threads[1] == WorkerAt(e, 7) && CanStep(s, 1) && BookAt(e, 7, s.book(e.c))
    requires |s.locks(e.c)| == |s.book(e.c).flags|
    ensures e.p < SizeLeft(e)
  {
  }

  // ---- The lock of the block that is deleted ----

  /** Compaction leaves the block and its lock where they are. */
  predicate Stays(e: Case) {
    e.p < SizeLeft(e) && !Displaces(e.d.flags, e.p)
  }

  ghost predicate KeyRecorded(s: System, e: Case) {
    |s.threads| == 2 && RecordedAt(s, 0, Key(e.c, e.p)) && RecordedAt(s, 1, Key(e.c, e.p))
  }

  ghost predicate KeyBacked(s: System, e: Case) {
    forall u :: Backs(s, u, Key(e.c, e.p))
  }

  predicate Rearranging(s: System, t: nat, c: nat)
    requires t < |s.threads|
  {
    var p := s.threads[t].now;
    p != [] && ((p[0].Do? && p[0].cache == c && Reshapes(p[0].effect)) || (p[0].Join? && p[0].one == c))
  }

  lemma TrimmedKey(s: System, e: Case)
    requires Inv(s, e, 3) && Stays(e) && CanStep(s, 1)
    ensures LockAt(Next(s, 1), Key(e.c, e.p)) == LockAt(s, Key(e.c, e.p))
            || (e.p >= |s.locks(e.c)| && (FreeHeap(e.heap) ==> LockAt(Next(s, 1), Key(e.c, e.p)) == UNLOCKED))
  {
    hide Next, Safe, Apply;
    WorkerBook(e, 3, s.book(e.c));
    NextArray(s, 1, e.c);
  }

  lemma PackedKey(s: System, e: Case)
    requires Inv(s, e, 2) && Stays(e) && CanStep(s, 1)
    ensures LockAt(Next(s, 1), Key(e.c, e.p)) == LockAt(s, Key(e.c, e.p))
            || (e.p >= |s.locks(e.c)| && LockAt(Next(s, 1), Key(e.c, e.p)) == UNLOCKED)
  {
    hide Safe;
    WorkerBook(e, 2, s.book(e.c));
    if e.p < |s.locks(e.c)| {
      PackedLocks(s, 1, e.c, e.p);
      PlacesExact(e.d.flags, e.p);
    } else {
      NextParts(s, 1, e.c);
    }
  }

  /** Only the packing and the trimming rearrange the cache, and they leave a lock that stays. */
  lemma RearrangedKey(s: System, e: Case, j: nat, t: nat)
    requires Inv(s, e, j) && Stays(e) && CanStep(s, t) && Rearranging(s, t, e.c)
    ensures LockAt(Next(s, t), Key(e.c, e.p)) == LockAt(s, Key(e.c, e.p))
            || (e.p >= |s.locks(e.c)| && (FreeHeap(e.heap) ==> LockAt(Next(s, t), Key(e.c, e.p)) == UNLOCKED))
    ensures forall u :: 0 <= u < |s.threads| ==>
      Next(s, t).threads[u].wr == s.threads[u].wr && Next(s, t).threads[u].rd == s.threads[u].rd
  {
    RearrangingStage(s, e, j, t);
    NextArray(s, t, e.c);
    hide Inv, Next, LockAt, Stays, CanStep;
    if j == 2 {
      PackedKey(s, e);
    } else {
      TrimmedKey(s, e);
    }
  }

  lemma RearrangingStage(s: System, e: Case, j: nat, t: nat)
    requires Inv(s, e, j) && CanStep(s, t) && Rearranging(s, t, e.c)
    ensures t == 1 && (j == 2 || j == 3) && s.threads[t].now != [] && s.threads[t].now[0].Do?
  {
    hide Safe, BookAt;
    WorkerUnfinished(e, j);
    WorkerBook(e, j, s.book(e.c));
  }

  lemma NextRecordedKey(s: System, e: Case, j: nat, t: nat)
    requires Inv(s, e, j) && Stays(e) && KeyRecorded(s, e) && CanStep(s, t)
    ensures KeyRecorded(Next(s, t), e)
  {
    hide Next, OnlyLists, WorkerAt, BookAt, Stays, Safe;
    var k, p := Key(e.c, e.p), s.threads[t].now;
    NextParts(s, t, e.c);
    forall u | 0 <= u < 2
      ensures RecordedAt(Next(s, t), u, k)
    {
      if p != [] && LocksBlock(p[0], k) {
        TakenRecorded(s, t, u, k);
      } else if Rearranging(s, t, e.c) {
        RearrangedKey(s, e, j, t);
      } else {
        OtherLocks(s, t, k);
        OtherHolds(s, t, u, k);
      }
    }
  }

  lemma NextBackedKey(s: System, e: Case, j: nat, t: nat)
    requires Inv(s, e, j) && Stays(e) && FreeHeap(e.heap) && KeyRecorded(s, e) && KeyBacked(s, e) && CanStep(s, t)
    ensures KeyBacked(Next(s, t), e)
  {
    hide Next, OnlyLists, WorkerAt, BookAt, Stays, Safe;
    var k, p := Key(e.c, e.p), s.threads[t].now;
    NextParts(s, t, e.c);
    forall u: nat
      ensures Backs(Next(s, t), u, k)
    {
      assert Backs(s, u, k) && Backs(s, t, k);
      if p != [] && p[0] == Release(k) {
        ReleaseBacks(s, t, u, k);
      } else if p != [] && LocksBlock(p[0], k) {
        TakeBacks(s, t, u, k);
      } else if Rearranging(s, t, e.c) {
        RearrangedKey(s, e, j, t);
      } else {
        OtherBacks(s, t, u, k);
      }
    }
  }

  // ---- Writers ----

  /** Nobody writes a block but the second thread the one that it deletes. */
  ghost predicate WritersAt(s: System, e: Case, j: nat) {
    forall i :: 0 <= i < |s.locks(e.c)| ==>
      s.locks(e.c)[i].writer == if i == e.p && 8 <= j <= 10 then Some(1) else None
  }

  lemma ListerWriters(s: System, e: Case, j: nat)
    requires Inv(s, e, j) && WritersAt(s, e, j) && CanStep(s, 0)
    ensures WritersAt(Next(s, 0), e, j)
  {
    hide Next, Safe, BookAt, WorkerAt;
    NextArray(s, 0, e.c);
  }

  lemma WorkerWriters(s: System, e: Case, j: nat)
    requires Inv(s, e, j) && FreeHeap(e.heap) && WritersAt(s, e, j) && CanStep(s, 1)
    ensures WritersAt(Next(s, 1), e, j + 1)
  {
    hide Next, Safe;
    NextArray(s, 1, e.c);
    WorkerUnfinished(e, j);
    if 1 <= j <= 3 {
      CompactorWriters(s, e, j);
    } else if j == 4 {
    } else if j > 5 {
      DeleterWriters(s, e, j);
    }
  }

  lemma CompactorWriters(s: System, e: Case, j: nat)
    requires Inv(s, e, j) && FreeHeap(e.heap) && WritersAt(s, e, j) && CanStep(s, 1) && 1 <= j <= 3
    ensures forall l :: l in LocksAfter(s, 1, s.threads[1].now[0])(e.c) ==> l.writer.None?
  {
    hide Next, Safe, Apply;
    PlacesBelow(e.d.flags);
    forall l | l in LocksAfter(s, 1, s.threads[1].now[0])(e.c)
      ensures l.writer.None?
    {
    }
  }

  lemma DeleterAct(e: Case, j: nat)
    requires 6 <= j < WORK
    ensures WorkerAt(e, j).now != [] && WorkerAt(e, j).now[0] == DeleteActs(e)[j - 6]
  {
  }

  lemma DeleterWriters(s: System, e: Case, j: nat)
    requires Inv(s, e, j) && WritersAt(s, e, j) && CanStep(s, 1) && 6 <= j < WORK
    ensures var ls := LocksAfter(s, 1, s.threads[1].now[0])(e.c);
      forall i :: 0 <= i < |ls| ==> ls[i].writer == if i == e.p && 8 <= j + 1 <= 10 then Some(1) else None
  {
    hide Next, Safe, Apply, BookAt, WorkerAt, OnlyLists, CanStep;
    DeleterAct(e, j);
  }

  // ---- Runs ----

  lemma {:induction false} RunInv(s: System, e: Case, j: nat, schedule: seq<nat>) returns (l: nat)
    requires Inv(s, e, j) && CanRun(s, schedule)
    ensures Inv(Run(s, schedule), e, l)
    ensures Stays(e) && KeyRecorded(s, e) ==> KeyRecorded(Run(s, schedule), e)
    ensures Stays(e) && KeyRecorded(s, e) && FreeHeap(e.heap) && KeyBacked(s, e) ==> KeyBacked(Run(s, schedule), e)
    ensures FreeHeap(e.heap) && WritersAt(s, e, j) ==> WritersAt(Run(s, schedule), e, l)
    decreases |schedule|
  {
    hide Inv, Next, CanStep, KeyRecorded, KeyBacked, WritersAt, Stays, FreeHeap;
    l := j;
    if schedule != [] {
      var t, r := schedule[0], Next(s, schedule[0]);
      NextInv(s, e, j, t);
      if Stays(e) && KeyRecorded(s, e) {
        NextRecordedKey(s, e, j, t);
        if FreeHeap(e.heap) && KeyBacked(s, e) {
          NextBackedKey(s, e, j, t);
        }
      }
      if FreeHeap(e.heap) && WritersAt(s, e, j) {
        if t == 0 {
          ListerWriters(s, e, j);
        } else {
          WorkerWriters(s, e, j);
        }
      }
      l := RunInv(r, e, if t == 0 then j else j + 1, schedule[1..]);
    }
  }

  lemma StartInv(e: Case, book: nat -> Book)
    requires Sound(e) && book(e.c) == e.d
    ensures var s := ListAndCompact(e, book);
      Inv(s, e, 0) && KeyRecorded(s, e) && KeyBacked(s, e) && WritersAt(s, e, 0)
  {
    StartSafe([[TagStats(e.c)], [Compact(e.c, e.heap), Delete(e.c, e.p)]], book);
  }

  // ---- Both at one block ----

  /** The first thread reads the block while the second writes it. */
  ghost predicate Clash(s: System, k: Key) {
    |s.threads| == 2 && Reads(s, 0, k) && Writes(s, 1, k)
  }

  ghost predicate CanClash(s: System, k: Key) {
    exists schedule :: CanRun(s, schedule) && Clash(Run(s, schedule), k)
  }

  lemma NoClash(e: Case, book: nat -> Book, schedule: seq<nat>)
    requires Sound(e) && book(e.c) == e.d && CanRun(ListAndCompact(e, book), schedule)
    requires e.p >= SizeLeft(e) || !Displaces(e.d.flags, e.p)
    ensures !Clash(Run(ListAndCompact(e, book), schedule), Key(e.c, e.p))
  {
    var s, k := ListAndCompact(e, book), Key(e.c, e.p);
    StartInv(e, book);
    var l := RunInv(s, e, 0, schedule);
    var r := Run(s, schedule);
    hide Run, CanRun;
    WritesLate(r, e, l);
    if Writes(r, 1, k) {
      assert RecordedAt(r, 0, k) && RecordedAt(r, 1, k);
    }
  }

  lemma WritesLate(s: System, e: Case, j: nat)
    requires Inv(s, e, j)
    ensures Writes(s, 1, Key(e.c, e.p)) ==> e.p < SizeLeft(e)
  {
  }

  /** Thread 1 can take any step but the one for the block's lock. */
  lemma WorkerCan(s: System, e: Case, j: nat)
    requires Inv(s, e, j) && j < WORK
    requires j == 7 ==> InRange(s, Key(e.c, e.p)) && LockAt(s, Key(e.c, e.p)) == UNLOCKED
    ensures CanStep(s, 1)
  {
    hide Safe, BookAt;
  }

  /** The array of locks after act j of the second thread. */
  function ArrayOne(e: Case, ls: seq<RwLock>, j: nat): (r: seq<RwLock>) {
    if j == 2 then Rearranged(ls, e.d.flags)
    else if j == 3 then Fitted(ls, SizeLeft(e), e.heap.locks)
    else ls
  }

  lemma WorkerArray(s: System, e: Case, j: nat)
    requires Inv(s, e, j) && j < 7 && CanStep(s, 1)
    ensures Next(s, 1).locks(e.c) == ArrayOne(e, s.locks(e.c), j) && Next(s, 1).threads[0] == s.threads[0]
  {
    NextParts(s, 1, e.c);
    NextArray(s, 1, e.c);
    hide Next, Safe, CanStep, OnlyLists, Apply, Rearranged, Fitted;
    WorkerUnfinished(e, j);
    if s.threads[1].now != [] {
      WorkerBook(e, j, s.book(e.c));
    }
    if j == 6 {
      DeleterAct(e, 6);
    }
  }

  lemma WorkerOne(s: System, e: Case, j: nat)
    requires Inv(s, e, j) && j < 7
    ensures CanStep(s, 1) && Inv(Next(s, 1), e, j + 1) && Next(s, 1).threads[0] == s.threads[0]
    ensures Next(s, 1).locks(e.c) == ArrayOne(e, s.locks(e.c), j)
  {
    hide Inv, Next, CanStep;
    WorkerCan(s, e, j);
    WorkerStep(s, e, j);
    WorkerArray(s, e, j);
  }

  function Sevens(j: nat): (r: seq<nat>)
    requires j <= 7
  {
    Repeat(7 - j, 1)
  }

  /** The array after the second thread has compacted and come to ask for the block, from act j on. */
  function ArrayLeft(e: Case, ls: seq<RwLock>, j: nat): (r: seq<RwLock>)
    decreases 7 - j
  {
    if j < 7 then ArrayLeft(e, ArrayOne(e, ls, j), j + 1) else ls
  }

  lemma {:induction false} WorkerArrives(s: System, e: Case, j: nat)
    requires Inv(s, e, j) && j <= 7
    ensures CanRun(s, Sevens(j))
    ensures var r := Run(s, Sevens(j));
      Inv(r, e, 7) && r.threads[0] == s.threads[0] && r.locks(e.c) == ArrayLeft(e, s.locks(e.c), j)
    decreases 7 - j
  {
    hide Inv, Next, CanStep, ArrayOne;
    if j < 7 {
      WorkerOne(s, e, j);
      WorkerArrives(Next(s, 1), e, j + 1);
      assert Sevens(j)[0] == 1 && Sevens(j)[1..] == Sevens(j + 1);
    }
  }

  lemma ArrayAtLast(e: Case, ls: seq<RwLock>)
    ensures ArrayLeft(e, ls, 0) == Fitted(Rearranged(ls, e.d.flags), SizeLeft(e), e.heap.locks)
  {
    hide Rearranged, Fitted, SizeLeft;
    var packed := Rearranged(ls, e.d.flags);
    var l := Fitted(packed, SizeLeft(e), e.heap.locks);
    assert ArrayLeft(e, l, 4) == ArrayLeft(e, l, 5) == ArrayLeft(e, l, 6) == ArrayLeft(e, l, 7) == l;
    assert ArrayLeft(e, ls, 0) == ArrayLeft(e, ls, 1) == ArrayLeft(e, ls, 2) == ArrayLeft(e, packed, 3);
  }

  /** The lister stands at block b and the other thread has compacted and holds the mutex. */
  ghost predicate Met(s: System, e: Case, b: nat) {
    && Inv(s, e, 7) && s.threads[0] == AtBlock(e.c, b) && b < |e.d.flags|
    && s.locks(e.c) == Fitted(Rearranged(Repeat(|e.d.flags|, UNLOCKED)[b := RwLock(None, multiset{0})], e.d.flags),
                              SizeLeft(e), e.heap.locks)
  }

  lemma BecameInv(s: System, r: System, e: Case, x: Thread)
    requires Inv(s, e, 0) && Safe(r) && Became(s, r, 0, x) && OnlyLists(x, e.c) && |r.locks(e.c)| == |s.locks(e.c)|
    ensures Inv(r, e, 0)
  {
  }

  lemma Meet(e: Case, book: nat -> Book, b: nat) returns (schedule: seq<nat>)
    requires Sound(e) && book(e.c) == e.d && b < |e.d.flags|
    ensures CanRun(ListAndCompact(e, book), schedule) && Met(Run(ListAndCompact(e, book), schedule), e, b)
  {
    var s := ListAndCompact(e, book);
    StartInv(e, book);
    var there := ListerArrives(s, 0, e.c, b);
    RunSafe(s, there);
    var s1 := Run(s, there);
    BecameInv(s, s1, e, AtBlock(e.c, b));
    assert s.locks(e.c) == Repeat(|e.d.flags|, UNLOCKED);
    hide Inv, Run, CanRun, Rearranged, Fitted, SizeLeft;
    WorkerArrives(s1, e, 0);
    ArrayAtLast(e, s1.locks(e.c));
    RunConcat(s, there, Sevens(0));
    schedule := there + Sevens(0);
  }

  lemma MetLocks(s: System, e: Case, b: nat)
    requires Met(s, e, b) && e.p < |e.d.flags| && e.p < SizeLeft(e)
    ensures LockAt(s, Key(e.c, e.p)) == if Places(e.d.flags)[e.p] == b then RwLock(None, multiset{0}) else UNLOCKED
  {
    PlacesBelow(e.d.flags);
  }

  lemma MetClashes(s: System, e: Case)
    requires Met(s, e, e.p) && e.p < SizeLeft(e) && Displaces(e.d.flags, e.p)
    ensures CanRun(s, [1]) && Clash(Run(s, [1]), Key(e.c, e.p))
  {
    MetLocks(s, e, e.p);
    PlacesExact(e.d.flags, e.p);
    hide Rearranged, Fitted, SizeLeft, Displaces;
    WorkerCan(s, e, 7);
    WorkerStep(s, e, 7);
    NextParts(s, 1, e.c);
    hide Next, CanStep, Safe;
    assert CanRun(Next(s, 1), []);
    Then(s, 1, []);
    assert [1] + [] == [1];
    assert Key(e.c, e.p) in WorkerAt(e, 8).wr;
  }

  /** One thread lists the tags of a cache, another compacts it and deletes block p. They can both come to be at
      the block, the one reading, the other writing it, exactly when compaction displaces the lock of p and
      leaves the cache a block p. */
  lemma ClashExact(e: Case, book: nat -> Book)
    requires Sound(e) && book(e.c) == e.d
    ensures CanClash(ListAndCompact(e, book), Key(e.c, e.p)) <==> e.p < SizeLeft(e) && Displaces(e.d.flags, e.p)
  {
    hide Run, CanRun, Displaces, SizeLeft, Met, Clash;
    var s, k := ListAndCompact(e, book), Key(e.c, e.p);
    if e.p < SizeLeft(e) && Displaces(e.d.flags, e.p) {
      DisplacesBelow(e.d.flags, e.p);
      var there := Meet(e, book, e.p);
      MetClashes(Run(s, there), e);
      RunConcat(s, there, [1]);
      assert CanRun(s, there + [1]) && Clash(Run(s, there + [1]), k);
    } else {
      forall schedule | CanRun(s, schedule)
        ensures !Clash(Run(s, schedule), k)
      {
        NoClash(e, book, schedule);
      }
    }
  }

  lemma DisplacesBelow(flags: seq<byte>, p: nat)
    requires Displaces(flags, p)
    ensures p < |flags|
  {
  }

  // ---- Deadlock ----

  /** Before it asks for the block the lock is one that the lister holds, or nobody. */
  lemma KeyHolder(s: System, e: Case)
    requires Inv(s, e, 7) && KeyBacked(s, e) && WritersAt(s, e, 7)
    requires InRange(s, Key(e.c, e.p)) && LockAt(s, Key(e.c, e.p)) != UNLOCKED
    ensures Reads(s, 0, Key(e.c, e.p))
  {
    hide Safe, BookAt, OnlyLists;
    var u :| u in LockAt(s, Key(e.c, e.p)).readers;
    assert Backs(s, u, Key(e.c, e.p));
  }

  lemma AsksBeyond(s: System, e: Case)
    requires Inv(s, e, 7) && !InRange(s, Key(e.c, e.p))
    ensures Leaves(s, 1)
  {
    hide Safe, BookAt, OnlyLists;
    DeleterAct(e, 7);
  }

  lemma AsksWithin(s: System, e: Case)
    requires Inv(s, e, 7) && InRange(s, Key(e.c, e.p))
    ensures e.p < SizeLeft(e)
  {
    hide Safe, OnlyLists;
  }

  /** A second thread that cannot step waits for a block that the lister reads, or leaves the process. */
  lemma WorkerWaits(s: System, e: Case, j: nat)
    requires Inv(s, e, j) && j < WORK && (Stays(e) ==> KeyBacked(s, e)) && WritersAt(s, e, j)
    requires e.p >= SizeLeft(e) || !Displaces(e.d.flags, e.p)
    ensures CanStep(s, 1) || Leaves(s, 1) || Reads(s, 0, Key(e.c, e.p))
  {
    hide Inv, CanStep, Leaves, InRange, LockAt, KeyBacked, WritersAt, SizeLeft, Displaces;
    var k := Key(e.c, e.p);
    if j == 7 && !InRange(s, k) {
      AsksBeyond(s, e);
    } else if j == 7 && LockAt(s, k) != UNLOCKED {
      AsksWithin(s, e);
      KeyHolder(s, e);
    } else {
      WorkerCan(s, e, j);
    }
  }

  /** A lister waits for nobody but the second thread while that one writes. */
  lemma ListerWaits(s: System, e: Case, j: nat)
    requires Inv(s, e, j) && WritersAt(s, e, j) && Unfinished(s, 0) && !(8 <= j <= 10)
    ensures CanStep(s, 0) || Leaves(s, 0)
  {
    hide Safe, BookAt, WorkerAt;
  }

  lemma ListerLetsGo(s: System, e: Case, j: nat)
    requires Inv(s, e, j) && Reads(s, 0, Key(e.c, e.p))
    ensures CanStep(s, 0)
  {
    hide BookAt, WorkerAt;
    assert Orderly(s.threads[0]) && Bare(s.threads[0]);
  }

  lemma NoDeadlock(e: Case, book: nat -> Book, schedule: seq<nat>)
    requires Sound(e) && book(e.c) == e.d && FreeHeap(e.heap) && CanRun(ListAndCompact(e, book), schedule)
    requires e.p >= SizeLeft(e) || !Displaces(e.d.flags, e.p)
    ensures !Deadlocked(Run(ListAndCompact(e, book), schedule))
  {
    hide Run, CanRun, Displaces, SizeLeft, KeyRecorded, KeyBacked, WritersAt, FreeHeap;
    var s := ListAndCompact(e, book);
    StartInv(e, book);
    var j := RunInv(s, e, 0, schedule);
    var r := Run(s, schedule);
    hide CanStep;
    if Deadlocked(r) {
      NotStuck(r, e, j);
    }
  }

  lemma NotStuck(s: System, e: Case, j: nat)
    requires Inv(s, e, j) && (Stays(e) ==> KeyBacked(s, e)) && WritersAt(s, e, j)
    requires e.p >= SizeLeft(e) || !Displaces(e.d.flags, e.p)
    ensures !Deadlocked(s)
  {
    hide Safe, CanStep, Leaves, Displaces, KeyBacked, WritersAt;
    WorkerUnfinished(e, j);
    if j < WORK {
      WorkerWaits(s, e, j);
      if Reads(s, 0, Key(e.c, e.p)) {
        ListerLetsGo(s, e, j);
      }
    } else if Unfinished(s, 0) {
      ListerWaits(s, e, j);
    }
  }

  /** A lister at block b comes to the end of its loop if nobody writes. */
  lemma ListerEnds(s: System, u: nat, c: nat, b: nat) returns (schedule: seq<nat>)
    requires u < |s.threads| && s.threads[u] == AtBlock(c, b) && |s.book(c).flags| == |s.locks(c)|
    requires forall i :: 0 <= i < |s.locks(c)| ==> s.locks(c)[i].writer.None?
    ensures CanRun(s, schedule) && Became(s, Run(s, schedule), u, Free([]))
  {
    hide Next, CanStep;
    ListerLeaves(s, u, c, b);
    var s1, n := Next(s, u), |s.book(c).flags|;
    var i, rest := b + 1, [];
    if b + 1 < n {
      rest := ListTo(s1, u, c, b + 1, n);
      i := n;
    } else {
      assert s1.threads == s1.threads[u := Lister(c, b + 1)];
    }
    var s2 := Run(s1, rest);
    assert s2.book == s.book && s2.threads == s.threads[u := Lister(c, i)];
    ListerStops(s2, u, c, i);
    assert CanRun(Next(s2, u), []);
    Then(s2, u, []);
    RunConcat(s1, rest, [u] + []);
    Then(s, u, rest + ([u] + []));
    schedule := [u] + (rest + ([u] + []));
  }

  lemma ListerLeaves(s: System, u: nat, c: nat, b: nat)
    requires u < |s.threads| && s.threads[u] == AtBlock(c, b)
    requires forall i :: 0 <= i < |s.locks(c)| ==> s.locks(c)[i].writer.None?
    ensures CanStep(s, u) && Became(s, Next(s, u), u, Lister(c, b + 1))
    ensures |Next(s, u).locks(c)| == |s.locks(c)|
    ensures forall i :: 0 <= i < |s.locks(c)| ==> Next(s, u).locks(c)[i].writer.None?
  {
    assert multiset{Key(c, b)} - multiset{Key(c, b)} == multiset{};
    assert [Release(Key(c, b)), Each(c, ListTags, b + 1)][1..] == [Each(c, ListTags, b + 1)];
  }

  lemma ListerStops(s: System, u: nat, c: nat, i: nat)
    requires u < |s.threads| && s.threads[u] == Lister(c, i) && i >= |s.book(c).flags|
    ensures CanStep(s, u) && Became(s, Next(s, u), u, Free([]))
  {
  }

  /** The lister's hold has gone to the block that is to be deleted. */
  lemma MetOrphan(s: System, e: Case, b: nat)
    requires Met(s, e, b) && e.p < |e.d.flags| && e.p < SizeLeft(e) && b != e.p && Places(e.d.flags)[e.p] == b
    ensures Orphan(s, Key(e.c, e.p), 0)
  {
    hide Met, LockAt, Rearranged, Fitted, SizeLeft, Inv, Displaces, Places;
    MetLocks(s, e, b);
    MetHolds(s, e, b);
    assert multiset{0}[0] == 1;
    assert Misread(RwLock(None, multiset{0}), 0, 0);
  }

  lemma MetHolds(s: System, e: Case, b: nat)
    requires Met(s, e, b) && b != e.p
    ensures |s.threads| == 2 && s.threads[0].wr == {} && s.threads[1].wr == {} && s.threads[0].rd[Key(e.c, e.p)] == 0
  {
    hide Rearranged, Fitted, SizeLeft, Safe, BookAt, OnlyLists;
  }

  lemma MetApart(s: System, e: Case, b: nat)
    requires Met(s, e, b)
    ensures AllApart(x => x == e.c, s)
  {
    hide Rearranged, Fitted, SizeLeft, Safe, BookAt, OnlyLists;
    assert ThreadApart(x => x == e.c, s.threads[0]);
    WorkerApart(e);
  }

  lemma WorkerApart(e: Case)
    ensures ThreadApart(x => x == e.c, WorkerAt(e, 7))
  {
  }

  /** With the lister gone its lock stays, and the other thread waits for it for ever. */
  lemma MetDeadlocks(s: System, e: Case, b: nat) returns (schedule: seq<nat>)
    requires Met(s, e, b) && WritersAt(s, e, 7)
    requires e.p < |e.d.flags| && e.p < SizeLeft(e) && b != e.p && Places(e.d.flags)[e.p] == b
    ensures CanRun(s, schedule) && Deadlocked(Run(s, schedule))
  {
    hide Rearranged, Fitted, SizeLeft, Safe, BookAt, AllApart;
    var k := Key(e.c, e.p);
    MetOrphan(s, e, b);
    MetApart(s, e, b);
    schedule := ListerEnds(s, 0, e.c, b);
    OrphanStarves(x => x == e.c, s, schedule, k, 0);
    var r := Run(s, schedule);
    DeleterAct(e, 7);
    assert r.threads[0] == Free([]) && r.threads[1] == WorkerAt(e, 7);
    WaitsForOrphan(r, e);
  }

  lemma WaitsForOrphan(r: System, e: Case)
    requires |r.threads| == 2 && r.threads[0] == Free([]) && r.threads[1] == WorkerAt(e, 7)
    requires Orphan(r, Key(e.c, e.p), 0)
    ensures Deadlocked(r)
  {
    hide Granted;
    DeleterAct(e, 7);
    OrphanRefuses(r, Key(e.c, e.p), 0, 1);
    OrphanInRange(r, Key(e.c, e.p), 0);
    assert Unfinished(r, 1);
  }

  lemma DeadlocksBeside(e: Case, book: nat -> Book) returns (schedule: seq<nat>)
    requires Sound(e) && book(e.c) == e.d && FreeHeap(e.heap)
    requires e.p < SizeLeft(e) && Displaces(e.d.flags, e.p)
    ensures CanRun(ListAndCompact(e, book), schedule) && Deadlocked(Run(ListAndCompact(e, book), schedule))
  {
    hide Run, CanRun, Displaces, SizeLeft, Deadlocked;
    var s := ListAndCompact(e, book);
    DisplacesBelow(e.d.flags, e.p);
    PlacesBelow(e.d.flags);
    PlacesExact(e.d.flags, e.p);
    var b := Places(e.d.flags)[e.p];
    var there := Meet(e, book, b);
    MetIsInv(Run(s, there), e, b);
    MetWriters(e, book, there);
    hide Met;
    var rest := MetDeadlocks(Run(s, there), e, b);
    RunConcat(s, there, rest);
    schedule := there + rest;
  }

  lemma MetIsInv(s: System, e: Case, b: nat)
    requires Met(s, e, b)
    ensures Inv(s, e, 7)
  {
  }

  /** The two threads can deadlock, when the heap shows unlocked locks only, exactly in the same case: the lister
      then finishes without giving back the lock that compaction has carried to block p. */
  lemma DeadlockExact(e: Case, book: nat -> Book)
    requires Sound(e) && book(e.c) == e.d && FreeHeap(e.heap)
    ensures CanDeadlock(ListAndCompact(e, book)) <==> e.p < SizeLeft(e) && Displaces(e.d.flags, e.p)
  {
    hide Run, CanRun, Displaces, SizeLeft, Deadlocked;
    var s := ListAndCompact(e, book);
    if e.p < SizeLeft(e) && Displaces(e.d.flags, e.p) {
      var schedule := DeadlocksBeside(e, book);
      assert CanRun(s, schedule) && Deadlocked(Run(s, schedule));
    } else {
      forall schedule | CanRun(s, schedule)
        ensures !Deadlocked(Run(s, schedule))
      {
        NoDeadlock(e, book, schedule);
      }
    }
  }

  lemma MetWriters(e: Case, book: nat -> Book, schedule: seq<nat>)
    requires Sound(e) && book(e.c) == e.d && FreeHeap(e.heap) && CanRun(ListAndCompact(e, book), schedule)
    requires Inv(Run(ListAndCompact(e, book), schedule), e, 7)
    ensures WritersAt(Run(ListAndCompact(e, book), schedule), e, 7)
  {
    var s := ListAndCompact(e, book);
    StartInv(e, book);
    var j := RunInv(s, e, 0, schedule);
    OnePosition(e, j);
  }

  lemma OnePosition(e: Case, j: nat)
    requires j <= WORK && WorkerAt(e, j) == WorkerAt(e, 7)
    ensures j == 7
  {
    assert |WorkerAt(e, j).now| == 5 && |WorkerAt(e, j).calls| == 0;
  }
}
