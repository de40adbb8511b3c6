/** The locks of the cache table: one recursive mutex a cache and one read-write lock a block, used by any
    number of threads in any interleaving; and the lock calls that each operation makes. */
module Locks {
  import opened Machine
  import opened Slabs
  import opened LockArrays
  import opened Books

  datatype Key = Key(cache: nat, block: nat)

  /** What a loop over all blocks does at each: the calls that read the number of blocks anew each time. */
  datatype Visit =
    | ClearTag(which: uint32)
    | ChangeFrom(from: uint32, to: uint32)
    | ListTags
    | FindFree(tag: uint32)

  datatype Act =
    | Lock(cache: nat)
    | Unlock(cache: nat)
    | Wr(key: Key)
    | Rd(key: Key)
    | Release(key: Key)
    | Check(key: Key)
    | Do(cache: nat, effect: Effect)
    | Join(one: nat, two: nat, tag: uint32, heap: Heap)
    | Each(cache: nat, visit: Visit, block: nat)

  /** The calls, for a caller that holds no lock; in the last one the caller locks the mutex itself. */
  datatype Op =
    | Delete(cache: nat, block: nat)
    | Restore(cache: nat, block: nat)
    | SetUsed(cache: nat, block: nat, use: bool)
    | ResetUsed(cache: nat)
    | ClearBlocks(cache: nat, which: uint32)
    | ChangeTag(cache: nat, from: uint32, to: uint32)
    | TagStats(cache: nat)
    | Access(cache: nat, block: nat, write: bool)
    | LockBlock(cache: nat, block: nat, write: bool)
    | Load(cache: nat, block: nat, tag: uint32)
    | AddPart(cache: nat, block: nat)
    | LoadAny(cache: nat, tag: uint32)
    | Compact(cache: nat, heap: Heap)
    | Resize(cache: nat, m: uint32, heap: Heap)
    | Merge(one: nat, two: nat, tag: uint32, heap: Heap)
    | ObjectSize(cache: nat)
    | HeldLoad(cache: nat, block: nat, tag: uint32)

  /** Mutex, block lock, assignments, and back. */
  function OnBlock(k: Key, take: Act, body: seq<Act>): (p: seq<Act>) {
    [Lock(k.cache), take] + body + [Release(k), Unlock(k.cache)]
  }

  function UnderMutex(c: nat, body: seq<Act>): (p: seq<Act>) {
    [Lock(c)] + body + [Unlock(c)]
  }

  /** What is left of a load into any block once the search has found block b: it unlocks the mutex twice. */
  function LoadActs(c: nat, b: nat, tag: uint32): (p: seq<Act>) {
    OnBlock(Key(c, b), Wr(Key(c, b)), [Do(c, MarkFound(b, tag))]) + [Unlock(c)]
  }

  /** A caller that holds the mutex loads into a block and then deletes it, saying each time that it holds the
      mutex, and unlocks it. The load unlocks it all the same. */
  function HeldActs(c: nat, b: nat, tag: uint32): (p: seq<Act>) {
    var k := Key(c, b);
    [Wr(k), Do(c, CountLoad(b)), Do(c, MarkLoaded(b, tag)), Release(k), Unlock(c),
     Wr(k), Do(c, ClearUsed(b)), Do(c, CountOff), Release(k), Unlock(c)]
  }

  /** The acts of a call, up to the matching unlock calls.
      - a call checks that its block is there: as it locks the block, or with a check of its own.
      - cache_lock_block compares the kind of lock asked for with RDLOCK, which is 4, the value of
        BLOCK_WRLOCK: asked for the write lock it takes the read lock, and the other way round.
      - a load into any block searches before it locks anything.
      - cache_merge resizes cache 1 under a second lock of its mutex.
      - cache_get_object_size locks the mutex where it means to unlock it. */
  function Program(op: Op): (p: seq<Act>) {
    match op
    case Delete(c, b) => OnBlock(Key(c, b), Wr(Key(c, b)), [Do(c, ClearUsed(b)), Do(c, CountOff)])
    case Restore(c, b) => OnBlock(Key(c, b), Wr(Key(c, b)), [Do(c, RestoreFlag(b)), Do(c, CountOn)])
    case SetUsed(c, b, use) =>
      UnderMutex(c, [Check(Key(c, b))]
                    + if use then [Do(c, Remark(b)), Do(c, CountOn)] else [Do(c, Unmark(b)), Do(c, CountOff)])
    case ResetUsed(c) => UnderMutex(c, [Do(c, Reset)])
    case ClearBlocks(c, which) => UnderMutex(c, [Each(c, ClearTag(which), 0)])
    case ChangeTag(c, from, to) => UnderMutex(c, [Each(c, ChangeFrom(from, to), 0)])
    case TagStats(c) => [Each(c, ListTags, 0)]
    case Access(c, b, write) => OnBlock(Key(c, b), if write then Wr(Key(c, b)) else Rd(Key(c, b)), [])
    case LockBlock(c, b, write) => OnBlock(Key(c, b), if write then Rd(Key(c, b)) else Wr(Key(c, b)), [])
    case Load(c, b, tag) => OnBlock(Key(c, b), Wr(Key(c, b)), [Do(c, CountLoad(b)), Do(c, MarkLoaded(b, tag))])
    case AddPart(c, b) => OnBlock(Key(c, b), Wr(Key(c, b)), [Do(c, CountPart(b))])
    case LoadAny(c, tag) => [Each(c, FindFree(tag), 0)]
    case Compact(c, heap) => UnderMutex(c, [Do(c, Pack), Do(c, Shrink(heap))])
    case Resize(c, m, heap) => UnderMutex(c, [Do(c, ResizeTo(m, heap))])
    case Merge(a, b, tag, heap) => [Lock(a), Lock(b), Lock(a), Unlock(a), Join(a, b, tag, heap), Unlock(a), Unlock(b)]
    case ObjectSize(c) => [Lock(c), Lock(c)]
    case HeldLoad(c, b, tag) => [Lock(c)] + HeldActs(c, b, tag)
  }

  /** A thread: the mutexes it holds (as often as it locked them), the block locks it holds, the acts left of
      the call it is in, and the calls still to come. */
  datatype Thread = Thread(mine: multiset<nat>, wr: set<Key>, rd: multiset<Key>, now: seq<Act>, calls: seq<Op>)

  /** The threads, and of each cache the book and the array of block locks. */
  datatype System = System(threads: seq<Thread>, book: nat -> Book, locks: nat -> seq<RwLock>)

  /** One round of a loop at block i of n, with the round after it. A search that ends without a free block
      goes on to read past the end of the pointer table; the thread does nothing defined after that. */
  function Round(t: Thread, c: nat, visit: Visit, i: nat, flags: seq<byte>): (r: Thread)
    requires t.now != []
  {
    var k, next, rest := Key(c, i), Each(c, visit, i + 1), t.now[1..];
    match visit
    case ClearTag(which) =>
      t.(now := if i < |flags| then [Do(c, ClearTagged(i, which)), Do(c, CountOff), next] + rest else rest)
    case ChangeFrom(from, to) =>
      t.(now := if i < |flags| then [Wr(k), Do(c, Retag(i, from, to)), Release(k), next] + rest else rest)
    case ListTags => t.(now := if i < |flags| then [Rd(k), Release(k), next] + rest else rest)
    case FindFree(tag) =>
      if i >= |flags| then t.(now := [], calls := [])
      else if Used(flags[i]) then t.(now := [next] + rest)
      else t.(now := LoadActs(c, i, tag) + rest)
  }

  /** The acts that a round of a loop puts in front of those that follow the loop. */
  function RoundActs(c: nat, visit: Visit, i: nat, flags: seq<byte>): (p: seq<Act>) {
    var k, next := Key(c, i), Each(c, visit, i + 1);
    if i >= |flags| then []
    else
      match visit
      case ClearTag(which) => [Do(c, ClearTagged(i, which)), Do(c, CountOff), next]
      case ChangeFrom(from, to) => [Wr(k), Do(c, Retag(i, from, to)), Release(k), next]
      case ListTags => [Rd(k), Release(k), next]
      case FindFree(tag) => if Used(flags[i]) then [next] else LoadActs(c, i, tag)
  }

  /** The thread after its next act, given the flags of the cache it looks at. Unlocking a mutex one does not
      hold is refused and changes nothing. */
  function After(t: Thread, flags: seq<byte>): (r: Thread)
    requires t.now != []
  {
    var r := t.(now := t.now[1..]);
    match t.now[0]
    case Lock(c) => r.(mine := t.mine + multiset{c})
    case Unlock(c) => r.(mine := t.mine - multiset{c})
    case Wr(k) => r.(wr := t.wr + {k})
    case Rd(k) => r.(rd := t.rd + multiset{k})
    case Release(k) => if k in t.wr then r.(wr := t.wr - {k}) else r.(rd := t.rd - multiset{k})
    case Check(_) => r
    case Do(_, _) => r
    case Join(_, _, _, _) => r
    case Each(c, visit, i) => Round(t, c, visit, i, flags)
  }

  function Begin(t: Thread): (r: Thread)
    requires t.calls != []
  {
    t.(now := Program(t.calls[0]), calls := t.calls[1..])
  }

  lemma RoundIs(t: Thread, flags: seq<byte>)
    requires t.now != [] && t.now[0].Each?
    ensures var a := t.now[0];
      After(t, flags).now == if a.visit.FindFree? && a.block >= |flags| then []
                             else RoundActs(a.cache, a.visit, a.block, flags) + t.now[1..]
  {
  }

  predicate Owns(s: System, t: nat, c: nat)
    requires t < |s.threads|
  {
    c in s.threads[t].mine
  }

  predicate Writes(s: System, t: nat, k: Key)
    requires t < |s.threads|
  {
    k in s.threads[t].wr
  }

  predicate Reads(s: System, t: nat, k: Key)
    requires t < |s.threads|
  {
    k in s.threads[t].rd
  }

  /** The lock of block k as the array holds it. */
  function LockAt(s: System, k: Key): (l: RwLock) {
    if k.block < |s.locks(k.cache)| then s.locks(k.cache)[k.block] else UNLOCKED
  }

  predicate InRange(s: System, k: Key) {
    k.block < |s.locks(k.cache)|
  }

  /** The next act of thread t need not wait. */
  predicate Granted(s: System, t: nat)
    requires t < |s.threads| && s.threads[t].now != []
  {
    match s.threads[t].now[0]
    case Lock(c) => forall u :: 0 <= u < |s.threads| && u != t ==> !Owns(s, u, c)
    case Wr(k) => InRange(s, k) && LockAt(s, k) == UNLOCKED
    case Rd(k) => InRange(s, k) && LockAt(s, k).writer.None?
    case Check(k) => InRange(s, k)
    case _ => true
  }

  /** Thread t names a block that its cache does not have, which is an error that leaves the process. */
  predicate Leaves(s: System, t: nat) {
    && t < |s.threads| && s.threads[t].now != []
    && (s.threads[t].now[0].Wr? || s.threads[t].now[0].Rd? || s.threads[t].now[0].Check?)
    && !InRange(s, s.threads[t].now[0].key)
  }

  predicate Unfinished(s: System, t: nat) {
    t < |s.threads| && (s.threads[t].now != [] || s.threads[t].calls != [])
  }

  predicate CanStep(s: System, t: nat) {
    Unfinished(s, t) && (s.threads[t].now == [] || Granted(s, t))
  }

  function Put<T>(f: nat -> T, c: nat, y: T): (r: nat -> T)
    ensures forall x :: r(x) == if x == c then y else f(x)
  {
    (x: nat) => if x == c then y else f(x)
  }

  function BookAfter(book: nat -> Book, a: Act): (r: nat -> Book) {
    match a
    case Do(c, e) => Put(book, c, Apply(e, book(c)))
    case Join(c, d, tag, _) => Put(book, c, Joined(book(c), book(d), tag))
    case _ => book
  }

  /** The assignments that rearrange or reallocate the tables of a cache. */
  predicate Reshapes(e: Effect) {
    e.Pack? || e.ResizeTo? || e.Shrink?
  }

  /** What such an assignment does to the array of locks. */
  function ArrayAfter(ls: seq<RwLock>, e: Effect, d: Book): (r: seq<RwLock>)
    requires Reshapes(e)
  {
    match e
    case Pack => if |d.flags| == |d.tag| then Rearranged(ls, d.flags) else ls
    case ResizeTo(_, heap) => Fitted(ls, |Apply(e, d).flags|, heap.locks)
    case Shrink(heap) => Fitted(ls, |Apply(e, d).flags|, heap.locks)
  }

  /** l in place of the lock of block k. */
  function PutLock(locks: nat -> seq<RwLock>, k: Key, l: RwLock): (r: nat -> seq<RwLock>) {
    if k.block < |locks(k.cache)| then Put(locks, k.cache, locks(k.cache)[k.block := l]) else locks
  }

  /** The locks after thread t's next act a. */
  function LocksAfter(s: System, t: nat, a: Act): (r: nat -> seq<RwLock>) {
    match a
    case Wr(k) => PutLock(s.locks, k, LockAt(s, k).(writer := Some(t)))
    case Rd(k) => PutLock(s.locks, k, LockAt(s, k).(readers := LockAt(s, k).readers + multiset{t}))
    case Release(k) => PutLock(s.locks, k, Unlocked(LockAt(s, k), t))
    case Do(c, e) => if Reshapes(e) then Put(s.locks, c, ArrayAfter(s.locks(c), e, s.book(c))) else s.locks
    case Join(c, d, tag, heap) =>
      Put(s.locks, c, Fitted(s.locks(c), |Joined(s.book(c), s.book(d), tag).flags|, heap.locks))
    case _ => s.locks
  }

  /** The flags an act looks at. */
  function Seen(book: nat -> Book, a: Act): (r: seq<byte>) {
    if a.Each? then book(a.cache).flags else []
  }

  function ThreadAfter(s: System, t: nat): (r: Thread)
    requires Unfinished(s, t)
  {
    var x := s.threads[t];
    if x.now == [] then Begin(x) else After(x, Seen(s.book, x.now[0]))
  }

  function Next(s: System, t: nat): (r: System)
    requires CanStep(s, t)
    ensures |r.threads| == |s.threads|
  {
    var x, threads := s.threads[t], s.threads[t := ThreadAfter(s, t)];
    if x.now == [] then System(threads, s.book, s.locks)
    else System(threads, BookAfter(s.book, x.now[0]), LocksAfter(s, t, x.now[0]))
  }

  /** The threads named by schedule can step one after another. */
  predicate CanRun(s: System, schedule: seq<nat>)
    decreases |schedule|
  {
    schedule == [] || (CanStep(s, schedule[0]) && CanRun(Next(s, schedule[0]), schedule[1..]))
  }

  function Run(s: System, schedule: seq<nat>): (r: System)
    requires CanRun(s, schedule)
    ensures |r.threads| == |s.threads|
    decreases |schedule|
  {
    if schedule == [] then s else Run(Next(s, schedule[0]), schedule[1..])
  }

  /** One idle thread for each list of calls, and no block locked. */
  function Start(calls: seq<seq<Op>>, book: nat -> Book): (s: System) {
    System(seq(|calls|, t requires 0 <= t < |calls| => Thread(multiset{}, {}, multiset{}, [], calls[t])), book,
           (c: nat) => Repeat(|book(c).flags|, UNLOCKED))
  }

  /** The array of locks of cache c after a step, and who holds blocks after an assignment. */
  lemma NextArray(s: System, t: nat, c: nat)
    requires CanStep(s, t)
    ensures var p := s.threads[t].now;
      Next(s, t).locks(c) == if p == [] then s.locks(c) else LocksAfter(s, t, p[0])(c)
    ensures var p := s.threads[t].now;
      p != [] && p[0].Do? ==> forall u :: 0 <= u < |s.threads| ==>
        Next(s, t).threads[u].wr == s.threads[u].wr && Next(s, t).threads[u].rd == s.threads[u].rd
  {
  }

  lemma Then(s: System, t: nat, schedule: seq<nat>)
    requires CanStep(s, t) && CanRun(Next(s, t), schedule)
    ensures CanRun(s, [t] + schedule) && Run(s, [t] + schedule) == Run(Next(s, t), schedule)
  {
    var a := [t] + schedule;
    assert a[0] == t && a[1..] == schedule;
  }

  lemma {:induction false} RunConcat(s: System, a: seq<nat>, b: seq<nat>)
    requires CanRun(s, a) && CanRun(Run(s, a), b)
    ensures CanRun(s, a + b) && Run(s, a + b) == Run(Run(s, a), b)
    decreases |a|
  {
    hide CanStep, Next;
    if a == [] {
      assert a + b == b;
    } else {
      RunConcat(Next(s, a[0]), a[1..], b);
      assert (a + b)[0] == a[0] && (a + b)[1..] == a[1..] + b;
    }
  }
}
