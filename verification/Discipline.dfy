/** What a thread may do under which locks, and which calls keep to it. */
module Discipline {
  import opened Machine
  import opened Slabs
  import opened Books
  import opened Locks

  /** No block lock of cache c is held. */
  predicate NoneOf(t: Thread, c: nat) {
    (forall k :: k in t.wr ==> k.cache != c) && (forall k :: k in t.rd ==> k.cache != c)
  }

  predicate Idle(t: Thread) {
    t.mine == multiset{} && t.wr == {} && t.rd == multiset{}
  }

  /** Lists the tags of cache c from some block on. */
  predicate Lists(a: Act, c: nat) {
    a.Each? && a.visit.ListTags? && a.cache == c
  }

  /** The block whose write lock a call holds as it makes the assignment; clearing by tag and setting the used flag
      directly are done under the mutex alone. */
  function Guarded(e: Effect): (b: Option<nat>) {
    match e
    case ClearUsed(b) => Some(b)
    case RestoreFlag(b) => Some(b)
    case CountLoad(b) => Some(b)
    case MarkLoaded(b, _) => Some(b)
    case CountPart(b) => Some(b)
    case MarkFound(b, _) => Some(b)
    case Retag(b, _, _) => Some(b)
    case _ => None
  }

  /** An assignment to cache c that a thread may make: without locks on blocks if it rearranges the tables, with
      the write lock of its block if it needs one. */
  predicate MayDo(t: Thread, c: nat, e: Effect) {
    && c in t.mine && (Reshapes(e) ==> NoneOf(t, c))
    && (Guarded(e).Some? ==> Key(c, Guarded(e).value) in t.wr)
  }

  /** Block locks and assignments under the cache's mutex, and with no block of the cache locked where its tables
      are rearranged; or, with nothing held, one read lock that is released at once, as the tag statistics do. */
  predicate Allowed(t: Thread)
    requires t.now != []
  {
    match t.now[0]
    case Lock(_) => true
    case Unlock(c) => t.mine[c] == 1 ==> NoneOf(t, c)
    case Wr(k) => k.cache in t.mine && k !in t.wr && k !in t.rd
    case Rd(k) =>
      if k.cache in t.mine then k !in t.wr && k !in t.rd
      else Idle(t) && |t.now| > 2 && t.now[1] == Release(k) && Lists(t.now[2], k.cache)
    case Release(k) => k in t.wr || k in t.rd
    case Check(k) => k.cache in t.mine
    case Do(c, e) => MayDo(t, c, e)
    case Join(c, d, _, _) => c in t.mine && d in t.mine && NoneOf(t, c)
    case Each(c, ListTags, _) => Idle(t)
    case Each(c, FindFree(_), _) => Idle(t)
    case Each(c, _, _) => c in t.mine && NoneOf(t, c)
  }

  /** After the next act, a loop counting as done. */
  function Skip(t: Thread): (r: Thread)
    requires t.now != []
    ensures r.now == t.now[1..]
  {
    if t.now[0].Each? then t.(now := t.now[1..]) else After(t, [])
  }

  /** The acts left of the call are all allowed and end with nothing held. */
  predicate Disciplined(t: Thread)
    decreases |t.now|
  {
    if t.now == [] then Idle(t)
    else Allowed(t) && Disciplined(Skip(t))
  }

  /** Every call but cache_get_object_size and those of a caller that holds the mutex already. */
  predicate Fits(op: Op) {
    !op.ObjectSize? && !op.HeldLoad?
  }

  // ---- Acts put in front ----

  function Free(p: seq<Act>): (t: Thread) {
    Thread(multiset{}, {}, multiset{}, p, [])
  }

  function Holding(c: nat, p: seq<Act>): (t: Thread) {
    Thread(multiset{c}, {}, multiset{}, p, [])
  }

  /** A thread with the mutex of k's cache and a lock on k. */
  function Locked(k: Key, write: bool, p: seq<Act>): (t: Thread) {
    Thread(multiset{k.cache}, if write then {k} else {}, if write then multiset{} else multiset{k}, p, [])
  }

  lemma Front(t: Thread, a: Act, p: seq<Act>, u: Thread)
    requires t.now == [a] + p && Allowed(t) && u == Skip(t) && Disciplined(u)
    ensures Disciplined(t)
  {
  }

  lemma UnlockThen(c: nat, p: seq<Act>)
    requires Disciplined(Free(p))
    ensures Disciplined(Holding(c, [Unlock(c)] + p))
  {
    hide Disciplined;
    assert multiset{c} - multiset{c} == multiset{};
    Front(Holding(c, [Unlock(c)] + p), Unlock(c), p, Free(p));
  }

  lemma LockThen(c: nat, p: seq<Act>)
    requires Disciplined(Holding(c, p))
    ensures Disciplined(Free([Lock(c)] + p))
  {
    hide Disciplined;
    assert multiset{} + multiset{c} == multiset{c};
    Front(Free([Lock(c)] + p), Lock(c), p, Holding(c, p));
  }

  lemma TakeThen(k: Key, write: bool, p: seq<Act>)
    requires Disciplined(Locked(k, write, p))
    ensures Disciplined(Holding(k.cache, [if write then Wr(k) else Rd(k)] + p))
  {
    hide Disciplined;
    var a := if write then Wr(k) else Rd(k);
    assert {} + {k} == {k} && multiset{} + multiset{k} == multiset{k};
    Front(Holding(k.cache, [a] + p), a, p, Locked(k, write, p));
  }

  lemma ReleaseThen(k: Key, write: bool, p: seq<Act>)
    requires Disciplined(Holding(k.cache, p))
    ensures Disciplined(Locked(k, write, [Release(k)] + p))
  {
    hide Disciplined;
    assert {k} - {k} == {} && multiset{k} - multiset{k} == multiset{};
    Front(Locked(k, write, [Release(k)] + p), Release(k), p, Holding(k.cache, p));
  }

  lemma {:induction false} DoThen(t: Thread, c: nat, body: seq<Act>, p: seq<Act>)
    requires Disciplined(t.(now := p))
    requires forall i :: 0 <= i < |body| ==> body[i].Do? && body[i].cache == c && MayDo(t, c, body[i].effect)
    ensures Disciplined(t.(now := body + p))
  {
    hide Disciplined;
    if body == [] {
      assert body + p == p;
    } else {
      DoThen(t, c, body[1..], p);
      assert body + p == [body[0]] + (body[1..] + p);
      Front(t.(now := [body[0]] + (body[1..] + p)), body[0], body[1..] + p, t.(now := body[1..] + p));
    }
  }

  lemma NothingLeft()
    ensures Disciplined(Free([]))
  {
  }

  /** Assignments to block k, for which its lock must be the write lock. */
  predicate BlockBody(k: Key, write: bool, body: seq<Act>) {
    forall i :: 0 <= i < |body| ==>
      && body[i].Do? && body[i].cache == k.cache && !Reshapes(body[i].effect)
      && (Guarded(body[i].effect).Some? ==> write && Guarded(body[i].effect).value == k.block)
  }

  /** Assignments that need no lock of a block. */
  predicate MutexBody(c: nat, body: seq<Act>) {
    forall i :: 0 <= i < |body| ==> body[i].Do? && body[i].cache == c && Guarded(body[i].effect).None?
  }

  lemma OnBlockThen(k: Key, write: bool, body: seq<Act>, p: seq<Act>)
    requires Disciplined(Free(p))
    requires BlockBody(k, write, body)
    ensures Disciplined(Free(OnBlock(k, if write then Wr(k) else Rd(k), body) + p))
  {
    hide Disciplined;
    var c, take := k.cache, if write then Wr(k) else Rd(k);
    var p1 := [Unlock(c)] + p;
    var p2 := [Release(k)] + p1;
    UnlockThen(c, p);
    ReleaseThen(k, write, p1);
    DoThen(Locked(k, write, p2), c, body, p2);
    TakeThen(k, write, body + p2);
    LockThen(c, [take] + (body + p2));
    assert OnBlock(k, take, body) + p == [Lock(c)] + ([take] + (body + p2));
  }

  lemma UnderMutexThen(c: nat, body: seq<Act>)
    requires Disciplined(Holding(c, body + [Unlock(c)]))
    ensures Disciplined(Free(UnderMutex(c, body)))
  {
    hide Disciplined;
    LockThen(c, body + [Unlock(c)]);
    assert UnderMutex(c, body) == [Lock(c)] + (body + [Unlock(c)]);
  }

  lemma UnderMutexDoes(c: nat, body: seq<Act>)
    requires MutexBody(c, body)
    ensures Disciplined(Free(UnderMutex(c, body)))
  {
    hide Disciplined;
    NothingLeft();
    UnlockThen(c, []);
    assert [Unlock(c)] + [] == [Unlock(c)];
    DoThen(Holding(c, [Unlock(c)]), c, body, [Unlock(c)]);
    UnderMutexThen(c, body);
  }

  lemma CheckedDoes(c: nat, b: nat, body: seq<Act>)
    requires MutexBody(c, body)
    ensures Disciplined(Free(UnderMutex(c, [Check(Key(c, b))] + body)))
  {
    hide Disciplined;
    NothingLeft();
    UnlockThen(c, []);
    assert [Unlock(c)] + [] == [Unlock(c)];
    DoThen(Holding(c, [Unlock(c)]), c, body, [Unlock(c)]);
    var p := body + [Unlock(c)];
    Front(Holding(c, [Check(Key(c, b))] + p), Check(Key(c, b)), p, Holding(c, p));
    assert [Check(Key(c, b))] + body + [Unlock(c)] == [Check(Key(c, b))] + p;
    UnderMutexThen(c, [Check(Key(c, b))] + body);
  }

  lemma UnderMutexLoops(c: nat, visit: Visit)
    requires (visit.ClearTag? || visit.ChangeFrom?)
    ensures Disciplined(Free(UnderMutex(c, [Each(c, visit, 0)])))
  {
    hide Disciplined;
    NothingLeft();
    UnlockThen(c, []);
    assert [Unlock(c)] + [] == [Unlock(c)];
    Front(Holding(c, [Each(c, visit, 0)] + [Unlock(c)]), Each(c, visit, 0), [Unlock(c)],
          Holding(c, [Unlock(c)]));
    UnderMutexThen(c, [Each(c, visit, 0)]);
  }

  function Mutexes(m: multiset<nat>, p: seq<Act>): (t: Thread) {
    Thread(m, {}, multiset{}, p, [])
  }

  lemma RelockThen(m: multiset<nat>, c: nat, p: seq<Act>)
    requires c in m && Disciplined(Mutexes(m, p))
    ensures Disciplined(Mutexes(m, [Lock(c)] + ([Unlock(c)] + p)))
  {
    hide Disciplined;
    var q := [Unlock(c)] + p;
    assert m + multiset{c} - multiset{c} == m;
    Front(Mutexes(m + multiset{c}, q), Unlock(c), p, Mutexes(m, p));
    Front(Mutexes(m, [Lock(c)] + q), Lock(c), q, Mutexes(m + multiset{c}, q));
  }

  lemma JoinThen(a: nat, b: nat, tag: uint32, heap: Heap, p: seq<Act>)
    requires Disciplined(Holding(b, p))
    ensures Disciplined(Mutexes(multiset{a, b}, [Join(a, b, tag, heap)] + ([Unlock(a)] + p)))
  {
    hide Disciplined;
    var q := [Unlock(a)] + p;
    assert multiset{a, b} - multiset{a} == multiset{b};
    Front(Mutexes(multiset{a, b}, q), Unlock(a), p, Holding(b, p));
    Front(Mutexes(multiset{a, b}, [Join(a, b, tag, heap)] + q), Join(a, b, tag, heap), q, Mutexes(multiset{a, b}, q));
  }

  lemma LockBothThen(a: nat, b: nat, p: seq<Act>)
    requires Disciplined(Mutexes(multiset{a, b}, p))
    ensures Disciplined(Free([Lock(a)] + ([Lock(b)] + p)))
  {
    hide Disciplined;
    assert multiset{a} + multiset{b} == multiset{a, b};
    Front(Holding(a, [Lock(b)] + p), Lock(b), p, Mutexes(multiset{a, b}, p));
    LockThen(a, [Lock(b)] + p);
  }

  /** Merging locks cache 1, then cache 2, then cache 1 again to resize it. */
  lemma MergeDisciplined(a: nat, b: nat, tag: uint32, heap: Heap)
    ensures Disciplined(Free(Program(Merge(a, b, tag, heap))))
  {
    hide Disciplined;
    NothingLeft();
    UnlockThen(b, []);
    var p := [Join(a, b, tag, heap)] + ([Unlock(a)] + ([Unlock(b)] + []));
    JoinThen(a, b, tag, heap, [Unlock(b)] + []);
    RelockThen(multiset{a, b}, a, p);
    LockBothThen(a, b, [Lock(a)] + ([Unlock(a)] + p));
    assert Program(Merge(a, b, tag, heap)) == [Lock(a)] + ([Lock(b)] + ([Lock(a)] + ([Unlock(a)] + p)));
  }

  // ---- Calls and loops ----

  lemma BlockCallDisciplined(k: Key, write: bool, body: seq<Act>)
    requires BlockBody(k, write, body)
    ensures Disciplined(Free(OnBlock(k, if write then Wr(k) else Rd(k), body)))
  {
    hide Disciplined;
    NothingLeft();
    OnBlockThen(k, write, body, []);
    var p := OnBlock(k, if write then Wr(k) else Rd(k), body);
    assert p + [] == p;
  }

  lemma LoopCallDisciplined(a: Act)
    requires a.Each? && Allowed(Free([a]))
    ensures Disciplined(Free([a]))
  {
    assert Skip(Free([a])) == Free([]);
  }

  lemma ProgramDisciplined(op: Op)
    requires Fits(op)
    ensures Disciplined(Free(Program(op)))
  {
    hide Disciplined;
    match op
    case Delete(c, b) =>
      BlockCallDisciplined(Key(c, b), true, [Do(c, ClearUsed(b)), Do(c, CountOff)]);
    case Restore(c, b) =>
      BlockCallDisciplined(Key(c, b), true, [Do(c, RestoreFlag(b)), Do(c, CountOn)]);
    case SetUsed(c, b, use) =>
      CheckedDoes(c, b, if use then [Do(c, Remark(b)), Do(c, CountOn)] else [Do(c, Unmark(b)), Do(c, CountOff)]);
    case ResetUsed(c) => UnderMutexDoes(c, [Do(c, Reset)]);
    case ClearBlocks(c, which) => UnderMutexLoops(c, ClearTag(which));
    case ChangeTag(c, from, to) => UnderMutexLoops(c, ChangeFrom(from, to));
    case TagStats(c) => LoopCallDisciplined(Each(c, ListTags, 0));
    case Access(c, b, write) => BlockCallDisciplined(Key(c, b), write, []);
    case LockBlock(c, b, write) => BlockCallDisciplined(Key(c, b), !write, []);
    case Load(c, b, tag) =>
      BlockCallDisciplined(Key(c, b), true, [Do(c, CountLoad(b)), Do(c, MarkLoaded(b, tag))]);
    case AddPart(c, b) => BlockCallDisciplined(Key(c, b), true, [Do(c, CountPart(b))]);
    case LoadAny(c, tag) => LoopCallDisciplined(Each(c, FindFree(tag), 0));
    case Compact(c, heap) => UnderMutexDoes(c, [Do(c, Pack), Do(c, Shrink(heap))]);
    case Resize(c, m, heap) => UnderMutexDoes(c, [Do(c, ResizeTo(m, heap))]);
    case Merge(a, b, tag, heap) => MergeDisciplined(a, b, tag, heap);
    case ObjectSize(_) =>
    case HeldLoad(_, _, _) =>
  }

  /** No other call keeps to it: cache_get_object_size ends with the mutex locked twice, and a caller whose
      mutex was unlocked by a load goes on without it. */
  lemma FitsExact(op: Op)
    ensures Disciplined(Free(Program(op))) <==> Fits(op)
  {
    if Fits(op) {
      ProgramDisciplined(op);
    } else if op.ObjectSize? {
      ObjectSizeUndisciplined(op.cache);
    } else {
      HeldLoadUndisciplined(op.cache, op.block, op.tag);
    }
  }

  lemma Spoilt(t: Thread, u: Thread)
    requires t.now != [] && u == Skip(t) && !Disciplined(u)
    ensures !Disciplined(t)
  {
  }

  lemma ObjectSizeUndisciplined(c: nat)
    ensures !Disciplined(Free([Lock(c), Lock(c)]))
  {
    var t2 := Mutexes(multiset{c, c}, []);
    assert c in t2.mine;
    assert multiset{} + multiset{c} == multiset{c} && multiset{c} + multiset{c} == multiset{c, c};
    Spoilt(Holding(c, [Lock(c)]), t2);
    Spoilt(Free([Lock(c), Lock(c)]), Holding(c, [Lock(c)]));
  }

  lemma HeldLoadUndisciplined(c: nat, b: nat, tag: uint32)
    ensures !Disciplined(Free([Lock(c)] + HeldActs(c, b, tag)))
  {
    var k, p := Key(c, b), HeldActs(c, b, tag);
    assert multiset{} + multiset{c} == multiset{c} && multiset{c} - multiset{c} == multiset{};
    assert {} + {k} == {k} && {k} - {k} == {};
    assert !Allowed(Free(p[5..])) && !Disciplined(Free(p[5..]));
    HeldTail(c, b, tag);
    Spoilt(Free([Lock(c)] + p), Holding(c, p));
  }

  lemma HeldTail(c: nat, b: nat, tag: uint32)
    requires !Disciplined(Free(HeldActs(c, b, tag)[5..]))
    ensures !Disciplined(Holding(c, HeldActs(c, b, tag)))
  {
    hide Disciplined;
    var k, p := Key(c, b), HeldActs(c, b, tag);
    assert multiset{c} - multiset{c} == multiset{};
    assert {} + {k} == {k} && {k} - {k} == {};
    assert p[4..][1..] == p[5..] && p[3..][1..] == p[4..] && p[2..][1..] == p[3..] && p[1..][1..] == p[2..];
    Spoilt(Holding(c, p[4..]), Free(p[5..]));
    Spoilt(Locked(k, true, p[3..]), Holding(c, p[4..]));
    Spoilt(Locked(k, true, p[2..]), Locked(k, true, p[3..]));
    Spoilt(Locked(k, true, p[1..]), Locked(k, true, p[2..]));
    Spoilt(Holding(c, p), Locked(k, true, p[1..]));
  }

  lemma SameAllowed(t: Thread, calls: seq<Op>)
    requires t.now != [] && Allowed(t)
    ensures Allowed(t.(calls := calls))
  {
  }

  lemma SameSkip(t: Thread, calls: seq<Op>)
    requires t.now != []
    ensures Skip(t.(calls := calls)) == Skip(t).(calls := calls)
  {
  }

  /** The calls to come do not matter. */
  lemma {:induction false} OnlyNow(t: Thread, calls: seq<Op>)
    requires Disciplined(t)
    ensures Disciplined(t.(calls := calls))
    decreases |t.now|
  {
    hide Allowed, Skip;
    if t.now != [] {
      assert Allowed(t) && Disciplined(Skip(t));
      SameAllowed(t, calls);
      SameSkip(t, calls);
      OnlyNow(Skip(t), calls);
    }
  }

  predicate Loops(t: Thread) {
    t.now != [] && t.now[0].Each?
  }

  /** Another round may stand in front of what follows a loop. */
  lemma LoopAgain(t: Thread, next: Act, rest: seq<Act>)
    requires Loops(t) && Disciplined(t) && rest == t.now[1..]
    requires next == Each(t.now[0].cache, t.now[0].visit, t.now[0].block + 1)
    ensures Allowed(t) && Disciplined(t.(now := rest))
    ensures Disciplined(t.(now := [next] + rest))
  {
    Front(t.(now := [next] + rest), next, rest, t.(now := rest));
  }

  lemma ClearRound(t: Thread, flags: seq<byte>)
    requires Loops(t) && t.now[0].visit.ClearTag? && Disciplined(t)
    ensures Disciplined(After(t, flags))
  {
    hide Disciplined;
    var a, rest := t.now[0], t.now[1..];
    var c, next := a.cache, Each(a.cache, a.visit, a.block + 1);
    LoopAgain(t, next, rest);
    var body := [Do(c, ClearTagged(a.block, a.visit.which)), Do(c, CountOff)];
    DoThen(t, c, body, [next] + rest);
    assert body + ([next] + rest) == [body[0], body[1], next] + rest;
  }

  lemma ChangeRound(t: Thread, flags: seq<byte>)
    requires Loops(t) && t.now[0].visit.ChangeFrom? && Disciplined(t)
    ensures Disciplined(After(t, flags))
  {
    hide Disciplined;
    var a, rest := t.now[0], t.now[1..];
    var c, k, next := a.cache, Key(a.cache, a.block), Each(a.cache, a.visit, a.block + 1);
    var p := [next] + rest;
    LoopAgain(t, next, rest);
    if a.block < |flags| {
      LockedDoThen(t, k, Retag(a.block, a.visit.from, a.visit.to), p);
      assert [Wr(k)] + ([Do(c, Retag(a.block, a.visit.from, a.visit.to))] + ([Release(k)] + p))
          == [Wr(k), Do(c, Retag(a.block, a.visit.from, a.visit.to)), Release(k), next] + rest;
    }
  }

  lemma LockedDoThen(t: Thread, k: Key, e: Effect, p: seq<Act>)
    requires k.cache in t.mine && k !in t.wr && k !in t.rd && Disciplined(t.(now := p)) && !Reshapes(e)
    requires Guarded(e).Some? ==> Guarded(e).value == k.block
    ensures Disciplined(t.(now := [Wr(k)] + ([Do(k.cache, e)] + ([Release(k)] + p))))
  {
    hide Disciplined;
    var u := t.(wr := t.wr + {k});
    var q := [Release(k)] + p;
    assert t.wr + {k} - {k} == t.wr;
    Front(u.(now := q), Release(k), p, t.(now := p));
    var r := [Do(k.cache, e)] + q;
    Front(u.(now := r), Do(k.cache, e), q, u.(now := q));
    Front(t.(now := [Wr(k)] + r), Wr(k), r, u.(now := r));
  }

  lemma ListRound(t: Thread, flags: seq<byte>)
    requires Loops(t) && t.now[0].visit.ListTags? && Disciplined(t)
    ensures Disciplined(After(t, flags))
  {
    hide Disciplined;
    var a, rest := t.now[0], t.now[1..];
    var k, next := Key(a.cache, a.block), Each(a.cache, a.visit, a.block + 1);
    var p := [next] + rest;
    LoopAgain(t, next, rest);
    if a.block < |flags| {
      BareThen(t, k, p);
      assert [Rd(k)] + ([Release(k)] + p) == [Rd(k), Release(k), next] + rest;
    }
  }

  lemma BareThen(t: Thread, k: Key, p: seq<Act>)
    requires Idle(t) && p != [] && Lists(p[0], k.cache) && Disciplined(t.(now := p))
    ensures Disciplined(t.(now := [Rd(k)] + ([Release(k)] + p)))
  {
    hide Disciplined;
    var u := t.(rd := multiset{k});
    var q := [Release(k)] + p;
    assert multiset{} + multiset{k} == multiset{k} && multiset{k} - multiset{k} == multiset{};
    Front(u.(now := q), Release(k), p, t.(now := p));
    Front(t.(now := [Rd(k)] + q), Rd(k), q, u.(now := q));
  }

  lemma FindRound(t: Thread, flags: seq<byte>)
    requires Loops(t) && t.now[0].visit.FindFree? && Disciplined(t)
    ensures Disciplined(After(t, flags))
  {
    hide Disciplined;
    var a, rest := t.now[0], t.now[1..];
    LoopAgain(t, Each(a.cache, a.visit, a.block + 1), rest);
    if a.block >= |flags| {
      NothingLeft();
    } else if !Used(flags[a.block]) {
      OnlyNow(t.(now := rest), []);
      LoadThen(a.cache, a.block, a.visit.tag, rest);
      OnlyNow(Free(LoadActs(a.cache, a.block, a.visit.tag) + rest), t.calls);
    }
  }

  lemma LoadThen(c: nat, b: nat, tag: uint32, rest: seq<Act>)
    requires Disciplined(Free(rest))
    ensures Disciplined(Free(LoadActs(c, b, tag) + rest))
  {
    hide Disciplined;
    Front(Free([Unlock(c)] + rest), Unlock(c), rest, Free(rest));
    OnBlockThen(Key(c, b), true, [Do(c, MarkFound(b, tag))], [Unlock(c)] + rest);
    var p := OnBlock(Key(c, b), Wr(Key(c, b)), [Do(c, MarkFound(b, tag))]);
    assert LoadActs(c, b, tag) + rest == p + ([Unlock(c)] + rest);
  }

  lemma OutsideLoops(t: Thread, flags: seq<byte>)
    requires t.now != [] && !t.now[0].Each?
    ensures After(t, flags) == Skip(t)
  {
  }

  lemma AfterDisciplined(t: Thread, flags: seq<byte>)
    requires t.now != [] && Disciplined(t)
    ensures Disciplined(After(t, flags))
  {
    hide After, Allowed, Round;
    if !t.now[0].Each? {
      OutsideLoops(t, flags);
    } else {
      match t.now[0].visit
      case ClearTag(_) => ClearRound(t, flags);
      case ChangeFrom(_, _) => ChangeRound(t, flags);
      case ListTags => ListRound(t, flags);
      case FindFree(_) => FindRound(t, flags);
    }
  }
}
