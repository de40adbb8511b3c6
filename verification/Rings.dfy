/** Only merges can wait for one another: threads that are stuck have merges in a ring among their calls. */
module Rings {
  import opened Machine
  import opened LockArrays
  import opened Books
  import opened Locks
  import opened Discipline
  import opened Exclusion
  import opened Waiting

  /** Somebody can go on, or is about to leave the process with an error. */
  ghost predicate Lively(s: System) {
    exists u :: CanStep(s, u) || Leaves(s, u)
  }

  /** Nobody can step, but somebody has acts left. */
  ghost predicate Deadlocked(s: System) {
    (exists t :: Unfinished(s, t)) && !Lively(s)
  }

  /** A call of a thread. */
  datatype Hop = Hop(thread: nat, call: nat)

  predicate IsMerge(lists: seq<seq<Op>>, h: Hop) {
    h.thread < |lists| && h.call < |lists[h.thread]| && lists[h.thread][h.call].Merge?
  }

  function One(lists: seq<seq<Op>>, h: Hop): (c: nat)
    requires IsMerge(lists, h)
  {
    lists[h.thread][h.call].one
  }

  function Two(lists: seq<seq<Op>>, h: Hop): (c: nat)
    requires IsMerge(lists, h)
  {
    lists[h.thread][h.call].two
  }

  /** Merges of different threads into different caches, each of the cache into which the next one merges, and
      the last of that of the first. */
  ghost predicate Ring(lists: seq<seq<Op>>, hops: seq<Hop>) {
    && |hops| >= 2 && (forall i :: 0 <= i < |hops| ==> IsMerge(lists, hops[i]))
    && (forall i :: 0 <= i < |hops| - 1 ==> Two(lists, hops[i]) == One(lists, hops[i + 1]))
    && Two(lists, hops[|hops| - 1]) == One(lists, hops[0])
    && (forall i, j :: 0 <= i < j < |hops| ==>
          hops[i].thread != hops[j].thread && One(lists, hops[i]) != One(lists, hops[j]))
  }

  // ---- Where a thread is in its calls ----

  const MERGE_ACTS: nat := 7

  /** The mutexes held after j acts of a merge. */
  function Mine(one: nat, two: nat, j: nat): (m: multiset<nat>) {
    if j == 0 || j >= MERGE_ACTS then multiset{}
    else if j == 1 then multiset{one}
    else if j == 3 then multiset{one, one, two}
    else if j == 6 then multiset{two}
    else multiset{one, two}
  }

  lemma MergeActs(op: Op)
    requires op.Merge?
    ensures Program(op) == [Lock(op.one), Lock(op.two), Lock(op.one), Unlock(op.one),
                            Join(op.one, op.two, op.tag, op.heap), Unlock(op.one), Unlock(op.two)]
  {
  }

  /** The thread has done j acts of the merge that is call i of its list. */
  predicate MergeAt(list: seq<Op>, x: Thread, i: nat, j: nat) {
    && i < |list| && list[i].Merge? && j <= MERGE_ACTS
    && x.now == Program(list[i])[j..] && x.mine == Mine(list[i].one, list[i].two, j)
  }

  /** The thread locks at most one more mutex, and that first, when it holds none. */
  predicate LocksFirst(x: Thread) {
    && (forall i :: 1 <= i < |x.now| ==> !x.now[i].Lock?)
    && (x.now != [] && x.now[0].Lock? ==> x.mine == multiset{})
  }

  ghost predicate Trail(list: seq<Op>, x: Thread) {
    && (LocksFirst(x) || exists i, j :: MergeAt(list, x, i, j))
    && forall i :: 0 <= i < |x.calls| ==> x.calls[i] in list
  }

  lemma MergeGoesOn(list: seq<Op>, x: Thread, i: nat, j: nat, flags: seq<byte>)
    requires MergeAt(list, x, i, j) && x.now != []
    ensures j < MERGE_ACTS && MergeAt(list, After(x, flags), i, j + 1)
  {
    hide Mine;
    MergeActs(list[i]);
    var q := Program(list[i]);
    assert q[j..][1..] == q[j + 1..];
    MineStep(list[i].one, list[i].two, j);
  }

  lemma MineStep(a: nat, b: nat, j: nat)
    requires j < MERGE_ACTS
    ensures Mine(a, b, j + 1)
      == match j
         case 0 => Mine(a, b, j) + multiset{a}
         case 1 => Mine(a, b, j) + multiset{b}
         case 2 => Mine(a, b, j) + multiset{a}
         case 3 => Mine(a, b, j) - multiset{a}
         case 4 => Mine(a, b, j)
         case 5 => Mine(a, b, j) - multiset{a}
         case _ => Mine(a, b, j) - multiset{b}
  {
  }

  lemma PlainGoesOn(x: Thread, flags: seq<byte>)
    requires LocksFirst(x) && x.now != [] && Allowed(x)
    ensures LocksFirst(After(x, flags))
  {
    hide After, Allowed, RoundActs;
    if x.now[0].Each? {
      RoundIs(x, flags);
      FrontLocksFirst(x, flags);
    } else {
      OutsideLoops(x, flags);
    }
  }

  lemma FrontLocksFirst(x: Thread, flags: seq<byte>)
    requires x.now != [] && x.now[0].Each? && Allowed(x)
    ensures var a := x.now[0]; var p := RoundActs(a.cache, a.visit, a.block, flags);
      && (forall i :: 1 <= i < |p| ==> !p[i].Lock?) && (p != [] && p[0].Lock? ==> x.mine == multiset{})
      && After(x, flags).mine == x.mine
  {
  }

  lemma BeginPlain(op: Op)
    requires Fits(op) && !op.Merge?
    ensures LocksFirst(Free(Program(op)))
  {
  }

  lemma AfterTrail(list: seq<Op>, x: Thread, flags: seq<byte>)
    requires Trail(list, x) && x.now != [] && Allowed(x)
    ensures Trail(list, After(x, flags))
  {
    hide MergeAt, LocksFirst;
    CallsKept(x, flags);
    if i, j :| MergeAt(list, x, i, j) {
      MergeGoesOn(list, x, i, j, flags);
    } else {
      PlainGoesOn(x, flags);
    }
  }

  lemma BeginTrail(list: seq<Op>, x: Thread)
    requires Trail(list, x) && Orderly(x) && x.now == [] && x.calls != []
    ensures Trail(list, Begin(x))
  {
    var op := x.calls[0];
    assert op in list;
    if op.Merge? {
      var i :| 0 <= i < |list| && list[i] == op;
      assert Program(op)[0..] == Program(op);
      assert MergeAt(list, Begin(x), i, 0);
    } else {
      BeginPlain(op);
    }
  }

  ghost predicate AllTrails(lists: seq<seq<Op>>, s: System) {
    |lists| == |s.threads| && forall t :: 0 <= t < |s.threads| ==> Trail(lists[t], s.threads[t])
  }

  lemma NextTrails(lists: seq<seq<Op>>, s: System, t: nat)
    requires Safe(s) && AllTrails(lists, s) && CanStep(s, t)
    ensures AllTrails(lists, Next(s, t))
  {
    hide Trail;
    var x := s.threads[t];
    assert Orderly(x);
    if x.now == [] {
      BeginTrail(lists[t], x);
    } else {
      AfterTrail(lists[t], x, Seen(s.book, x.now[0]));
    }
  }

  // ---- Stuck threads ----

  /** Everything that is kept while threads run. */
  ghost predicate Sane(listed: nat -> bool, known: nat -> Option<nat>, lists: seq<seq<Op>>, s: System) {
    && Safe(s) && AllApart(listed, s) && Recorded(s)
    && AllKnown(known, s) && Sized(known, s) && Backed(known, s) && AllTrails(lists, s)
  }

  lemma NextSane(listed: nat -> bool, known: nat -> Option<nat>, lists: seq<seq<Op>>, s: System, t: nat)
    requires Sane(listed, known, lists, s) && CanStep(s, t)
    ensures Sane(listed, known, lists, Next(s, t))
  {
    hide Safe, AllApart, Recorded, AllKnown, Sized, Backed, AllTrails;
    NextSafe(s, t);
    NextApart(listed, s, t);
    NextRecorded(listed, s, t);
    NextKnown(known, s, t);
    NextSized(known, s, t);
    NextBacked(listed, known, s, t);
    NextTrails(lists, s, t);
  }

  lemma {:induction false} RunSane(listed: nat -> bool, known: nat -> Option<nat>, lists: seq<seq<Op>>, s: System,
                                   schedule: seq<nat>)
    requires Sane(listed, known, lists, s) && CanRun(s, schedule)
    ensures Sane(listed, known, lists, Run(s, schedule))
    decreases |schedule|
  {
    hide Sane;
    if schedule != [] {
      NextSane(listed, known, lists, s, schedule[0]);
      RunSane(listed, known, lists, Next(s, schedule[0]), schedule[1..]);
    }
  }

  /** Some thread holds block k. */
  lemma SomeHolder(known: nat -> Option<nat>, s: System, k: Key) returns (u: nat)
    requires Backed(known, s) && Below(known, k) && LockAt(s, k) != UNLOCKED
    ensures u < |s.threads| && (Writes(s, u, k) || Reads(s, u, k))
    ensures LockAt(s, k).writer.Some? ==> Writes(s, u, k)
  {
    var l := LockAt(s, k);
    if l.writer.Some? {
      u := l.writer.value;
    } else {
      u :| u in l.readers;
    }
    assert Backs(s, u, k);
  }

  /** A thread that waits for a block under the mutex waits for one that can step. */
  lemma BlockWaits(s: System, t: nat, u: nat, k: Key)
    requires Safe(s) && t < |s.threads| && u < |s.threads| && Owns(s, t, k.cache)
    requires !Writes(s, t, k) && !Reads(s, t, k) && (Writes(s, u, k) || Reads(s, u, k))
    ensures CanStep(s, u)
  {
    assert Orderly(s.threads[u]);
    assert !Owns(s, u, k.cache);
    assert Bare(s.threads[u]);
  }

  /** If nobody can go on, a thread that holds a mutex waits for another. */
  lemma OwnerWaits(known: nat -> Option<nat>, s: System, t: nat, c: nat)
    requires Safe(s) && AllKnown(known, s) && Backed(known, s) && !Lively(s) && t < |s.threads| && Owns(s, t, c)
    ensures var x := s.threads[t];
      && x.now != [] && x.now[0].Lock? && !Owns(s, t, x.now[0].cache)
      && exists u :: 0 <= u < |s.threads| && u != t && Owns(s, u, x.now[0].cache)
  {
    var x := s.threads[t];
    assert Orderly(x) && ThreadKnown(known, x);
    assert Allowed(x) && ActKnown(known, x.now[0]);
    assert !CanStep(s, t) && !Leaves(s, t);
    if x.now[0].Wr? || x.now[0].Rd? {
      var u := SomeHolder(known, s, x.now[0].key);
      BlockWaits(s, t, u, x.now[0].key);
      assert false;
    } else {
      var d := x.now[0].cache;
      var u :| 0 <= u < |s.threads| && u != t && Owns(s, u, d);
    }
  }

  /** If nobody can go on, any unfinished thread waits for one that holds a mutex. */
  lemma SomeOwner(known: nat -> Option<nat>, s: System, t: nat) returns (u: nat, c: nat)
    requires Safe(s) && AllKnown(known, s) && Backed(known, s) && !Lively(s) && Unfinished(s, t)
    ensures u < |s.threads| && Owns(s, u, c)
  {
    var x := s.threads[t];
    assert !CanStep(s, t) && !Leaves(s, t);
    assert Orderly(x) && ThreadKnown(known, x);
    assert Allowed(x) && ActKnown(known, x.now[0]);
    if x.now[0].Lock? {
      c := x.now[0].cache;
      u :| 0 <= u < |s.threads| && Owns(s, u, c);
    } else {
      c := x.now[0].key.cache;
      if Owns(s, t, c) {
        u := t;
      } else {
        u := SomeHolder(known, s, x.now[0].key);
        assert Orderly(s.threads[u]);
      }
    }
  }

  // ---- From one that waits to the next ----

  /** The thread has locked the cache it merges into and waits for the other. */
  ghost predicate AtHop(lists: seq<seq<Op>>, s: System, h: Hop) {
    && IsMerge(lists, h) && h.thread < |s.threads|
    && s.threads[h.thread].mine == multiset{One(lists, h)}
    && s.threads[h.thread].now != [] && s.threads[h.thread].now[0] == Lock(Two(lists, h))
  }

  lemma HopOf(known: nat -> Option<nat>, lists: seq<seq<Op>>, s: System, t: nat, c: nat) returns (h: Hop)
    requires Safe(s) && AllKnown(known, s) && Backed(known, s) && AllTrails(lists, s)
    requires !Lively(s) && t < |s.threads| && Owns(s, t, c)
    ensures h.thread == t && AtHop(lists, s, h) && c == One(lists, h)
    ensures exists u :: 0 <= u < |s.threads| && u != t && Owns(s, u, Two(lists, h))
  {
    hide Safe, AllKnown, Backed;
    OwnerWaits(known, s, t, c);
    var x := s.threads[t];
    assert Trail(lists[t], x) && !LocksFirst(x);
    hide MergeAt;
    var i, j :| MergeAt(lists[t], x, i, j);
    h := Hop(t, i);
    SecondLock(lists[t], x, i, j);
  }

  /** Only the second lock of a merge can wait while it holds a mutex. */
  lemma SecondLock(list: seq<Op>, x: Thread, i: nat, j: nat)
    requires MergeAt(list, x, i, j) && x.now != [] && x.now[0].Lock?
    requires x.mine != multiset{} && x.now[0].cache !in x.mine
    ensures i < |list| && list[i].Merge? && x.mine == multiset{list[i].one} && x.now[0] == Lock(list[i].two)
  {
    MergeActs(list[i]);
  }

  /** Each thread of the path holds the cache that the one before waits for. */
  ghost predicate WaitPath(lists: seq<seq<Op>>, s: System, path: seq<Hop>) {
    && path != [] && (forall i :: 0 <= i < |path| ==> AtHop(lists, s, path[i]))
    && (forall i :: 0 <= i < |path| - 1 ==> Two(lists, path[i]) == One(lists, path[i + 1]))
    && forall i, j :: 0 <= i < j < |path| ==> path[i].thread != path[j].thread
  }

  /** Distinct numbers below n are at most n. */
  lemma {:induction false} FewBelow(xs: seq<nat>, n: nat)
    requires (forall i :: 0 <= i < |xs| ==> xs[i] < n) && forall i, j :: 0 <= i < j < |xs| ==> xs[i] != xs[j]
    ensures |xs| <= n
  {
    assert xs != [] ==> xs[0] < n;
    if n > 0 {
      if k :| 0 <= k < |xs| && xs[k] == n - 1 {
        FewBelow(xs[..k] + xs[k + 1..], n - 1);
      } else {
        FewBelow(xs, n - 1);
      }
    }
  }

  lemma PathBounded(lists: seq<seq<Op>>, s: System, path: seq<Hop>)
    requires WaitPath(lists, s, path)
    ensures |path| <= |s.threads|
  {
    hide IsMerge;
    var ts: seq<nat> := seq(|path|, i requires 0 <= i < |path| => path[i].thread);
    forall i | 0 <= i < |ts|
      ensures ts[i] < |s.threads|
    {
      assert AtHop(lists, s, path[i]);
    }
    FewBelow(ts, |s.threads|);
  }

  /** A path whose last thread waits for one of its own closes a ring. */
  lemma CloseRing(lists: seq<seq<Op>>, s: System, path: seq<Hop>, k: nat)
    requires OneOwner(s) && WaitPath(lists, s, path) && k < |path| - 1
    requires One(lists, path[k]) == Two(lists, path[|path| - 1])
    ensures Ring(lists, path[k..])
  {
    var hops := path[k..];
    forall i, j | 0 <= i < j < |hops|
      ensures One(lists, hops[i]) != One(lists, hops[j])
    {
      var g, h := path[k + i], path[k + j];
      assert AtHop(lists, s, g) && AtHop(lists, s, h);
      assert Owns(s, g.thread, One(lists, g)) && Owns(s, h.thread, One(lists, h));
    }
  }

  /** The thread that owns what the last of the path waits for. */
  lemma NextHop(known: nat -> Option<nat>, lists: seq<seq<Op>>, s: System, g: Hop) returns (h: Hop)
    requires Safe(s) && AllKnown(known, s) && Backed(known, s) && AllTrails(lists, s)
    requires !Lively(s) && AtHop(lists, s, g)
    ensures AtHop(lists, s, h) && h.thread != g.thread && One(lists, h) == Two(lists, g)
  {
    assert Owns(s, g.thread, One(lists, g));
    var f := HopOf(known, lists, s, g.thread, One(lists, g));
    assert Two(lists, f) == Two(lists, g);
    var u :| 0 <= u < |s.threads| && u != g.thread && Owns(s, u, Two(lists, f));
    h := HopOf(known, lists, s, u, Two(lists, f));
  }

  /** Following who waits for whom comes back to where it was. */
  lemma {:induction false} FindRing(known: nat -> Option<nat>, lists: seq<seq<Op>>, s: System, path: seq<Hop>)
      returns (hops: seq<Hop>)
    requires Safe(s) && AllKnown(known, s) && Backed(known, s) && AllTrails(lists, s)
    requires !Lively(s) && WaitPath(lists, s, path)
    ensures Ring(lists, hops)
    decreases |s.threads| - |path|
  {
    hide AllKnown, Backed, AllTrails, Lively, AllOrderly;
    var last := path[|path| - 1];
    assert AtHop(lists, s, last);
    var h := NextHop(known, lists, s, last);
    if k :| 0 <= k < |path| && path[k].thread == h.thread {
      assert AtHop(lists, s, path[k]);
      assert path[k].thread != last.thread;
      assert One(lists, path[k]) in s.threads[h.thread].mine && One(lists, h) in s.threads[h.thread].mine;
      CloseRing(lists, s, path, k);
      hops := path[k..];
    } else {
      LongerPath(lists, s, path, h);
      PathBounded(lists, s, path + [h]);
      hops := FindRing(known, lists, s, path + [h]);
    }
  }

  lemma LongerPath(lists: seq<seq<Op>>, s: System, path: seq<Hop>, h: Hop)
    requires WaitPath(lists, s, path) && AtHop(lists, s, h) && One(lists, h) == Two(lists, path[|path| - 1])
    requires forall k :: 0 <= k < |path| ==> path[k].thread != h.thread
    ensures WaitPath(lists, s, path + [h])
  {
  }

  /** Threads of which none can go on have merges in a ring among their calls. */
  lemma DeadlockHasRing(listed: nat -> bool, known: nat -> Option<nat>, lists: seq<seq<Op>>, s: System)
      returns (hops: seq<Hop>)
    requires Sane(listed, known, lists, s) && Deadlocked(s)
    ensures Ring(lists, hops)
  {
    hide Safe, AllKnown, Backed, AllTrails;
    var t: nat :| Unfinished(s, t);
    var u, c := SomeOwner(known, s, t);
    var h := HopOf(known, lists, s, u, c);
    hops := FindRing(known, lists, s, [h]);
  }

  // ---- All calls ----

  ghost predicate CallsKnown(known: nat -> Option<nat>, calls: seq<seq<Op>>, book: nat -> Book) {
    && (forall t, i :: 0 <= t < |calls| && 0 <= i < |calls[t]| ==> OpKnown(known, calls[t][i]))
    && forall c :: known(c).Some? ==> known(c).value <= |book(c).flags|
  }

  lemma StartSane(listed: nat -> bool, known: nat -> Option<nat>, calls: seq<seq<Op>>, book: nat -> Book)
    requires AllFit(calls) && CallsApart(listed, calls) && CallsKnown(known, calls, book)
    ensures Sane(listed, known, calls, Start(calls, book))
  {
    var s := Start(calls, book);
    StartSafe(calls, book);
    forall t | 0 <= t < |s.threads|
      ensures ThreadKnown(known, s.threads[t]) && Trail(calls[t], s.threads[t])
    {
    }
  }

  /** Any number of threads, each running any list of fitting calls on any caches, under any schedule: if no
      cache is both listed and rearranged, and the calls lock only locks known to be unlocked at first, then
      while some thread has acts left some thread can step, or leaves the process with an error, unless there is
      a ring of merges among the calls. */
  lemma CallsProgress(listed: nat -> bool, known: nat -> Option<nat>, calls: seq<seq<Op>>, book: nat -> Book,
                      schedule: seq<nat>)
    requires AllFit(calls) && CallsApart(listed, calls) && CallsKnown(known, calls, book)
    requires CanRun(Start(calls, book), schedule)
    ensures Deadlocked(Run(Start(calls, book), schedule)) ==> exists hops :: Ring(calls, hops)
  {
    StartSane(listed, known, calls, book);
    RunSane(listed, known, calls, Start(calls, book), schedule);
    if Deadlocked(Run(Start(calls, book), schedule)) {
      var hops := DeadlockHasRing(listed, known, calls, Run(Start(calls, book), schedule));
    }
  }

  /** Merges of which each goes from a cache of higher rank into one of lower rank have no ring. */
  lemma {:induction false} RankedNoRing(rank: nat -> nat, calls: seq<seq<Op>>, hops: seq<Hop>)
    requires forall t, i :: 0 <= t < |calls| && 0 <= i < |calls[t]| && calls[t][i].Merge? ==>
      calls[t][i].one == calls[t][i].two || rank(calls[t][i].one) < rank(calls[t][i].two)
    ensures !Ring(calls, hops)
  {
    if Ring(calls, hops) {
      forall i | 0 <= i < |hops|
        ensures IsMerge(calls, hops[i])
        ensures rank(One(calls, hops[i])) < rank(Two(calls, hops[i]))
      {
        var t, j := hops[i].thread, hops[i].call;
        assert IsMerge(calls, hops[i]) && calls[t][j].Merge?;
        var next := if i + 1 < |hops| then hops[i + 1] else hops[0];
        assert Two(calls, hops[i]) == One(calls, next) != One(calls, hops[i]);
      }
      Climbing(rank, calls, hops, |hops| - 1);
    }
  }

  lemma {:induction false} Climbing(rank: nat -> nat, calls: seq<seq<Op>>, hops: seq<Hop>, i: nat)
    requires i < |hops| && forall i :: 0 <= i < |hops| ==> IsMerge(calls, hops[i])
    requires forall i :: 0 <= i < |hops| ==> rank(One(calls, hops[i])) < rank(Two(calls, hops[i]))
    requires forall i :: 0 <= i < |hops| - 1 ==> Two(calls, hops[i]) == One(calls, hops[i + 1])
    ensures rank(One(calls, hops[0])) < rank(Two(calls, hops[i]))
  {
    if i > 0 {
      Climbing(rank, calls, hops, i - 1);
    }
  }
}
