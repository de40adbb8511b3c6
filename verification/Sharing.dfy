/** What cache_lock_block's lock is worth to a caller who asked to write: it is the read lock. */
module Sharing {
  import opened Machine
  import opened LockArrays
  import opened Books
  import opened Locks
  import opened Discipline
  import opened Exclusion

  /** Thread t holds block k and no other thread does. */
  ghost predicate Alone(s: System, t: nat, k: Key)
    requires t < |s.threads|
  {
    && (Writes(s, t, k) || Reads(s, t, k))
    && forall u :: 0 <= u < |s.threads| && u != t ==> !Writes(s, u, k) && !Reads(s, u, k)
  }

  /** Thread u is listing tags and at block k, between the two lock calls of that round. */
  predicate Listing(s: System, u: nat, k: Key)
    requires u < |s.threads|
  {
    Bare(s.threads[u]) && s.threads[u].now[0] == Release(k)
  }

  /** A thread that holds block k, by whatever kind of lock, under the mutex of its cache has it alone exactly
      when it holds the write lock or no thread listing tags is at that block: as long as the array of locks
      records who holds what. */
  lemma AloneExact(s: System, t: nat, k: Key)
    requires Safe(s) && Recorded(s)
    requires t < |s.threads| && Owns(s, t, k.cache) && (Writes(s, t, k) || Reads(s, t, k))
    ensures Alone(s, t, k)
      <==> Writes(s, t, k) || forall u :: 0 <= u < |s.threads| && u != t ==> !Listing(s, u, k)
  {
    RecordedOneWriter(s);
    forall u | 0 <= u < |s.threads| && u != t
      ensures !Writes(s, u, k) && (Reads(s, u, k) <==> Listing(s, u, k)) && (Writes(s, t, k) ==> !Reads(s, u, k))
    {
      assert Orderly(s.threads[u]);
      assert !Owns(s, u, k.cache);
      if Listing(s, u, k) {
        assert k in s.threads[u].rd;
      }
    }
  }

  /** And it records that under every schedule of calls that keep listed and rearranged caches apart. */
  lemma AloneInRun(listed: nat -> bool, calls: seq<seq<Op>>, book: nat -> Book, schedule: seq<nat>, t: nat, k: Key)
    requires AllFit(calls) && CallsApart(listed, calls) && CanRun(Start(calls, book), schedule)
    requires var s := Run(Start(calls, book), schedule);
      t < |s.threads| && Owns(s, t, k.cache) && (Writes(s, t, k) || Reads(s, t, k))
    ensures var s := Run(Start(calls, book), schedule);
      Alone(s, t, k) <==> Writes(s, t, k) || forall u :: 0 <= u < |s.threads| && u != t ==> !Listing(s, u, k)
  {
    StartSafe(calls, book);
    RunRecorded(listed, Start(calls, book), schedule);
    AloneExact(Run(Start(calls, book), schedule), t, k);
  }

  // ---- Locking a block while another thread lists tags ----

  /** The call asks for block b, and for nothing else. */
  predicate AsksFor(op: Op, c: nat, b: nat) {
    (op.LockBlock? || op.Access?) && op.cache == c && op.block == b
  }

  /** It takes the read lock: a call of cache_lock_block that asks to write, or an access that asks to read. */
  predicate TakesRead(op: Op)
    requires op.LockBlock? || op.Access?
  {
    if op.LockBlock? then op.write else !op.write
  }

  function LockAndList(c: nat, b: nat, op: Op, c2: nat, book: nat -> Book): (s: System) {
    Start([[op], [TagStats(c2)]], book)
  }

  /** Thread 0 holds the block lock it asked for and thread 1 holds it too. */
  ghost predicate Both(s: System, k: Key) {
    |s.threads| == 2 && (Writes(s, 0, k) || Reads(s, 0, k)) && (Writes(s, 1, k) || Reads(s, 1, k))
  }

  ghost predicate CanShare(s: System, k: Key) {
    exists schedule :: CanRun(s, schedule) && Both(Run(s, schedule), k)
  }

  predicate LockerAct(a: Act, rd: bool) {
    (a.Lock? || a.Unlock? || a.Release? || a.Wr? || a.Rd?) && (rd || !a.Rd?)
  }

  predicate ListerAct(a: Act, c: nat, n: nat) {
    match a
    case Rd(k) => k.cache == c && k.block < n
    case Release(_) => true
    case Each(x, visit, _) => x == c && visit == ListTags
    case _ => false
  }

  /** The locker reads only if it asked to write. */
  predicate Locker(t: Thread, c: nat, b: nat, op: Op)
    requires AsksFor(op, c, b)
  {
    && (t.calls == [] || t.calls == [op])
    && (forall i :: 0 <= i < |t.now| ==> LockerAct(t.now[i], TakesRead(op)))
    && (!TakesRead(op) ==> t.rd == multiset{})
  }

  /** The lister reads only blocks of its cache. */
  predicate ListerThread(t: Thread, c: nat, n: nat) {
    && (t.calls == [] || t.calls == [TagStats(c)])
    && (forall i :: 0 <= i < |t.now| ==> ListerAct(t.now[i], c, n))
    && t.wr == {} && forall k :: k in t.rd ==> k.cache == c && k.block < n
  }

  ghost predicate Apart(s: System, c: nat, b: nat, op: Op, c2: nat, book: nat -> Book) {
    && AsksFor(op, c, b)
    && |s.threads| == 2 && s.book == book
    && Locker(s.threads[0], c, b, op) && ListerThread(s.threads[1], c2, |book(c2).flags|)
  }

  lemma LockerActs(t: Thread, c: nat, b: nat, op: Op)
    requires AsksFor(op, c, b) && Locker(t, c, b, op) && t.now != []
    ensures Locker(After(t, []), c, b, op)
  {
    var r := After(t, []);
    assert LockerAct(t.now[0], TakesRead(op));
    LockerLocks(t);
    hide After;
    assert r.now == t.now[1..] && r.calls == t.calls;
    if !TakesRead(op) {
      assert t.rd - multiset{if t.now[0].Release? then t.now[0].key else Key(c, b)} == multiset{};
    }
  }

  lemma LockerLocks(t: Thread)
    requires t.now != [] && LockerAct(t.now[0], true)
    ensures var r, a := After(t, []), t.now[0];
      && r.now == t.now[1..] && r.calls == t.calls
      && (r.rd == t.rd || (a.Rd? && r.rd == t.rd + multiset{a.key}) || (a.Release? && r.rd == t.rd - multiset{a.key}))
  {
  }

  lemma LockerBegins(t: Thread, c: nat, b: nat, op: Op)
    requires AsksFor(op, c, b) && Locker(t, c, b, op) && t.now == [] && t.calls != []
    ensures Locker(Begin(t), c, b, op)
  {
    var p := Program(op);
    assert forall i :: 0 <= i < |p| ==> LockerAct(p[i], TakesRead(op));
  }

  lemma ListerLoops(t: Thread, c: nat, flags: seq<byte>)
    requires ListerThread(t, c, |flags|) && t.now != [] && t.now[0].Each?
    ensures ListerThread(After(t, flags), c, |flags|)
  {
    var r := After(t, flags);
    assert ListerAct(t.now[0], c, |flags|);
    assert forall i :: 0 <= i < |r.now| ==> ListerAct(r.now[i], c, |flags|);
  }

  lemma ListerActs(t: Thread, c: nat, flags: seq<byte>)
    requires ListerThread(t, c, |flags|) && t.now != [] && !t.now[0].Each?
    ensures ListerThread(After(t, flags), c, |flags|)
  {
    var a, r := t.now[0], After(t, flags);
    assert ListerAct(a, c, |flags|) && r.now == t.now[1..];
    assert r.rd <= t.rd + if a.Rd? then multiset{a.key} else multiset{};
  }

  lemma ListerGoesOn(t: Thread, c: nat, flags: seq<byte>)
    requires ListerThread(t, c, |flags|)
    ensures t.now != [] ==> ListerThread(After(t, flags), c, |flags|)
    ensures t.now == [] && t.calls != [] ==> ListerThread(Begin(t), c, |flags|)
  {
    if t.now == [] {
    } else if t.now[0].Each? {
      ListerLoops(t, c, flags);
    } else {
      ListerActs(t, c, flags);
    }
  }

  lemma NextApart(s: System, t: nat, c: nat, b: nat, op: Op, c2: nat, book: nat -> Book)
    requires Apart(s, c, b, op, c2, book) && CanStep(s, t)
    ensures Apart(Next(s, t), c, b, op, c2, book)
  {
    hide Locker, ListerThread, Program, After;
    if s.threads[0].now != [] {
      LockerActs(s.threads[0], c, b, op);
    } else if s.threads[0].calls != [] {
      LockerBegins(s.threads[0], c, b, op);
    }
    ListerGoesOn(s.threads[1], c2, book(c2).flags);
    NoBookChange(s, t, c, b, op, c2, book);
  }

  lemma NoBookChange(s: System, t: nat, c: nat, b: nat, op: Op, c2: nat, book: nat -> Book)
    requires Apart(s, c, b, op, c2, book) && CanStep(s, t)
    ensures Next(s, t).book == book
    ensures s.threads[t].now != [] ==>
      After(s.threads[t], Seen(book, s.threads[t].now[0]))
        == After(s.threads[t], if t == 0 then [] else book(c2).flags)
  {
    var p := s.threads[t].now;
    if p != [] {
      if t == 0 {
        assert LockerAct(p[0], TakesRead(op));
      } else {
        assert ListerAct(p[0], c2, |book(c2).flags|);
      }
    }
  }

  lemma {:induction false} RunApart(s: System, schedule: seq<nat>, c: nat, b: nat, op: Op, c2: nat,
                                    book: nat -> Book)
    requires Apart(s, c, b, op, c2, book) && CanRun(s, schedule)
    ensures Apart(Run(s, schedule), c, b, op, c2, book)
    decreases |schedule|
  {
    if schedule != [] {
      NextApart(s, schedule[0], c, b, op, c2, book);
      RunApart(Next(s, schedule[0]), schedule[1..], c, b, op, c2, book);
    }
  }

  lemma LockAndListSafe(c: nat, b: nat, op: Op, c2: nat, book: nat -> Book, schedule: seq<nat>)
    requires AsksFor(op, c, b) && CanRun(LockAndList(c, b, op, c2, book), schedule)
    ensures OneWriter(Run(LockAndList(c, b, op, c2, book), schedule))
  {
    var calls := [[op], [TagStats(c2)]];
    assert AllFit(calls) && CallsApart(x => x == c2, calls);
    CallsSafe(x => x == c2, calls, book, schedule);
  }

  /** Without the mix-up of the two kinds of lock, or without that block to list, the block is not shared. */
  lemma NotShared(c: nat, b: nat, op: Op, c2: nat, book: nat -> Book, schedule: seq<nat>)
    requires AsksFor(op, c, b) && CanRun(LockAndList(c, b, op, c2, book), schedule)
    requires !TakesRead(op) || c != c2 || b >= |book(c).flags|
    ensures !Both(Run(LockAndList(c, b, op, c2, book), schedule), Key(c, b))
  {
    var s0, k := LockAndList(c, b, op, c2, book), Key(c, b);
    RunApart(s0, schedule, c, b, op, c2, book);
    LockAndListSafe(c, b, op, c2, book, schedule);
    hide Run, CanRun;
    var s := Run(s0, schedule);
    if !TakesRead(op) && Writes(s, 0, k) {
      assert !Reads(s, 1, k);
    }
  }

  // ---- The schedule in which both hold the block ----

  ghost predicate SameLocks(r: System, s: System) {
    forall c :: r.locks(c) == s.locks(c)
  }

  /** Thread u alone has changed, to x. */
  ghost predicate Became(s: System, r: System, u: nat, x: Thread) {
    r.book == s.book && u < |s.threads| && r.threads == s.threads[u := x]
  }

  function Lister(c: nat, i: nat): (x: Thread) {
    Free([Each(c, ListTags, i)])
  }

  function AtBlock(c: nat, i: nat): (x: Thread) {
    Thread(multiset{}, {}, multiset{Key(c, i)}, [Release(Key(c, i)), Each(c, ListTags, i + 1)], [])
  }

  /** A lister that finds no writer at the next block takes the read lock. */
  lemma ListerReads(s: System, u: nat, c: nat, i: nat)
    requires u < |s.threads| && s.threads[u] == Lister(c, i) && i < |s.book(c).flags| == |s.locks(c)|
    requires s.locks(c)[i].writer.None?
    ensures CanStep(s, u) && CanStep(Next(s, u), u)
    ensures var r := Next(Next(s, u), u);
      && Became(s, r, u, AtBlock(c, i)) && (forall x :: x != c ==> r.locks(x) == s.locks(x))
      && r.locks(c) == s.locks(c)[i := RwLock(None, s.locks(c)[i].readers + multiset{u})]
  {
    var k, next := Key(c, i), Each(c, ListTags, i + 1);
    var s1 := Next(s, u);
    assert [Rd(k), Release(k), next] + [] == [Rd(k), Release(k), next];
    assert s1.threads[u] == Free([Rd(k), Release(k), next]);
    assert s1.threads == s.threads[u := Free([Rd(k), Release(k), next])] && s1.locks == s.locks;
    assert multiset{} + multiset{k} == multiset{k};
    assert Next(s1, u).threads[u] == AtBlock(c, i);
  }

  /** And gives it back. */
  lemma ListerReleases(s: System, u: nat, c: nat, i: nat)
    requires u < |s.threads| && s.threads[u] == AtBlock(c, i) && i < |s.locks(c)| && s.locks(c)[i].writer.None?
    ensures CanStep(s, u)
    ensures var r := Next(s, u);
      && Became(s, r, u, Lister(c, i + 1)) && (forall x :: x != c ==> r.locks(x) == s.locks(x))
      && r.locks(c) == s.locks(c)[i := RwLock(None, s.locks(c)[i].readers - multiset{u})]
  {
    assert multiset{Key(c, i)} - multiset{Key(c, i)} == multiset{};
    assert [Release(Key(c, i)), Each(c, ListTags, i + 1)][1..] == [Each(c, ListTags, i + 1)];
  }

  lemma ListOne(s: System, u: nat, c: nat, i: nat)
    requires u < |s.threads| && s.threads[u] == Lister(c, i) && i < |s.book(c).flags| == |s.locks(c)|
    requires s.locks(c)[i].writer.None?
    ensures CanRun(s, [u, u, u])
    ensures Became(s, Run(s, [u, u, u]), u, Lister(c, i + 1)) && SameLocks(Run(s, [u, u, u]), s)
  {
    hide Next;
    ListerReads(s, u, c, i);
    var r := Next(Next(s, u), u);
    ListerReleases(r, u, c, i);
    assert s.locks(c)[i].readers + multiset{u} - multiset{u} == s.locks(c)[i].readers;
    assert CanRun(Next(r, u), []);
    Then(r, u, []);
    Then(Next(s, u), u, [u] + []);
    Then(s, u, [u] + ([u] + []));
    assert [u] + ([u] + ([u] + [])) == [u, u, u];
    var q := Next(r, u);
    assert q.threads == s.threads[u := Lister(c, i + 1)];
    assert q.locks(c) == s.locks(c);
  }

  /** From round i of its loop a lister that meets no writer gets to round b. */
  lemma {:induction false} ListTo(s: System, u: nat, c: nat, i: nat, b: nat) returns (schedule: seq<nat>)
    requires u < |s.threads| && s.threads[u] == Lister(c, i) && i <= b <= |s.book(c).flags| == |s.locks(c)|
    requires forall j :: i <= j < b ==> s.locks(c)[j].writer.None?
    ensures CanRun(s, schedule)
    ensures Became(s, Run(s, schedule), u, Lister(c, b)) && SameLocks(Run(s, schedule), s)
    decreases b - i
  {
    hide CanStep, Next;
    if i == b {
      schedule := [];
      assert s.threads == s.threads[u := Lister(c, b)];
    } else {
      ListOne(s, u, c, i);
      var r := Run(s, [u, u, u]);
      assert r.threads[u] == Lister(c, i + 1) && r.locks(c) == s.locks(c);
      var rest := ListTo(r, u, c, i + 1, b);
      RunConcat(s, [u, u, u], rest);
      assert r.threads[u := Lister(c, b)] == s.threads[u := Lister(c, b)];
      schedule := [u, u, u] + rest;
    }
  }

  /** A thread that lists tags from the start gets to block b, with the read lock there. */
  lemma ListerArrives(s: System, u: nat, c: nat, b: nat) returns (schedule: seq<nat>)
    requires u < |s.threads| && s.threads[u] == Thread(multiset{}, {}, multiset{}, [], [TagStats(c)])
    requires b < |s.book(c).flags| == |s.locks(c)| && forall j :: 0 <= j <= b ==> s.locks(c)[j] == UNLOCKED
    ensures CanRun(s, schedule)
    ensures var r := Run(s, schedule);
      Became(s, r, u, AtBlock(c, b)) && r.locks(c) == s.locks(c)[b := RwLock(None, multiset{u})]
  {
    var s1 := Next(s, u);
    assert Program(TagStats(c)) == [Each(c, ListTags, 0)] && [TagStats(c)][1..] == [];
    assert s1.threads[u] == Lister(c, 0) && s1.locks == s.locks;
    hide Next;
    var there := ListTo(s1, u, c, 0, b);
    var s2 := Run(s1, there);
    assert s2.locks(c) == s.locks(c) && s2.threads[u] == Lister(c, b);
    ListerReads(s2, u, c, b);
    assert CanRun(Next(Next(s2, u), u), []);
    Then(Next(s2, u), u, []);
    Then(s2, u, [u] + []);
    RunConcat(s1, there, [u] + ([u] + []));
    Then(s, u, there + ([u] + ([u] + [])));
    schedule := [u] + (there + ([u] + ([u] + [])));
    assert multiset{} + multiset{u} == multiset{u};
    assert s1.threads[u := AtBlock(c, b)] == s.threads[u := AtBlock(c, b)];
  }

  lemma ReadActs(op: Op, k: Key)
    requires AsksFor(op, k.cache, k.block) && TakesRead(op)
    ensures Program(op) == [Lock(k.cache), Rd(k), Release(k), Unlock(k.cache)]
  {
  }

  /** Two steps of a thread that is about to lock the mutex and then a block for reading. */
  lemma TakesBoth(s: System, k: Key)
    requires |s.threads| == 2 && s.threads[1] == AtBlock(k.cache, k.block)
    requires s.threads[0] == Free([Lock(k.cache), Rd(k), Release(k), Unlock(k.cache)])
    requires InRange(s, k) && LockAt(s, k).writer.None?
    ensures CanRun(s, [0, 0]) && Both(Run(s, [0, 0]), k)
  {
    var c := k.cache;
    assert multiset{} + multiset{c} == multiset{c};
    var s1 := Next(s, 0);
    assert s1.threads[0] == Holding(c, [Rd(k), Release(k), Unlock(c)]) && s1.threads[1] == s.threads[1];
    assert CanStep(s1, 0);
    var s2 := Next(s1, 0);
    assert Reads(s2, 0, k) && Reads(s2, 1, k);
    assert CanRun(s2, []);
    Then(s1, 0, []);
    Then(s, 0, [0] + []);
    assert [0] + ([0] + []) == [0, 0];
  }

  /** A thread that asks for the read lock of a block comes to hold the mutex, then the block. */
  lemma LockerShares(s: System, k: Key, op: Op)
    requires AsksFor(op, k.cache, k.block) && TakesRead(op)
    requires |s.threads| == 2 && s.threads[1] == AtBlock(k.cache, k.block)
    requires s.threads[0] == Thread(multiset{}, {}, multiset{}, [], [op])
    requires InRange(s, k) && LockAt(s, k).writer.None?
    ensures CanRun(s, [0, 0, 0]) && Both(Run(s, [0, 0, 0]), k)
  {
    hide Program;
    ReadActs(op, k);
    var s1 := Next(s, 0);
    assert s1.threads[0] == Free(Program(op)) && s1.threads[1] == s.threads[1];
    TakesBoth(s1, k);
    Then(s, 0, [0, 0]);
    assert [0] + [0, 0] == [0, 0, 0];
  }

  /** The lister stands at block b with its read lock; then the other thread comes. */
  lemma Shared(c: nat, b: nat, op: Op, book: nat -> Book) returns (schedule: seq<nat>)
    requires AsksFor(op, c, b) && TakesRead(op) && b < |book(c).flags|
    ensures CanRun(LockAndList(c, b, op, c, book), schedule)
    ensures Both(Run(LockAndList(c, b, op, c, book), schedule), Key(c, b))
  {
    var s := LockAndList(c, b, op, c, book);
    var there := ListerArrives(s, 1, c, b);
    LockerShares(Run(s, there), Key(c, b), op);
    RunConcat(s, there, [0, 0, 0]);
    schedule := there + [0, 0, 0];
  }

  lemma SharesExact(c: nat, b: nat, op: Op, c2: nat, book: nat -> Book)
    requires AsksFor(op, c, b)
    ensures CanShare(LockAndList(c, b, op, c2, book), Key(c, b)) <==> TakesRead(op) && c == c2 && b < |book(c).flags|
  {
    var s := LockAndList(c, b, op, c2, book);
    if TakesRead(op) && c == c2 && b < |book(c).flags| {
      var schedule := Shared(c, b, op, book);
      assert CanRun(s, schedule) && Both(Run(s, schedule), Key(c, b));
    } else {
      forall schedule | CanRun(s, schedule)
        ensures !Both(Run(s, schedule), Key(c, b))
      {
        NotShared(c, b, op, c2, book, schedule);
      }
    }
  }

  /** A thread that locks block b with cache_lock_block while another lists the tags of a cache may find the
      block shared exactly when it asked to write, and the block is one of those listed. */
  lemma LockBlockExact(c: nat, b: nat, write: bool, c2: nat, book: nat -> Book)
    ensures CanShare(LockAndList(c, b, LockBlock(c, b, write), c2, book), Key(c, b))
      <==> write && c == c2 && b < |book(c).flags|
  {
    SharesExact(c, b, LockBlock(c, b, write), c2, book);
  }

  /** With cache_access_object it may exactly when it asked to read. */
  lemma AccessExact(c: nat, b: nat, write: bool, c2: nat, book: nat -> Book)
    ensures CanShare(LockAndList(c, b, Access(c, b, write), c2, book), Key(c, b))
      <==> !write && c == c2 && b < |book(c).flags|
  {
    SharesExact(c, b, Access(c, b, write), c2, book);
  }

  // ---- Assignments to a block ----

  lemma WriterAlone(s: System, t: nat, u: nat, k: Key)
    requires OneWriter(s) && t < |s.threads| && u < |s.threads| && t != u && Writes(s, t, k)
    ensures !Writes(s, u, k) && !Reads(s, u, k)
  {
  }

  lemma AssignAlone(s: System, t: nat)
    requires Safe(s) && Recorded(s)
    requires t < |s.threads| && s.threads[t].now != [] && s.threads[t].now[0].Do?
    requires Guarded(s.threads[t].now[0].effect).Some?
    ensures var a := s.threads[t].now[0]; var k := Key(a.cache, Guarded(a.effect).value);
      Writes(s, t, k) && Alone(s, t, k)
  {
    RecordedOneWriter(s);
    hide Recorded;
    var a := s.threads[t].now[0];
    var k := Key(a.cache, Guarded(a.effect).value);
    assert Orderly(s.threads[t]) && Allowed(s.threads[t]) && Writes(s, t, k);
    forall u | 0 <= u < |s.threads| && u != t
      ensures !Writes(s, u, k) && !Reads(s, u, k)
    {
      WriterAlone(s, t, u, k);
    }
  }

  /** In every run in which listed and rearranged caches are kept apart, a thread about to delete, restore, load or
      retag a block under its lock has the block alone. */
  lemma AssignsAlone(listed: nat -> bool, calls: seq<seq<Op>>, book: nat -> Book, schedule: seq<nat>, t: nat)
    requires AllFit(calls) && CallsApart(listed, calls) && CanRun(Start(calls, book), schedule)
    requires var s := Run(Start(calls, book), schedule);
      t < |s.threads| && s.threads[t].now != [] && s.threads[t].now[0].Do? && Guarded(s.threads[t].now[0].effect).Some?
    ensures var s := Run(Start(calls, book), schedule); var a := s.threads[t].now[0];
      var k := Key(a.cache, Guarded(a.effect).value);
      Writes(s, t, k) && Alone(s, t, k)
  {
    hide Run, CanRun, Start, Safe, Recorded, Alone, Writes, AllApart, CallsApart, AllFit;
    StartSafe(calls, book);
    RunRecorded(listed, Start(calls, book), schedule);
    AssignAlone(Run(Start(calls, book), schedule), t);
  }
}
