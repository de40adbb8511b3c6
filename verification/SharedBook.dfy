/** The used counter under concurrency: its exact difference from the number of used flags, under any
    schedule. */
module SharedBook {
  import opened Machine
  import opened Slabs
  import opened Counting
  import opened Shrinking
  import opened Books
  import opened Locks
  import opened Exclusion

  /** Act b settles what act a may leave due. */
  predicate Settling(a: Act, b: Act) {
    a.Do? && Opens(a.effect) ==> b.Do? && b.cache == a.cache && SettledBy(a.effect, b.effect)
  }

  /** Every assignment that leaves something due is followed by the one that settles it. */
  predicate Sequenced(p: seq<Act>) {
    forall i :: 0 <= i < |p| && p[i].Do? && Opens(p[i].effect) ==> i + 1 < |p| && Settling(p[i], p[i + 1])
  }

  /** The next act is an assignment to cache c that settles what is due. */
  predicate Pays(p: seq<Act>, c: nat, due: Due) {
    p != [] && p[0].Do? && p[0].cache == c && Settles(p[0].effect, due)
  }

  /** The law holds, and if something is due the next act of some thread settles it. */
  ghost predicate Kept(s: System, c: nat) {
    && Law(s.book(c))
    && (s.book(c).due != Settled ==> exists u :: 0 <= u < |s.threads| && Pays(s.threads[u].now, c, s.book(c).due))
  }

  ghost predicate AllKept(s: System) {
    && (forall c :: Kept(s, c))
    && (forall t :: 0 <= t < |s.threads| ==> Sequenced(s.threads[t].now))
  }

  predicate OneBlock(op: Op) {
    op.Delete? || op.Restore? || op.Access? || op.LockBlock? || op.Load? || op.AddPart?
  }

  lemma BlockSequenced(op: Op)
    requires OneBlock(op)
    ensures Sequenced(Program(op))
  {
  }

  lemma CacheSequenced(op: Op)
    requires !OneBlock(op)
    ensures Sequenced(Program(op))
  {
  }

  lemma ProgramSequenced(op: Op)
    ensures Sequenced(Program(op))
  {
    hide Sequenced, Program;
    if OneBlock(op) {
      BlockSequenced(op);
    } else {
      CacheSequenced(op);
    }
  }

  lemma SequencedConcat(p: seq<Act>, q: seq<Act>)
    requires Sequenced(p) && Sequenced(q)
    ensures Sequenced(p + q)
  {
    var r := p + q;
    forall i | 0 <= i < |r| && r[i].Do? && Opens(r[i].effect)
      ensures i + 1 < |r| && Settling(r[i], r[i + 1])
    {
      if i < |p| {
        assert p[i] == r[i] && p[i + 1] == r[i + 1];
      } else {
        assert q[i - |p|] == r[i] && q[i - |p| + 1] == r[i + 1];
      }
    }
  }

  lemma SequencedTail(p: seq<Act>)
    requires p != [] && Sequenced(p)
    ensures Sequenced(p[1..])
  {
    var q := p[1..];
    assert forall i :: 0 <= i < |q| ==> q[i] == p[i + 1];
  }

  lemma AfterSequenced(t: Thread, flags: seq<byte>)
    requires t.now != [] && Sequenced(t.now)
    ensures Sequenced(After(t, flags).now)
  {
    hide Sequenced;
    var a, rest := t.now[0], t.now[1..];
    SequencedTail(t.now);
    if a.Each? {
      LoopSequenced(a.cache, a.visit, a.block);
      SequencedConcat(LoopBody(a.cache, a.visit, a.block), rest);
      NothingSequenced();
    }
  }

  /** The acts a round of a loop puts in front when it goes on. */
  function LoopBody(c: nat, visit: Visit, i: nat): (p: seq<Act>) {
    var k, next := Key(c, i), Each(c, visit, i + 1);
    match visit
    case ClearTag(which) => [Do(c, ClearTagged(i, which)), Do(c, CountOff), next]
    case ChangeFrom(from, to) => [Wr(k), Do(c, Retag(i, from, to)), Release(k), next]
    case ListTags => [Rd(k), Release(k), next]
    case FindFree(tag) => LoadActs(c, i, tag)
  }

  lemma LoopSequenced(c: nat, visit: Visit, i: nat)
    ensures Sequenced(LoopBody(c, visit, i))
  {
  }

  lemma NothingSequenced()
    ensures Sequenced([]) && forall a: Act, q :: a.Each? && Sequenced(q) ==> Sequenced([a] + q)
  {
    forall a: Act, q | a.Each? && Sequenced(q)
      ensures Sequenced([a] + q)
    {
      SequencedConcat([a], q);
    }
  }

  /** An assignment to c is made by the thread that owns c, so whatever is due is what it settles. */
  lemma DueIsOwn(s: System, t: nat, c: nat)
    requires Safe(s) && Kept(s, c) && t < |s.threads| && Owns(s, t, c)
    ensures s.book(c).due != Settled ==> Pays(s.threads[t].now, c, s.book(c).due)
  {
    if u :| s.book(c).due != Settled && 0 <= u < |s.threads| && Pays(s.threads[u].now, c, s.book(c).due) {
      PayerOwns(s, u, c);
    }
  }

  lemma DoKept(s: System, t: nat, c: nat)
    requires Safe(s) && AllKept(s) && CanStep(s, t)
    requires s.threads[t].now != [] && s.threads[t].now[0].Do? && s.threads[t].now[0].cache == c
    ensures Kept(Next(s, t), c)
  {
    var p, d, r := s.threads[t].now, s.book(c), Next(s, t);
    var e := p[0].effect;
    assert Orderly(s.threads[t]) && Kept(s, c) && Sequenced(p);
    DueIsOwn(s, t, c);
    ApplyLaw(e, d);
    assert r.book(c) == Apply(e, d);
    assert r.threads[t].now == p[1..];
    ApplyDue(e, if Opens(e) then p[1].effect else e, d);
    if Apply(e, d).due != Settled {
      assert Pays(r.threads[t].now, c, r.book(c).due);
    }
  }

  lemma JoinKept(s: System, t: nat, c: nat)
    requires Safe(s) && AllKept(s) && CanStep(s, t)
    requires s.threads[t].now != [] && s.threads[t].now[0].Join? && s.threads[t].now[0].one == c
    ensures Kept(Next(s, t), c)
  {
    var a := s.threads[t].now[0];
    assert Orderly(s.threads[t]) && Kept(s, c) && Kept(s, a.two);
    DueIsOwn(s, t, c);
    DueIsOwn(s, t, a.two);
    JoinedLaw(s.book(c), s.book(a.two), a.tag);
  }

  lemma OtherKept(s: System, t: nat, c: nat)
    requires Kept(s, c) && CanStep(s, t) && Next(s, t).book(c) == s.book(c)
    requires s.threads[t].now != [] ==> !(s.threads[t].now[0].Do? && s.threads[t].now[0].cache == c)
    ensures Kept(Next(s, t), c)
  {
    if s.book(c).due != Settled {
      var u :| 0 <= u < |s.threads| && Pays(s.threads[u].now, c, s.book(c).due);
      assert Pays(Next(s, t).threads[u].now, c, s.book(c).due);
    }
  }

  lemma NextKept(s: System, t: nat)
    requires Safe(s) && AllKept(s) && CanStep(s, t)
    ensures AllKept(Next(s, t))
  {
    hide Safe;
    var p, r := s.threads[t].now, Next(s, t);
    forall c: nat
      ensures Kept(r, c)
    {
      assert Kept(s, c);
      if p != [] && p[0].Do? && p[0].cache == c {
        DoKept(s, t, c);
      } else if p != [] && p[0].Join? && p[0].one == c {
        JoinKept(s, t, c);
      } else {
        OtherKept(s, t, c);
      }
    }
    forall u | 0 <= u < |r.threads|
      ensures Sequenced(r.threads[u].now)
    {
      if u == t && p == [] {
        ProgramSequenced(s.threads[t].calls[0]);
      } else if u == t {
        AfterSequenced(s.threads[t], Seen(s.book, p[0]));
      }
    }
  }

  lemma {:induction false} RunKept(s: System, schedule: seq<nat>)
    requires Safe(s) && AllKept(s) && CanRun(s, schedule)
    ensures AllKept(Run(s, schedule))
    decreases |schedule|
  {
    hide Safe, AllKept;
    if schedule != [] {
      NextKept(s, schedule[0]);
      NextSafe(s, schedule[0]);
      RunKept(Next(s, schedule[0]), schedule[1..]);
    }
  }

  predicate IsFree(s: System, c: nat) {
    forall u :: 0 <= u < |s.threads| ==> !Owns(s, u, c)
  }

  /** A cache as its library calls leave it: counter and flags agree, nothing has gone wrong yet. */
  ghost predicate Right(d: Book) {
    |d.flags| == |d.tag| < U32 && d.due == Settled && d.ledger == BLANK && d.used == Slabs.Count(d.flags)
  }

  lemma StartKept(calls: seq<seq<Op>>, book: nat -> Book)
    requires forall x :: Right(book(x))
    ensures AllKept(Start(calls, book))
  {
    forall x: nat
      ensures Kept(Start(calls, book), x)
    {
      assert Right(book(x));
    }
  }

  /** Any number of threads running any calls, under any schedule: whenever the mutex of a cache is free, its
      counter is the number of used flags plus what the ledger says, and so right exactly when the ledger's
      entries cancel out. */
  lemma CounterExact(calls: seq<seq<Op>>, book: nat -> Book, schedule: seq<nat>, c: nat)
    requires AllFit(calls) && CanRun(Start(calls, book), schedule) && forall x :: Right(book(x))
    ensures var s := Run(Start(calls, book), schedule); var d := s.book(c);
      && Law(d)
      && (IsFree(s, c) ==> d.due == Settled && d.used == Slabs.Count(d.flags) + Drift(d.ledger))
      && (IsFree(s, c) ==> (d.used == Slabs.Count(d.flags) <==> Drift(d.ledger) == 0))
  {
    var s0 := Start(calls, book);
    StartSafe(calls, book);
    StartKept(calls, book);
    RunKept(s0, schedule);
    RunSafe(s0, schedule);
    FreeSettled(Run(s0, schedule), c);
  }

  lemma FreeSettled(s: System, c: nat)
    requires Safe(s) && AllKept(s)
    ensures Law(s.book(c)) && (IsFree(s, c) ==> s.book(c).due == Settled)
  {
    hide Safe;
    assert Kept(s, c);
    if s.book(c).due != Settled {
      var u :| 0 <= u < |s.threads| && Pays(s.threads[u].now, c, s.book(c).due);
      PayerOwns(s, u, c);
      assert !IsFree(s, c);
    }
  }

  /** Assignments to a cache are made under its mutex. */
  lemma PayerOwns(s: System, u: nat, c: nat)
    requires Safe(s) && u < |s.threads| && Pays(s.threads[u].now, c, s.book(c).due)
    ensures Owns(s, u, c)
  {
    assert Orderly(s.threads[u]);
  }

  // ---- Runs in which the counter stays right ----

  /** Calls that can only go wrong by loading into a block in use. */
  predicate Tidy(op: Op) {
    op.Delete? || op.ClearBlocks? || op.ChangeTag? || op.TagStats? || op.Access? || op.LockBlock? || op.Load?
    || op.Compact? || op.Merge?
  }

  predicate TidyEffect(e: Effect) {
    e.ClearUsed? || e.ClearTagged? || e.CountOff? || e.CountLoad? || e.MarkLoaded? || e.Retag? || e.Pack? || e.Shrink?
  }

  predicate TidyAct(a: Act) {
    match a
    case Do(_, e) => TidyEffect(e)
    case Each(_, visit, _) => !visit.FindFree?
    case _ => true
  }

  ghost predicate TidyThread(t: Thread) {
    (forall i :: 0 <= i < |t.now| ==> TidyAct(t.now[i])) && forall i :: 0 <= i < |t.calls| ==> Tidy(t.calls[i])
  }

  /** If the next act of thread t is a load raising the counter, its block is free. */
  ghost predicate FindsFree(s: System, t: nat)
    requires t < |s.threads|
  {
    var p := s.threads[t].now;
    p != [] && p[0].Do? && p[0].effect.CountLoad? ==> Vacant(s.book(p[0].cache), p[0].effect.block)
  }

  /** Every load of the run, when it raises the counter, finds its block free. */
  ghost predicate LoadsFindFree(s: System, schedule: seq<nat>)
    requires CanRun(s, schedule)
    decreases |schedule|
  {
    schedule == [] || (FindsFree(s, schedule[0]) && LoadsFindFree(Next(s, schedule[0]), schedule[1..]))
  }

  predicate Vacant(d: Book, b: nat) {
    b < |d.flags| ==> !Used(d.flags[b])
  }

  predicate DueTidy(due: Due) {
    !due.OffFree? && !due.On? && !due.OnUsed?
  }

  ghost predicate Blank(d: Book) {
    d.ledger == BLANK && DueTidy(d.due) && (d.due.Mark? ==> Vacant(d, d.due.block))
  }

  lemma {:induction false} NotFull(flags: seq<byte>, b: nat)
    requires b < |flags| && !Used(flags[b])
    ensures Slabs.Count(flags) < |flags|
  {
    CountUpdate(flags, b, MarkUsed(flags[b]));
  }

  /** Trimming a packed cache whose counter is right cuts off no used block and adds none. */
  lemma TrimBlank(d: Book, heap: Heap)
    requires Law(d) && Blank(d) && d.due.Trim?
    ensures Blank(Apply(Shrink(heap), d))
  {
    var n, m := |d.flags|, ShrinkSize(|d.flags|, d.used);
    ShrinkChoice(n, d.used);
    if 0 < m < n {
      CountZero(d.flags[m..], n - m);
    }
  }

  lemma ApplyBlank(e: Effect, d: Book)
    requires Law(d) && Settles(e, d.due) && Blank(d) && TidyEffect(e)
    requires e.CountLoad? ==> Vacant(d, e.block)
    ensures Blank(Apply(e, d))
  {
    if e.CountLoad? && e.block < |d.flags| {
      NotFull(d.flags, e.block);
    } else if e.Shrink? && d.due.Trim? {
      TrimBlank(d, e.heap);
    }
  }

  lemma JoinedBlank(d: Book, e: Book, tag: uint32)
    requires Law(d) && Law(e) && Blank(d) && Blank(e) && d.due == Settled && e.due == Settled
    ensures Blank(Joined(d, e, tag))
  {
  }

  lemma RoundTidy(t: Thread, flags: seq<byte>)
    requires t.now != [] && t.now[0].Each? && TidyThread(t)
    ensures TidyThread(After(t, flags))
  {
    var p := After(t, flags).now;
    assert TidyAct(t.now[0]);
    forall i | 0 <= i < |p|
      ensures TidyAct(p[i])
    {
    }
  }

  lemma AfterTidy(t: Thread, flags: seq<byte>)
    requires t.now != [] && TidyThread(t)
    ensures TidyThread(After(t, flags))
  {
    hide TidyAct, Tidy;
    if t.now[0].Each? {
      RoundTidy(t, flags);
    }
  }

  lemma ProgramTidy(op: Op)
    requires Tidy(op)
    ensures forall i :: 0 <= i < |Program(op)| ==> TidyAct(Program(op)[i])
  {
  }

  ghost predicate TidyThreads(s: System) {
    forall t :: 0 <= t < |s.threads| ==> TidyThread(s.threads[t])
  }

  lemma NextTidy(s: System, t: nat)
    requires TidyThreads(s) && CanStep(s, t)
    ensures TidyThreads(Next(s, t))
  {
    hide TidyAct, Tidy;
    var x := s.threads[t];
    assert TidyThread(x);
    if x.now == [] {
      ProgramTidy(x.calls[0]);
    } else {
      AfterTidy(x, Seen(s.book, x.now[0]));
    }
  }

  ghost predicate AllBlank(s: System) {
    forall c :: Blank(s.book(c))
  }

  lemma NextBlank(s: System, t: nat)
    requires Safe(s) && AllKept(s) && TidyThreads(s) && AllBlank(s) && CanStep(s, t) && FindsFree(s, t)
    ensures AllBlank(Next(s, t))
  {
    hide TidyEffect, Apply, Joined, Law;
    var x := s.threads[t];
    assert TidyThread(x) && Orderly(x);
    if x.now != [] && x.now[0].Do? {
      var c := x.now[0].cache;
      assert TidyAct(x.now[0]) && Kept(s, c) && Blank(s.book(c));
      DueIsOwn(s, t, c);
      ApplyBlank(x.now[0].effect, s.book(c));
    } else if x.now != [] && x.now[0].Join? {
      var a := x.now[0];
      assert Kept(s, a.one) && Kept(s, a.two) && Blank(s.book(a.one)) && Blank(s.book(a.two));
      DueIsOwn(s, t, a.one);
      DueIsOwn(s, t, a.two);
      JoinedBlank(s.book(a.one), s.book(a.two), a.tag);
    }
  }

  lemma {:induction false} RunBlank(s: System, schedule: seq<nat>)
    requires Safe(s) && AllKept(s) && TidyThreads(s) && AllBlank(s) && CanRun(s, schedule)
    requires LoadsFindFree(s, schedule)
    ensures AllBlank(Run(s, schedule))
    decreases |schedule|
  {
    hide Safe, AllKept, TidyThreads, AllBlank;
    if schedule != [] {
      NextBlank(s, schedule[0]);
      NextTidy(s, schedule[0]);
      NextKept(s, schedule[0]);
      NextSafe(s, schedule[0]);
      RunBlank(Next(s, schedule[0]), schedule[1..]);
    }
  }

  ghost predicate AllTidy(calls: seq<seq<Op>>) {
    forall t, i :: 0 <= t < |calls| && 0 <= i < |calls[t]| ==> Tidy(calls[t][i])
  }

  /** Threads that delete, clear, retag, list, access, lock, load, compact and merge, under any schedule in which
      every load finds its block free: whenever a mutex is free, that cache's counter is right. */
  lemma CounterRight(calls: seq<seq<Op>>, book: nat -> Book, schedule: seq<nat>, c: nat)
    requires AllTidy(calls) && CanRun(Start(calls, book), schedule) && forall x :: Right(book(x))
    requires LoadsFindFree(Start(calls, book), schedule)
    ensures var s := Run(Start(calls, book), schedule);
      IsFree(s, c) ==> s.book(c).used == Slabs.Count(s.book(c).flags)
  {
    var s0 := Start(calls, book);
    StartSafe(calls, book);
    StartKept(calls, book);
    assert forall x: nat :: Right(book(x)) ==> Blank(book(x));
    RunBlank(s0, schedule);
    CounterExact(calls, book, schedule, c);
    assert Blank(Run(s0, schedule).book(c));
  }

  // ---- Without compactions and merges: exactly how far the counter is off ----

  /** The next act of thread t raises the counter of c for a load. */
  predicate Counts(s: System, t: nat, c: nat)
    requires t < |s.threads|
  {
    var p := s.threads[t].now;
    p != [] && p[0].Do? && p[0].cache == c && p[0].effect.CountLoad?
  }

  /** It does so for a block in use already. */
  predicate Reloads(s: System, t: nat, c: nat)
    requires t < |s.threads|
  {
    Counts(s, t, c) && !Vacant(s.book(c), s.threads[t].now[0].effect.block)
  }

  /** How many loads of the run raise the counter of c, and how many of them for a block in use already. */
  function Loads(s: System, schedule: seq<nat>, c: nat): (n: nat)
    requires CanRun(s, schedule)
    decreases |schedule|
  {
    if schedule == [] then 0
    else (if Counts(s, schedule[0], c) then 1 else 0) + Loads(Next(s, schedule[0]), schedule[1..], c)
  }

  function BusyLoads(s: System, schedule: seq<nat>, c: nat): (n: nat)
    requires CanRun(s, schedule)
    decreases |schedule|
  {
    if schedule == [] then 0
    else (if Reloads(s, schedule[0], c) then 1 else 0) + BusyLoads(Next(s, schedule[0]), schedule[1..], c)
  }

  /** A load of a used block that has raised the counter and not yet marked the block. */
  function Pending(d: Book): (n: nat) {
    if d.due.Mark? && !Vacant(d, d.due.block) then 1 else 0
  }

  /** Of at most l loads so far x found a used block, and nothing else is amiss. */
  predicate OnlyTwice(d: Book, x: nat, l: nat) {
    Pending(d) <= x <= l && d.ledger == BLANK.(twice := x - Pending(d)) && DueTidy(d.due) && !d.due.Trim?
  }

  lemma ApplyTwice(e: Effect, d: Book, x: nat, l: nat)
    requires Law(d) && Settles(e, d.due)
    requires OnlyTwice(d, x, l) && TidyEffect(e) && !Reshapes(e) && |d.flags| + l + 1 < U32
    ensures OnlyTwice(Apply(e, d), if e.CountLoad? && !Vacant(d, e.block) then x + 1 else x,
                      if e.CountLoad? then l + 1 else l)
    ensures |Apply(e, d).flags| == |d.flags|
  {
  }

  /** One step of threads that neither compact nor merge. */
  lemma NextTwice(s: System, t: nat, c: nat, x: nat, l: nat)
    requires Safe(s) && AllKept(s) && TidyThreads(s) && AllApart(_ => true, s) && CanStep(s, t)
    requires OnlyTwice(s.book(c), x, l) && |s.book(c).flags| + l + 1 < U32
    ensures OnlyTwice(Next(s, t).book(c), x + (if Reloads(s, t, c) then 1 else 0), l + if Counts(s, t, c) then 1 else 0)
    ensures |Next(s, t).book(c).flags| == |s.book(c).flags|
  {
    hide Apply, Law, OnlyTwice, TidyEffect;
    var y := s.threads[t];
    assert TidyThread(y) && ThreadApart(_ => true, y) && Orderly(y);
    if y.now != [] {
      assert TidyAct(y.now[0]) && ActApart(_ => true, y.now[0]);
      if y.now[0].Do? && y.now[0].cache == c {
        assert Kept(s, c);
        DueIsOwn(s, t, c);
        ApplyTwice(y.now[0].effect, s.book(c), x, l);
      }
    }
  }

  lemma {:induction false} RunTwice(s: System, schedule: seq<nat>, c: nat, x: nat, l: nat)
    requires Safe(s) && AllKept(s) && TidyThreads(s) && AllApart(_ => true, s) && CanRun(s, schedule)
    requires OnlyTwice(s.book(c), x, l) && |s.book(c).flags| + l + Loads(s, schedule, c) + 1 < U32
    ensures OnlyTwice(Run(s, schedule).book(c), x + BusyLoads(s, schedule, c), l + Loads(s, schedule, c))
    decreases |schedule|
  {
    hide Safe, AllKept, TidyThreads, AllApart, OnlyTwice, Next;
    if schedule != [] {
      var t := schedule[0];
      NextTwice(s, t, c, x, l);
      NextTidy(s, t);
      NextKept(s, t);
      NextSafe(s, t);
      NextApart(_ => true, s, t);
      RunTwice(Next(s, t), schedule[1..], c, x + (if Reloads(s, t, c) then 1 else 0),
               l + if Counts(s, t, c) then 1 else 0);
    }
  }

  /** Threads that delete, clear, retag, list, access, lock and load, under any schedule of fewer loads than the
      counter has room for: whenever the mutex of a cache is free, its counter is the number of used blocks plus
      the number of loads that found their block in use; so it is right exactly when there was none. */
  lemma CounterRightExact(calls: seq<seq<Op>>, book: nat -> Book, schedule: seq<nat>, c: nat)
    requires AllTidy(calls) && CanRun(Start(calls, book), schedule) && forall x :: Right(book(x))
    requires CallsApart(_ => true, calls)
    requires |book(c).flags| + Loads(Start(calls, book), schedule, c) + 1 < U32
    ensures var s := Run(Start(calls, book), schedule); var busy := BusyLoads(Start(calls, book), schedule, c);
      IsFree(s, c) ==>
        && s.book(c).used == Slabs.Count(s.book(c).flags) + busy
        && (s.book(c).used == Slabs.Count(s.book(c).flags) <==> busy == 0)
  {
    hide Safe, AllKept, TidyThreads, AllApart, Run, CanRun, Law, Loads, BusyLoads, Start, AllTidy, CallsApart, AllFit;
    StartTwice(calls, book, c);
    RunTwice(Start(calls, book), schedule, c, 0, 0);
    CounterExact(calls, book, schedule, c);
  }

  lemma StartTwice(calls: seq<seq<Op>>, book: nat -> Book, c: nat)
    requires AllTidy(calls) && CallsApart(_ => true, calls) && forall x :: Right(book(x))
    ensures var s := Start(calls, book);
      && AllFit(calls) && Safe(s) && AllKept(s) && TidyThreads(s) && AllApart(_ => true, s)
      && OnlyTwice(s.book(c), 0, 0) && s.book(c) == book(c)
  {
    StartSafe(calls, book);
    StartKept(calls, book);
    assert Right(book(c));
  }
}
