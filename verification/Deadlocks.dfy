/** Threads that merge caches can deadlock exactly when there is a ring of merges; and what becomes of threads
    when a mutex is given up never or too early. */
module Deadlocks {
  import opened Machine
  import opened Books
  import opened Locks
  import opened Exclusion
  import opened Rings

  ghost predicate CanDeadlock(s: System) {
    exists schedule :: CanRun(s, schedule) && Deadlocked(Run(s, schedule))
  }

  ghost predicate OnlyMerges(lists: seq<seq<Op>>) {
    forall t, i :: 0 <= t < |lists| && 0 <= i < |lists[t]| ==> lists[t][i].Merge?
  }

  // ---- Where each thread is ----

  /** Before call i of the list, or with j acts of call i done. */
  datatype Pos = Before(i: nat) | Inside(i: nat, j: nat)

  ghost predicate PosAt(list: seq<Op>, x: Thread, p: Pos) {
    match p
    case Before(i) => i <= |list| && x == Thread(multiset{}, {}, multiset{}, [], list[i..])
    case Inside(i, j) =>
      && i < |list| && list[i].Merge? && j < MERGE_ACTS
      && x == Thread(Mine(list[i].one, list[i].two, j), {}, multiset{}, Program(list[i])[j..], list[i + 1..])
  }

  function PosNext(p: Pos): (q: Pos) {
    match p
    case Before(i) => Inside(i, 0)
    case Inside(i, j) => if j + 1 < MERGE_ACTS then Inside(i, j + 1) else Before(i + 1)
  }

  ghost predicate Inv(s: System, lists: seq<seq<Op>>, ps: seq<Pos>) {
    && |s.threads| == |lists| == |ps| && OneOwner(s) && OnlyMerges(lists)
    && forall t :: 0 <= t < |ps| ==> PosAt(lists[t], s.threads[t], ps[t])
  }

  lemma ActMoves(list: seq<Op>, x: Thread, i: nat, j: nat)
    requires PosAt(list, x, Inside(i, j))
    ensures x.now != [] && !x.now[0].Each? && PosAt(list, After(x, []), PosNext(Inside(i, j)))
  {
    hide Mine, After;
    MergeActs(list[i]);
    assert x.now[0] == Program(list[i])[j];
    MergeGoesOn(list, x, i, j, []);
    MutexAct(x);
    AllReleased(list[i].one, list[i].two);
  }

  lemma MutexAct(x: Thread)
    requires x.now != [] && (x.now[0].Lock? || x.now[0].Unlock? || x.now[0].Join?)
    ensures After(x, []).wr == x.wr && After(x, []).rd == x.rd && After(x, []).calls == x.calls
  {
  }

  lemma AllReleased(a: nat, b: nat)
    ensures Mine(a, b, 0) == Mine(a, b, MERGE_ACTS) == multiset{}
  {
  }

  lemma BeginMoves(list: seq<Op>, x: Thread, i: nat)
    requires PosAt(list, x, Before(i)) && i < |list| && list[i].Merge?
    ensures x.calls != [] && PosAt(list, Begin(x), Inside(i, 0))
  {
    assert list[i..][0] == list[i] && list[i..][1..] == list[i + 1..];
    assert Program(list[i])[0..] == Program(list[i]);
    AllReleased(list[i].one, list[i].two);
  }

  lemma StepInv(s: System, lists: seq<seq<Op>>, ps: seq<Pos>, t: nat)
    requires Inv(s, lists, ps) && CanStep(s, t)
    ensures Inv(Next(s, t), lists, ps[t := PosNext(ps[t])])
  {
    hide PosAt, OneOwner;
    NextOneOwner(s, t);
    StepAt(s, lists, ps, t);
  }

  lemma StepAt(s: System, lists: seq<seq<Op>>, ps: seq<Pos>, t: nat)
    requires Inv(s, lists, ps) && CanStep(s, t)
    ensures PosAt(lists[t], ThreadAfter(s, t), PosNext(ps[t]))
  {
    var x, list := s.threads[t], lists[t];
    assert PosAt(list, x, ps[t]);
    match ps[t]
    case Before(i) => BeginMoves(list, x, i);
    case Inside(i, j) => ActMoves(list, x, i, j);
  }

  /** A thread between calls, or asking for a mutex that nobody else owns, can step. */
  lemma Steps(s: System, lists: seq<seq<Op>>, ps: seq<Pos>, t: nat)
    requires Inv(s, lists, ps) && t < |ps|
    requires match ps[t]
      case Before(i) => i < |lists[t]|
      case Inside(i, j) => forall u, c :: 0 <= u < |s.threads| && u != t && Owns(s, u, c) ==>
        (j == 0 || j == 2 ==> c != lists[t][i].one) && (j == 1 ==> c != lists[t][i].two)
    ensures CanStep(s, t)
  {
    var x := s.threads[t];
    assert PosAt(lists[t], x, ps[t]);
    match ps[t]
    case Before(i) =>
    case Inside(i, j) =>
      MergeActs(lists[t][i]);
      assert x.now[0] == Program(lists[t][i])[j];
  }

  predicate Outside(ps: seq<Pos>, t: nat) {
    forall u :: 0 <= u < |ps| && u != t ==> ps[u].Before?
  }

  lemma OwnsNothing(s: System, lists: seq<seq<Op>>, ps: seq<Pos>, t: nat, u: nat, c: nat)
    requires Inv(s, lists, ps) && Outside(ps, t) && u < |ps| && u != t
    ensures !Owns(s, u, c)
  {
    assert PosAt(lists[u], s.threads[u], ps[u]);
  }

  /** Acts left of a list. */
  function Left(list: seq<Op>, p: Pos): (r: int) {
    match p
    case Before(i) => 8 * (|list| - i)
    case Inside(i, j) => 8 * (|list| - i) - 1 - j
  }

  /** While the others are between calls, thread t goes on alone up to a call. */
  lemma {:induction false} Alone(s: System, lists: seq<seq<Op>>, ps: seq<Pos>, t: nat, i: nat)
      returns (schedule: seq<nat>)
    requires Inv(s, lists, ps) && Outside(ps, t) && t < |ps| && i <= |lists[t]|
    requires (if ps[t].Before? then ps[t].i else ps[t].i + 1) <= i
    ensures CanRun(s, schedule) && Inv(Run(s, schedule), lists, ps[t := Before(i)])
    decreases Left(lists[t], ps[t])
  {
    hide OneOwner, CanStep, Next;
    if ps[t] == Before(i) {
      schedule := [];
      assert ps[t := Before(i)] == ps;
    } else {
      assert PosAt(lists[t], s.threads[t], ps[t]);
      forall u, c | 0 <= u < |s.threads| && u != t
        ensures !Owns(s, u, c)
      {
        OwnsNothing(s, lists, ps, t, u, c);
      }
      Steps(s, lists, ps, t);
      StepInv(s, lists, ps, t);
      var q := PosNext(ps[t]);
      schedule := Alone(Next(s, t), lists, ps[t := q], t, i);
      Then(s, t, schedule);
      assert ps[t := q][t := Before(i)] == ps[t := Before(i)];
      schedule := [t] + schedule;
    }
  }

  // ---- A ring can deadlock ----

  /** The threads of the ring before the k-th have locked the cache they merge into, the others are between
      calls, those of the ring before the call in the ring. */
  ghost predicate Locked(lists: seq<seq<Op>>, ps: seq<Pos>, hops: seq<Hop>, k: nat) {
    && k <= |hops| && Ring(lists, hops) && |ps| == |lists|
    && (forall i :: 0 <= i < k ==> ps[hops[i].thread] == Inside(hops[i].call, 1))
    && (forall i :: k <= i < |hops| ==> ps[hops[i].thread] == Before(hops[i].call))
    && forall t :: 0 <= t < |ps| && (forall i :: 0 <= i < |hops| ==> hops[i].thread != t) ==> ps[t].Before?
  }

  /** The threads of the ring are before a call no later than the one in the ring, from the k-th on; before
      that, right before it. */
  ghost predicate Ready(lists: seq<seq<Op>>, ps: seq<Pos>, hops: seq<Hop>, k: nat) {
    && k <= |hops| && Ring(lists, hops) && |ps| == |lists|
    && (forall i :: 0 <= i < k ==> ps[hops[i].thread] == Before(hops[i].call))
    && (forall i :: k <= i < |hops| ==> ps[hops[i].thread] == Before(0))
    && forall t :: 0 <= t < |ps| ==> ps[t].Before?
  }

  lemma Holds(s: System, lists: seq<seq<Op>>, ps: seq<Pos>, hops: seq<Hop>, k: nat, i: nat)
    requires Inv(s, lists, ps) && Locked(lists, ps, hops, k) && i < k
    ensures Owns(s, hops[i].thread, One(lists, hops[i])) && Unfinished(s, hops[i].thread)
  {
    var h := hops[i];
    assert IsMerge(lists, h) && PosAt(lists[h.thread], s.threads[h.thread], Inside(h.call, 1));
    MergeActs(lists[h.thread][h.call]);
  }

  /** In a ring nobody gets the second mutex. */
  lemma RingStuck(s: System, lists: seq<seq<Op>>, ps: seq<Pos>, hops: seq<Hop>, i: nat)
    requires Inv(s, lists, ps) && |ps| == |lists| && Ring(lists, hops) && i < |hops|
    requires forall i :: 0 <= i < |hops| ==> hops[i].thread < |ps| && ps[hops[i].thread] == Inside(hops[i].call, 1)
    ensures Unfinished(s, hops[i].thread) && !CanStep(s, hops[i].thread)
  {
    var h, next := hops[i], if i + 1 < |hops| then hops[i + 1] else hops[0];
    assert IsMerge(lists, h) && IsMerge(lists, next);
    assert PosAt(lists[h.thread], s.threads[h.thread], Inside(h.call, 1));
    assert PosAt(lists[next.thread], s.threads[next.thread], Inside(next.call, 1));
    MergeActs(lists[h.thread][h.call]);
    assert Owns(s, next.thread, One(lists, next));
    assert s.threads[h.thread].now[0] == Lock(Two(lists, h));
  }

  function AllLeft(lists: seq<seq<Op>>, ps: seq<Pos>): (r: int)
    requires |lists| == |ps|
  {
    if ps == [] then 0 else Left(lists[0], ps[0]) + AllLeft(lists[1..], ps[1..])
  }

  lemma {:induction false} OneLess(lists: seq<seq<Op>>, ps: seq<Pos>, t: nat)
    requires |lists| == |ps| && t < |ps| && WithinList(lists[t], ps[t])
    ensures AllLeft(lists, ps[t := PosNext(ps[t])]) == AllLeft(lists, ps) - 1
  {
    if t > 0 {
      OneLess(lists[1..], ps[1..], t - 1);
      assert ps[t := PosNext(ps[t])][1..] == ps[1..][t - 1 := PosNext(ps[1..][t - 1])];
    } else {
      assert ps[0 := PosNext(ps[0])][1..] == ps[1..];
    }
  }

  predicate WithinList(list: seq<Op>, p: Pos) {
    match p
    case Before(i) => i <= |list|
    case Inside(i, j) => i < |list| && j < MERGE_ACTS
  }

  lemma {:induction false} LeftAtLeast0(lists: seq<seq<Op>>, ps: seq<Pos>)
    requires |lists| == |ps| && forall t :: 0 <= t < |ps| ==> WithinList(lists[t], ps[t])
    ensures AllLeft(lists, ps) >= 0
  {
    if ps != [] {
      LeftAtLeast0(lists[1..], ps[1..]);
    }
  }

  lemma NoLeaving(s: System, lists: seq<seq<Op>>, ps: seq<Pos>, u: nat)
    requires Inv(s, lists, ps)
    ensures !Leaves(s, u)
  {
    if u < |s.threads| && s.threads[u].now != [] {
      assert PosAt(lists[u], s.threads[u], ps[u]);
      MergeActs(lists[u][ps[u].i]);
    }
  }

  lemma PosWithin(s: System, lists: seq<seq<Op>>, ps: seq<Pos>, t: nat)
    requires Inv(s, lists, ps) && t < |ps|
    ensures WithinList(lists[t], ps[t])
  {
    assert PosAt(lists[t], s.threads[t], ps[t]);
  }

  lemma {:induction false} Bounded(s: System, lists: seq<seq<Op>>, ps: seq<Pos>)
    requires Inv(s, lists, ps)
    ensures AllLeft(lists, ps) >= 0
  {
    forall t | 0 <= t < |ps|
      ensures WithinList(lists[t], ps[t])
    {
      PosWithin(s, lists, ps, t);
    }
    LeftAtLeast0(lists, ps);
  }

  /** With a ring locked, the others run until they can no more, and then there is a deadlock. */
  lemma {:induction false} RunDry(s: System, lists: seq<seq<Op>>, ps: seq<Pos>, hops: seq<Hop>)
      returns (schedule: seq<nat>)
    requires Inv(s, lists, ps) && Ring(lists, hops)
    requires forall i :: 0 <= i < |hops| ==> hops[i].thread < |ps| && ps[hops[i].thread] == Inside(hops[i].call, 1)
    ensures CanRun(s, schedule) && Deadlocked(Run(s, schedule))
    decreases AllLeft(lists, ps)
  {
    hide PosAt, Next, OneOwner;
    RingStuck(s, lists, ps, hops, 0);
    if t: nat :| CanStep(s, t) {
      forall i | 0 <= i < |hops|
        ensures hops[i].thread != t
      {
        RingStuck(s, lists, ps, hops, i);
      }
      StepInv(s, lists, ps, t);
      PosWithin(s, lists, ps, t);
      OneLess(lists, ps, t);
      Bounded(Next(s, t), lists, ps[t := PosNext(ps[t])]);
      schedule := RunDry(Next(s, t), lists, ps[t := PosNext(ps[t])], hops);
      Then(s, t, schedule);
      schedule := [t] + schedule;
    } else {
      schedule := [];
      forall u: nat
        ensures !Leaves(s, u)
      {
        NoLeaving(s, lists, ps, u);
      }
    }
  }

  /** Nobody but ring threads before the k-th owns anything, so the k-th gets its first mutex. */
  lemma FirstIsFree(s: System, lists: seq<seq<Op>>, ps: seq<Pos>, hops: seq<Hop>, k: nat, u: nat, c: nat)
    requires Inv(s, lists, ps) && |ps| == |lists| && k < |hops| && Ring(lists, hops) && hops[k].thread < |ps|
    requires Locked(lists, ps[hops[k].thread := Before(hops[k].call)], hops, k)
    requires u < |ps| && u != hops[k].thread && Owns(s, u, c)
    ensures c != One(lists, hops[k])
  {
    assert PosAt(lists[u], s.threads[u], ps[u]);
    assert ps[u] == ps[hops[k].thread := Before(hops[k].call)][u];
    if i :| 0 <= i < |hops| && hops[i].thread == u {
      assert IsMerge(lists, hops[i]);
      assert One(lists, hops[i]) != One(lists, hops[k]);
    }
  }

  lemma LockNext(s: System, lists: seq<seq<Op>>, ps: seq<Pos>, hops: seq<Hop>, k: nat)
    requires Inv(s, lists, ps) && Locked(lists, ps, hops, k) && k < |hops|
    ensures var t := hops[k].thread; var ps' := ps[t := Inside(hops[k].call, 1)];
      && CanStep(s, t) && CanStep(Next(s, t), t)
      && Inv(Next(Next(s, t), t), lists, ps') && Locked(lists, ps', hops, k + 1)
  {
    hide PosAt, OneOwner;
    var h := hops[k];
    var t, i := h.thread, h.call;
    assert IsMerge(lists, h);
    Steps(s, lists, ps, t);
    StepInv(s, lists, ps, t);
    var r, ps0 := Next(s, t), ps[t := Inside(i, 0)];
    assert ps0[t := Before(i)] == ps;
    forall u, c | 0 <= u < |r.threads| && u != t && Owns(r, u, c)
      ensures c != lists[t][i].one
    {
      FirstIsFree(r, lists, ps0, hops, k, u, c);
    }
    Steps(r, lists, ps0, t);
    StepInv(r, lists, ps0, t);
    assert ps0[t := Inside(i, 1)] == ps[t := Inside(i, 1)];
  }

  lemma {:induction false} LockRing(s: System, lists: seq<seq<Op>>, ps: seq<Pos>, hops: seq<Hop>, k: nat)
      returns (schedule: seq<nat>)
    requires Inv(s, lists, ps) && Locked(lists, ps, hops, k)
    ensures CanRun(s, schedule) && Deadlocked(Run(s, schedule))
    decreases |hops| - k
  {
    hide PosAt, CanStep, Next, OneOwner, Deadlocked;
    if k == |hops| {
      schedule := RunDry(s, lists, ps, hops);
    } else {
      var t := hops[k].thread;
      LockNext(s, lists, ps, hops, k);
      var rest := LockRing(Next(Next(s, t), t), lists, ps[t := Inside(hops[k].call, 1)], hops, k + 1);
      Then(Next(s, t), t, rest);
      Then(s, t, [t] + rest);
      schedule := [t] + ([t] + rest);
    }
  }

  lemma ReadyNext(lists: seq<seq<Op>>, ps: seq<Pos>, hops: seq<Hop>, k: nat)
    requires Ready(lists, ps, hops, k) && k < |hops|
    ensures hops[k].thread < |ps| && ps[hops[k].thread] == Before(0) && hops[k].call <= |lists[hops[k].thread]|
    ensures Ready(lists, ps[hops[k].thread := Before(hops[k].call)], hops, k + 1)
  {
    assert IsMerge(lists, hops[k]);
  }

  /** One thread of the ring after the other goes to its merge; then they lock. */
  lemma {:induction false} GetReady(s: System, lists: seq<seq<Op>>, ps: seq<Pos>, hops: seq<Hop>, k: nat)
      returns (schedule: seq<nat>)
    requires Inv(s, lists, ps) && Ready(lists, ps, hops, k)
    ensures CanRun(s, schedule) && Deadlocked(Run(s, schedule))
    decreases |hops| - k
  {
    hide PosAt, CanStep, Next, OneOwner, Deadlocked;
    if k == |hops| {
      schedule := LockRing(s, lists, ps, hops, 0);
    } else {
      var h := hops[k];
      ReadyNext(lists, ps, hops, k);
      var first := Alone(s, lists, ps, h.thread, h.call);
      var rest := GetReady(Run(s, first), lists, ps[h.thread := Before(h.call)], hops, k + 1);
      RunConcat(s, first, rest);
      schedule := first + rest;
    }
  }

  lemma StartInv(lists: seq<seq<Op>>, book: nat -> Book)
    requires OnlyMerges(lists)
    ensures Inv(Start(lists, book), lists, seq(|lists|, _ => Before(0)))
  {
    forall t | 0 <= t < |lists|
      ensures lists[t][0..] == lists[t]
    {
    }
  }

  /** Any number of threads that each run any list of merges can deadlock exactly when some of the merges, of
      different threads, form a ring. */
  lemma MergesExact(lists: seq<seq<Op>>, book: nat -> Book)
    requires OnlyMerges(lists)
    ensures CanDeadlock(Start(lists, book)) <==> exists hops :: Ring(lists, hops)
  {
    var s := Start(lists, book);
    StartInv(lists, book);
    if hops :| Ring(lists, hops) {
      var ps := seq(|lists|, _ => Before(0));
      assert forall i :: 0 <= i < |hops| ==> IsMerge(lists, hops[i]);
      assert Ready(lists, ps, hops, 0);
      var schedule := GetReady(s, lists, ps, hops, 0);
      assert CanRun(s, schedule) && Deadlocked(Run(s, schedule));
    }
    if schedule :| CanRun(s, schedule) && Deadlocked(Run(s, schedule)) {
      MergesFit(lists, book);
      CallsProgress(_ => false, _ => Some(0), lists, book, schedule);
    }
  }

  lemma MergesFit(lists: seq<seq<Op>>, book: nat -> Book)
    requires OnlyMerges(lists)
    ensures AllFit(lists) && CallsApart(_ => false, lists) && CallsKnown(_ => Some(0), lists, book)
  {
  }
}
