/** Two loads into any block at the same time. Each searches for a free block before it locks anything. */
module Searches {
  import opened Machine
  import opened Slabs
  import opened Counting
  import opened Books
  import opened Locks
  import opened Exclusion
  import opened Rings

  /** Where a thread is in its load: not begun, about to look at block i, or with j of the acts on block b done;
      the third of them marks the block. */
  datatype Stage = Waiting | Looking(i: nat) | Acting(b: nat, j: nat)

  const LOAD_ACTS: nat := 6

  ghost predicate At(x: Thread, c: nat, tag: uint32, g: Stage) {
    match g
    case Waiting => x.now == [] && x.calls == [LoadAny(c, tag)]
    case Looking(i) => x.now == [Each(c, FindFree(tag), i)] && x.calls == []
    case Acting(b, j) => j <= LOAD_ACTS && x.now == LoadActs(c, b, tag)[j..] && x.calls == []
  }

  lemma LoadActsAre(c: nat, b: nat, tag: uint32)
    ensures var k := Key(c, b);
      LoadActs(c, b, tag) == [Lock(c), Wr(k), Do(c, MarkFound(b, tag)), Release(k), Unlock(c), Unlock(c)]
  {
  }

  predicate HasMarked(g: Stage, b: nat) {
    g.Acting? && g.j > 2 && g.b == b
  }

  /** The flags once the threads at stages g and h have marked their blocks. */
  function Marked(flags: seq<byte>, g: Stage, h: Stage): (r: seq<byte>)
    ensures |r| == |flags|
  {
    seq(|flags|, b requires 0 <= b < |flags| =>
      if HasMarked(g, b) || HasMarked(h, b) then MarkUsed(flags[b]) else flags[b])
  }

  /** The thread has gone past block f, the first free one, to look for another. */
  predicate Late(g: Stage, f: nat) {
    (g.Looking? && g.i > f) || (g.Acting? && g.b != f)
  }

  /** It is on its way to f, or past it and on its way to n, the next free block. */
  predicate OnCourse(g: Stage, f: nat, n: nat) {
    match g
    case Waiting => true
    case Looking(i) => i <= n
    case Acting(b, j) => j <= LOAD_ACTS && (b == f || b == n)
  }

  /** f and n are the first two free blocks. */
  predicate TwoFree(flags: seq<byte>, f: nat, n: nat) {
    && f < n < |flags| && !Used(flags[f]) && !Used(flags[n])
    && forall k :: 0 <= k < n && k != f ==> Used(flags[k])
  }

  /** Two threads about to load blocks of cache c under the two tags; f and n are its first two free blocks. */
  datatype Race = Race(c: nat, tag0: uint32, tag1: uint32, flags: seq<byte>, f: nat, n: nat)

  /** Both threads are on course, the flags are those they have marked, and one is late only after the other
      has marked f. */
  ghost predicate Inv(s: System, e: Race, g: Stage, h: Stage) {
    && |s.threads| == 2 && TwoFree(e.flags, e.f, e.n)
    && At(s.threads[0], e.c, e.tag0, g) && At(s.threads[1], e.c, e.tag1, h)
    && OnCourse(g, e.f, e.n) && OnCourse(h, e.f, e.n)
    && s.book(e.c).flags == Marked(e.flags, g, h)
    && (Late(g, e.f) ==> HasMarked(h, e.f)) && (Late(h, e.f) ==> HasMarked(g, e.f))
  }

  /** The stage after one step, given the flags looked at. */
  function StageAfter(g: Stage, flags: seq<byte>): (r: Stage) {
    match g
    case Waiting => Looking(0)
    case Looking(i) => if i < |flags| && !Used(flags[i]) then Acting(i, 0) else Looking(i + 1)
    case Acting(b, j) => Acting(b, j + 1)
  }

  lemma StageStep(x: Thread, c: nat, tag: uint32, g: Stage, flags: seq<byte>)
    requires At(x, c, tag, g) && (g.Looking? ==> g.i < |flags|) && (x.now != [] || x.calls != [])
    ensures var seen := if x.now != [] && x.now[0].Each? then flags else [];
      At(if x.now == [] then Begin(x) else After(x, seen), c, tag, StageAfter(g, flags))
  {
    match g
    case Waiting => assert Program(LoadAny(c, tag)) == [Each(c, FindFree(tag), 0)];
    case Looking(i) =>
      assert [Each(c, FindFree(tag), i + 1)] + [] == [Each(c, FindFree(tag), i + 1)];
      assert LoadActs(c, i, tag) + [] == LoadActs(c, i, tag) == LoadActs(c, i, tag)[0..];
    case Acting(b, j) => ActStep(x, c, tag, b, j);
  }

  lemma ActStep(x: Thread, c: nat, tag: uint32, b: nat, j: nat)
    requires At(x, c, tag, Acting(b, j)) && x.now != []
    ensures !x.now[0].Each? && At(After(x, []), c, tag, Acting(b, j + 1))
  {
    LoadActsAre(c, b, tag);
    var p := LoadActs(c, b, tag);
    assert p[j..][1..] == p[j + 1..];
    assert After(x, []).now == x.now[1..];
  }

  /** What a step does to the flags: it marks the block if it is the act that does. */
  lemma FlagsStep(x: Thread, c: nat, tag: uint32, g: Stage, book: nat -> Book)
    requires At(x, c, tag, g) && x.now != []
    ensures var d := book(c);
      BookAfter(book, x.now[0])(c).flags
        == if g.Acting? && g.j == 2 && g.b < |d.flags| then d.flags[g.b := MarkUsed(d.flags[g.b])] else d.flags
  {
    if g.Acting? {
      LoadActsAre(c, g.b, tag);
    }
  }

  lemma MarkedSwap(flags: seq<byte>, g: Stage, h: Stage)
    ensures Marked(flags, g, h) == Marked(flags, h, g)
  {
  }

  /** The next stages of a thread at g, beside one at h. */
  lemma Move(flags: seq<byte>, f: nat, n: nat, g: Stage, h: Stage, seen: seq<byte>)
    requires TwoFree(flags, f, n) && OnCourse(g, f, n) && OnCourse(h, f, n) && seen == Marked(flags, g, h)
    requires (Late(g, f) ==> HasMarked(h, f)) && (Late(h, f) ==> HasMarked(g, f))
    requires g.Acting? ==> g.j < LOAD_ACTS
    ensures var r := StageAfter(g, seen);
      && OnCourse(r, f, n) && (g.Looking? ==> g.i < |flags|)
      && Marked(flags, r, h) == (if g.Acting? && g.j == 2 then seen[g.b := MarkUsed(seen[g.b])] else seen)
      && (Late(r, f) ==> HasMarked(h, f)) && (Late(h, f) ==> HasMarked(r, f))
      && (Late(r, f) <==> Late(g, f) || (g == Looking(f) && Used(seen[f])))
  {
  }

  /** Thread t is about to look at block f, and the block is used. */
  ghost predicate LooksLate(s: System, t: nat, c: nat, f: nat)
    requires CanStep(s, t)
  {
    var p := s.threads[t].now;
    p != [] && p[0].Each? && p[0].cache == c && p[0].block == f && f < |s.book(c).flags| && Used(s.book(c).flags[f])
  }

  /** Some step of the schedule looks at block f and finds it used. */
  ghost predicate PassesMarked(s: System, schedule: seq<nat>, c: nat, f: nat)
    requires CanRun(s, schedule)
    decreases |schedule|
  {
    schedule != [] && (LooksLate(s, schedule[0], c, f) || PassesMarked(Next(s, schedule[0]), schedule[1..], c, f))
  }

  /** One step of a thread at stage g. */
  lemma StepAt(s: System, t: nat, c: nat, tag: uint32, g: Stage)
    requires CanStep(s, t) && At(s.threads[t], c, tag, g) && (g.Looking? ==> g.i < |s.book(c).flags|)
    ensures var r, seen := Next(s, t), s.book(c).flags;
      && |r.threads| == |s.threads| && (forall u :: 0 <= u < |s.threads| && u != t ==> r.threads[u] == s.threads[u])
      && At(r.threads[t], c, tag, StageAfter(g, seen))
      && r.book(c).flags
           == (if g.Acting? && g.j == 2 && g.b < |seen| then seen[g.b := MarkUsed(seen[g.b])] else seen)
      && (g.Acting? ==> g.j < LOAD_ACTS)
      && (forall f: nat :: LooksLate(s, t, c, f) <==> g == Looking(f) && f < |seen| && Used(seen[f]))
  {
    var x := s.threads[t];
    StageStep(x, c, tag, g, s.book(c).flags);
    if x.now != [] {
      FlagsStep(x, c, tag, g, s.book);
    }
    if g.Acting? {
      LoadActsAre(c, g.b, tag);
    }
  }

  lemma Step0(s: System, e: Race, g: Stage, h: Stage)
    requires Inv(s, e, g, h) && CanStep(s, 0)
    ensures var r := StageAfter(g, s.book(e.c).flags);
      Inv(Next(s, 0), e, r, h) && (Late(r, e.f) <==> Late(g, e.f) || LooksLate(s, 0, e.c, e.f))
  {
    hide At, Next, CanStep, LooksLate, StageAfter;
    StepAt(s, 0, e.c, e.tag0, g);
    Move(e.flags, e.f, e.n, g, h, s.book(e.c).flags);
  }

  lemma Step1(s: System, e: Race, g: Stage, h: Stage)
    requires Inv(s, e, g, h) && CanStep(s, 1)
    ensures var r := StageAfter(h, s.book(e.c).flags);
      Inv(Next(s, 1), e, g, r) && (Late(r, e.f) <==> Late(h, e.f) || LooksLate(s, 1, e.c, e.f))
  {
    hide At, Next, CanStep, LooksLate, StageAfter;
    var seen := s.book(e.c).flags;
    StepAt(s, 1, e.c, e.tag1, h);
    MarkedSwap(e.flags, g, h);
    Move(e.flags, e.f, e.n, h, g, seen);
    MarkedSwap(e.flags, g, StageAfter(h, seen));
  }

  lemma {:induction false} RunInv(s: System, schedule: seq<nat>, e: Race, g: Stage, h: Stage)
      returns (g': Stage, h': Stage)
    requires Inv(s, e, g, h) && CanRun(s, schedule)
    ensures Inv(Run(s, schedule), e, g', h')
    ensures Late(g', e.f) || Late(h', e.f) <==> Late(g, e.f) || Late(h, e.f) || PassesMarked(s, schedule, e.c, e.f)
    decreases |schedule|
  {
    hide Inv, LooksLate;
    g', h' := g, h;
    if schedule != [] {
      assert |s.threads| == 2 by { TwoThreads(s, e, g, h); }
      if schedule[0] == 0 {
        Step0(s, e, g, h);
        g' := StageAfter(g, s.book(e.c).flags);
      } else {
        Step1(s, e, g, h);
        h' := StageAfter(h, s.book(e.c).flags);
      }
      g', h' := RunInv(Next(s, schedule[0]), schedule[1..], e, g', h');
    }
  }

  lemma TwoThreads(s: System, e: Race, g: Stage, h: Stage)
    requires Inv(s, e, g, h)
    ensures |s.threads| == 2
  {
  }

  // ---- The outcome ----

  function TwoLoads(c: nat, tag0: uint32, tag1: uint32, book: nat -> Book): (s: System) {
    Start([[LoadAny(c, tag0)], [LoadAny(c, tag1)]], book)
  }

  predicate Finished(s: System) {
    forall t :: 0 <= t < |s.threads| ==> !Unfinished(s, t)
  }

  lemma MarkedCount(flags: seq<byte>, f: nat, n: nat, g: Stage, h: Stage)
    requires TwoFree(flags, f, n) && g.Acting? && g.j > 2 && h.Acting? && h.j > 2
    requires (g.b == f && (h.b == f || h.b == n)) || (g.b == n && h.b == f)
    ensures Count(Marked(flags, g, h)) == Count(flags) + if g.b == f && h.b == f then 1 else 2
  {
    var one := flags[f := MarkUsed(flags[f])];
    CountUpdate(flags, f, MarkUsed(flags[f]));
    if g.b == f && h.b == f {
      assert Marked(flags, g, h) == one;
    } else {
      CountUpdate(one, n, MarkUsed(one[n]));
      assert Marked(flags, g, h) == one[n := MarkUsed(one[n])];
    }
  }

  /** Two threads that each load into any block of a cache with at least two free blocks, under any schedule
      that lets both finish: two more blocks are used in the end exactly when the search of one passes the
      first free block after the other has marked it; otherwise both have loaded the same block. */
  lemma TwoLoadsExact(c: nat, tag0: uint32, tag1: uint32, book: nat -> Book, schedule: seq<nat>, f: nat, n: nat)
    requires TwoFree(book(c).flags, f, n)
    requires CanRun(TwoLoads(c, tag0, tag1, book), schedule) && Finished(Run(TwoLoads(c, tag0, tag1, book), schedule))
    ensures var s := TwoLoads(c, tag0, tag1, book);
      Count(Run(s, schedule).book(c).flags)
        == Count(book(c).flags) + if PassesMarked(s, schedule, c, f) then 2 else 1
  {
    var s, flags := TwoLoads(c, tag0, tag1, book), book(c).flags;
    var e := Race(c, tag0, tag1, flags, f, n);
    assert Marked(flags, Waiting, Waiting) == flags;
    assert Inv(s, e, Waiting, Waiting);
    var g, h := RunInv(s, schedule, e, Waiting, Waiting);
    var r := Run(s, schedule);
    assert !Unfinished(r, 0) && !Unfinished(r, 1);
    EndStage(r.threads[0], c, tag0, g);
    EndStage(r.threads[1], c, tag1, h);
    MarkedCount(flags, f, n, g, h);
  }

  lemma EndStage(x: Thread, c: nat, tag: uint32, g: Stage)
    requires At(x, c, tag, g) && x.now == [] && x.calls == []
    ensures g.Acting? && g.j == LOAD_ACTS
  {
    if g.Acting? {
      LoadActsAre(c, g.b, tag);
    }
  }

  // ---- A schedule that loses a load ----

  lemma PassesStep(s: System, t: nat, schedule: seq<nat>, c: nat, f: nat)
    requires CanStep(s, t) && !LooksLate(s, t, c, f)
    requires CanRun(Next(s, t), schedule) && !PassesMarked(Next(s, t), schedule, c, f)
    ensures CanRun(s, [t] + schedule) && Run(s, [t] + schedule) == Run(Next(s, t), schedule)
    ensures !PassesMarked(s, [t] + schedule, c, f)
  {
    var a := [t] + schedule;
    assert a[0] == t && a[1..] == schedule;
  }

  lemma NeverMarkedNotLate(s: System, t: nat, e: Race, g: Stage, h: Stage)
    requires Inv(s, e, g, h) && CanStep(s, t)
    requires !HasMarked(g, e.f) && !HasMarked(h, e.f)
    ensures !LooksLate(s, t, e.c, e.f)
  {
  }

  function Calls(e: Race): (calls: seq<seq<Op>>) {
    [[LoadAny(e.c, e.tag0)], [LoadAny(e.c, e.tag1)]]
  }

  /** Everything that is kept while the two threads run. */
  ghost predicate Fine(s: System, e: Race) {
    Sane(_ => false, _ => None, Calls(e), s)
  }

  lemma NextFine(s: System, t: nat, e: Race)
    requires Fine(s, e) && CanStep(s, t)
    ensures Fine(Next(s, t), e)
  {
    hide Sane;
    NextSane(_ => false, _ => None, Calls(e), s, t);
  }

  lemma StartFine(c: nat, tag0: uint32, tag1: uint32, book: nat -> Book, e: Race)
    requires e.c == c && e.tag0 == tag0 && e.tag1 == tag1
    ensures Fine(TwoLoads(c, tag0, tag1, book), e)
  {
    assert AllFit(Calls(e)) && CallsApart(_ => false, Calls(e)) && CallsKnown(_ => None, Calls(e), book);
    StartSane(_ => false, _ => None, Calls(e), book);
  }

  lemma NoRing(e: Race, hops: seq<Hop>)
    ensures !Ring(Calls(e), hops)
  {
    if |hops| > 0 {
      assert !IsMerge(Calls(e), hops[0]);
    }
  }

  lemma FineSized(s: System, e: Race)
    requires Fine(s, e)
    ensures |s.locks(e.c)| == |s.book(e.c).flags|
  {
  }

  /** A thread locks no block but the one it has found. */
  lemma LocksFound(x: Thread, c: nat, tag: uint32, g: Stage)
    requires At(x, c, tag, g) && x.now != [] && (x.now[0].Wr? || x.now[0].Rd? || x.now[0].Check?)
    ensures g.Acting? && x.now[0].key == Key(c, g.b)
  {
    if g.Acting? {
      LoadActsAre(c, g.b, tag);
    }
  }

  lemma FoundThere(s: System, e: Race, g: Stage, h: Stage)
    requires Inv(s, e, g, h) && Fine(s, e)
    ensures (g.Acting? ==> InRange(s, Key(e.c, g.b))) && (h.Acting? ==> InRange(s, Key(e.c, h.b)))
  {
    hide Fine, At, Late, HasMarked;
    FineSized(s, e);
  }

  lemma ThreadsAt(s: System, e: Race, g: Stage, h: Stage)
    requires Inv(s, e, g, h)
    ensures |s.threads| == 2 && At(s.threads[0], e.c, e.tag0, g) && At(s.threads[1], e.c, e.tag1, h)
  {
  }

  lemma NobodyLeaves(s: System, e: Race, g: Stage, h: Stage, u: nat)
    requires Inv(s, e, g, h) && Fine(s, e)
    ensures !Leaves(s, u)
  {
    hide Fine, Inv, At, InRange;
    FoundThere(s, e, g, h);
    ThreadsAt(s, e, g, h);
    if Leaves(s, u) {
      LocksFound(s.threads[u], e.c, if u == 0 then e.tag0 else e.tag1, if u == 0 then g else h);
    }
  }

  lemma SomeoneSteps(s: System, e: Race, g: Stage, h: Stage) returns (u: nat)
    requires Inv(s, e, g, h) && Fine(s, e) && !Finished(s)
    ensures CanStep(s, u) && u < 2
  {
    var t :| 0 <= t < |s.threads| && Unfinished(s, t);
    hide Sane, CanStep, Leaves;
    if !Lively(s) {
      var hops := DeadlockHasRing(_ => false, _ => None, Calls(e), s);
      NoRing(e, hops);
      assert false;
    }
    u :| CanStep(s, u) || Leaves(s, u);
    NobodyLeaves(s, e, g, h, u);
    StepsHere(s, u);
  }

  lemma StepsHere(s: System, u: nat)
    requires CanStep(s, u)
    ensures u < |s.threads|
  {
  }

  /** Both threads at block f with the search behind them: whoever can go on goes on, until both are done. */
  lemma {:induction false} FinishBoth(s: System, e: Race, g: Stage, h: Stage)
      returns (schedule: seq<nat>)
    requires Inv(s, e, g, h) && g.Acting? && h.Acting? && Fine(s, e)
    ensures CanRun(s, schedule) && Finished(Run(s, schedule)) && !PassesMarked(s, schedule, e.c, e.f)
    decreases 2 * LOAD_ACTS - g.j - h.j
  {
    hide Inv, Fine, LooksLate;
    if Finished(s) {
      schedule := [];
    } else {
      TwoThreads(s, e, g, h);
      var u := SomeoneSteps(s, e, g, h);
      ActingNotLate(s, u, e, g, h);
      NextFine(s, u, e);
      if u == 0 {
        Step0(s, e, g, h);
        schedule := FinishBoth(Next(s, u), e, Acting(g.b, g.j + 1), h);
      } else {
        Step1(s, e, g, h);
        schedule := FinishBoth(Next(s, u), e, g, Acting(h.b, h.j + 1));
      }
      PassesStep(s, u, schedule, e.c, e.f);
      schedule := [u] + schedule;
    }
  }

  lemma ActingNotLate(s: System, t: nat, e: Race, g: Stage, h: Stage)
    requires Inv(s, e, g, h) && CanStep(s, t) && g.Acting? && h.Acting?
    ensures !LooksLate(s, t, e.c, e.f) && (if t == 0 then g else h).j < LOAD_ACTS
    ensures g.j <= LOAD_ACTS && h.j <= LOAD_ACTS
  {
    LoadActsAre(e.c, g.b, e.tag0);
    LoadActsAre(e.c, h.b, e.tag1);
  }

  predicate Searching(g: Stage, f: nat) {
    g.Waiting? || (g.Looking? && g.i <= f)
  }

  function Ahead(g: Stage, f: nat): (r: nat)
    requires Searching(g, f)
  {
    if g.Waiting? then f + 1 else f - g.i
  }

  lemma StillSearching(flags: seq<byte>, f: nat, n: nat, g: Stage, h: Stage)
    requires TwoFree(flags, f, n) && Searching(g, f) && !HasMarked(h, f) && (h.Acting? ==> h.b == f)
    ensures var r := StageAfter(g, Marked(flags, g, h));
      if g == Looking(f) then r == Acting(f, 0) else Searching(r, f) && Ahead(r, f) < Ahead(g, f)
  {
  }

  lemma SearchSteps(s: System, t: nat, e: Race, g: Stage, h: Stage)
    requires Inv(s, e, g, h) && t < 2 && Searching(if t == 0 then g else h, e.f)
    ensures CanStep(s, t)
  {
  }

  /** Thread 0 searches until it has chosen block f, then thread 1 does. */
  lemma {:induction false} SearchBoth(s: System, e: Race, g: Stage, h: Stage)
      returns (schedule: seq<nat>)
    requires Inv(s, e, g, h) && Fine(s, e)
    requires (Searching(g, e.f) || g == Acting(e.f, 0)) && (Searching(h, e.f) || h == Acting(e.f, 0))
    ensures CanRun(s, schedule) && Finished(Run(s, schedule)) && !PassesMarked(s, schedule, e.c, e.f)
    decreases (if Searching(g, e.f) then Ahead(g, e.f) + 1 else 0) + if Searching(h, e.f) then Ahead(h, e.f) + 1 else 0
  {
    hide Fine, LooksLate, CanStep;
    if Searching(g, e.f) {
      StillSearching(e.flags, e.f, e.n, g, h);
      SearchSteps(s, 0, e, g, h);
      NeverMarkedNotLate(s, 0, e, g, h);
      Step0(s, e, g, h);
      NextFine(s, 0, e);
      schedule := SearchBoth(Next(s, 0), e, StageAfter(g, s.book(e.c).flags), h);
      PassesStep(s, 0, schedule, e.c, e.f);
      schedule := [0] + schedule;
    } else if Searching(h, e.f) {
      MarkedSwap(e.flags, g, h);
      StillSearching(e.flags, e.f, e.n, h, g);
      SearchSteps(s, 1, e, g, h);
      NeverMarkedNotLate(s, 1, e, g, h);
      Step1(s, e, g, h);
      NextFine(s, 1, e);
      schedule := SearchBoth(Next(s, 1), e, g, StageAfter(h, s.book(e.c).flags));
      PassesStep(s, 1, schedule, e.c, e.f);
      schedule := [1] + schedule;
    } else {
      schedule := FinishBoth(s, e, g, h);
    }
  }

  /** From two loads not yet begun there is a schedule in which both return and only one block more is used:
      one of them is lost. */
  lemma LoadLost(c: nat, tag0: uint32, tag1: uint32, book: nat -> Book, f: nat, n: nat)
    returns (schedule: seq<nat>)
    requires TwoFree(book(c).flags, f, n)
    ensures var s := TwoLoads(c, tag0, tag1, book);
      && CanRun(s, schedule) && Finished(Run(s, schedule))
      && Count(Run(s, schedule).book(c).flags) == Count(book(c).flags) + 1
  {
    var s, flags := TwoLoads(c, tag0, tag1, book), book(c).flags;
    var e := Race(c, tag0, tag1, flags, f, n);
    assert Marked(flags, Waiting, Waiting) == flags;
    assert Inv(s, e, Waiting, Waiting);
    StartFine(c, tag0, tag1, book, e);
    schedule := SearchBoth(s, e, Waiting, Waiting);
    TwoLoadsExact(c, tag0, tag1, book, schedule, f, n);
  }
}
