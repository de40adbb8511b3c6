/** A thread that resizes a cache and then deletes a block of it: the locks of new blocks are what the heap held. */
module Grown {
  import opened Machine
  import opened LockArrays
  import opened Books
  import opened Locks

  /** Cache c with its book at first, the size asked for, the heap, and the block deleted afterwards. */
  datatype Case = Case(c: nat, d: Book, m: uint32, heap: Heap, b: nat)

  function ResizedBook(e: Case): (d: Book) {
    Apply(ResizeTo(e.m, e.heap), e.d)
  }

  function LocksLeft(e: Case): (ls: seq<RwLock>) {
    Fitted(Repeat(|e.d.flags|, UNLOCKED), |ResizedBook(e).flags|, e.heap.locks)
  }

  /** The block is there and its lock is one that nobody seems to hold. */
  predicate Usable(e: Case) {
    e.b < |LocksLeft(e)| && LocksLeft(e)[e.b] == UNLOCKED
  }

  const WORK: nat := 11

  function ResizeActs(e: Case): (p: seq<Act>) {
    [Lock(e.c), Do(e.c, ResizeTo(e.m, e.heap)), Unlock(e.c)]
  }

  function DeleteActs(e: Case): (p: seq<Act>) {
    var k := Key(e.c, e.b);
    [Lock(e.c), Wr(k), Do(e.c, ClearUsed(e.b)), Do(e.c, CountOff), Release(k), Unlock(e.c)]
  }

  /** The thread after j steps. */
  function ThreadAt(e: Case, j: nat): (x: Thread) {
    if j == 0 then Thread(multiset{}, {}, multiset{}, [], [Resize(e.c, e.m, e.heap), Delete(e.c, e.b)])
    else if j <= 4 then
      Thread(if j == 1 || j == 4 then multiset{} else multiset{e.c}, {}, multiset{}, ResizeActs(e)[j - 1..],
             [Delete(e.c, e.b)])
    else if j <= WORK then
      Thread(if j == 5 || j == 11 then multiset{} else multiset{e.c}, if 7 <= j <= 9 then {Key(e.c, e.b)} else {},
             multiset{}, DeleteActs(e)[j - 5..], [])
    else Thread(multiset{}, {}, multiset{}, [], [])
  }

  lemma ResizerGoesOn(e: Case, j: nat)
    requires j <= 4
    ensures var x := ThreadAt(e, j);
      && (x.now == [] <==> j == 0 || j == 4)
      && (x.now == [] ==> x.calls != [] && Begin(x) == ThreadAt(e, j + 1))
      && (x.now != [] ==> x.now[0] == ResizeActs(e)[j - 1] && After(x, []) == ThreadAt(e, j + 1))
  {
    var c := e.c;
    assert Program(Resize(c, e.m, e.heap)) == ResizeActs(e) && Program(Delete(c, e.b)) == DeleteActs(e);
    assert multiset{} + multiset{c} == multiset{c} && multiset{c} - multiset{c} == multiset{};
    assert ResizeActs(e)[0..] == ResizeActs(e) && DeleteActs(e)[0..] == DeleteActs(e);
    assert 1 <= j <= 3 ==> ResizeActs(e)[j - 1..][1..] == ResizeActs(e)[j..];
    assert [Resize(c, e.m, e.heap), Delete(c, e.b)][1..] == [Delete(c, e.b)] && [Delete(c, e.b)][1..] == [];
  }

  lemma DeleterGoesOn(e: Case, j: nat)
    requires 5 <= j < WORK
    ensures var x := ThreadAt(e, j);
      x.now != [] && x.now[0] == DeleteActs(e)[j - 5] && After(x, []) == ThreadAt(e, j + 1)
  {
    var c, k := e.c, Key(e.c, e.b);
    assert multiset{} + multiset{c} == multiset{c} && multiset{c} - multiset{c} == multiset{};
    assert {} + {k} == {k} && {k} - {k} == {};
    assert DeleteActs(e)[j - 5..][1..] == DeleteActs(e)[j - 4..];
  }

  /** After j steps; past the seventh the lock has been taken. */
  ghost predicate At(s: System, e: Case, j: nat) {
    && j <= WORK && s.threads == [ThreadAt(e, j)]
    && (j <= 2 ==> s.book(e.c) == e.d && s.locks(e.c) == Repeat(|e.d.flags|, UNLOCKED))
    && (3 <= j <= 6 ==> s.locks(e.c) == LocksLeft(e))
    && (j >= 7 ==> Usable(e))
  }

  lemma ResizerStep(s: System, e: Case, j: nat)
    requires At(s, e, j) && j <= 4
    ensures CanStep(s, 0) && At(Next(s, 0), e, j + 1)
  {
    ResizerGoesOn(e, j);
    hide ThreadAt, Apply, Fitted, Repeat;
    var r := Next(s, 0);
    assert r.threads == [ThreadAt(e, j + 1)];
  }

  lemma DeleterStep(s: System, e: Case, j: nat)
    requires At(s, e, j) && 5 <= j < WORK
    ensures CanStep(s, 0) <==> j != 6 || Usable(e)
    ensures CanStep(s, 0) ==> At(Next(s, 0), e, j + 1)
  {
    DeleterGoesOn(e, j);
    hide ThreadAt, Apply, Fitted, Repeat, LocksLeft;
    if CanStep(s, 0) {
      var r := Next(s, 0);
      assert r.threads == [ThreadAt(e, j + 1)];
    }
  }

  lemma Finished(s: System, e: Case, j: nat)
    requires At(s, e, j)
    ensures Unfinished(s, 0) <==> j < WORK
  {
    if j <= 4 {
      ResizerGoesOn(e, j);
    } else if j < WORK {
      DeleterGoesOn(e, j);
    }
  }

  lemma FirstStep(s: System, e: Case, j: nat, schedule: seq<nat>)
    requires At(s, e, j) && CanRun(s, schedule) && schedule != []
    ensures schedule[0] == 0 && j < WORK
  {
    hide Next, ThreadAt;
    assert schedule[0] == 0 && Unfinished(s, 0);
    Finished(s, e, j);
  }

  lemma {:induction false} RunAt(s: System, e: Case, j: nat, schedule: seq<nat>) returns (l: nat)
    requires At(s, e, j) && CanRun(s, schedule)
    ensures At(Run(s, schedule), e, l)
    decreases |schedule|
  {
    hide CanStep, Next, At;
    l := j;
    if schedule != [] {
      FirstStep(s, e, j, schedule);
      if j <= 4 {
        ResizerStep(s, e, j);
      } else {
        DeleterStep(s, e, j);
      }
      l := RunAt(Next(s, 0), e, j + 1, schedule[1..]);
    }
  }

  lemma {:induction false} RunOn(s: System, e: Case, j: nat) returns (schedule: seq<nat>)
    requires At(s, e, j) && Usable(e)
    ensures CanRun(s, schedule) && At(Run(s, schedule), e, WORK)
    decreases WORK - j
  {
    hide CanStep, Next;
    schedule := [];
    if j < WORK {
      if j <= 4 {
        ResizerStep(s, e, j);
      } else {
        DeleterStep(s, e, j);
      }
      schedule := RunOn(Next(s, 0), e, j + 1);
      Then(s, 0, schedule);
      schedule := [0] + schedule;
    }
  }

  ghost predicate CanFinish(s: System) {
    exists schedule :: CanRun(s, schedule) && !Unfinished(Run(s, schedule), 0)
  }

  /** A thread that runs alone, resizes a cache and deletes a block of it ever returns from the second call exactly
      when the block is there and, if it is new, the heap happened to show an unlocked lock in its place. */
  lemma GrownExact(e: Case, book: nat -> Book)
    requires book(e.c) == e.d
    ensures CanFinish(Start([[Resize(e.c, e.m, e.heap), Delete(e.c, e.b)]], book))
      <==> e.b < |ResizedBook(e).flags|
           && (|e.d.flags| <= e.b < |e.d.flags| + |e.heap.locks| ==> e.heap.locks[e.b - |e.d.flags|] == UNLOCKED)
  {
    var s := Start([[Resize(e.c, e.m, e.heap), Delete(e.c, e.b)]], book);
    assert At(s, e, 0);
    UsableExact(e);
    hide At, Run, CanRun, Usable, Apply;
    if Usable(e) {
      var schedule := RunOn(s, e, 0);
      Finished(Run(s, schedule), e, WORK);
      assert CanRun(s, schedule) && !Unfinished(Run(s, schedule), 0);
    }
    if schedule :| CanRun(s, schedule) && !Unfinished(Run(s, schedule), 0) {
      var j := RunAt(s, e, 0, schedule);
      Finished(Run(s, schedule), e, j);
      AtLast(Run(s, schedule), e, j);
    }
  }

  lemma AtLast(s: System, e: Case, j: nat)
    requires At(s, e, j) && j >= 7
    ensures Usable(e)
  {
  }

  lemma UsableExact(e: Case)
    ensures Usable(e) <==>
      e.b < |ResizedBook(e).flags|
      && (|e.d.flags| <= e.b < |e.d.flags| + |e.heap.locks| ==> e.heap.locks[e.b - |e.d.flags|] == UNLOCKED)
  {
    hide Apply;
  }

  /** A merge, a resize and the end of a compaction leave the old locks where they are and put what the heap held
      behind them. */
  lemma GrowthLocks(s: System, t: nat, c: nat, k: nat)
    requires CanStep(s, t) && s.threads[t].now != [] && |s.locks(c)| == |s.book(c).flags|
    requires match s.threads[t].now[0]
      case Join(x, _, _, _) => x == c
      case Do(x, e) => x == c && (e.ResizeTo? || e.Shrink?)
      case _ => false
    requires k < |Next(s, t).locks(c)|
    ensures var a := s.threads[t].now[0]; var n := |s.locks(c)|; var found := if a.Join? then a.heap else a.effect.heap;
      && |Next(s, t).locks(c)| == |Next(s, t).book(c).flags|
      && Next(s, t).locks(c)[k] == if k < n then s.locks(c)[k]
                                  else if k - n < |found.locks| then found.locks[k - n] else UNLOCKED
  {
    hide Apply, Joined;
  }
}
