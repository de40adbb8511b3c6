/** The books after a thread has run a list of acts alone, to the end. */
module SingleRuns {
  import opened Machine
  import opened Slabs
  import opened LockArrays
  import opened Books
  import opened Locks
  import opened Discipline

  // ---- Acts in a row ----

  function Effects(p: seq<Act>, book: nat -> Book): (r: nat -> Book) {
    if p == [] then book else Effects(p[1..], BookAfter(book, p[0]))
  }

  lemma {:induction false} EffectsConcat(p: seq<Act>, q: seq<Act>, book: nat -> Book)
    ensures Effects(p + q, book) == Effects(q, Effects(p, book))
  {
    if p == [] {
      assert p + q == q;
    } else {
      EffectsConcat(p[1..], q, BookAfter(book, p[0]));
      assert (p + q)[0] == p[0] && (p + q)[1..] == p[1..] + q;
    }
  }

  predicate Straight(p: seq<Act>) {
    forall i :: 0 <= i < |p| ==> !p[i].Each?
  }

  /** No act changes the number of blocks of a cache or rearranges its tables. */
  predicate Steady(p: seq<Act>) {
    forall i :: 0 <= i < |p| ==> !p[i].Join? && (p[i].Do? ==> !Reshapes(p[i].effect))
  }

  /** The one thread of s has acts p left of its last call. */
  ghost predicate Solo(s: System, p: seq<Act>) {
    |s.threads| == 1 && s.threads[0].now == p && s.threads[0].calls == []
  }

  ghost predicate Ends(s: System, schedule: seq<nat>) {
    CanRun(s, schedule) && |s.threads| == 1 && !Unfinished(Run(s, schedule), 0)
  }

  lemma EndsNext(s: System, p: seq<Act>, schedule: seq<nat>)
    requires Solo(s, p) && Ends(s, schedule)
    ensures p == [] <==> schedule == []
    ensures p != [] ==>
      && schedule[0] == 0 && CanStep(s, 0) && Ends(Next(s, 0), schedule[1..])
      && Run(s, schedule) == Run(Next(s, 0), schedule[1..])
      && Next(s, 0).book == BookAfter(s.book, p[0])
      && (!p[0].Each? ==> Solo(Next(s, 0), p[1..]))
      && (p[0].Each? ==> Next(s, 0).threads == [After(s.threads[0], s.book(p[0].cache).flags)])
  {
    if schedule != [] {
      assert schedule[0] == 0;
    }
  }

  lemma {:induction false} StraightRun(s: System, p: seq<Act>, schedule: seq<nat>)
    requires Solo(s, p) && Straight(p) && Ends(s, schedule)
    ensures Run(s, schedule).book == Effects(p, s.book)
    decreases |schedule|
  {
    hide Next, CanStep, Unfinished;
    EndsNext(s, p, schedule);
    if p != [] {
      assert Straight(p[1..]);
      StraightRun(Next(s, 0), p[1..], schedule[1..]);
    }
  }

  predicate Needs(a: Act) {
    a.Wr? || a.Rd? || a.Check?
  }

  /** A thread that comes to the end has named blocks that are there. */
  lemma {:induction false} NamesBlocks(s: System, p: seq<Act>, schedule: seq<nat>, i: nat)
    requires Solo(s, p) && Straight(p) && Steady(p) && Ends(s, schedule) && i < |p| && Needs(p[i])
    ensures InRange(s, p[i].key)
    decreases |schedule|
  {
    hide Next, Unfinished, BookAfter;
    EndsNext(s, p, schedule);
    if i > 0 {
      assert Straight(p[1..]) && Steady(p[1..]);
      NamesBlocks(Next(s, 0), p[1..], schedule[1..], i - 1);
      NextArray(s, 0, p[i].key.cache);
    }
  }

  // ---- Loops ----

  /** The assignments of one round. */
  function Body(c: nat, visit: Visit, i: nat): (p: seq<Act>) {
    var k := Key(c, i);
    match visit
    case ClearTag(which) => [Do(c, ClearTagged(i, which)), Do(c, CountOff)]
    case ChangeFrom(from, to) => [Wr(k), Do(c, Books.Retag(i, from, to)), Release(k)]
    case ListTags => [Rd(k), Release(k)]
    case FindFree(_) => []
  }

  lemma {:induction false} SameSize(p: seq<Act>, book: nat -> Book, c: nat)
    requires Steady(p)
    ensures |Effects(p, book)(c).flags| == |book(c).flags|
  {
    if p != [] {
      assert Steady(p[1..]);
      SameSize(p[1..], BookAfter(book, p[0]), c);
      KeepsSize(p[0], book, c);
    }
  }

  lemma KeepsSize(a: Act, book: nat -> Book, c: nat)
    requires !a.Join? && (a.Do? ==> !Reshapes(a.effect))
    ensures |BookAfter(book, a)(c).flags| == |book(c).flags|
  {
  }

  /** The books after a loop from block i on. */
  function Rounds(c: nat, visit: Visit, i: nat, book: nat -> Book): (r: nat -> Book)
    decreases |book(c).flags| - i
  {
    if i >= |book(c).flags| then book
    else
      SameSize(Body(c, visit, i), book, c);
      Rounds(c, visit, i + 1, Effects(Body(c, visit, i), book))
  }

  lemma RoundStep(s: System, c: nat, visit: Visit, i: nat, rest: seq<Act>)
    requires Solo(s, [Each(c, visit, i)] + rest) && !visit.FindFree?
    ensures After(s.threads[0], s.book(c).flags).calls == []
    ensures After(s.threads[0], s.book(c).flags).now
         == if i < |s.book(c).flags| then Body(c, visit, i) + ([Each(c, visit, i + 1)] + rest) else rest
  {
  }

  /** A thread that has acts pre left of a round, then the loop from block i on, and then rest. */
  lemma {:induction false} LoopRun(s: System, pre: seq<Act>, c: nat, visit: Visit, i: nat, rest: seq<Act>,
                                   schedule: seq<nat>)
    requires Solo(s, pre + ([Each(c, visit, i)] + rest)) && !visit.FindFree?
    requires Straight(pre) && Straight(rest) && Ends(s, schedule)
    ensures Run(s, schedule).book == Effects(rest, Rounds(c, visit, i, Effects(pre, s.book)))
    decreases |schedule|
  {
    hide Next, CanStep, Unfinished, After, Body;
    var p := pre + ([Each(c, visit, i)] + rest);
    EndsNext(s, p, schedule);
    if pre != [] {
      assert p[0] == pre[0] && p[1..] == pre[1..] + ([Each(c, visit, i)] + rest) && Straight(pre[1..]);
      LoopRun(Next(s, 0), pre[1..], c, visit, i, rest, schedule[1..]);
    } else {
      assert p == [Each(c, visit, i)] + rest;
      RoundStep(s, c, visit, i, rest);
      if i < |s.book(c).flags| {
        StraightBody(c, visit, i);
        LoopRun(Next(s, 0), Body(c, visit, i), c, visit, i + 1, rest, schedule[1..]);
      } else {
        StraightRun(Next(s, 0), rest, schedule[1..]);
      }
    }
  }

  lemma StraightBody(c: nat, visit: Visit, i: nat)
    ensures Straight(Body(c, visit, i)) && Steady(Body(c, visit, i))
  {
  }

  /** A load into any block: the search ends at the first free block, if there is one. */
  lemma {:induction false} FindRun(s: System, c: nat, tag: uint32, i: nat, schedule: seq<nat>)
    requires Solo(s, [Each(c, FindFree(tag), i)]) && i <= |s.book(c).flags| && Ends(s, schedule)
    ensures var f := FirstFree(s.book(c).flags, i);
      Run(s, schedule).book == if f < |s.book(c).flags| then Effects(LoadActs(c, f, tag), s.book) else s.book
    decreases |schedule|
  {
    hide Next, CanStep, Unfinished;
    EndsNext(s, [Each(c, FindFree(tag), i)], schedule);
    var flags := s.book(c).flags;
    assert LoadActs(c, i, tag) + [] == LoadActs(c, i, tag);
    assert [Each(c, FindFree(tag), i + 1)] + [] == [Each(c, FindFree(tag), i + 1)];
    if i >= |flags| {
      StraightRun(Next(s, 0), [], schedule[1..]);
    } else if Used(flags[i]) {
      FindRun(Next(s, 0), c, tag, i + 1, schedule[1..]);
    } else {
      StraightRun(Next(s, 0), LoadActs(c, i, tag), schedule[1..]);
    }
  }
}
