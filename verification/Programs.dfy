/** What each call does when a thread runs it alone and comes to its end: its acts add up to the call on values. */
module Programs {
  import opened Machine
  import opened Slabs
  import opened LockArrays
  import opened Books
  import opened Locks
  import opened Discipline
  import opened Sections
  import opened SingleRuns
  import Calls

  /** What else the call on values takes: the data and the object of a load, the new mapping and the content of the
      heap, the cache merged. */
  datatype Rest = Rest(data: seq<byte>, obj: nat, base: nat, junk: Junk, src: Slab)

  /** The call on values, for a call that changes the tables. */
  function CallFor(op: Op, x: Rest): (c: Option<Calls.Call>) {
    match op
    case Delete(_, b) => Some(Calls.Delete(b))
    case Restore(_, b) => Some(Calls.Restore(b))
    case SetUsed(_, b, use) => Some(Calls.Use(b, use))
    case ResetUsed(_) => Some(Calls.ResetUsed)
    case ClearBlocks(_, which) => Some(Calls.ClearTag(which))
    case ChangeTag(_, from, to) => Some(Calls.ChangeTag(from, to))
    case Load(_, b, tag) => Some(Calls.Add(Some(x.data), Slabs.Access(false, true, false, true), x.obj, b, tag))
    case AddPart(_, b) => Some(Calls.Add(Some(x.data), Slabs.Access(false, true, false, false), x.obj, b, 0))
    case LoadAny(_, tag) =>
      Some(Calls.Add(Some(x.data), Slabs.Access(false, true, false, true), x.obj, ANY_CACHE_BLOCK, tag))
    case Compact(_, _) => Some(Calls.CompactCall(x.base, x.junk))
    case Resize(_, m, _) => Some(Calls.ResizeCall(m, x.base, x.junk))
    case Merge(_, _, tag, _) => Some(Calls.MergeCall(x.src, tag, x.base, x.junk))
    case _ => None
  }

  /** The cache whose tables the call changes or reads. */
  function Main(op: Op): (c: nat) {
    match op
    case Merge(one, _, _, _) => one
    case _ => op.cache
  }

  /** A thread with nothing else to do has run the call and come to its end. */
  ghost predicate Ran(op: Op, book: nat -> Book, schedule: seq<nat>) {
    Ends(Start([[op]], book), schedule)
  }

  function BooksAfter(op: Op, book: nat -> Book, schedule: seq<nat>): (r: nat -> Book)
    requires CanRun(Start([[op]], book), schedule)
  {
    Run(Start([[op]], book), schedule).book
  }

  lemma RanFrom(op: Op, book: nat -> Book, schedule: seq<nat>) returns (s: System)
    requires Ran(op, book, schedule)
    ensures schedule != [] && Solo(s, Program(op)) && s.book == book && Ends(s, schedule[1..])
    ensures BooksAfter(op, book, schedule) == Run(s, schedule[1..]).book
    ensures forall c :: |s.locks(c)| == |book(c).flags|
  {
    var s0 := Start([[op]], book);
    assert Unfinished(s0, 0);
    assert schedule[0] == 0;
    s := Next(s0, 0);
    assert [op][1..] == [];
  }

  // ---- Calls on one block ----

  lemma {:induction false} NoEffects(p: seq<Act>, book: nat -> Book)
    requires forall i :: 0 <= i < |p| ==> !p[i].Do? && !p[i].Join?
    ensures Effects(p, book) == book
  {
    if p != [] {
      NoEffects(p[1..], BookAfter(book, p[0]));
      assert !p[0].Do? && !p[0].Join?;
    }
  }

  /** Lock calls around assignments. */
  lemma FramedEffects(p: seq<Act>, body: seq<Act>, q: seq<Act>, book: nat -> Book)
    requires forall i :: 0 <= i < |p| ==> !p[i].Do? && !p[i].Join?
    requires forall i :: 0 <= i < |q| ==> !q[i].Do? && !q[i].Join?
    ensures Effects(p + body + q, book) == Effects(body, book)
  {
    EffectsConcat(p + body, q, book);
    EffectsConcat(p, body, book);
    NoEffects(p, book);
    NoEffects(q, Effects(body, book));
  }

  lemma OneEffect(c: nat, e: Effect, book: nat -> Book)
    ensures Effects([Do(c, e)], book) == Put(book, c, Apply(e, book(c)))
  {
    assert [Do(c, e)][1..] == [];
  }

  /** Two assignments to one cache. */
  lemma TwoEffects(c: nat, e: Effect, f: Effect, book: nat -> Book)
    ensures var r := Effects([Do(c, e), Do(c, f)], book);
      forall x :: r(x) == if x == c then Both(e, f, book(c)) else book(x)
  {
    hide Apply;
    EffectsConcat([Do(c, e)], [Do(c, f)], book);
    assert [Do(c, e)] + [Do(c, f)] == [Do(c, e), Do(c, f)];
    OneEffect(c, e, book);
    OneEffect(c, f, Effects([Do(c, e)], book));
  }

  /** A call on block b: the block is there, and the books are those after its assignments. */
  lemma BlockRan(op: Op, k: Key, take: Act, body: seq<Act>, book: nat -> Book, schedule: seq<nat>)
    requires Ran(op, book, schedule) && Program(op) == OnBlock(k, take, body) && (take == Wr(k) || take == Rd(k))
    requires Straight(body) && Steady(body)
    ensures k.block < |book(k.cache).flags| && BooksAfter(op, book, schedule) == Effects(body, book)
  {
    hide Program, Ends, Effects, CanRun, Run;
    var p, q := [Lock(k.cache), take], [Release(k), Unlock(k.cache)];
    var all := p + body + q;
    assert OnBlock(k, take, body) == all;
    var s := RanFrom(op, book, schedule);
    assert Straight(all) && Steady(all) && all[1] == take;
    StraightRun(s, all, schedule[1..]);
    NamesBlocks(s, all, schedule[1..], 1);
    FramedEffects(p, body, q, book);
  }

  /** The books after the call, of the cache it is about and of all others. */
  ghost predicate Leaves(r: nat -> Book, book: nat -> Book, c: nat, t: Slab) {
    Tells(r(c), t) && forall x :: x != c ==> r(x) == book(x)
  }

  lemma DeleteDoes(c: nat, b: nat, book: nat -> Book, schedule: seq<nat>, s: Slab)
    requires Ran(Delete(c, b), book, schedule) && Shape(s) && Tells(book(c), s)
    ensures b < s.n && Leaves(BooksAfter(Delete(c, b), book, schedule), book, c, DeleteBlock(s, b).value.0)
  {
    BlockRan(Delete(c, b), Key(c, b), Wr(Key(c, b)), [Do(c, ClearUsed(b)), Do(c, CountOff)], book, schedule);
    TwoEffects(c, ClearUsed(b), CountOff, book);
    DeleteSection(book(c), s, b);
  }

  lemma RestoreDoes(c: nat, b: nat, book: nat -> Book, schedule: seq<nat>, s: Slab)
    requires Ran(Restore(c, b), book, schedule) && Shape(s) && Tells(book(c), s)
    ensures b < s.n && Leaves(BooksAfter(Restore(c, b), book, schedule), book, c, RestoreBlock(s, b).value.0)
  {
    BlockRan(Restore(c, b), Key(c, b), Wr(Key(c, b)), [Do(c, RestoreFlag(b)), Do(c, CountOn)], book, schedule);
    TwoEffects(c, RestoreFlag(b), CountOn, book);
    RestoreSection(book(c), s, b);
  }

  lemma LoadDoes(c: nat, b: nat, tag: uint32, book: nat -> Book, schedule: seq<nat>, s: Slab, x: Rest)
    requires Ran(Load(c, b, tag), book, schedule) && Shape(s) && Tells(book(c), s)
    ensures b < s.n
    ensures var r := AddBlock(s, Some(x.data), Slabs.Access(false, true, false, true), x.obj, b, tag);
      r.Done? ==> Leaves(BooksAfter(Load(c, b, tag), book, schedule), book, c, r.value.0)
  {
    BlockRan(Load(c, b, tag), Key(c, b), Wr(Key(c, b)), [Do(c, CountLoad(b)), Do(c, MarkLoaded(b, tag))], book,
             schedule);
    TwoEffects(c, CountLoad(b), MarkLoaded(b, tag), book);
    if AddBlock(s, Some(x.data), Slabs.Access(false, true, false, true), x.obj, b, tag).Done? {
      LoadSection(book(c), s, b, tag, x.data, x.obj);
    }
  }

  lemma PartDoes(c: nat, b: nat, book: nat -> Book, schedule: seq<nat>, s: Slab, x: Rest)
    requires Ran(AddPart(c, b), book, schedule) && Shape(s) && Tells(book(c), s)
    ensures b < s.n
    ensures var r := AddBlock(s, Some(x.data), Slabs.Access(false, true, false, false), x.obj, b, 0);
      r.Done? ==> Leaves(BooksAfter(AddPart(c, b), book, schedule), book, c, r.value.0)
  {
    BlockRan(AddPart(c, b), Key(c, b), Wr(Key(c, b)), [Do(c, CountPart(b))], book, schedule);
    OneEffect(c, CountPart(b), book);
    if AddBlock(s, Some(x.data), Slabs.Access(false, true, false, false), x.obj, b, 0).Done? {
      PartSection(book(c), s, b, 0, x.data, x.obj);
    }
  }

  /** Locking a block changes no table. */
  lemma LockDoes(op: Op, book: nat -> Book, schedule: seq<nat>)
    requires (op.Access? || op.LockBlock?) && Ran(op, book, schedule)
    ensures op.block < |book(op.cache).flags| && BooksAfter(op, book, schedule) == book
  {
    var k := Key(op.cache, op.block);
    BlockRan(op, k, Program(op)[1], [], book, schedule);
  }

  // ---- Calls on a whole cache ----

  lemma MutexRan(op: Op, c: nat, body: seq<Act>, book: nat -> Book, schedule: seq<nat>)
    requires Ran(op, book, schedule) && Program(op) == UnderMutex(c, body) && Straight(body)
    ensures BooksAfter(op, book, schedule) == Effects(body, book)
  {
    hide Program, Ends, Effects, CanRun, Run;
    var s := RanFrom(op, book, schedule);
    var all := [Lock(c)] + body + [Unlock(c)];
    assert UnderMutex(c, body) == all && Straight(all);
    StraightRun(s, all, schedule[1..]);
    FramedEffects([Lock(c)], body, [Unlock(c)], book);
  }

  lemma SetUsedDoes(c: nat, b: nat, use: bool, book: nat -> Book, schedule: seq<nat>, s: Slab)
    requires Ran(SetUsed(c, b, use), book, schedule) && Shape(s) && Tells(book(c), s)
    ensures b < s.n && Leaves(BooksAfter(SetUsed(c, b, use), book, schedule), book, c, Slabs.SetUsed(s, b, use).value)
  {
    var op, e, f := SetUsed(c, b, use), if use then Remark(b) else Unmark(b), if use then CountOn else CountOff;
    var two := [Do(c, e), Do(c, f)];
    assert Program(op) == UnderMutex(c, [Check(Key(c, b))] + two);
    CheckedRan(op, c, b, two, book, schedule);
    TwoEffects(c, e, f, book);
    SetUsedSection(book(c), s, b, use);
  }

  lemma CheckedRan(op: Op, c: nat, b: nat, body: seq<Act>, book: nat -> Book, schedule: seq<nat>)
    requires Ran(op, book, schedule) && Program(op) == UnderMutex(c, [Check(Key(c, b))] + body)
    requires Straight(body) && Steady(body)
    ensures b < |book(c).flags| && BooksAfter(op, book, schedule) == Effects(body, book)
  {
    hide Program, Ends, Effects, CanRun, Run;
    var s := RanFrom(op, book, schedule);
    var p := [Lock(c), Check(Key(c, b))];
    var all := p + body + [Unlock(c)];
    assert UnderMutex(c, [Check(Key(c, b))] + body) == all && Straight(all) && Steady(all) && all[1] == p[1];
    StraightRun(s, all, schedule[1..]);
    NamesBlocks(s, all, schedule[1..], 1);
    FramedEffects(p, body, [Unlock(c)], book);
  }

  lemma ResetDoes(c: nat, book: nat -> Book, schedule: seq<nat>, s: Slab)
    requires Ran(ResetUsed(c), book, schedule) && Shape(s) && Tells(book(c), s)
    ensures Leaves(BooksAfter(ResetUsed(c), book, schedule), book, c, s.(used := 0))
  {
    MutexRan(ResetUsed(c), c, [Do(c, Reset)], book, schedule);
    OneEffect(c, Reset, book);
  }

  lemma CompactDoes(c: nat, heap: Heap, book: nat -> Book, schedule: seq<nat>, s: Slab, x: Rest)
    requires Ran(Compact(c, heap), book, schedule) && Shape(s) && Tells(book(c), s) && s.public
    requires Exposes(x.junk, s, ShrinkSize(s.n, s.used)) && SameHeap(heap, x.junk, ShrinkSize(s.n, s.used) - s.n)
    ensures Leaves(BooksAfter(Compact(c, heap), book, schedule), book, c,
                   Slabs.Compact(s, x.base, x.junk).value.0)
  {
    MutexRan(Compact(c, heap), c, [Do(c, Pack), Do(c, Shrink(heap))], book, schedule);
    TwoEffects(c, Pack, Shrink(heap), book);
    CompactSection(book(c), s, heap, x.base, x.junk);
  }

  lemma ResizeDoes(c: nat, m: uint32, heap: Heap, book: nat -> Book, schedule: seq<nat>, s: Slab, x: Rest)
    requires Ran(Resize(c, m, heap), book, schedule) && Shape(s) && Tells(book(c), s) && m > 0
    requires Exposes(x.junk, s, m) && SameHeap(heap, x.junk, m - s.n)
    ensures Leaves(BooksAfter(Resize(c, m, heap), book, schedule), book, c, Slabs.Resize(s, m, x.base, x.junk).value)
  {
    MutexRan(Resize(c, m, heap), c, [Do(c, ResizeTo(m, heap))], book, schedule);
    OneEffect(c, ResizeTo(m, heap), book);
    ResizeSection(book(c), s, m, heap, x.base, x.junk);
  }

  // ---- Loops ----

  /** A loop under the mutex. */
  lemma LoopRan(op: Op, c: nat, visit: Visit, book: nat -> Book, schedule: seq<nat>)
    requires Ran(op, book, schedule) && Program(op) == UnderMutex(c, [Each(c, visit, 0)]) && !visit.FindFree?
    ensures BooksAfter(op, book, schedule) == Rounds(c, visit, 0, book)
  {
    hide Program, Ends, Effects, CanRun, Run, Rounds;
    var s := RanFrom(op, book, schedule);
    var pre, rest := [Lock(c)], [Unlock(c)];
    assert UnderMutex(c, [Each(c, visit, 0)]) == pre + ([Each(c, visit, 0)] + rest);
    LoopRun(s, pre, c, visit, 0, rest, schedule[1..]);
    NoEffects(pre, book);
    NoEffects(rest, Rounds(c, visit, 0, book));
  }

  lemma {:induction false} ClearRounds(c: nat, which: uint32, i: nat, book: nat -> Book)
    ensures var r := Rounds(c, ClearTag(which), i, book);
      forall x :: r(x) == if x == c then ClearFrom(which, book(c), i) else book(x)
    decreases |book(c).flags| - i
  {
    if i < |book(c).flags| {
      var p := Body(c, ClearTag(which), i);
      SameSize(p, book, c);
      TwoEffects(c, ClearTagged(i, which), CountOff, book);
      ClearRounds(c, which, i + 1, Effects(p, book));
    }
  }

  lemma ClearDoes(c: nat, which: uint32, book: nat -> Book, schedule: seq<nat>, s: Slab)
    requires Ran(ClearBlocks(c, which), book, schedule) && Shape(s) && Tells(book(c), s)
    ensures Leaves(BooksAfter(ClearBlocks(c, which), book, schedule), book, c, Clear(s, which).0)
  {
    LoopRan(ClearBlocks(c, which), c, ClearTag(which), book, schedule);
    ClearRounds(c, which, 0, book);
    ClearSection(book(c), s, which, 0);
  }

  lemma {:induction false} ChangeRounds(c: nat, from: uint32, to: uint32, i: nat, book: nat -> Book)
    ensures var r := Rounds(c, ChangeFrom(from, to), i, book);
      forall x :: r(x) == if x == c then ChangeAllFrom(from, to, book(c), i) else book(x)
    decreases |book(c).flags| - i
  {
    if i < |book(c).flags| {
      var k, e := Key(c, i), Books.Retag(i, from, to);
      var p := Body(c, ChangeFrom(from, to), i);
      SameSize(p, book, c);
      assert p == [Wr(k)] + [Do(c, e)] + [Release(k)];
      FramedEffects([Wr(k)], [Do(c, e)], [Release(k)], book);
      OneEffect(c, e, book);
      ChangeRounds(c, from, to, i + 1, Effects(p, book));
    }
  }

  lemma ChangeDoes(c: nat, from: uint32, to: uint32, book: nat -> Book, schedule: seq<nat>, s: Slab)
    requires Ran(ChangeTag(c, from, to), book, schedule) && Shape(s) && Tells(book(c), s)
    ensures Leaves(BooksAfter(ChangeTag(c, from, to), book, schedule), book, c, Slabs.Retag(s, from, to).0)
  {
    LoopRan(ChangeTag(c, from, to), c, ChangeFrom(from, to), book, schedule);
    ChangeRounds(c, from, to, 0, book);
    RetagSection(book(c), s, from, to, 0);
  }

  lemma {:induction false} ListRounds(c: nat, i: nat, book: nat -> Book)
    ensures Rounds(c, ListTags, i, book) == book
    decreases |book(c).flags| - i
  {
    if i < |book(c).flags| {
      SameSize(Body(c, ListTags, i), book, c);
      NoEffects(Body(c, ListTags, i), book);
      ListRounds(c, i + 1, book);
    }
  }

  /** Listing tags changes no table. */
  lemma ListDoes(c: nat, book: nat -> Book, schedule: seq<nat>)
    requires Ran(TagStats(c), book, schedule)
    ensures BooksAfter(TagStats(c), book, schedule) == book
  {
    hide Ends, CanRun, Run, Rounds;
    var s := RanFrom(TagStats(c), book, schedule);
    assert Program(TagStats(c)) == [] + ([Each(c, ListTags, 0)] + []);
    LoopRun(s, [], c, ListTags, 0, [], schedule[1..]);
    ListRounds(c, 0, book);
  }

  // ---- The search, and merges ----

  lemma FoundEffects(c: nat, b: nat, tag: uint32, book: nat -> Book)
    ensures Effects(LoadActs(c, b, tag), book) == Put(book, c, Apply(MarkFound(b, tag), book(c)))
  {
    var k, body := Key(c, b), [Do(c, MarkFound(b, tag))];
    assert LoadActs(c, b, tag) == [Lock(c), Wr(k)] + body + [Release(k), Unlock(c), Unlock(c)];
    FramedEffects([Lock(c), Wr(k)], body, [Release(k), Unlock(c), Unlock(c)], book);
    OneEffect(c, MarkFound(b, tag), book);
  }

  lemma LoadAnyDoes(c: nat, tag: uint32, book: nat -> Book, schedule: seq<nat>, s: Slab, x: Rest)
    requires Ran(LoadAny(c, tag), book, schedule) && Shape(s) && Tells(book(c), s)
    requires AddBlock(s, Some(x.data), Slabs.Access(false, true, false, true), x.obj, ANY_CACHE_BLOCK, tag).Done?
    ensures Leaves(BooksAfter(LoadAny(c, tag), book, schedule), book, c,
      AddBlock(s, Some(x.data), Slabs.Access(false, true, false, true), x.obj, ANY_CACHE_BLOCK, tag).value.0)
  {
    hide Ends, CanRun, Run, Effects;
    var y := RanFrom(LoadAny(c, tag), book, schedule);
    assert Program(LoadAny(c, tag)) == [Each(c, FindFree(tag), 0)];
    FindRun(y, c, tag, 0, schedule[1..]);
    FoundEffects(c, FirstFree(s.flags, 0), tag, book);
    LoadAnySection(book(c), s, tag, x.data, x.obj);
  }

  lemma MergeRan(a: nat, b: nat, tag: uint32, heap: Heap, book: nat -> Book, schedule: seq<nat>)
    requires Ran(Merge(a, b, tag, heap), book, schedule)
    ensures BooksAfter(Merge(a, b, tag, heap), book, schedule) == Put(book, a, Joined(book(a), book(b), tag))
  {
    hide Ends, CanRun, Run, Joined;
    var op, act := Merge(a, b, tag, heap), Join(a, b, tag, heap);
    var y := RanFrom(op, book, schedule);
    var p, q := [Lock(a), Lock(b), Lock(a), Unlock(a)], [Unlock(a), Unlock(b)];
    assert Program(op) == p + [act] + q && Straight(Program(op));
    hide Program;
    StraightRun(y, p + [act] + q, schedule[1..]);
    FramedEffects(p, [act], q, book);
    assert [act][1..] == [];
  }

  lemma MergeDoes(a: nat, b: nat, tag: uint32, heap: Heap, book: nat -> Book, schedule: seq<nat>, s: Slab, x: Rest)
    requires Ran(Merge(a, b, tag, heap), book, schedule)
    requires Shape(s) && Tells(book(a), s) && Shape(x.src) && Tells(book(b), x.src)
    requires s.n + x.src.n < U32 && Exposes(x.junk, s, s.n + x.src.n)
    requires Slabs.Merge(s, x.src, tag, x.base, x.junk).Done?
    ensures Leaves(BooksAfter(Merge(a, b, tag, heap), book, schedule), book, a,
                   Slabs.Merge(s, x.src, tag, x.base, x.junk).value.0)
  {
    hide Ran, BooksAfter, Joined, Slabs.Merge;
    MergeRan(a, b, tag, heap, book, schedule);
    MergeSection(book(a), book(b), s, x.src, tag, x.base, x.junk);
  }

  // ---- Every call ----

  /** The heap that the call finds is that of the call on values, and cache 2 of a merge is as it says. */
  ghost predicate Agrees(op: Op, x: Rest, book: nat -> Book, s: Slab) {
    match op
    case Compact(_, heap) => s.public && SameHeap(heap, x.junk, ShrinkSize(s.n, s.used) - s.n)
    case Resize(_, m, heap) => m > 0 && SameHeap(heap, x.junk, m - s.n)
    case Merge(_, two, _, _) => Tells(book(two), x.src)
    case _ => true
  }

  predicate NamesBlock(op: Op) {
    op.Delete? || op.Restore? || op.SetUsed? || op.Access? || op.LockBlock? || op.Load? || op.AddPart?
  }

  /** The books after the call are those of the call on values, if it has one and that returns. */
  ghost predicate Does(op: Op, x: Rest, book: nat -> Book, schedule: seq<nat>, s: Slab)
    requires Ran(op, book, schedule) && Shape(s)
    requires CallFor(op, x).Some? ==> Calls.Feasible(s, CallFor(op, x).value)
  {
    match CallFor(op, x)
    case None => BooksAfter(op, book, schedule) == book
    case Some(call) =>
      Calls.Step(s, call).Done? ==> Leaves(BooksAfter(op, book, schedule), book, Main(op), Calls.Step(s, call).value)
  }

  lemma BlockCallDoes(op: Op, x: Rest, book: nat -> Book, schedule: seq<nat>, s: Slab)
    requires NamesBlock(op) && Ran(op, book, schedule) && Shape(s) && Tells(book(Main(op)), s)
    ensures Does(op, x, book, schedule, s) && op.block < s.n
  {
    hide Ran, BooksAfter, Program, Leaves;
    match op
    case Delete(c, b) => DeleteDoes(c, b, book, schedule, s);
    case Restore(c, b) => RestoreDoes(c, b, book, schedule, s);
    case SetUsed(c, b, use) => SetUsedDoes(c, b, use, book, schedule, s);
    case Access(_, _, _) => LockDoes(op, book, schedule);
    case LockBlock(_, _, _) => LockDoes(op, book, schedule);
    case Load(c, b, tag) => LoadDoes(c, b, tag, book, schedule, s, x);
    case AddPart(c, b) => PartDoes(c, b, book, schedule, s, x);
  }

  lemma CacheCallDoes(op: Op, x: Rest, book: nat -> Book, schedule: seq<nat>, s: Slab)
    requires Fits(op) && !NamesBlock(op)
    requires Ran(op, book, schedule) && Shape(s) && Tells(book(Main(op)), s) && Agrees(op, x, book, s)
    requires CallFor(op, x).Some? ==> Calls.Feasible(s, CallFor(op, x).value)
    ensures Does(op, x, book, schedule, s)
  {
    hide Ran, BooksAfter, Program, Leaves, AddBlock, Slabs.Merge, Slabs.Compact, Slabs.Resize;
    match op
    case ResetUsed(c) => ResetDoes(c, book, schedule, s);
    case ClearBlocks(c, which) => ClearDoes(c, which, book, schedule, s);
    case ChangeTag(c, from, to) => ChangeDoes(c, from, to, book, schedule, s);
    case TagStats(c) => ListDoes(c, book, schedule);
    case LoadAny(c, tag) =>
      if Calls.Step(s, CallFor(op, x).value).Done? {
        LoadAnyDoes(c, tag, book, schedule, s, x);
      }
    case Compact(c, heap) => CompactDoes(c, heap, book, schedule, s, x);
    case Resize(c, m, heap) => ResizeDoes(c, m, heap, book, schedule, s, x);
    case Merge(a, b, tag, heap) =>
      if Calls.Step(s, CallFor(op, x).value).Done? {
        MergeDoes(a, b, tag, heap, book, schedule, s, x);
      }
  }

  /** A thread that runs a fitting call alone, to its end: the call was not one that is refused for its block, and
      the tables and the counter of its cache are then those of the call on values, if that one returns; all other
      caches are as before. A call that has none on values changes nothing. */
  lemma ProgramExact(op: Op, x: Rest, book: nat -> Book, schedule: seq<nat>, s: Slab)
    requires Fits(op) && Ran(op, book, schedule) && Shape(s) && Tells(book(Main(op)), s) && Agrees(op, x, book, s)
    requires CallFor(op, x).Some? ==> Calls.Feasible(s, CallFor(op, x).value)
    ensures Does(op, x, book, schedule, s)
    ensures NamesBlock(op) ==> op.block < s.n
  {
    hide Ran, Does, Tells, Agrees;
    if NamesBlock(op) {
      BlockCallDoes(op, x, book, schedule, s);
    } else {
      CacheCallDoes(op, x, book, schedule, s);
    }
  }
}
