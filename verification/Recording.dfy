/** When a cache's mapinfo file can be written: after a change of size only if it left one block. */
module Recording {
  import opened Machine
  import opened Slabs
  import opened Calls
  import opened Accounting
  import opened Compaction
  import opened Persist

  ghost predicate SameRecords(s: Slab, t: Slab) {
    t.lifetime == s.lifetime && t.hubness == s.hubness && t.binding == s.binding
  }

  lemma {:induction false} ClearRecords(s: Slab, which: uint32, i: nat)
    requires Shape(s) && i <= s.n
    ensures SameRecords(s, ClearTo(s, which, i).0)
  {
    if i > 0 {
      ClearRecords(s, which, i - 1);
    }
  }

  lemma {:induction false} MergeRecords(d: Slab, t: Slab, at: nat, tag: uint32, k: nat)
    requires Shape(d) && Shape(t) && at + k <= d.n && k <= t.n && MergeTo(d, t, at, tag, k).Done?
    ensures SameRecords(d, MergeTo(d, t, at, tag, k).value)
  {
    if k > 0 {
      MergeRecords(d, t, at, tag, k - 1);
    }
  }

  /** The records of the new state are those of the old, or as a resize to the new size left them. */
  ghost predicate RecordsAfter(s: Slab, t: Slab)
    requires Shape(s)
  {
    if t.n == s.n then SameRecords(s, t)
    else |t.lifetime| == t.n > 0 && t.hubness == s.hubness && t.binding == s.binding
  }

  lemma AddRecords(s: Slab, data: Option<seq<byte>>, access: Access, obj: nat, block: int, tag: uint32)
    requires Shape(s) && AddBlock(s, data, access, obj, block, tag).Done?
    ensures RecordsAfter(s, AddBlock(s, data, access, obj, block, tag).value.0)
  {
  }

  lemma CompactRecords(s: Slab, base: nat, junk: Junk)
    requires Shape(s) && Exposes(junk, s, ShrinkSize(s.n, s.used))
    ensures RecordsAfter(s, Compact(s, base, junk).value.0)
  {
    WalkFrame(s, s.n);
  }

  lemma AppendRecords(d: Slab, t: Slab, at: nat, tag: uint32)
    requires Shape(d) && Shape(t) && d.n == at + t.n && MergeBlocks(d, t, at, tag).Done?
    ensures SameRecords(d, MergeBlocks(d, t, at, tag).value.0) && MergeBlocks(d, t, at, tag).value.0.n == d.n
  {
    MergeRecords(d, t, at, tag, t.n);
  }

  lemma MergeCallRecords(s: Slab, t: Slab, tag: uint32, base: nat, junk: Junk)
    requires Shape(s) && Shape(t) && s.n + t.n < U32 && Exposes(junk, s, s.n + t.n)
    requires Merge(s, t, tag, base, junk).Done?
    ensures RecordsAfter(s, Merge(s, t, tag, base, junk).value.0)
  {
    MergeIsAppend(s, t, tag, base, junk);
    AppendRecords(Grown(s, t, base, junk), t, s.n, tag);
  }

  /** One call keeps the records, or changes the size and leaves one word a block of the lifetimes. */
  lemma StepRecords(s: Slab, c: Call)
    requires Shape(s) && Feasible(s, c) && Step(s, c).Done?
    ensures RecordsAfter(s, Step(s, c).value)
  {
    match c
    case Add(data, access, obj, block, tag) => AddRecords(s, data, access, obj, block, tag);
    case Delete(k) =>
    case Restore(k) =>
    case Use(k, use) =>
    case ResetUsed =>
    case ClearTag(which) => ClearRecords(s, which, s.n);
    case ChangeTag(a, b) =>
    case SetTag(tag, k) =>
    case CompactCall(base, junk) => CompactRecords(s, base, junk);
    case ResizeCall(m, base, junk) =>
    case MergeCall(src, tag, base, junk) => MergeCallRecords(s, src, tag, base, junk);
  }

  /** Some call of the run changes the number of blocks. */
  ghost predicate ChangesSize(s: Slab, calls: seq<Call>)
    requires Shape(s) && FeasibleRun(s, calls) && Run(s, calls).Done?
    decreases |calls|
  {
    calls != [] &&
    (Step(s, calls[0]).value.n != s.n || ChangesSize(Step(s, calls[0]).value, calls[1..]))
  }

  /** The array bounds of hubness and binding, which no call changes. */
  predicate Annotated(s: Slab, n: nat) {
    |s.hubness| >= n && |s.binding| >= n
  }

  /** After a run that changed the size, even if a later call changed it back, the mapinfo file can be written
      exactly when the last change left one block; after any other run, exactly when it could before. */
  lemma {:induction false} RecordableRun(s: Slab, calls: seq<Call>)
    requires Shape(s) && FeasibleRun(s, calls) && Run(s, calls).Done?
    ensures var t := Run(s, calls).value;
      && t.hubness == s.hubness && t.binding == s.binding
      && (if ChangesSize(s, calls) then |t.lifetime| == t.n > 0 else t.n == s.n && SameRecords(s, t))
      && (Recordable(t) <==> if ChangesSize(s, calls) then t.n == 1 && Annotated(s, 1) else Recordable(s))
    decreases |calls|
  {
    if calls != [] {
      StepRecords(s, calls[0]);
      RecordableRun(Step(s, calls[0]).value, calls[1..]);
    }
  }
}
