/** The calls that do what the caller expects are no others than the proper ones. */
module Converse {
  import opened Machine
  import opened Slabs
  import opened Calls
  import opened Resizing
  import opened Shrinking
  import opened Merging
  import opened Simulation
  import opened CompactReads
  import opened Layout

  /** The call touches only its own memory and, if it returns, does to the slots what the caller expects and
      leaves the cache sound. */
  ghost predicate Meets(s: Slab, c: Call)
    requires Shape(s) && Feasible(s, c)
  {
    !Step(s, c).Fault? && (Step(s, c).Done? ==> Follows(s, c, Step(s, c).value))
  }

  lemma AddMeets(s: Slab, data: Option<seq<byte>>, access: Access, obj: nat, block: int, tag: uint32)
    requires Sound(s) && Meets(s, Add(data, access, obj, block, tag))
    ensures Proper(s, Add(data, access, obj, block, tag))
  {
    if !Refused(s, data, access, obj, block) {
      FirstUnusedIsFirstFree(s, 0);
    }
  }

  lemma CompactMeets(s: Slab, newBase: nat, junk: Junk)
    requires Sound(s) && Exposes(junk, s, ShrinkSize(s.n, s.used)) && Meets(s, CompactCall(newBase, junk))
    ensures Proper(s, CompactCall(newBase, junk))
  {
    CompactOutcome(s, newBase, junk);
    if s.objects > 0 {
      CompactSoundExact(s, newBase, junk);
    } else {
      var t, k, e := Compact(s, newBase, junk).value.0, Min(s.n, SizeAfter(s)), Growth(s, junk);
      assert t.flags == t.flags[..k] + e;
      PlainConcat(t.flags[..k], e);
    }
  }

  /** Merging into a cache whose object table has been cleared writes through whatever the heap held: what that
      does is said byte by byte in module Combined. */
  predicate MergesIntoObjects(s: Slab, c: Call) {
    c.MergeCall? ==> s.objects > 0 || c.src.n == 0 || Unlike(s, c.src)
  }

  lemma MergeMeets(s: Slab, t: Slab, tag: uint32, newBase: nat, junk: Junk)
    requires Sound(s) && Feasible(s, MergeCall(t, tag, newBase, junk)) && Meets(s, MergeCall(t, tag, newBase, junk))
    requires MergesIntoObjects(s, MergeCall(t, tag, newBase, junk))
    ensures Proper(s, MergeCall(t, tag, newBase, junk))
  {
    if !Unlike(s, t) && t.n > 0 {
      MergeLeaves(s, t, tag, newBase, junk);
      MergeFollowsExact(s, t, tag, newBase, junk);
    }
  }

  /** Which calls on a sound cache do what the caller expects: exactly the proper ones. */
  lemma StepExact(s: Slab, c: Call)
    requires Sound(s) && Feasible(s, c) && MergesIntoObjects(s, c)
    ensures Meets(s, c) <==> Proper(s, c)
  {
    if Proper(s, c) {
      StepFollows(s, c);
    }
    if Meets(s, c) {
      match c
      case Add(data, access, obj, block, tag) => AddMeets(s, data, access, obj, block, tag);
      case CompactCall(base, junk) => CompactMeets(s, base, junk);
      case ResizeCall(m, base, junk) => if Resize(s, m, base, junk).Done? { ResizeFollows(s, m, base, junk); }
      case MergeCall(src, tag, base, junk) => MergeMeets(s, src, tag, base, junk);
      case _ =>
    }
  }

  /** The arguments for which a call leaves the process with an error. */
  predicate Leaves(s: Slab, c: Call) {
    match c
    case Add(data, access, obj, block, _) => Refused(s, data, access, obj, block)
    case Delete(k) => k >= s.n
    case Restore(k) => k >= s.n
    case Use(k, _) => k >= s.n
    case SetTag(_, k) => k >= s.n
    case ResizeCall(m, _, _) => m == 0
    case MergeCall(src, _, _, _) => Unlike(s, src)
    case _ => false
  }

  /** No other call on a sound cache does. */
  lemma LeavesExact(s: Slab, c: Call)
    requires Sound(s) && Feasible(s, c)
    ensures Step(s, c).Exit? <==> Leaves(s, c)
  {
    hide Compact, Clear, Retag, Resize, MergeTo, Canonical, LaidOut;
    match c
    case Add(data, access, obj, block, tag) => AddLeaves(s, data, access, obj, block, tag);
    case CompactCall(base, junk) => CompactOutcome(s, base, junk);
    case ResizeCall(m, base, junk) => ResizeLeaves(s, m, base, junk);
    case MergeCall(src, tag, base, junk) => MergeReturns(s, src, tag, base, junk);
    case _ =>
  }

  lemma ResizeLeaves(s: Slab, m: uint32, base: nat, junk: Junk)
    requires Shape(s) && s.n > 0 && Exposes(junk, s, m)
    ensures Resize(s, m, base, junk).Exit? <==> m == 0
  {
  }

  lemma AddLeaves(s: Slab, data: Option<seq<byte>>, access: Access, obj: nat, block: int, tag: uint32)
    requires Shape(s)
    ensures AddBlock(s, data, access, obj, block, tag).Exit? <==> Refused(s, data, access, obj, block)
  {
  }

  lemma MergeReturns(s: Slab, t: Slab, tag: uint32, newBase: nat, junk: Junk)
    requires Shape(s) && s.n > 0 && Shape(t) && s.n + t.n < U32 && Exposes(junk, s, s.n + t.n)
    ensures Merge(s, t, tag, newBase, junk).Exit? <==> Unlike(s, t)
  {
  }

  ghost predicate AllMergeIntoObjects(s: Slab, calls: seq<Call>)
    requires Shape(s) && FeasibleRun(s, calls)
    decreases |calls|
  {
    calls == [] ||
    (MergesIntoObjects(s, calls[0]) &&
     (Step(s, calls[0]).Done? ==> AllMergeIntoObjects(Step(s, calls[0]).value, calls[1..])))
  }

  /** A run from a sound cache is free of faults and goes as the caller expects, up to the call that leaves the
      process if there is one, exactly when all its calls are proper. */
  lemma {:induction false} RunExact(s: Slab, calls: seq<Call>)
    requires Sound(s) && FeasibleRun(s, calls) && AllMergeIntoObjects(s, calls)
    ensures !Run(s, calls).Fault? && AsExpected(s, calls) <==> ProperRun(s, calls)
    decreases |calls|
  {
    if calls != [] {
      StepExact(s, calls[0]);
      if Step(s, calls[0]).Done? && Follows(s, calls[0], Step(s, calls[0]).value) {
        RunExact(Step(s, calls[0]).value, calls[1..]);
      }
    }
  }

  /** So for runs from a freshly created cache. */
  lemma CreatedRunExact(march: string, public: bool, size: seq<uint64>, n: int, base: nat, file: seq<byte>,
                        calls: seq<Call>)
    requires Creatable(size, n, file)
    requires var r := Create(march, public, size, n, base, file);
      r.Done? && Shape(r.value) ==> FeasibleRun(r.value, calls) && AllMergeIntoObjects(r.value, calls)
    ensures var r := Create(march, public, size, n, base, file);
      && r.Done? && Sound(r.value) && FeasibleRun(r.value, calls)
      && (!Run(r.value, calls).Fault? && AsExpected(r.value, calls) <==> ProperRun(r.value, calls))
  {
    CreateSound(march, public, size, n, base, file);
    RunExact(Create(march, public, size, n, base, file).value, calls);
  }
}
