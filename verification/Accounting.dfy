/** The used-block counter against the used flags: which calls keep them equal. */
module Accounting {
  import opened Machine
  import opened Slabs
  import opened Counting
  import opened Calls
  import opened Shrinking

  ghost predicate Accurate(s: Slab) {
    s.used == Count(s.flags)
  }

  // ---- cache_clear ----

  lemma {:induction false} ClearCounts(s: Slab, which: uint32, i: nat)
    requires Shape(s) && i <= s.n
    ensures var (t, c) := ClearTo(s, which, i);
      && Count(t.flags) == Count(s.flags) - c
      && t.used == (if s.used >= c then s.used - c else 0)
  {
    if i > 0 {
      ClearCounts(s, which, i - 1);
      var (t, c) := ClearTo(s, which, i - 1);
      if Clears(t.flags[i - 1], t.tag[i - 1], which) {
        CountUpdate(t.flags, i - 1, MarkFree(t.flags[i - 1]));
      }
    }
  }

  // ---- cache_merge ----

  /** What merging k blocks does to flags and tags, wherever the pointers lead. */
  lemma {:induction false} MergeTables(dst: Slab, src: Slab, at: nat, tag: uint32, k: nat)
    requires Shape(dst) && Shape(src) && at + k <= dst.n && k <= src.n
    requires MergeTo(dst, src, at, tag, k).Done?
    ensures var e := MergeTo(dst, src, at, tag, k).value;
      && e == dst.(arena := e.arena, flags := e.flags, tag := e.tag)
      && e.flags == dst.flags[..at] + src.flags[..k] + dst.flags[at + k..]
      && e.tag == dst.tag[..at] + seq(k, _ => tag) + dst.tag[at + k..]
  {
    if k > 0 {
      MergeTables(dst, src, at, tag, k - 1);
    }
  }

  lemma GrowTables(s: Slab, m: uint32, newBase: nat, junk: Junk)
    requires Shape(s) && s.n <= m && Exposes(junk, s, m) && Resize(s, m, newBase, junk).Done?
    ensures var d := Resize(s, m, newBase, junk).value;
      && d.n == m && d.used == s.used
      && |d.flags| == |d.tag| == m && d.flags[..s.n] == s.flags && d.tag[..s.n] == s.tag
  {
  }

  /** Cache 1 after it has been resized to make room for cache 2. */
  ghost function Grown(s: Slab, t: Slab, newBase: nat, junk: Junk): (d: Slab)
    requires Shape(s) && Shape(t) && s.n + t.n < U32 && Exposes(junk, s, s.n + t.n)
    ensures Shape(d) && d.n == s.n + t.n
  {
    Resize(s, s.n + t.n, newBase, junk).value
  }

  /** While block counts fit 32 bits, a merge between like caches is a resize, the copying loop, and a sum. */
  lemma MergeIsAppend(s: Slab, t: Slab, tag: uint32, newBase: nat, junk: Junk)
    requires Shape(s) && Shape(t) && s.n + t.n < U32 && Exposes(junk, s, s.n + t.n)
    requires s.march == t.march && s.blockSize == t.blockSize
    requires Resize(s, s.n + t.n, newBase, junk).Done?
    ensures Merge(s, t, tag, newBase, junk) == MergeBlocks(Grown(s, t, newBase, junk), t, s.n, tag)
  {
  }

  lemma {:induction false} MergeFlags(s: Slab, t: Slab, tag: uint32, newBase: nat, junk: Junk)
    requires Shape(s) && Shape(t) && s.n + t.n < U32 && Exposes(junk, s, s.n + t.n)
    requires Merge(s, t, tag, newBase, junk).Done?
    ensures var e := Merge(s, t, tag, newBase, junk).value.0;
      && e.n == s.n + t.n && e.flags == s.flags + t.flags && e.used == Add32(s.used, t.used)
      && e.tag == s.tag + seq(t.n, _ => tag)
  {
    MergeIsAppend(s, t, tag, newBase, junk);
    GrowTables(s, s.n + t.n, newBase, junk);
    AppendTables(s, Grown(s, t, newBase, junk), t, tag);
  }

  lemma {:induction false} AppendTables(s: Slab, d: Slab, t: Slab, tag: uint32)
    requires Shape(s) && Shape(d) && Shape(t) && d.n == s.n + t.n && d.used == s.used
    requires d.flags[..s.n] == s.flags && d.tag[..s.n] == s.tag && MergeBlocks(d, t, s.n, tag).Done?
    ensures var e := MergeBlocks(d, t, s.n, tag).value.0;
      && e.n == d.n && e.used == Add32(s.used, t.used)
      && e.flags == s.flags + t.flags && e.tag == s.tag + seq(t.n, _ => tag)
  {
    MergeTables(d, t, s.n, tag, t.n);
    assert t.flags[..t.n] == t.flags && d.flags[d.n..] == [] && d.tag[d.n..] == [];
  }

  // ---- One call ----

  /** The calls that keep an accurate counter accurate, as a caller can tell beforehand. */
  ghost predicate KeepsAccount(s: Slab, c: Call)
    requires Shape(s) && Feasible(s, c)
  {
    match c
    case Add(_, access, _, block, _) =>
      if block == ANY_CACHE_BLOCK then !access.loaded
      else access.loaded && 0 <= block < s.n && !Used(s.flags[block])
    case Restore(k) => k < s.n && (MarkFree(s.flags[k]) == 0 || !Used(s.flags[k]))
    case Use(k, use) => k < s.n && (if use then !Used(s.flags[k]) else Used(s.flags[k]) || s.used == 0)
    case ResetUsed => s.used == 0
    case ResizeCall(m, _, junk) =>
      && (forall k :: m <= k < s.n ==> !Used(s.flags[k]))
      && (forall k :: 0 <= k < m - s.n ==> !Used(junk.flags[k]))
    case MergeCall(src, _, _, _) => Accurate(src)
    case _ => true
  }

  lemma AddAccount(s: Slab, data: Option<seq<byte>>, access: Access, obj: nat, block: int, tag: uint32)
    requires Shape(s) && Accurate(s) && AddBlock(s, data, access, obj, block, tag).Done?
    ensures Accurate(AddBlock(s, data, access, obj, block, tag).value.0)
      <==> KeepsAccount(s, Add(data, access, obj, block, tag))
  {
    var at := if block == ANY_CACHE_BLOCK then FirstFree(s.flags, 0) else block;
    CountUpdate(s.flags, at, MarkUsed(s.flags[at]));
  }

  lemma ResizeAccount(s: Slab, m: uint32, newBase: nat, junk: Junk)
    requires Shape(s) && Exposes(junk, s, m) && Accurate(s) && Resize(s, m, newBase, junk).Done?
    ensures Accurate(Resize(s, m, newBase, junk).value)
      <==> (forall k :: m <= k < s.n ==> !Used(s.flags[k])) && (forall k :: 0 <= k < m - s.n ==> !Used(junk.flags[k]))
  {
    if m <= s.n {
      DropAccount(s.flags, m);
    } else {
      GrowAccount(s.flags, junk.flags[..m - s.n]);
    }
  }

  lemma CompactAccount(s: Slab, newBase: nat, junk: Junk)
    requires Shape(s) && Exposes(junk, s, ShrinkSize(s.n, s.used)) && Accurate(s)
    ensures Compact(s, newBase, junk).Done? && Accurate(Compact(s, newBase, junk).value.0)
  {
    CompactOutcome(s, newBase, junk);
    CompactCount(s, newBase, junk);
    ShrinkChoice(s.n, s.used);
  }

  lemma {:induction false} MergeAccount(s: Slab, t: Slab, tag: uint32, newBase: nat, junk: Junk)
    requires Shape(s) && Shape(t) && s.n + t.n < U32 && Exposes(junk, s, s.n + t.n) && Accurate(s)
    requires Merge(s, t, tag, newBase, junk).Done?
    ensures Accurate(Merge(s, t, tag, newBase, junk).value.0) <==> Accurate(t)
  {
    MergeFlags(s, t, tag, newBase, junk);
    CountOfConcat(s.flags, t.flags);
    SumAccount(s.used, Count(s.flags), t.used, Count(t.flags));
  }

  lemma SumAccount(a: uint32, c: nat, b: uint32, d: uint32)
    requires a == c && c + d < U32
    ensures Add32(a, b) == c + d <==> b == d
  {
  }

  lemma BlockAccount(s: Slab, k: nat)
    requires Shape(s) && Accurate(s) && k < s.n
    ensures Accurate(DeleteBlock(s, k).value.0)
    ensures Accurate(RestoreBlock(s, k).value.0) <==> MarkFree(s.flags[k]) == 0 || !Used(s.flags[k])
  {
    CountUpdate(s.flags, k, MarkFree(s.flags[k]));
    CountUpdate(s.flags, k, MarkUsed(s.flags[k]));
  }

  lemma UseAccount(s: Slab, k: nat, use: bool)
    requires Shape(s) && Accurate(s) && k < s.n
    ensures Accurate(SetUsed(s, k, use).value)
      <==> (if use then !Used(s.flags[k]) else Used(s.flags[k]) || s.used == 0)
  {
    CountUpdate(s.flags, k, if use then MarkUsed(s.flags[k]) else MarkFree(s.flags[k]));
  }

  /** Which calls keep the counter equal to the number of used blocks: exactly those of KeepsAccount. */
  lemma AccountingStep(s: Slab, c: Call)
    requires Shape(s) && Feasible(s, c) && Accurate(s) && Step(s, c).Done?
    ensures Accurate(Step(s, c).value) <==> KeepsAccount(s, c)
  {
    match c
    case Add(data, access, obj, block, tag) => AddAccount(s, data, access, obj, block, tag);
    case Delete(k) => BlockAccount(s, k);
    case Restore(k) => BlockAccount(s, k);
    case Use(k, use) => UseAccount(s, k, use);
    case ClearTag(which) => ClearCounts(s, which, s.n);
    case CompactCall(base, junk) => CompactAccount(s, base, junk);
    case ResizeCall(m, base, junk) => ResizeAccount(s, m, base, junk);
    case MergeCall(src, tag, base, junk) => MergeAccount(s, src, tag, base, junk);
    case _ =>
  }

  /** Every call of the run is one of those. */
  ghost predicate KeepsAccountRun(s: Slab, calls: seq<Call>)
    requires Shape(s) && FeasibleRun(s, calls)
    decreases |calls|
  {
    calls == [] || !Step(s, calls[0]).Done? ||
    (KeepsAccount(s, calls[0]) && KeepsAccountRun(Step(s, calls[0]).value, calls[1..]))
  }

  /** Over any run of such calls the counter stays accurate. */
  lemma {:induction false} AccountingRun(s: Slab, calls: seq<Call>)
    requires Shape(s) && FeasibleRun(s, calls) && Accurate(s) && KeepsAccountRun(s, calls)
    ensures Run(s, calls).Done? ==> Accurate(Run(s, calls).value)
    decreases |calls|
  {
    if calls != [] && Step(s, calls[0]).Done? {
      AccountingStep(s, calls[0]);
      AccountingRun(Step(s, calls[0]).value, calls[1..]);
    }
  }
}
