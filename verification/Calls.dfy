/** Sequences of calls on one cache: what one call does, and what a run of calls does. */
module Calls {
  import opened Machine
  import opened Slabs

  /** A call that changes the cache. base and junk are what mmap and realloc hand back. */
  datatype Call =
    | Add(data: Option<seq<byte>>, access: Access, obj: nat, block: int, tag: uint32)
    | Delete(at: nat)
    | Restore(at: nat)
    | Use(at: nat, use: bool)
    | ResetUsed
    | ClearTag(which: uint32)
    | ChangeTag(from: uint32, to: uint32)
    | SetTag(tag: uint32, at: nat)
    | CompactCall(base: nat, junk: Junk)
    | ResizeCall(m: uint32, base: nat, junk: Junk)
    | MergeCall(src: Slab, tag: uint32, base: nat, junk: Junk)

  /** What the environment owes a call: a shared mapping where the call remaps, heap content for every
      array that grows, and a merged size that the 32-bit block count can hold. */
  ghost predicate Feasible(s: Slab, c: Call)
    requires Shape(s)
  {
    match c
    case CompactCall(_, junk) => Exposes(junk, s, ShrinkSize(s.n, s.used))
    case ResizeCall(m, _, junk) => s.public && Exposes(junk, s, m)
    case MergeCall(src, _, _, junk) =>
      s.public && Shape(src) && s.n + src.n < U32 && Exposes(junk, s, s.n + src.n)
    case _ => true
  }

  /** The state a call leaves. */
  function After<R>(o: Outcome<(Slab, R)>): (r: Outcome<Slab>) {
    match o
    case Done((t, _)) => Done(t)
    case Exit => Exit
    case Fault => Fault
  }

  function Step(s: Slab, c: Call): (r: Outcome<Slab>)
    requires Shape(s) && Feasible(s, c)
    ensures r.Done? ==> Shape(r.value)
  {
    match c
    case Add(data, access, obj, block, tag) => After(AddBlock(s, data, access, obj, block, tag))
    case Delete(k) => After(DeleteBlock(s, k))
    case Restore(k) => After(RestoreBlock(s, k))
    case Use(k, use) => SetUsed(s, k, use)
    case ResetUsed => Done(s.(used := 0))
    case ClearTag(which) => Done(Clear(s, which).0)
    case ChangeTag(a, b) => Done(Retag(s, a, b).0)
    case SetTag(tag, k) => if k >= s.n then Exit else Done(s.(tag := s.tag[k := tag]))
    case CompactCall(base, junk) => After(Compact(s, base, junk))
    case ResizeCall(m, base, junk) => Resize(s, m, base, junk)
    case MergeCall(src, tag, base, junk) => After(Merge(s, src, tag, base, junk))
  }

  /** Every call of the run is feasible in the state it finds; a run stops at an exit or a fault. */
  ghost predicate FeasibleRun(s: Slab, calls: seq<Call>)
    requires Shape(s)
    decreases |calls|
  {
    calls == [] ||
    (Feasible(s, calls[0]) &&
     (Step(s, calls[0]).Done? ==> FeasibleRun(Step(s, calls[0]).value, calls[1..])))
  }

  function Run(s: Slab, calls: seq<Call>): (r: Outcome<Slab>)
    requires Shape(s) && FeasibleRun(s, calls)
    ensures r.Done? ==> Shape(r.value)
    decreases |calls|
  {
    if calls == [] then Done(s)
    else
      match Step(s, calls[0])
      case Done(t) => Run(t, calls[1..])
      case Exit => Exit
      case Fault => Fault
  }
}
