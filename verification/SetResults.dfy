/** What the results of set operations and copies are as tables, and whether they can be used as operands
    in turn; and the loops that build them. */
module SetResults {
  import opened Machine
  import opened SlotTables
  import opened SetAlgebra
  import opened SlotTableClass

  /** The entries xs fill the first slots, in order, and nothing lives above them. */
  ghost predicate Packed(t: Table, xs: seq<Entry>) {
    && t.cnt == |xs| <= |t.slots|
    && (forall i :: 0 <= i < |xs| ==> t.slots[i] == Live(xs[i]))
    && (forall i :: |xs| <= i < |t.slots| ==> !t.slots[i].Live?)
  }

  lemma {:induction false} PrefixLive(slots: seq<Slot>, xs: seq<Entry>, i: nat)
    requires i <= |xs| <= |slots| && forall k :: 0 <= k < i ==> slots[k] == Live(xs[k])
    ensures LiveTo(slots, i) == xs[..i]
  {
    if i > 0 {
      PrefixLive(slots, xs, i - 1);
      assert xs[..i] == xs[..i - 1] + [xs[i - 1]];
    }
  }

  lemma PackedLive(t: Table, xs: seq<Entry>)
    requires Packed(t, xs)
    ensures LiveOf(t.slots) == xs
  {
    var low, high := t.slots[..|xs|], t.slots[|xs|..];
    assert t.slots == low + high && xs[..|xs|] == xs;
    PrefixLive(low, xs, |xs|);
    NoneLive(high, |high|);
    LiveConcat(low, high, |high|);
  }

  // ---- Results ----

  /** Adding the entries one by one to a cleared table. */
  function Fill(xs: seq<Entry>): (r: Outcome<Table>) {
    if xs == [] then Done(EMPTY)
    else
      var t :- Fill(xs[..|xs| - 1]);
      var (u, _, _) :- Add(t, Some(xs[|xs| - 1]));
      Done(u)
  }

  /** Slots a table has after n adds. */
  function Slots(n: nat): (r: nat) {
    (n + ALLOC_QUANTUM - 1) / ALLOC_QUANTUM * ALLOC_QUANTUM
  }

  ghost predicate Filled(t: Table, xs: seq<Entry>) {
    && Packed(t, xs) && |t.slots| == Slots(|xs|)
    && forall i :: |xs| <= i < |t.slots| ==> t.slots[i] == if |xs| <= ALLOC_QUANTUM then Null else Junk
  }

  lemma {:induction false} AllLiveNoNull(t: Table, xs: seq<Entry>, i: nat)
    requires Packed(t, xs) && i <= t.cnt
    ensures FirstNull(t.slots, i, t.cnt) == Some(t.cnt)
    decreases t.cnt - i
  {
    if i < t.cnt {
      AllLiveNoNull(t, xs, i + 1);
    }
  }

  lemma SlotsStep(n: nat)
    ensures n <= Slots(n) < n + ALLOC_QUANTUM && Slots(n) % ALLOC_QUANTUM == 0
    ensures Slots(n + 1) == if n == Slots(n) then n + ALLOC_QUANTUM else Slots(n)
  {
  }

  lemma FilledStep(t: Table, xs: seq<Entry>, e: Entry)
    requires Filled(t, xs)
    ensures var r := Add(t, Some(e));
      r.Done? && Filled(r.value.0, xs + [e])
  {
    SlotsStep(|xs|);
    if t.slots != [] && t.cnt < |t.slots| {
      AllLiveNoNull(t, xs, 0);
    }
  }

  /** A table filled from empty holds the entries in order; beyond them are NULL slots if 64 sufficed, junk
      if the table had to grow. */
  lemma {:induction false} FillExact(xs: seq<Entry>)
    ensures Fill(xs).Done? && Filled(Fill(xs).value, xs)
  {
    if xs == [] {
      SlotsStep(0);
    } else {
      var less := xs[..|xs| - 1];
      FillExact(less);
      FilledStep(Fill(less).value, less, xs[|xs| - 1]);
      assert less + [xs[|xs| - 1]] == xs;
    }
  }

  lemma FullExact(n: nat)
    ensures n == Slots(n) <==> n % ALLOC_QUANTUM == 0
  {
  }

  lemma FilledShape(t: Table, xs: seq<Entry>)
    requires Filled(t, xs)
    ensures Valid(t) && LiveOf(t.slots) == xs
    ensures Clean(t.slots) <==> |xs| <= ALLOC_QUANTUM || |xs| == |t.slots|
  {
    PackedLive(t, xs);
    assert JunkFrom(t.slots, if |xs| <= ALLOC_QUANTUM then |t.slots| else |xs|);
    if |xs| < |t.slots| {
      assert t.slots[|xs|].Junk? <==> |xs| > ALLOC_QUANTUM;
    }
  }

  /** The result of an operation is a valid table of its entries in order. It can be an operand of another
      one without fault exactly when it has at most 64 entries or fills its table. */
  lemma ResultExact(xs: seq<Entry>)
    ensures var r := Fill(xs);
      && r.Done? && Valid(r.value) && LiveOf(r.value.slots) == xs
      && (Clean(r.value.slots) <==> |xs| <= ALLOC_QUANTUM || |xs| % ALLOC_QUANTUM == 0)
  {
    FillExact(xs);
    FilledShape(Fill(xs).value, xs);
    FullExact(|xs|);
  }

  /** The union of two unions: defined exactly when neither result has junk in it. */
  lemma UnionOfUnions(a: seq<Slot>, b: seq<Slot>, c: seq<Slot>, d: seq<Slot>)
    requires Clean(a) && Clean(b) && Clean(c) && Clean(d)
    ensures var x, y := LiveOf(a) + LiveOf(b), LiveOf(c) + LiveOf(d);
      && Union(a, b) == Done(x) && Union(c, d) == Done(y) && Fill(x).Done? && Fill(y).Done?
      && Union(Fill(x).value.slots, Fill(y).value.slots)
         == if (|x| <= ALLOC_QUANTUM || |x| % ALLOC_QUANTUM == 0) && (|y| <= ALLOC_QUANTUM || |y| % ALLOC_QUANTUM == 0)
            then Done(x + y) else Fault
  {
    UnionExact(a, b);
    UnionExact(c, d);
    ResultExact(LiveOf(a) + LiveOf(b));
    ResultExact(LiveOf(c) + LiveOf(d));
    UnionExact(Fill(LiveOf(a) + LiveOf(b)).value.slots, Fill(LiveOf(c) + LiveOf(d)).value.slots);
  }

  // ---- Copies ----

  /** The object table of cantor_copy_node on a cleared destination: a new block of as many slots, of which
      only the first are written. With no slots the reallocation function returns nothing defined; that the
      call does the same to the link table of a node without links is not modelled. */
  function Copy(t: Table): (r: Outcome<Table>) {
    if t.slots == [] then Fault
    else
      var xs :- Half(t.slots, |t.slots|);
      var live: seq<Slot> := seq(|xs|, i requires 0 <= i < |xs| => Live(xs[i]));
      if |xs| > |t.slots| then Fault else Done(Table(live + Repeat(|t.slots| - |xs|, Junk), t.cnt))
  }

  /** A copy squeezes out the holes: its first cnt slots are the live entries of the original, in order, so
      the copy is valid and adding to it is safe. But unless the original was full its other slots are junk,
      and a copy with junk is no operand. Copying the table itself faults on junk. */
  lemma CopyExact(t: Table)
    requires Valid(t) && t.slots != []
    ensures var r := Copy(t);
      && (r.Done? <==> Clean(t.slots))
      && (r.Done? ==> Packed(r.value, LiveOf(t.slots)) && Valid(r.value) && |r.value.slots| == |t.slots|
                      && LiveOf(r.value.slots) == LiveOf(t.slots)
                      && (Clean(r.value.slots) <==> t.cnt == |t.slots|))
  {
    HalfExact(t.slots, |t.slots|);
    assert t.slots[..|t.slots|] == t.slots;
    if Clean(t.slots) {
      var xs := LiveOf(t.slots);
      var u := Copy(t).value;
      assert Packed(u, xs);
      PackedLive(u, xs);
      assert JunkFrom(u.slots, |xs|);
      if |xs| < |u.slots| {
        assert u.slots[|xs|].Junk?;
      }
    }
  }

  // ---- The loops ----

  /** The inner loop: runs to the end of the range even after a match. */
  method ScanLoop(x: Slot, b: array<Slot>, j: nat, n: nat) returns (r: Outcome<bool>)
    ensures r == Scan(x, b[..], j, n)
  {
    var matched := false;
    if j < n {
      for k := j to n
        invariant Or(matched, Scan(x, b[..], k, n)) == Scan(x, b[..], j, n)
      {
        if x.Junk? {
          return Fault;
        }
        if !x.Null? {
          if k >= b.Length || b[k].Junk? {
            return Fault;
          }
          if b[k] == x {
            matched := true;
          }
        }
      }
    }
    r := Done(matched);
  }

  function Or(m: bool, r: Outcome<bool>): (x: Outcome<bool>) {
    if r.Done? then Done(m || r.value) else r
  }

  /** The table of a cleared node to which the entries xs have been added. */
  ghost predicate Holds(t: SlotTable, xs: seq<Entry>)
    reads t, t.slots
  {
    Fill(xs) == Done(t.State())
  }

  method PushTo(t: SlotTable, x: Slot, ghost xs: seq<Entry>) returns (r: Outcome<()>)
    requires Holds(t, xs)
    modifies t, t.slots
    ensures t.slots == old(t.slots) || fresh(t.slots)
    ensures match Push(xs, x)
            case Done(ys) => r == Done(()) && Holds(t, ys)
            case Exit => r == Exit
            case Fault => r == Fault
  {
    if x.Junk? {
      return Fault;
    }
    ghost var u := t.State();
    var o := t.Add(if x.Live? then Some(x.entry) else None);
    if x.Live? {
      FillExact(xs);
      FilledStep(u, xs, x.entry);
      assert (xs + [x.entry])[..|xs|] == xs;
    }
    r := Done(());
  }

  /** PushTo for a node that already holds first. */
  method PushAfter(t: SlotTable, x: Slot, ghost first: seq<Entry>, ghost xs: seq<Entry>)
    returns (r: Outcome<()>, ghost ys: seq<Entry>)
    requires Holds(t, first + xs)
    modifies t, t.slots
    ensures t.slots == old(t.slots) || fresh(t.slots)
    ensures match Push(xs, x)
            case Done(zs) => r == Done(()) && ys == zs && Holds(t, first + ys)
            case Exit => r == Exit
            case Fault => r == Fault
  {
    r := PushTo(t, x, first + xs);
    ys := if x.Live? then xs + [x.entry] else xs;
    if x.Live? {
      assert (first + xs) + [x.entry] == first + ys;
    }
  }

  lemma {:induction false} HalfFaults(a: seq<Slot>, i: nat)
    requires i <= |a| && Half(a, i).Fault?
    ensures Half(a, |a|).Fault?
    decreases |a| - i
  {
    if i < |a| {
      HalfFaults(a, i + 1);
    }
  }

  lemma {:induction false} CommonFaults(a: seq<Slot>, b: seq<Slot>, i: nat)
    requires i <= |a| && CommonTo(a, b, i).Fault?
    ensures Intersection(a, b).Fault?
    decreases |a| - i
  {
    if i < |a| {
      CommonFaults(a, b, i + 1);
    }
  }

  lemma {:induction false} FirstFaults(a: seq<Slot>, b: seq<Slot>, i: nat)
    requires i <= |a| && FirstTo(a, b, i).Fault?
    ensures FirstTo(a, b, |a|).Fault?
    decreases |a| - i
  {
    if i < |a| {
      FirstFaults(a, b, i + 1);
    }
  }

  lemma {:induction false} SecondFaultStays(a: seq<Slot>, b: seq<Slot>, i: nat)
    requires i <= |b| && SecondTo(a, b, i).Fault?
    ensures SecondTo(a, b, |b|).Fault?
    decreases |b| - i
  {
    if i < |b| {
      SecondFaultStays(a, b, i + 1);
    }
  }

  /** The cleared node. */
  method Cleared() returns (node: SlotTable)
    ensures fresh(node) && fresh(node.slots) && Holds(node, [])
  {
    node := new SlotTable();
  }

  /** One loop of cantor_object_union: appends the live entries of a. */
  method AppendLoop(node: SlotTable, a: array<Slot>, ghost xs: seq<Entry>) returns (r: Outcome<()>)
    requires Holds(node, xs) && node.slots != a
    modifies node, node.slots
    ensures node.slots == old(node.slots) || fresh(node.slots)
    ensures match Half(a[..], a.Length)
            case Done(ys) => r == Done(()) && Holds(node, xs + ys) && a[..] == old(a[..])
            case Exit => r == Exit
            case Fault => r == Fault
  {
    ghost var ys: seq<Entry> := [];
    assert xs + [] == xs;
    for i := 0 to a.Length
      invariant node.slots == old(node.slots) || fresh(node.slots)
      invariant a[..] == old(a[..]) && Half(a[..], i) == Done(ys) && Holds(node, xs + ys)
    {
      var o;
      o, ys := PushAfter(node, a[i], xs, ys);
      if o.Fault? {
        HalfFaults(a[..], i + 1);
        return Fault;
      }
    }
    r := Done(());
  }

  method ObjectUnion(a: array<Slot>, b: array<Slot>) returns (node: SlotTable, r: Outcome<()>)
    ensures fresh(node) && fresh(node.slots)
    ensures match Union(a[..], b[..])
            case Done(xs) => r == Done(()) && Holds(node, xs)
            case Exit => r == Exit
            case Fault => r == Fault
  {
    node := Cleared();
    r := AppendLoop(node, a, []);
    if r.Done? {
      ghost var xs := Half(a[..], a.Length).value;
      assert [] + xs == xs;
      r := AppendLoop(node, b, xs);
    }
  }

  method ObjectIntersection(a: array<Slot>, b: array<Slot>) returns (node: SlotTable, r: Outcome<()>)
    ensures fresh(node) && fresh(node.slots)
    ensures match Intersection(a[..], b[..])
            case Done(xs) => r == Done(()) && Holds(node, xs)
            case Exit => r == Exit
            case Fault => r == Fault
  {
    node := Cleared();
    ghost var xs: seq<Entry> := [];
    for i := 0 to a.Length
      invariant fresh(node) && fresh(node.slots)
      invariant CommonTo(a[..], b[..], i) == Done(xs) && Holds(node, xs)
    {
      var m := ScanLoop(a[i], b, i, b.Length);
      if m.Fault? {
        CommonFaults(a[..], b[..], i + 1);
        return node, Fault;
      }
      if m.value {
        var _ := PushTo(node, a[i], xs);
        xs := Push(xs, a[i]).value;
      }
    }
    r := Done(());
  }

  /** First loop of cantor_object_difference. */
  method FirstLoop(node: SlotTable, a: array<Slot>, b: array<Slot>) returns (r: Outcome<()>)
    requires Holds(node, []) && node.slots != a && node.slots != b
    modifies node, node.slots
    ensures node.slots == old(node.slots) || fresh(node.slots)
    ensures match FirstTo(old(a[..]), old(b[..]), a.Length)
            case Done(xs) => r == Done(()) && Holds(node, xs)
            case Exit => r == Exit
            case Fault => r == Fault
  {
    ghost var xs: seq<Entry> := [];
    for i := 0 to a.Length
      invariant node.slots == old(node.slots) || fresh(node.slots)
      invariant a[..] == old(a[..]) && b[..] == old(b[..])
      invariant FirstTo(a[..], b[..], i) == Done(xs) && Holds(node, xs)
    {
      var m := ScanLoop(a[i], b, i, b.Length);
      if m.Fault? {
        FirstFaults(a[..], b[..], i + 1);
        return Fault;
      }
      if !m.value {
        var o := PushTo(node, a[i], xs);
        if o.Fault? {
          FirstFaults(a[..], b[..], i + 1);
          return Fault;
        }
        xs := Push(xs, a[i]).value;
      }
    }
    r := Done(());
  }

  /** Second loop: scans for a[i] where b[i] is meant. */
  method SecondLoop(node: SlotTable, a: array<Slot>, b: array<Slot>, ghost first: seq<Entry>) returns (r: Outcome<()>)
    requires Holds(node, first) && node.slots != a && node.slots != b
    modifies node, node.slots
    ensures node.slots == old(node.slots) || fresh(node.slots)
    ensures match SecondTo(old(a[..]), old(b[..]), b.Length)
            case Done(xs) => r == Done(()) && Holds(node, first + xs)
            case Exit => r == Exit
            case Fault => r == Fault
  {
    ghost var xs: seq<Entry> := [];
    assert first + [] == first;
    for i := 0 to b.Length
      invariant node.slots == old(node.slots) || fresh(node.slots)
      invariant a[..] == old(a[..]) && b[..] == old(b[..])
      invariant SecondTo(a[..], b[..], i) == Done(xs) && Holds(node, first + xs)
    {
      var m := Done(false);
      if i < a.Length {
        m := ScanLoop(a[i], b, i, a.Length);
      }
      if m.Fault? {
        SecondFaultStays(a[..], b[..], i + 1);
        return Fault;
      }
      if !m.value {
        var o;
        o, xs := PushAfter(node, b[i], first, xs);
        if o.Fault? {
          SecondFaultStays(a[..], b[..], i + 1);
          return Fault;
        }
      }
    }
    r := Done(());
  }

  method ObjectDifference(a: array<Slot>, b: array<Slot>) returns (node: SlotTable, r: Outcome<()>)
    ensures fresh(node) && fresh(node.slots)
    ensures match Difference(a[..], b[..])
            case Done(xs) => r == Done(()) && Holds(node, xs)
            case Exit => r == Exit
            case Fault => r == Fault
  {
    node := Cleared();
    r := FirstLoop(node, a, b);
    if r.Done? {
      r := SecondLoop(node, a, b, FirstTo(a[..], b[..], a.Length).value);
    }
  }

  /** The object table of cantor_copy_node. */
  method CopyObjects(from: SlotTable) returns (to: SlotTable, r: Outcome<()>)
    ensures fresh(to) && fresh(to.slots)
    ensures match Copy(from.State())
            case Done(t) => r == Done(()) && to.State() == t
            case Exit => r == Exit
            case Fault => r == Fault
  {
    to := new SlotTable();
    var n := from.slots.Length;
    if n == 0 {
      return to, Fault;
    }
    to.slots := new Slot[n](_ => Junk);
    to.cnt := from.cnt;
    var k := 0;
    ghost var xs: seq<Entry> := [];
    for i := 0 to n
      invariant fresh(to) && fresh(to.slots) && to.slots.Length == n && to.cnt == from.cnt
      invariant Half(from.slots[..], i) == Done(xs) && |xs| == k <= i
      invariant forall l :: 0 <= l < n ==> to.slots[l] == if l < k then Live(xs[l]) else Junk
    {
      if from.slots[i].Junk? {
        HalfFaults(from.slots[..], i + 1);
        return to, Fault;
      }
      if from.slots[i].Live? {
        to.slots[k] := from.slots[i];
        xs := xs + [from.slots[i].entry];
        k := k + 1;
      }
    }
    assert to.slots[..] == seq(k, l requires 0 <= l < k => Live(xs[l])) + Repeat(n - k, Junk);
    r := Done(());
  }
}
