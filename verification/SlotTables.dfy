/** The growable pointer tables of cantorlib.c: slots, some of them empty, with a count of the live ones. */
module SlotTables {
  import opened Machine

  const ALLOC_QUANTUM: nat := 64

  /** An object or node: which one, and its tag or name. */
  datatype Entry = Entry(id: nat, tag: string)

  /** A slot of the table. Junk is what realloc leaves in the part that grew: reading it is undefined. */
  datatype Slot = Null | Live(entry: Entry) | Junk

  /** A table pointer that is NULL goes with no slots. */
  datatype Table = Table(slots: seq<Slot>, cnt: nat)

  const EMPTY := Table([], 0)

  /** The live entries of the first i slots, in slot order. */
  function LiveTo(slots: seq<Slot>, i: nat): (r: seq<Entry>)
    requires i <= |slots|
    ensures |r| <= i
  {
    if i == 0 then []
    else LiveTo(slots, i - 1) + if slots[i - 1].Live? then [slots[i - 1].entry] else []
  }

  function LiveOf(slots: seq<Slot>): (r: seq<Entry>)
    ensures |r| <= |slots|
  {
    LiveTo(slots, |slots|)
  }

  /** Junk only in the slots from some index on, and nothing but junk there. */
  ghost predicate JunkFrom(slots: seq<Slot>, j: nat) {
    j <= |slots| && forall i :: 0 <= i < |slots| ==> (slots[i].Junk? <==> j <= i)
  }

  /** The count is the number of live slots, and junk lies above every slot ever written. */
  ghost predicate Valid(t: Table) {
    t.cnt == |LiveOf(t.slots)| && exists j: nat :: JunkFrom(t.slots, j)
  }

  // ---- Adding and removing ----

  /** Index of the first NULL slot in [i, n), or n; None if junk is compared with NULL on the way. */
  function FirstNull(slots: seq<Slot>, i: nat, n: nat): (r: Option<nat>)
    requires i <= n <= |slots|
    ensures r.Some? ==> i <= r.value <= n
    decreases n - i
  {
    if i == n || slots[i].Null? then Some(i)
    else if slots[i].Junk? then None
    else FirstNull(slots, i + 1, n)
  }

  /** _add_object_to_node and _add_node_to_nodelist: the table, the index of the slot written, and whether
      the table grew. A NULL entry is refused with -1. Only the first cnt slots are searched. */
  function Add(t: Table, e: Option<Entry>): (r: Outcome<(Table, int, bool)>) {
    if e.None? then
      var refused: (Table, int, bool) := (t, -1, false);
      Done(refused)
    else
      var x := Live(e.value);
      if t.slots == [] then
        if t.cnt >= ALLOC_QUANTUM then Fault
        else Done((Table(Repeat(ALLOC_QUANTUM, Null)[t.cnt := x], t.cnt + 1), 0, false))
      else if t.cnt == |t.slots| then
        Done((Table((t.slots + Repeat(ALLOC_QUANTUM, Junk))[t.cnt := x], t.cnt + 1), t.cnt, true))
      else if t.cnt > |t.slots| then Fault
      else
        match FirstNull(t.slots, 0, t.cnt)
        case None => Fault
        case Some(i) => Done((Table(t.slots[i := x], t.cnt + 1), i, false))
  }

  /** What _add_object_to_node returns: it forgets to set the index when the table grows. */
  function ObjectIndex(r: (Table, int, bool)): (i: int) {
    if r.2 then 0 else r.1
  }

  /** Index of the first slot from i on that holds an entry with the tag, or |slots|; None if the search
      follows a junk pointer. */
  function FindTag(slots: seq<Slot>, tag: string, i: nat): (r: Option<nat>)
    requires i <= |slots|
    ensures r.Some? ==> i <= r.value <= |slots|
    ensures r.Some? && r.value < |slots| ==> slots[r.value].Live? && slots[r.value].entry.tag == tag
    decreases |slots| - i
  {
    if i == |slots| then Some(i)
    else if slots[i].Junk? then None
    else if slots[i].Live? && slots[i].entry.tag == tag then Some(i)
    else FindTag(slots, tag, i + 1)
  }

  /** _remove_object_from_node: searches every slot allocated; -1 if no entry has the tag. */
  function Remove(t: Table, tag: string): (r: Outcome<(Table, int)>) {
    match FindTag(t.slots, tag, 0)
    case None => Fault
    case Some(i) =>
      if i == |t.slots| then Done((t, -1))
      else if t.cnt == 0 then Fault
      else Done((Table(t.slots[i := Null], t.cnt - 1), 0))
  }

  // ---- Counting live slots ----

  lemma {:induction false} LiveAgree(a: seq<Slot>, b: seq<Slot>, i: nat)
    requires i <= |a| && i <= |b| && forall k :: 0 <= k < i ==> a[k] == b[k]
    ensures LiveTo(a, i) == LiveTo(b, i)
  {
    if i > 0 {
      LiveAgree(a, b, i - 1);
    }
  }

  lemma {:induction false} LiveConcat(a: seq<Slot>, b: seq<Slot>, i: nat)
    requires i <= |b|
    ensures LiveTo(a + b, |a| + i) == LiveOf(a) + LiveTo(b, i)
  {
    if i == 0 {
      LiveAgree(a + b, a, |a|);
    } else {
      LiveConcat(a, b, i - 1);
    }
  }

  lemma {:induction false} NoneLive(a: seq<Slot>, i: nat)
    requires i <= |a| && forall k :: 0 <= k < i ==> !a[k].Live?
    ensures LiveTo(a, i) == []
  {
    if i > 0 {
      NoneLive(a, i - 1);
    }
  }

  lemma {:induction false} AllLive(a: seq<Slot>, i: nat)
    requires i <= |a| && forall k :: 0 <= k < i ==> a[k].Live?
    ensures |LiveTo(a, i)| == i
  {
    if i > 0 {
      AllLive(a, i - 1);
    }
  }

  /** The live entries around slot i. */
  lemma LiveSplit(a: seq<Slot>, i: nat)
    requires i < |a|
    ensures LiveOf(a) == LiveOf(a[..i]) + (if a[i].Live? then [a[i].entry] else []) + LiveOf(a[i + 1..])
  {
    assert a == a[..i + 1] + a[i + 1..];
    LiveConcat(a[..i + 1], a[i + 1..], |a| - i - 1);
    LiveAgree(a[..i + 1], a[..i], i);
  }

  /** Writing x over slot i swaps what the slot contributed. */
  lemma LiveUpdate(a: seq<Slot>, i: nat, x: Slot)
    requires i < |a|
    ensures LiveOf(a) == LiveOf(a[..i]) + (if a[i].Live? then [a[i].entry] else []) + LiveOf(a[i + 1..])
    ensures LiveOf(a[i := x]) == LiveOf(a[..i]) + (if x.Live? then [x.entry] else []) + LiveOf(a[i + 1..])
  {
    LiveSplit(a, i);
    LiveSplit(a[i := x], i);
    assert a[i := x][..i] == a[..i] && a[i := x][i + 1..] == a[i + 1..];
  }

  // ---- The pigeonhole argument ----

  lemma LiveBelowJunk(s: seq<Slot>, j: nat)
    requires JunkFrom(s, j)
    ensures |LiveOf(s)| <= j
  {
    assert s == s[..j] + s[j..];
    LiveConcat(s[..j], s[j..], |s| - j);
    NoneLive(s[j..], |s| - j);
  }

  /** If the first n slots are live and the count is n, no other slot is live. */
  lemma Pigeonhole(s: seq<Slot>, n: nat, k: nat)
    requires n == |LiveOf(s)| && n <= k < |s| && forall i :: 0 <= i < n ==> s[i].Live?
    ensures !s[k].Live?
  {
    var rest := s[n..];
    assert s == s[..n] + rest;
    LiveConcat(s[..n], rest, |rest|);
    AllLive(s[..n], n);
    LiveSplit(rest, k - n);
  }

  lemma {:induction false} FirstNullExact(slots: seq<Slot>, i: nat, n: nat)
    requires i <= n <= |slots| && forall k :: i <= k < n ==> !slots[k].Junk?
    ensures var r := FirstNull(slots, i, n);
      && r.Some?
      && (forall k :: i <= k < r.value ==> slots[k].Live?)
      && (r.value < n ==> slots[r.value].Null?)
    decreases n - i
  {
    if i < n && slots[i].Live? {
      FirstNullExact(slots, i + 1, n);
    }
  }

  /** u is t with e in slot i, which held no live entry; no other slot has changed, so the live entries have
      changed by exactly that one. */
  ghost predicate Added(t: Table, e: Entry, u: Table, i: int) {
    && 0 <= i < |u.slots| && u.slots[i] == Live(e)
    && |t.slots| <= |u.slots| && (i < |t.slots| ==> !t.slots[i].Live?)
    && (forall k :: 0 <= k < |t.slots| && k != i ==> u.slots[k] == t.slots[k])
    && multiset(LiveOf(u.slots)) == multiset(LiveOf(t.slots)) + multiset{e}
  }

  lemma AddFirst(t: Table, e: Entry)
    requires Valid(t) && t.slots == []
    ensures var r := Add(t, Some(e));
      r.Done? && Valid(r.value.0) && Added(t, e, r.value.0, r.value.1)
  {
    var s := Repeat(ALLOC_QUANTUM, Null);
    NoneLive(s, ALLOC_QUANTUM);
    AddAt(s, 0, e, ALLOC_QUANTUM);
  }

  lemma AddGrown(t: Table, e: Entry)
    requires Valid(t) && t.slots != [] && t.cnt == |t.slots|
    ensures var r := Add(t, Some(e));
      r.Done? && Valid(r.value.0) && Added(t, e, r.value.0, r.value.1)
  {
    var j: nat :| JunkFrom(t.slots, j);
    LiveBelowJunk(t.slots, j);
    var grown := Repeat(ALLOC_QUANTUM, Junk);
    NoneLive(grown, ALLOC_QUANTUM);
    LiveConcat(t.slots, grown, ALLOC_QUANTUM);
    AddAt(t.slots + grown, t.cnt, e, t.cnt);
  }

  lemma AddReused(t: Table, e: Entry)
    requires Valid(t) && t.cnt < |t.slots|
    ensures var r := Add(t, Some(e));
      r.Done? && Valid(r.value.0) && Added(t, e, r.value.0, r.value.1)
  {
    var j: nat :| JunkFrom(t.slots, j);
    LiveBelowJunk(t.slots, j);
    FirstNullExact(t.slots, 0, t.cnt);
    var i := FirstNull(t.slots, 0, t.cnt).value;
    if i == t.cnt {
      Pigeonhole(t.slots, t.cnt, i);
    }
    AddAt(t.slots, i, e, j);
  }

  /** In a valid table an entry is added without fault and without overwriting a live entry, and the table
      is valid again. */
  lemma AddSafe(t: Table, e: Entry)
    requires Valid(t)
    ensures var r := Add(t, Some(e));
      r.Done? && Valid(r.value.0) && Added(t, e, r.value.0, r.value.1)
  {
    if t.slots == [] {
      AddFirst(t, e);
    } else if t.cnt == |t.slots| {
      AddGrown(t, e);
    } else {
      AddReused(t, e);
    }
  }

  lemma AddAt(slots: seq<Slot>, i: nat, e: Entry, j: nat)
    requires i < |slots| && !slots[i].Live? && JunkFrom(slots, j) && i <= j
    ensures var s := slots[i := Live(e)];
      && multiset(LiveOf(s)) == multiset(LiveOf(slots)) + multiset{e}
      && |LiveOf(s)| == |LiveOf(slots)| + 1
      && JunkFrom(s, if i == j then j + 1 else j)
  {
    LiveUpdate(slots, i, Live(e));
  }

  /** Where the entry goes: into the first empty one of the first cnt slots, or else right behind them, in a table
      that is 64 slots larger if it was full. A missing entry is refused and changes nothing. */
  lemma AddPlace(t: Table, e: Entry)
    requires Valid(t)
    ensures Add(t, None) == Done((t, -1, false))
    ensures Add(t, Some(e)).Done?
    ensures var (u, i, grew) := Add(t, Some(e)).value;
      && (grew <==> t.slots != [] && t.cnt == |t.slots|)
      && |u.slots| == |t.slots| + (if t.cnt == |t.slots| then ALLOC_QUANTUM else 0) && u.cnt == t.cnt + 1
      && 0 <= i <= t.cnt && (forall k :: 0 <= k < i ==> t.slots[k].Live?) && (i < t.cnt ==> t.slots[i].Null?)
      && forall k :: |t.slots| <= k < |u.slots| && k != i ==> u.slots[k] == if t.slots == [] then Null else Junk
  {
    AddSafe(t, e);
    var j: nat :| JunkFrom(t.slots, j);
    LiveBelowJunk(t.slots, j);
    if 0 < |t.slots| && t.cnt <= |t.slots| {
      FirstNullExact(t.slots, 0, t.cnt);
      AllBelowLive(t, j);
    }
  }

  lemma {:induction false} NullBeforeJunk(slots: seq<Slot>, i: nat, n: nat)
    requires i <= n <= |slots|
    ensures FirstNull(slots, i, n).None?
      <==> exists j :: i <= j < n && slots[j].Junk? && forall k :: i <= k < j ==> slots[k].Live?
    decreases n - i
  {
    if i < n {
      NullBeforeJunk(slots, i + 1, n);
      if slots[i].Live? && FirstNull(slots, i, n).None? {
        var j :| i + 1 <= j < n && slots[j].Junk? && forall k :: i + 1 <= k < j ==> slots[k].Live?;
        assert forall k :: i <= k < j ==> k == i || slots[k].Live?;
      }
    }
  }

  /** With any table: adding goes wrong exactly if a missing table counts 64 or more, if the count is beyond the
      table, or if the search meets junk before an empty slot. */
  lemma AddFaults(t: Table, e: Entry)
    ensures var r := Add(t, Some(e));
      && !r.Exit?
      && (r.Fault? <==>
          if t.slots == [] then t.cnt >= ALLOC_QUANTUM
          else t.cnt > |t.slots| || exists j :: 0 <= j < t.cnt < |t.slots| && t.slots[j].Junk?
                                                 && forall k :: 0 <= k < j ==> t.slots[k].Live?)
  {
    if 0 < |t.slots| && t.cnt < |t.slots| {
      NullBeforeJunk(t.slots, 0, t.cnt);
    }
  }

  /** A valid table as long as its count has no empty slot. */
  lemma AllBelowLive(t: Table, j: nat)
    requires Valid(t) && JunkFrom(t.slots, j)
    ensures t.cnt == |t.slots| ==> forall k :: 0 <= k < t.cnt ==> t.slots[k].Live?
  {
    if k :| t.cnt == |t.slots| && 0 <= k < t.cnt && !t.slots[k].Live? {
      LiveSplit(t.slots, k);
    }
  }

  // ---- Removing ----

  lemma {:induction false} FindTagExact(slots: seq<Slot>, tag: string, i: nat, j: nat)
    requires JunkFrom(slots, j) && i <= |slots|
    ensures var r := FindTag(slots, tag, i);
      && (r.None? <==> i < |slots| && j < |slots| && forall k :: i <= k < j ==> !HasTag(slots[k], tag))
      && (r.Some? ==> forall k :: i <= k < r.value ==> !HasTag(slots[k], tag))
    decreases |slots| - i
  {
    if i < |slots| && !slots[i].Junk? && !HasTag(slots[i], tag) {
      FindTagExact(slots, tag, i + 1, j);
    }
  }

  predicate HasTag(s: Slot, tag: string) {
    s.Live? && s.entry.tag == tag
  }

  predicate AnyTagged(slots: seq<Slot>, tag: string) {
    exists k :: 0 <= k < |slots| && HasTag(slots[k], tag)
  }

  /** u is t with slot i emptied, the first that has the tag. */
  ghost predicate Emptied(t: Table, tag: string, u: Table, i: nat) {
    && i < |t.slots| && HasTag(t.slots[i], tag)
    && (forall k :: 0 <= k < i ==> !HasTag(t.slots[k], tag))
    && u.slots == t.slots[i := Null]
    && multiset(LiveOf(t.slots)) == multiset(LiveOf(u.slots)) + multiset{t.slots[i].entry}
  }

  ghost predicate Removed(t: Table, tag: string, u: Table) {
    exists i: nat :: Emptied(t, tag, u, i)
  }

  lemma RemoveAt(slots: seq<Slot>, i: nat, j: nat)
    requires i < |slots| && slots[i].Live? && JunkFrom(slots, j)
    ensures var s := slots[i := Null];
      && multiset(LiveOf(slots)) == multiset(LiveOf(s)) + multiset{slots[i].entry}
      && |LiveOf(slots)| == |LiveOf(s)| + 1
      && JunkFrom(s, j)
  {
    LiveUpdate(slots, i, Null);
  }

  lemma RemoveFound(t: Table, tag: string)
    requires Valid(t) && AnyTagged(t.slots, tag)
    ensures var r := Remove(t, tag);
      r.Done? && r.value.1 == 0 && Valid(r.value.0) && Removed(t, tag, r.value.0)
  {
    var j: nat :| JunkFrom(t.slots, j);
    FindTagExact(t.slots, tag, 0, j);
    var i := FindTag(t.slots, tag, 0).value;
    RemoveAt(t.slots, i, j);
    assert Emptied(t, tag, Remove(t, tag).value.0, i);
  }

  /** Removing empties the first slot with the tag and nothing else. With no such slot it returns -1 and
      changes nothing, except that after growth, until the table is full again, it follows a junk pointer. */
  lemma RemoveExact(t: Table, tag: string)
    requires Valid(t)
    ensures var r := Remove(t, tag);
      && !r.Exit?
      && (r.Fault? <==> !AnyTagged(t.slots, tag) && exists k :: 0 <= k < |t.slots| && t.slots[k].Junk?)
      && (r.Done? && !AnyTagged(t.slots, tag) ==> r.value == (t, -1))
      && (AnyTagged(t.slots, tag) ==> r.value.1 == 0 && Valid(r.value.0) && Removed(t, tag, r.value.0))
  {
    if AnyTagged(t.slots, tag) {
      RemoveFound(t, tag);
    } else {
      var j: nat :| JunkFrom(t.slots, j);
      FindTagExact(t.slots, tag, 0, j);
      assert j < |t.slots| ==> t.slots[j].Junk?;
    }
  }

  // ---- Runs ----

  datatype TableCall = AddCall(entry: Entry) | RemoveCall(tag: string)

  function Step(t: Table, c: TableCall): (r: Outcome<Table>) {
    match c
    case AddCall(e) => (var (u, _, _) :- Add(t, Some(e)); Done(u))
    case RemoveCall(tag) => (var (u, _) :- Remove(t, tag); Done(u))
  }

  function Run(t: Table, calls: seq<TableCall>): (r: Outcome<Table>)
    decreases |calls|
  {
    if calls == [] then Done(t)
    else
      var u :- Step(t, calls[0]);
      Run(u, calls[1..])
  }

  /** Every add puts its entry into a slot without a live entry, every remove takes out one entry with the
      tag if there is any, and nothing else changes. */
  ghost predicate Faithful(t: Table, calls: seq<TableCall>)
    decreases |calls|
  {
    calls == [] || !Step(t, calls[0]).Done? ||
    (var u := Step(t, calls[0]).value;
     && (match calls[0]
         case AddCall(e) => exists i :: Added(t, e, u, i)
         case RemoveCall(tag) => if AnyTagged(t.slots, tag) then Removed(t, tag, u) else u == t)
     && Faithful(u, calls[1..]))
  }

  /** A run faults only at the removal of a tag that is not there. */
  ghost predicate RemovesPresent(t: Table, calls: seq<TableCall>)
    decreases |calls|
  {
    calls == [] ||
    ((calls[0].RemoveCall? ==> AnyTagged(t.slots, calls[0].tag))
     && (Step(t, calls[0]).Done? ==> RemovesPresent(Step(t, calls[0]).value, calls[1..])))
  }

  /** Over any run of adds and removes on a valid table, such as the empty one, no live entry is ever
      overwritten or lost, the count stays right, and if every tag removed is there the run never faults. */
  lemma {:induction false} RunSafe(t: Table, calls: seq<TableCall>)
    requires Valid(t)
    ensures Faithful(t, calls)
    ensures Run(t, calls).Done? ==> Valid(Run(t, calls).value)
    ensures RemovesPresent(t, calls) ==> Run(t, calls).Done?
    decreases |calls|
  {
    if calls != [] {
      match calls[0] {
        case AddCall(e) => AddSafe(t, e);
        case RemoveCall(tag) => RemoveExact(t, tag);
      }
      if Step(t, calls[0]).Done? {
        RunSafe(Step(t, calls[0]).value, calls[1..]);
      }
    }
  }

  /** So it is for a table that starts with no slots, as every node and node list does. */
  lemma EmptyRunSafe(calls: seq<TableCall>)
    ensures Faithful(EMPTY, calls)
    ensures Run(EMPTY, calls).Done? ==> Valid(Run(EMPTY, calls).value)
    ensures RemovesPresent(EMPTY, calls) ==> Run(EMPTY, calls).Done?
  {
    assert JunkFrom(EMPTY.slots, 0);
    RunSafe(EMPTY, calls);
  }

  /** The index returned for an object is that of its slot unless the table had to grow; then it is 0. */
  lemma ObjectIndexExact(t: Table, e: Entry)
    requires Valid(t)
    ensures var r := Add(t, Some(e));
      r.Done? && (ObjectIndex(r.value) == r.value.1 <==> t.slots == [] || t.cnt != |t.slots|)
  {
    AddSafe(t, e);
  }
}
