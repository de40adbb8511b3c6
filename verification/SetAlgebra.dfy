/** Union, intersection and difference of the object tables of two nodes, as the loops of cantorlib.c
    compute them: the entries they add, in order, to a cleared third node. */
module SetAlgebra {
  import opened Machine
  import opened SlotTables

  /** No slot is junk: the table never grew, or has been filled since. */
  predicate Clean(a: seq<Slot>) {
    forall i :: 0 <= i < |a| ==> !a[i].Junk?
  }

  /** Compares slot x with slots j to n - 1 of b, where the NULL test of x comes first. */
  function Scan(x: Slot, b: seq<Slot>, j: nat, n: nat): (r: Outcome<bool>)
    ensures !r.Exit?
    decreases n - j
  {
    if j >= n then Done(false)
    else if x.Junk? then Fault
    else if x.Null? then Scan(x, b, j + 1, n)
    else if j >= |b| || b[j].Junk? then Fault
    else
      var m :- Scan(x, b, j + 1, n);
      Done(b[j] == x || m)
  }

  /** Adding a slot's pointer to the result: NULL is refused, junk would be stored. */
  function Push(out: seq<Entry>, x: Slot): (r: Outcome<seq<Entry>>)
    ensures !r.Exit?
  {
    match x
    case Null => Done(out)
    case Live(e) => Done(out + [e])
    case Junk => Fault
  }

  /** cantor_object_union, one half: every live slot is added. */
  function Half(a: seq<Slot>, i: nat): (r: Outcome<seq<Entry>>)
    requires i <= |a|
    ensures !r.Exit?
  {
    if i == 0 then Done([])
    else
      var out :- Half(a, i - 1);
      Push(out, a[i - 1])
  }

  function Union(a: seq<Slot>, b: seq<Slot>): (r: Outcome<seq<Entry>>) {
    var x :- Half(a, |a|);
    var y :- Half(b, |b|);
    Done(x + y)
  }

  /** cantor_object_intersection before slot i of the second node: its inner loop starts at i. */
  function CommonTo(a: seq<Slot>, b: seq<Slot>, i: nat): (r: Outcome<seq<Entry>>)
    requires i <= |a|
    ensures !r.Exit?
  {
    if i == 0 then Done([])
    else
      var out :- CommonTo(a, b, i - 1);
      var matched :- Scan(a[i - 1], b, i - 1, |b|);
      if matched then Push(out, a[i - 1]) else Done(out)
  }

  function Intersection(a: seq<Slot>, b: seq<Slot>): (r: Outcome<seq<Entry>>) {
    CommonTo(a, b, |a|)
  }

  /** cantor_object_difference, first loop: slots of a not matched from their own index on. */
  function FirstTo(a: seq<Slot>, b: seq<Slot>, i: nat): (r: Outcome<seq<Entry>>)
    requires i <= |a|
    ensures !r.Exit?
  {
    if i == 0 then Done([])
    else
      var out :- FirstTo(a, b, i - 1);
      var matched :- Scan(a[i - 1], b, i - 1, |b|);
      if matched then Done(out) else Push(out, a[i - 1])
  }

  /** Second loop: adds b[i], but looks for a[i] among b[i], b[i + 1], ..., as far as a reaches. */
  function SecondTo(a: seq<Slot>, b: seq<Slot>, i: nat): (r: Outcome<seq<Entry>>)
    requires i <= |b|
    ensures !r.Exit?
  {
    if i == 0 then Done([])
    else
      var out :- SecondTo(a, b, i - 1);
      var matched :- if i - 1 < |a| then Scan(a[i - 1], b, i - 1, |a|) else Done(false);
      if matched then Done(out) else Push(out, b[i - 1])
  }

  function Difference(a: seq<Slot>, b: seq<Slot>): (r: Outcome<seq<Entry>>) {
    var x :- FirstTo(a, b, |a|);
    var y :- SecondTo(a, b, |b|);
    Done(x + y)
  }

  // ---- What the loops find in clean tables ----

  /** x sits in one of slots j to n - 1 of b. */
  predicate Within(x: Entry, b: seq<Slot>, j: nat, n: nat)
    requires n <= |b|
  {
    exists k :: j <= k < n && b[k] == Live(x)
  }

  predicate Occurs(x: Entry, b: seq<Slot>, j: nat) {
    Within(x, b, j, |b|)
  }

  predicate In(x: Entry, a: seq<Slot>) {
    Occurs(x, a, 0)
  }

  lemma {:induction false} ScanExact(x: Slot, b: seq<Slot>, j: nat, n: nat)
    requires Clean(b) && !x.Junk? && n <= |b|
    ensures Scan(x, b, j, n) == Done(x.Live? && Within(x.entry, b, j, n))
    decreases n - j
  {
    if j < n {
      ScanExact(x, b, j + 1, n);
    }
  }

  /** A live slot compared beyond the end of b is a fault. */
  lemma {:induction false} ScanBeyond(x: Slot, b: seq<Slot>, j: nat, n: nat)
    requires n > |b| && j < n
    ensures x.Live? ==> Scan(x, b, j, n).Fault?
    ensures x.Null? ==> Scan(x, b, j, n) == Done(false)
    decreases n - j
  {
    if j + 1 < n {
      ScanBeyond(x, b, j + 1, n);
    }
  }

  /** No entry is in two slots. */
  predicate NoRepeatsTo(a: seq<Slot>, n: nat)
    requires n <= |a|
  {
    forall i, j :: 0 <= i < j < n && a[i].Live? ==> a[i] != a[j]
  }

  predicate NoRepeats(a: seq<Slot>) {
    NoRepeatsTo(a, |a|)
  }

  predicate Distinct(xs: seq<Entry>) {
    forall i, j :: 0 <= i < j < |xs| ==> xs[i] != xs[j]
  }

  // ---- Union ----

  lemma {:induction false} HalfExact(a: seq<Slot>, i: nat)
    requires i <= |a|
    ensures Half(a, i) == if Clean(a[..i]) then Done(LiveTo(a, i)) else Fault
  {
    if i > 0 {
      HalfExact(a, i - 1);
      assert a[..i] == a[..i - 1] + [a[i - 1]];
      assert Clean(a[..i]) <==> Clean(a[..i - 1]) && !a[i - 1].Junk?;
      assert LiveTo(a, i - 1) + [] == LiveTo(a, i - 1);
    }
  }

  /** The union lists the live entries of both nodes, those of node 2 first, unless a table holds junk. */
  lemma UnionExact(a: seq<Slot>, b: seq<Slot>)
    ensures Union(a, b) == if Clean(a) && Clean(b) then Done(LiveOf(a) + LiveOf(b)) else Fault
  {
    HalfExact(a, |a|);
    HalfExact(b, |b|);
    assert a[..|a|] == a && b[..|b|] == b;
  }

  lemma {:induction false} LiveMembers(a: seq<Slot>, i: nat, x: Entry)
    requires i <= |a|
    ensures x in LiveTo(a, i) <==> Within(x, a, 0, i)
  {
    if i > 0 {
      LiveMembers(a, i - 1, x);
    }
  }

  lemma {:induction false} LiveDistinct(a: seq<Slot>, i: nat)
    requires i <= |a|
    ensures Distinct(LiveTo(a, i)) <==> NoRepeatsTo(a, i)
  {
    if i > 0 {
      LiveDistinct(a, i - 1);
      if a[i - 1].Live? {
        var x, l := a[i - 1].entry, LiveTo(a, i - 1);
        LiveMembers(a, i - 1, x);
        DistinctAppend(l, x);
        assert NoRepeatsTo(a, i) <==> NoRepeatsTo(a, i - 1) && !Within(x, a, 0, i - 1);
      } else {
        assert LiveTo(a, i - 1) + [] == LiveTo(a, i - 1);
      }
    }
  }

  lemma DistinctAppend(l: seq<Entry>, x: Entry)
    ensures Distinct(l + [x]) <==> Distinct(l) && x !in l
  {
    var m := l + [x];
    assert forall i :: 0 <= i < |l| ==> m[i] == l[i];
    assert m[|l|] == x;
    if x in l {
      var i :| 0 <= i < |l| && l[i] == x;
      assert m[i] == m[|l|];
    }
  }

  lemma {:induction false} DistinctConcat(l: seq<Entry>, m: seq<Entry>)
    ensures Distinct(l + m) <==> Distinct(l) && Distinct(m) && forall x :: x in l ==> x !in m
  {
    if m == [] {
      assert l + m == l;
    } else {
      var rest, x := m[..|m| - 1], m[|m| - 1];
      assert m == rest + [x] && l + m == (l + rest) + [x];
      DistinctConcat(l, rest);
      DistinctAppend(rest, x);
      DistinctAppend(l + rest, x);
    }
  }

  /** The union as written is a set union, each entry once, exactly when neither node repeats an entry and
      the nodes share none. */
  lemma UnionIsSetExact(a: seq<Slot>, b: seq<Slot>)
    requires Clean(a) && Clean(b)
    ensures var r := Union(a, b);
      && r.Done?
      && (forall x :: x in r.value <==> In(x, a) || In(x, b))
      && (Distinct(r.value) <==> NoRepeats(a) && NoRepeats(b) && forall x :: In(x, a) ==> !In(x, b))
  {
    UnionExact(a, b);
    LiveDistinct(a, |a|);
    LiveDistinct(b, |b|);
    DistinctConcat(LiveOf(a), LiveOf(b));
    forall x
      ensures (x in LiveOf(a) <==> In(x, a)) && (x in LiveOf(b) <==> In(x, b))
    {
      LiveMembers(a, |a|, x);
      LiveMembers(b, |b|, x);
    }
  }

  // ---- Intersection ----

  /** a[k] holds x, and b holds x in slot k or later. */
  predicate MatchedAt(a: seq<Slot>, b: seq<Slot>, k: nat, x: Entry) {
    k < |a| && a[k] == Live(x) && Occurs(x, b, k)
  }

  lemma {:induction false} CommonExact(a: seq<Slot>, b: seq<Slot>, i: nat)
    requires Clean(a) && Clean(b) && i <= |a|
    ensures CommonTo(a, b, i).Done?
    ensures forall x :: x in CommonTo(a, b, i).value <==> exists k :: 0 <= k < i && MatchedAt(a, b, k, x)
    ensures NoRepeats(a) ==> Distinct(CommonTo(a, b, i).value)
  {
    if i > 0 {
      CommonExact(a, b, i - 1);
      var out := CommonTo(a, b, i - 1).value;
      if i - 1 <= |b| {
        ScanExact(a[i - 1], b, i - 1, |b|);
      }
      if a[i - 1].Live? && Occurs(a[i - 1].entry, b, i - 1) {
        DistinctAppend(out, a[i - 1].entry);
        assert MatchedAt(a, b, i - 1, a[i - 1].entry);
      }
    }
  }

  /** What the intersection holds is in both nodes, each entry once if node 2 has no repeats; it holds every
      common entry exactly when each sits in node 3 at its index in node 2 or later. */
  lemma IntersectionExact(a: seq<Slot>, b: seq<Slot>)
    requires Clean(a) && Clean(b)
    ensures var r := Intersection(a, b);
      && r.Done?
      && (forall x :: x in r.value ==> In(x, a) && In(x, b))
      && (NoRepeats(a) ==> Distinct(r.value))
      && ((forall x :: In(x, a) && In(x, b) ==> x in r.value)
          <==> forall x :: In(x, a) && In(x, b) ==> exists k :: 0 <= k < |a| && MatchedAt(a, b, k, x))
  {
    CommonExact(a, b, |a|);
  }

  // ---- Difference ----

  /** a[k] holds x, and b does not hold x in slot k or later. */
  predicate UnmatchedAt(a: seq<Slot>, b: seq<Slot>, k: nat, x: Entry) {
    k < |a| && a[k] == Live(x) && !Occurs(x, b, k)
  }

  /** The second loop leaves b[k] out: it finds the entry of a[k], not of b[k], among b[k], ..., b[|a| - 1]. */
  predicate LeftOut(a: seq<Slot>, b: seq<Slot>, k: nat) {
    k < |a| <= |b| && a[k].Live? && Within(a[k].entry, b, k, |a|)
  }

  predicate SecondAt(a: seq<Slot>, b: seq<Slot>, k: nat, x: Entry) {
    k < |b| && b[k] == Live(x) && !LeftOut(a, b, k)
  }

  /** The second loop compares no live entry of a with slots beyond the end of b. */
  predicate InRange(a: seq<Slot>, b: seq<Slot>) {
    |a| <= |b| || forall k :: 0 <= k < |b| ==> !a[k].Live?
  }

  lemma {:induction false} FirstExact(a: seq<Slot>, b: seq<Slot>, i: nat)
    requires Clean(a) && Clean(b) && i <= |a|
    ensures FirstTo(a, b, i).Done?
    ensures forall x :: x in FirstTo(a, b, i).value <==> exists k :: 0 <= k < i && UnmatchedAt(a, b, k, x)
    ensures NoRepeats(a) ==> Distinct(FirstTo(a, b, i).value)
  {
    if i > 0 {
      FirstExact(a, b, i - 1);
      var out := FirstTo(a, b, i - 1).value;
      if i - 1 <= |b| {
        ScanExact(a[i - 1], b, i - 1, |b|);
      }
      if a[i - 1].Live? && !Occurs(a[i - 1].entry, b, i - 1) {
        DistinctAppend(out, a[i - 1].entry);
        assert UnmatchedAt(a, b, i - 1, a[i - 1].entry);
      }
    }
  }

  lemma SecondScan(a: seq<Slot>, b: seq<Slot>, k: nat)
    requires Clean(a) && Clean(b) && InRange(a, b) && k < |b| && k < |a|
    ensures Scan(a[k], b, k, |a|) == Done(LeftOut(a, b, k))
  {
    if |a| <= |b| {
      ScanExact(a[k], b, k, |a|);
    } else {
      ScanBeyond(a[k], b, k, |a|);
    }
  }

  lemma {:induction false} SecondExact(a: seq<Slot>, b: seq<Slot>, i: nat)
    requires Clean(a) && Clean(b) && InRange(a, b) && i <= |b|
    ensures SecondTo(a, b, i).Done?
    ensures forall x :: x in SecondTo(a, b, i).value <==> exists k :: 0 <= k < i && SecondAt(a, b, k, x)
    ensures NoRepeats(b) ==> Distinct(SecondTo(a, b, i).value)
  {
    if i > 0 {
      SecondExact(a, b, i - 1);
      var out := SecondTo(a, b, i - 1).value;
      if i - 1 < |a| {
        SecondScan(a, b, i - 1);
      }
      if b[i - 1].Live? && !LeftOut(a, b, i - 1) {
        DistinctAppend(out, b[i - 1].entry);
        assert SecondAt(a, b, i - 1, b[i - 1].entry);
      }
    }
  }

  lemma {:induction false} SecondFaults(a: seq<Slot>, b: seq<Slot>, i: nat, k: nat)
    requires Clean(a) && Clean(b) && |a| > |b| && k < i <= |b| && a[k].Live?
    ensures !SecondTo(a, b, i).Done?
  {
    if k == i - 1 {
      ScanBeyond(a[k], b, k, |a|);
    } else {
      SecondFaults(a, b, i - 1, k);
    }
  }

  /** On clean tables the difference returns exactly when its second loop stays in range. */
  lemma DifferenceReturns(a: seq<Slot>, b: seq<Slot>)
    requires Clean(a) && Clean(b)
    ensures Difference(a, b).Done? <==> InRange(a, b)
  {
    FirstExact(a, b, |a|);
    if InRange(a, b) {
      SecondExact(a, b, |b|);
    } else {
      var k :| 0 <= k < |b| && a[k].Live?;
      SecondFaults(a, b, |b|, k);
    }
  }

  lemma DifferenceMembers(a: seq<Slot>, b: seq<Slot>, x: Entry)
    requires Clean(a) && Clean(b) && InRange(a, b)
    ensures var r := Difference(a, b);
      r.Done? && (x in r.value
        <==> (exists k :: 0 <= k < |a| && UnmatchedAt(a, b, k, x))
             || (exists k :: 0 <= k < |b| && SecondAt(a, b, k, x)))
  {
    FirstExact(a, b, |a|);
    SecondExact(a, b, |b|);
  }

  /** Common entries sit at the same index in both tables. */
  predicate Aligned(a: seq<Slot>, b: seq<Slot>) {
    forall p, q :: 0 <= p < |a| && 0 <= q < |b| && a[p].Live? && a[p] == b[q] ==> p == q
  }

  ghost predicate IsSymmetricDifference(r: seq<Entry>, a: seq<Slot>, b: seq<Slot>) {
    forall x :: x in r <==> (In(x, a) <==> !In(x, b))
  }

  /** A right difference leaves out a common entry in both loops; then it cannot sit later in b than in a,
      or the entry of a at that later index would be common too and sit later still. */
  lemma {:induction false} Climb(a: seq<Slot>, b: seq<Slot>, r: seq<Entry>, p: nat, q: nat)
    requires Clean(a) && Clean(b) && NoRepeats(a) && NoRepeats(b) && InRange(a, b)
    requires Difference(a, b) == Done(r) && IsSymmetricDifference(r, a, b)
    requires p < |a| && q < |b| && a[p].Live? && a[p] == b[q]
    ensures p == q
    decreases |a| - p
  {
    var x := a[p].entry;
    DifferenceMembers(a, b, x);
    assert a[p] == Live(x) && b[q] == Live(x);
    assert In(x, a) && In(x, b);
    assert !UnmatchedAt(a, b, p, x);
    assert !SecondAt(a, b, q, x);
    if p < q {
      var l :| q <= l < |a| && b[l] == a[q];
      Climb(a, b, r, q, l);
    }
  }

  /** Aligned, a common entry is left out of both parts, and any other is in the part for its node. */
  lemma AlignedMember(a: seq<Slot>, b: seq<Slot>, x: Entry)
    requires Clean(a) && Clean(b) && InRange(a, b) && Aligned(a, b)
    ensures (exists k :: 0 <= k < |a| && UnmatchedAt(a, b, k, x)) <==> In(x, a) && !In(x, b)
    ensures (exists k :: 0 <= k < |b| && SecondAt(a, b, k, x)) <==> In(x, b) && !In(x, a)
  {
    if k :| 0 <= k < |a| && a[k] == Live(x) {
      assert In(x, b) <==> Occurs(x, b, k);
      assert !In(x, b) ==> UnmatchedAt(a, b, k, x);
    }
    if k :| 0 <= k < |b| && b[k] == Live(x) {
      assert In(x, a) <==> LeftOut(a, b, k);
      assert !In(x, a) ==> SecondAt(a, b, k, x);
    }
  }

  /** On clean tables without repeats the difference, if it returns, is the symmetric difference exactly when
      every common entry sits at the same index in both nodes. */
  lemma DifferenceExact(a: seq<Slot>, b: seq<Slot>)
    requires Clean(a) && Clean(b) && NoRepeats(a) && NoRepeats(b) && Difference(a, b).Done?
    ensures IsSymmetricDifference(Difference(a, b).value, a, b) <==> Aligned(a, b)
  {
    DifferenceReturns(a, b);
    var r := Difference(a, b).value;
    if Aligned(a, b) {
      forall x
        ensures x in r <==> (In(x, a) <==> !In(x, b))
      {
        DifferenceMembers(a, b, x);
        AlignedMember(a, b, x);
      }
    }
    if IsSymmetricDifference(r, a, b) {
      forall p, q | 0 <= p < |a| && 0 <= q < |b| && a[p].Live? && a[p] == b[q]
        ensures p == q
      {
        Climb(a, b, r, p, q);
      }
    }
  }

  // ---- Tables with junk ----

  /** One of slots j to n - 1 of b is junk. */
  predicate JunkWithin(b: seq<Slot>, j: nat, n: nat) {
    n <= |b| && exists k :: j <= k < n && b[k].Junk?
  }

  /** The inner loop faults exactly at junk that it compares, or past the end of the table. */
  lemma {:induction false} ScanFaults(x: Slot, b: seq<Slot>, j: nat, n: nat)
    ensures Scan(x, b, j, n).Fault?
      <==> j < n && (x.Junk? || (x.Live? && (n > |b| || JunkWithin(b, j, n))))
    decreases n - j
  {
    if j < n {
      ScanFaults(x, b, j + 1, n);
      if x.Live? && n <= |b| && b[j].Junk? {
        assert Scan(x, b, j, n).Fault?;
      }
    }
  }

  /** Round i of the intersection meets junk. */
  predicate MeetsJunk(a: seq<Slot>, b: seq<Slot>, i: nat) {
    i < |a| && i < |b| && (a[i].Junk? || (a[i].Live? && JunkWithin(b, i, |b|)))
  }

  lemma {:induction false} CommonFaults(a: seq<Slot>, b: seq<Slot>, i: nat)
    requires i <= |a|
    ensures CommonTo(a, b, i).Fault? <==> exists k :: 0 <= k < i && MeetsJunk(a, b, k)
  {
    if i > 0 {
      CommonFaults(a, b, i - 1);
      ScanFaults(a[i - 1], b, i - 1, |b|);
      assert Scan(a[i - 1], b, i - 1, |b|).Fault? <==> MeetsJunk(a, b, i - 1);
      if Scan(a[i - 1], b, i - 1, |b|) == Done(true) {
        assert a[i - 1].Live? by { MatchedLive(a[i - 1], b, i - 1, |b|); }
      }
    }
  }

  lemma {:induction false} MatchedLive(x: Slot, b: seq<Slot>, j: nat, n: nat)
    requires Scan(x, b, j, n) == Done(true)
    ensures x.Live?
    decreases n - j
  {
    if j < n && !x.Live? {
      MatchedLive(x, b, j + 1, n);
    }
  }

  lemma {:induction false} FirstFaults(a: seq<Slot>, b: seq<Slot>, i: nat)
    requires i <= |a|
    ensures FirstTo(a, b, i).Fault? <==> exists k :: 0 <= k < i && (a[k].Junk? || MeetsJunk(a, b, k))
  {
    if i > 0 {
      FirstFaults(a, b, i - 1);
      ScanFaults(a[i - 1], b, i - 1, |b|);
      assert Scan(a[i - 1], b, i - 1, |b|).Fault? <==> MeetsJunk(a, b, i - 1);
      if Scan(a[i - 1], b, i - 1, |b|) == Done(true) {
        MatchedLive(a[i - 1], b, i - 1, |b|);
      }
    }
  }

  /** Round i of the second loop of the difference reads junk, or past the end of node 3. */
  predicate ReadsBeyond(a: seq<Slot>, b: seq<Slot>, i: nat) {
    i < |b| && (b[i].Junk? || (i < |a| && (a[i].Junk? || (a[i].Live? && (|a| > |b| || JunkWithin(b, i, |a|))))))
  }

  lemma {:induction false} SecondReads(a: seq<Slot>, b: seq<Slot>, i: nat)
    requires i <= |b|
    ensures SecondTo(a, b, i).Fault? <==> exists k :: 0 <= k < i && ReadsBeyond(a, b, k)
  {
    if i > 0 {
      SecondReads(a, b, i - 1);
      SecondRound(a, b, i - 1);
      var scan := if i - 1 < |a| then Scan(a[i - 1], b, i - 1, |a|) else Done(false);
      if SecondTo(a, b, i - 1).Done? {
        assert SecondTo(a, b, i).Fault? <==> scan.Fault? || (scan == Done(false) && b[i - 1].Junk?);
      }
    }
  }

  lemma SecondRound(a: seq<Slot>, b: seq<Slot>, i: nat)
    requires i < |b|
    ensures var scan := if i < |a| then Scan(a[i], b, i, |a|) else Done(false);
      ReadsBeyond(a, b, i) <==> scan.Fault? || (scan == Done(false) && b[i].Junk?)
  {
    if i < |a| {
      var scan := Scan(a[i], b, i, |a|);
      ScanFaults(a[i], b, i, |a|);
      assert scan.Fault? <==> a[i].Junk? || (a[i].Live? && (|a| > |b| || JunkWithin(b, i, |a|)));
      if a[i].Live? && |a| <= |b| && b[i].Junk? {
        assert JunkWithin(b, i, |a|);
      }
      if scan.Done? && scan.value {
        assert scan == Done(true);
        MatchedLive(a[i], b, i, |a|);
      } else if scan.Done? {
        assert scan == Done(false);
      }
    }
  }

  /** With any tables: the intersection faults exactly if one of its rounds meets junk, the difference exactly if
      there is junk anywhere or, for clean tables, if its second loop runs past the end of node 3. */
  lemma JunkExact(a: seq<Slot>, b: seq<Slot>)
    ensures Intersection(a, b).Fault? <==> exists k :: 0 <= k < |a| && MeetsJunk(a, b, k)
    ensures Difference(a, b).Done? <==> Clean(a) && Clean(b) && InRange(a, b)
  {
    CommonFaults(a, b, |a|);
    FirstFaults(a, b, |a|);
    SecondReads(a, b, |b|);
    if Clean(a) && Clean(b) {
      DifferenceReturns(a, b);
    } else if k :| 0 <= k < |b| && b[k].Junk? {
      assert ReadsBeyond(a, b, k);
    }
  }
}
