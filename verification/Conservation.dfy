/** Union, difference and intersection together: what the loops as written conserve, and what they would with
    inner scans over the whole of the other table. */
module Conservation {
  import opened Machine
  import opened SlotTables
  import opened SetAlgebra

  lemma {:induction false} DistinctCount(xs: seq<Entry>, x: Entry)
    requires Distinct(xs)
    ensures multiset(xs)[x] == if x in xs then 1 else 0
  {
    if xs != [] {
      var rest, last := xs[..|xs| - 1], xs[|xs| - 1];
      assert xs == rest + [last];
      DistinctAppend(rest, last);
      DistinctCount(rest, x);
    }
  }

  lemma CountUnion(a: seq<Slot>, b: seq<Slot>, x: Entry)
    requires NoRepeats(a) && NoRepeats(b)
    ensures multiset(LiveOf(a) + LiveOf(b))[x] == (if In(x, a) then 1 else 0) + if In(x, b) then 1 else 0
  {
    LiveDistinct(a, |a|);
    LiveDistinct(b, |b|);
    DistinctCount(LiveOf(a), x);
    DistinctCount(LiveOf(b), x);
    LiveMembers(a, |a|, x);
    LiveMembers(b, |b|, x);
  }

  // ---- As written ----

  /** The union holds every entry of the difference once and every entry of the intersection twice. */
  ghost predicate Conserved(a: seq<Slot>, b: seq<Slot>) {
    var u, d, i := Union(a, b), Difference(a, b), Intersection(a, b);
    u.Done? && d.Done? && i.Done? && multiset(u.value) == multiset(d.value) + multiset(i.value) + multiset(i.value)
  }

  /** Node 2 holds x at index q or before. */
  predicate NoLater(x: Entry, a: seq<Slot>, q: nat) {
    Within(x, a, 0, if q < |a| then q + 1 else |a|)
  }

  /** The second loop of the difference leaves out just those entries of node 3 that node 2 holds at the same
      index or before. */
  predicate Consistent(a: seq<Slot>, b: seq<Slot>) {
    forall q :: 0 <= q < |b| && b[q].Live? ==> (LeftOut(a, b, q) <==> NoLater(b[q].entry, a, q))
  }

  /** How often the parts of the difference and the intersection hold x. */
  lemma PartCounts(a: seq<Slot>, b: seq<Slot>, x: Entry)
    requires Clean(a) && Clean(b) && NoRepeats(a) && NoRepeats(b) && InRange(a, b)
    ensures Difference(a, b).Done? && Intersection(a, b).Done?
    ensures multiset(Difference(a, b).value)[x]
         == (if exists k :: 0 <= k < |a| && UnmatchedAt(a, b, k, x) then 1 else 0)
          + (if exists k :: 0 <= k < |b| && SecondAt(a, b, k, x) then 1 else 0)
    ensures multiset(Intersection(a, b).value)[x] == if exists k :: 0 <= k < |a| && MatchedAt(a, b, k, x) then 1 else 0
  {
    FirstExact(a, b, |a|);
    SecondExact(a, b, |b|);
    CommonExact(a, b, |a|);
    DistinctCount(FirstTo(a, b, |a|).value, x);
    DistinctCount(SecondTo(a, b, |b|).value, x);
    DistinctCount(Intersection(a, b).value, x);
  }

  /** Whether x alone is conserved. */
  ghost predicate ConservedAt(a: seq<Slot>, b: seq<Slot>, x: Entry)
    requires Difference(a, b).Done? && Intersection(a, b).Done?
  {
    (if In(x, a) then 1 else 0) + (if In(x, b) then 1 else 0)
      == multiset(Difference(a, b).value)[x] + 2 * multiset(Intersection(a, b).value)[x]
  }

  /** An entry of node 3 at index q. */
  lemma ConservedInB(a: seq<Slot>, b: seq<Slot>, x: Entry, q: nat)
    requires Clean(a) && Clean(b) && NoRepeats(a) && NoRepeats(b) && InRange(a, b)
    requires q < |b| && b[q] == Live(x)
    ensures Difference(a, b).Done? && Intersection(a, b).Done?
    ensures ConservedAt(a, b, x) <==> (LeftOut(a, b, q) <==> NoLater(x, a, q))
  {
    PartCounts(a, b, x);
    assert SecondAt(a, b, q, x) <==> !LeftOut(a, b, q);
    assert forall k :: SecondAt(a, b, k, x) ==> k == q;
    if p :| 0 <= p < |a| && a[p] == Live(x) {
      assert forall k :: MatchedAt(a, b, k, x) || UnmatchedAt(a, b, k, x) ==> k == p;
      assert Occurs(x, b, p) <==> p <= q;
      assert MatchedAt(a, b, p, x) <==> p <= q;
      assert UnmatchedAt(a, b, p, x) <==> p > q;
      assert NoLater(x, a, q) <==> p <= q;
    }
  }

  /** An entry that node 3 does not hold. */
  lemma ConservedElsewhere(a: seq<Slot>, b: seq<Slot>, x: Entry)
    requires Clean(a) && Clean(b) && NoRepeats(a) && NoRepeats(b) && InRange(a, b) && !In(x, b)
    ensures Difference(a, b).Done? && Intersection(a, b).Done? && ConservedAt(a, b, x)
  {
    PartCounts(a, b, x);
    if p :| 0 <= p < |a| && a[p] == Live(x) {
      assert UnmatchedAt(a, b, p, x);
    }
  }

  /** For nodes without repeats conservation holds exactly when the difference stays in its tables and its
      second loop leaves out just the entries of node 3 that node 2 holds at the same index or before. */
  lemma ConservationExact(a: seq<Slot>, b: seq<Slot>)
    requires Clean(a) && Clean(b) && NoRepeats(a) && NoRepeats(b)
    ensures Conserved(a, b) <==> InRange(a, b) && Consistent(a, b)
  {
    DifferenceReturns(a, b);
    if InRange(a, b) {
      ConservationInRange(a, b);
    }
  }

  lemma ConservationInRange(a: seq<Slot>, b: seq<Slot>)
    requires Clean(a) && Clean(b) && NoRepeats(a) && NoRepeats(b) && InRange(a, b)
    ensures Conserved(a, b) <==> Consistent(a, b)
  {
    UnionExact(a, b);
    DifferenceReturns(a, b);
    IntersectionExact(a, b);
    var u, d, i := Union(a, b).value, Difference(a, b).value, Intersection(a, b).value;
    if Conserved(a, b) {
      forall q | 0 <= q < |b| && b[q].Live?
        ensures LeftOut(a, b, q) <==> NoLater(b[q].entry, a, q)
      {
        var x := b[q].entry;
        CountUnion(a, b, x);
        assert multiset(u)[x] == (multiset(d) + multiset(i) + multiset(i))[x];
        ConservedInB(a, b, x, q);
      }
    }
    if Consistent(a, b) {
      forall x
        ensures multiset(u)[x] == (multiset(d) + multiset(i) + multiset(i))[x]
      {
        CountUnion(a, b, x);
        if q :| 0 <= q < |b| && b[q] == Live(x) {
          ConservedInB(a, b, x, q);
        } else {
          ConservedElsewhere(a, b, x);
        }
      }
    }
  }

  /** Nodes whose common entries are aligned conserve. */
  lemma AlignedConserves(a: seq<Slot>, b: seq<Slot>)
    requires Clean(a) && Clean(b) && NoRepeats(a) && NoRepeats(b) && InRange(a, b) && Aligned(a, b)
    ensures Conserved(a, b)
  {
    forall q | 0 <= q < |b| && b[q].Live?
      ensures LeftOut(a, b, q) <==> NoLater(b[q].entry, a, q)
    {
      AlignedMember(a, b, b[q].entry);
      assert SecondAt(a, b, q, b[q].entry) <==> !LeftOut(a, b, q);
    }
    ConservationExact(a, b);
  }

  const X := Entry(1, "x")
  const Y := Entry(2, "y")
  const Z := Entry(3, "z")

  /** It fails for x in node 2 and z, x in node 3: the union is x, z, x, the difference z, x, the
      intersection x. It can hold without alignment: for y, x and x, z. */
  lemma ConservationFails()
    ensures !Conserved([Live(X)], [Live(Z), Live(X)])
    ensures Conserved([Live(Y), Live(X)], [Live(X), Live(Z)]) && !Aligned([Live(Y), Live(X)], [Live(X), Live(Z)])
  {
    var a, b := [Live(X)], [Live(Z), Live(X)];
    assert NoLater(b[1].entry, a, 1) by { assert a[0] == b[1]; }
    assert !LeftOut(a, b, 1);
    ConservationExact(a, b);
    var c, d := [Live(Y), Live(X)], [Live(X), Live(Z)];
    assert c[1] == d[0];
    assert !NoLater(d[0].entry, c, 0) && !LeftOut(c, d, 0);
    assert !NoLater(d[1].entry, c, 1) && !LeftOut(c, d, 1);
    ConservationExact(c, d);
  }

  // ---- With scans over the whole of the other table ----

  /** The entries of the first i slots of a that b holds anywhere, or that b does not hold. */
  function Shared(a: seq<Slot>, b: seq<Slot>, i: nat): (r: seq<Entry>)
    requires i <= |a|
  {
    if i == 0 then []
    else Shared(a, b, i - 1) + if a[i - 1].Live? && In(a[i - 1].entry, b) then [a[i - 1].entry] else []
  }

  function Unshared(a: seq<Slot>, b: seq<Slot>, i: nat): (r: seq<Entry>)
    requires i <= |a|
  {
    if i == 0 then []
    else Unshared(a, b, i - 1) + if a[i - 1].Live? && !In(a[i - 1].entry, b) then [a[i - 1].entry] else []
  }

  function FullIntersection(a: seq<Slot>, b: seq<Slot>): (r: seq<Entry>) {
    Shared(a, b, |a|)
  }

  function FullDifference(a: seq<Slot>, b: seq<Slot>): (r: seq<Entry>) {
    Unshared(a, b, |a|) + Unshared(b, a, |b|)
  }

  lemma {:induction false} SharedExact(a: seq<Slot>, b: seq<Slot>, i: nat)
    requires i <= |a|
    ensures forall x :: x in Shared(a, b, i) <==> Within(x, a, 0, i) && In(x, b)
    ensures forall x :: x in Unshared(a, b, i) <==> Within(x, a, 0, i) && !In(x, b)
  {
    if i > 0 {
      SharedExact(a, b, i - 1);
    }
  }

  lemma {:induction false} SharedDistinct(a: seq<Slot>, b: seq<Slot>, i: nat)
    requires i <= |a| && NoRepeatsTo(a, i)
    ensures Distinct(Shared(a, b, i)) && Distinct(Unshared(a, b, i))
  {
    if i > 0 {
      SharedDistinct(a, b, i - 1);
      SharedExact(a, b, i - 1);
      if a[i - 1].Live? {
        DistinctAppend(Shared(a, b, i - 1), a[i - 1].entry);
        DistinctAppend(Unshared(a, b, i - 1), a[i - 1].entry);
      } else {
        assert Shared(a, b, i - 1) + [] == Shared(a, b, i - 1);
        assert Unshared(a, b, i - 1) + [] == Unshared(a, b, i - 1);
      }
    }
  }

  /** Scanning the whole of the other table, whatever holes the tables have: the intersection is the common
      entries, the difference the symmetric difference, and for nodes without repeats all are conserved. */
  lemma FullScanLaws(a: seq<Slot>, b: seq<Slot>)
    ensures forall x :: x in FullIntersection(a, b) <==> In(x, a) && In(x, b)
    ensures IsSymmetricDifference(FullDifference(a, b), a, b)
    ensures NoRepeats(a) && NoRepeats(b) ==>
      && Distinct(FullIntersection(a, b)) && Distinct(FullDifference(a, b))
      && multiset(LiveOf(a) + LiveOf(b))
           == multiset(FullDifference(a, b)) + multiset(FullIntersection(a, b)) + multiset(FullIntersection(a, b))
  {
    SharedExact(a, b, |a|);
    SharedExact(b, a, |b|);
    DistinctConcat(Unshared(a, b, |a|), Unshared(b, a, |b|));
    if NoRepeats(a) && NoRepeats(b) {
      SharedDistinct(a, b, |a|);
      SharedDistinct(b, a, |b|);
      var u, d, i := LiveOf(a) + LiveOf(b), FullDifference(a, b), FullIntersection(a, b);
      forall x
        ensures multiset(u)[x] == (multiset(d) + multiset(i) + multiset(i))[x]
      {
        CountUnion(a, b, x);
        DistinctCount(d, x);
        DistinctCount(i, x);
      }
    }
  }

  // ---- When the loops as written do the same ----

  /** Every entry of a that b holds, b holds at that index or later. */
  predicate Forward(a: seq<Slot>, b: seq<Slot>, i: nat)
    requires i <= |a|
  {
    forall k :: 0 <= k < i && a[k].Live? && In(a[k].entry, b) ==> Occurs(a[k].entry, b, k)
  }

  lemma {:induction false} CommonIsShared(a: seq<Slot>, b: seq<Slot>, i: nat)
    requires Clean(a) && Clean(b) && i <= |a|
    ensures var r := CommonTo(a, b, i);
      r.Done? && |r.value| <= |Shared(a, b, i)| && (r.value == Shared(a, b, i) <==> Forward(a, b, i))
      && (r.value != Shared(a, b, i) ==> |r.value| < |Shared(a, b, i)|)
  {
    if i > 0 {
      CommonIsShared(a, b, i - 1);
      if i - 1 <= |b| {
        ScanExact(a[i - 1], b, i - 1, |b|);
      }
      assert Shared(a, b, i - 1) + [] == Shared(a, b, i - 1);
    }
  }

  /** The intersection as written is that of full scans, in the same order, exactly when every common entry
      sits in node 3 at its index in node 2 or later. */
  lemma IntersectionIsFull(a: seq<Slot>, b: seq<Slot>)
    requires Clean(a) && Clean(b)
    ensures Intersection(a, b) == Done(FullIntersection(a, b)) <==> Forward(a, b, |a|)
  {
    CommonIsShared(a, b, |a|);
  }

  lemma {:induction false} FirstIsUnshared(a: seq<Slot>, b: seq<Slot>, i: nat)
    requires Clean(a) && Clean(b) && i <= |a| && Aligned(a, b)
    ensures FirstTo(a, b, i) == Done(Unshared(a, b, i))
  {
    if i > 0 {
      FirstIsUnshared(a, b, i - 1);
      if i - 1 <= |b| {
        ScanExact(a[i - 1], b, i - 1, |b|);
      }
      assert Unshared(a, b, i - 1) + [] == Unshared(a, b, i - 1);
    }
  }

  lemma {:induction false} SecondIsUnshared(a: seq<Slot>, b: seq<Slot>, i: nat)
    requires Clean(a) && Clean(b) && InRange(a, b) && i <= |b| && Aligned(a, b)
    ensures SecondTo(a, b, i) == Done(Unshared(b, a, i))
  {
    if i > 0 {
      SecondIsUnshared(a, b, i - 1);
      if i - 1 < |a| {
        SecondScan(a, b, i - 1);
      }
      if b[i - 1].Live? {
        AlignedMember(a, b, b[i - 1].entry);
        assert SecondAt(a, b, i - 1, b[i - 1].entry) <==> !LeftOut(a, b, i - 1);
        assert In(b[i - 1].entry, b);
      }
      assert Unshared(b, a, i - 1) + [] == Unshared(b, a, i - 1);
    }
  }

  /** The difference as written, for nodes without repeats, is that of full scans exactly when it stays in its
      tables and common entries sit at equal indices. */
  lemma DifferenceIsFull(a: seq<Slot>, b: seq<Slot>)
    requires Clean(a) && Clean(b) && NoRepeats(a) && NoRepeats(b)
    ensures Difference(a, b) == Done(FullDifference(a, b)) <==> InRange(a, b) && Aligned(a, b)
  {
    DifferenceReturns(a, b);
    FullScanLaws(a, b);
    if InRange(a, b) {
      DifferenceExact(a, b);
      if Aligned(a, b) {
        FirstIsUnshared(a, b, |a|);
        SecondIsUnshared(a, b, |b|);
      }
    }
  }
}
