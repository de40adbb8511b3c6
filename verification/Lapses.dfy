/** A mutex given up never, and one given up too early. */
module Lapses {
  import opened Machine
  import opened LockArrays
  import opened Books
  import opened Locks
  import opened Exclusion

  // ---- Never ----

  /** Once a thread has ended holding a mutex, as after cache_get_object_size, no schedule ever lets another
      thread lock it. */
  lemma {:induction false} EndedHoldingStarves(s: System, t: nat, c: nat, schedule: seq<nat>)
    requires t < |s.threads| && !Unfinished(s, t) && Owns(s, t, c) && CanRun(s, schedule)
    ensures var r := Run(s, schedule);
      && Owns(r, t, c)
      && forall u: nat :: u < |r.threads| && r.threads[u].now != [] && r.threads[u].now[0] == Lock(c) ==> !CanStep(r, u)
    decreases |schedule|
  {
    if schedule != [] {
      EndedHoldingStarves(Next(s, schedule[0]), t, c, schedule[1..]);
    }
  }

  /** A thread whose last call is cache_get_object_size on cache c, in a system where nobody else holds the
      mutex, ends it holding the mutex; every other thread that then asks for it waits for ever. */
  lemma ObjectSizeStarves(s: System, t: nat, c: nat, schedule: seq<nat>)
    requires t < |s.threads| && s.threads[t] == Thread(multiset{}, {}, multiset{}, [], [ObjectSize(c)])
    requires forall u :: 0 <= u < |s.threads| ==> !Owns(s, u, c)
    ensures CanRun(s, [t, t, t])
    ensures var r := Run(s, [t, t, t]);
      CanRun(r, schedule) ==>
        var q := Run(r, schedule);
        && Owns(q, t, c)
        && forall u: nat :: u < |q.threads| && q.threads[u].now != [] && q.threads[u].now[0] == Lock(c) ==>
             !CanStep(q, u)
  {
    assert Program(ObjectSize(c)) == [Lock(c), Lock(c)];
    assert [Lock(c), Lock(c)][1..] == [Lock(c)] && [Lock(c)][1..] == [];
    assert [ObjectSize(c)][1..] == [];
    var s1 := Next(s, t);
    assert s1.threads[t] == Thread(multiset{}, {}, multiset{}, [Lock(c), Lock(c)], []);
    assert forall u :: 0 <= u < |s1.threads| && u != t ==> (Owns(s1, u, c) <==> Owns(s, u, c));
    assert CanStep(s1, t);
    var s2 := Next(s1, t);
    assert s2.threads[t] == Thread(multiset{} + multiset{c}, {}, multiset{}, [Lock(c)], []);
    assert forall u :: 0 <= u < |s2.threads| && u != t ==> (Owns(s2, u, c) <==> Owns(s1, u, c));
    assert CanStep(s2, t);
    var s3 := Next(s2, t);
    assert CanRun(s3, []);
    Then(s2, t, []);
    Then(s1, t, [t] + []);
    Then(s, t, [t] + ([t] + []));
    assert [t] + ([t] + ([t] + [])) == [t, t, t];
    assert !Unfinished(s3, t) && Owns(s3, t, c);
    if CanRun(s3, schedule) {
      EndedHoldingStarves(s3, t, c, schedule);
    }
  }

  // ---- Too early ----

  /** Two threads are about to assign to the tables of one cache. */
  ghost predicate Racing(s: System, c: nat) {
    exists t, u :: 0 <= t < u < |s.threads| && Assigns(s, t, c) && Assigns(s, u, c)
  }

  predicate Assigns(s: System, t: nat, c: nat)
    requires t < |s.threads|
  {
    s.threads[t].now != [] && s.threads[t].now[0].Do? && s.threads[t].now[0].cache == c
  }

  /** Threads that keep to the rules never do. */
  lemma NoRace(s: System, c: nat)
    requires Safe(s)
    ensures !Racing(s, c)
  {
    forall t, u | 0 <= t < u < |s.threads| && Assigns(s, t, c)
      ensures !Assigns(s, u, c)
    {
      assert Orderly(s.threads[t]) && Orderly(s.threads[u]);
      assert Owns(s, t, c) && !Owns(s, u, c);
    }
  }

  /** The thread of a caller that locks the mutex and then loads into block b and deletes it, after j steps. */
  function HeldAt(c: nat, b: nat, tag: uint32, j: nat): (x: Thread)
    requires j <= 8
  {
    Thread(if j <= 1 || j >= 7 then multiset{} else multiset{c}, if 3 <= j <= 5 || j == 8 then {Key(c, b)} else {},
           multiset{}, if j == 0 then [] else ([Lock(c)] + HeldActs(c, b, tag))[j - 1..],
           if j == 0 then [HeldLoad(c, b, tag)] else [])
  }

  /** The thread that deletes block b, after j steps. */
  function DeleteAt(c: nat, b: nat, j: nat): (x: Thread)
    requires j <= 3
  {
    Thread(if j <= 1 then multiset{} else multiset{c}, if j == 3 then {Key(c, b)} else {}, multiset{},
           if j == 0 then [] else Program(Delete(c, b))[j - 1..], if j == 0 then [Delete(c, b)] else [])
  }

  lemma HeldNow(c: nat, b: nat, tag: uint32, j: nat)
    requires j < 8
    ensures var x, p := HeldAt(c, b, tag, j), [Lock(c)] + HeldActs(c, b, tag);
      && (j == 0 ==> x.now == [] && x.calls == [HeldLoad(c, b, tag)])
      && (j > 0 ==> x.now == p[j - 1..] && x.now != [] && x.now[0] == p[j - 1] && x.now[1..] == p[j..] && x.calls == [])
  {
    var p := [Lock(c)] + HeldActs(c, b, tag);
    assert j > 0 ==> p[j - 1..][1..] == p[j..];
  }

  lemma HeldGoesOn(c: nat, b: nat, tag: uint32, j: nat)
    requires j < 8
    ensures var x := HeldAt(c, b, tag, j);
      && (j == 0 ==> x.now == [] && x.calls != [] && Begin(x) == HeldAt(c, b, tag, 1))
      && (j > 0 ==> x.now != [] && x.now[0] == ([Lock(c)] + HeldActs(c, b, tag))[j - 1]
                    && After(x, []) == HeldAt(c, b, tag, j + 1))
  {
    hide HeldActs;
    var k, p := Key(c, b), [Lock(c)] + HeldActs(c, b, tag);
    HeldNow(c, b, tag, j);
    assert Program(HeldLoad(c, b, tag)) == p && p[0..] == p;
    assert multiset{} + multiset{c} == multiset{c} && multiset{c} - multiset{c} == multiset{};
    assert {} + {k} == {k} && {k} - {k} == {};
    if j > 0 {
      HeldAct(c, b, tag, j);
    }
  }

  lemma DeleteGoesOn(c: nat, b: nat, j: nat)
    requires j < 3
    ensures var x, k := DeleteAt(c, b, j), Key(c, b);
      && (j == 0 ==> x.now == [] && x.calls != [] && Begin(x) == DeleteAt(c, b, 1))
      && (j > 0 ==> x.now != [] && x.now[0] == (if j == 1 then Lock(c) else Wr(k))
                    && After(x, []) == DeleteAt(c, b, j + 1))
  {
    var k, p := Key(c, b), Program(Delete(c, b));
    assert p == [Lock(c), Wr(k), Do(c, ClearUsed(b)), Do(c, CountOff), Release(k), Unlock(c)] && p[0..] == p;
    assert multiset{} + multiset{c} == multiset{c};
    assert {} + {k} == {k};
    assert j > 0 ==> p[j - 1..][1..] == p[j..];
  }

  /** The first thread after i steps and the second after j, and the locks of their blocks. */
  ghost predicate Both(s: System, c: nat, b: nat, b2: nat, tag: uint32, i: nat, j: nat) {
    && i <= 8 && j <= 3 && (j > 0 ==> i == 8)
    && s.threads == [HeldAt(c, b, tag, i), DeleteAt(c, b2, j)]
    && b < |s.locks(c)| && b2 < |s.locks(c)| && b != b2
    && s.locks(c)[b] == (if 3 <= i <= 5 || i == 8 then RwLock(Some(0), multiset{}) else UNLOCKED)
    && (j < 3 ==> s.locks(c)[b2] == UNLOCKED)
  }

  lemma HeldAct(c: nat, b: nat, tag: uint32, j: nat)
    requires 0 < j < 8
    ensures var a, k := ([Lock(c)] + HeldActs(c, b, tag))[j - 1], Key(c, b);
      && (j == 1 ==> a == Lock(c)) && (j == 2 || j == 7 ==> a == Wr(k)) && (j == 5 ==> a == Release(k))
      && (j == 3 || j == 4 ==> a.Do? && a.cache == c && !Reshapes(a.effect)) && (j == 6 ==> a == Unlock(c))
  {
  }

  lemma HeldThread(s: System, c: nat, b: nat, b2: nat, tag: uint32, i: nat)
    requires Both(s, c, b, b2, tag, i, 0) && i < 8 && CanStep(s, 0)
    ensures Next(s, 0).threads == [HeldAt(c, b, tag, i + 1), DeleteAt(c, b2, 0)]
  {
    HeldGoesOn(c, b, tag, i);
    if i > 0 {
      HeldAct(c, b, tag, i);
    }
    hide HeldAt, HeldActs, Apply, CanStep;
  }

  lemma HeldCan(s: System, c: nat, b: nat, b2: nat, tag: uint32, i: nat)
    requires Both(s, c, b, b2, tag, i, 0) && i < 8
    ensures CanStep(s, 0)
  {
    hide HeldAt, HeldActs;
    HeldGoesOn(c, b, tag, i);
    if i > 0 {
      HeldAct(c, b, tag, i);
    }
  }

  lemma HeldStep(s: System, c: nat, b: nat, b2: nat, tag: uint32, i: nat)
    requires Both(s, c, b, b2, tag, i, 0) && i < 8
    ensures CanStep(s, 0) && Both(Next(s, 0), c, b, b2, tag, i + 1, 0)
  {
    HeldCan(s, c, b, b2, tag, i);
    HeldThread(s, c, b, b2, tag, i);
    NextArray(s, 0, c);
    HeldGoesOn(c, b, tag, i);
    if i > 0 {
      HeldAct(c, b, tag, i);
    }
    hide HeldAt, DeleteAt, HeldActs, Apply, Next, CanStep;
  }

  lemma DeleteStep(s: System, c: nat, b: nat, b2: nat, tag: uint32, j: nat)
    requires Both(s, c, b, b2, tag, 8, j) && j < 3
    ensures CanStep(s, 1) && Both(Next(s, 1), c, b, b2, tag, 8, j + 1)
  {
    DeleteGoesOn(c, b2, j);
    hide DeleteAt;
    assert Next(s, 1).threads == [HeldAt(c, b, tag, 8), DeleteAt(c, b2, j + 1)];
  }

  lemma {:induction false} RunBoth(s: System, c: nat, b: nat, b2: nat, tag: uint32, i: nat, j: nat)
      returns (schedule: seq<nat>)
    requires i <= 8 && j <= 3 && Both(s, c, b, b2, tag, i, j)
    ensures CanRun(s, schedule) && Both(Run(s, schedule), c, b, b2, tag, 8, 3)
    decreases 8 - i, 3 - j
  {
    hide Both, CanStep, Next;
    if i < 8 {
      BeganLate(s, c, b, b2, tag, i, j);
      HeldStep(s, c, b, b2, tag, i);
      schedule := RunBoth(Next(s, 0), c, b, b2, tag, i + 1, 0);
      Then(s, 0, schedule);
      schedule := [0] + schedule;
    } else if j < 3 {
      DeleteStep(s, c, b, b2, tag, j);
      schedule := RunBoth(Next(s, 1), c, b, b2, tag, 8, j + 1);
      Then(s, 1, schedule);
      schedule := [1] + schedule;
    } else {
      schedule := [];
    }
  }

  lemma BeganLate(s: System, c: nat, b: nat, b2: nat, tag: uint32, i: nat, j: nat)
    requires i <= 8 && Both(s, c, b, b2, tag, i, j) && i < 8
    ensures j == 0
  {
  }

  /** A caller that holds the mutex loses it to a load, which unlocks it all the same. With another thread that
      deletes another block there is a schedule after which both are about to assign to the cache's tables, the
      caller without the mutex, which the other thread has. */
  lemma LoadDropsCallersMutex(c: nat, b: nat, b2: nat, tag: uint32, book: nat -> Book) returns (schedule: seq<nat>)
    requires b < |book(c).flags| && b2 < |book(c).flags| && b != b2
    ensures CanRun(Start([[HeldLoad(c, b, tag)], [Delete(c, b2)]], book), schedule)
    ensures var s := Run(Start([[HeldLoad(c, b, tag)], [Delete(c, b2)]], book), schedule);
      Racing(s, c) && Assigns(s, 0, c) && !Owns(s, 0, c) && Owns(s, 1, c)
  {
    var s := Start([[HeldLoad(c, b, tag)], [Delete(c, b2)]], book);
    assert Both(s, c, b, b2, tag, 0, 0);
    schedule := RunBoth(s, c, b, b2, tag, 0, 0);
    AtLast(Run(s, schedule), c, b, b2, tag);
  }

  lemma AtLast(s: System, c: nat, b: nat, b2: nat, tag: uint32)
    requires Both(s, c, b, b2, tag, 8, 3)
    ensures Racing(s, c) && Assigns(s, 0, c) && !Owns(s, 0, c) && Owns(s, 1, c)
  {
    var p := [Lock(c)] + HeldActs(c, b, tag);
    assert p[7..][0] == Do(c, ClearUsed(b));
    assert Program(Delete(c, b2))[2..][0] == Do(c, ClearUsed(b2));
    assert Assigns(s, 0, c) && Assigns(s, 1, c);
  }
}
