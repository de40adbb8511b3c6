/** Counting used flags, and listing them, over updates, slices and concatenations. */
module Counting {
  import opened Machine
  import opened Slabs

  lemma {:induction false} CountBelow(flags: seq<byte>, k: nat, f: byte, i: nat)
    requires k < |flags| && i <= |flags|
    ensures CountTo(flags[k := f], i) == CountTo(flags, i) + if k < i then Bit(f) - Bit(flags[k]) else 0
  {
    if i > 0 {
      CountBelow(flags, k, f, i - 1);
    }
  }

  lemma CountUpdate(flags: seq<byte>, k: nat, f: byte)
    requires k < |flags|
    ensures Count(flags[k := f]) == Count(flags) + Bit(f) - Bit(flags[k])
  {
    CountBelow(flags, k, f, |flags|);
  }

  lemma {:induction false} CountAgree(f: seq<byte>, g: seq<byte>, i: nat)
    requires i <= |f| && i <= |g| && forall k :: 0 <= k < i ==> f[k] == g[k]
    ensures CountTo(f, i) == CountTo(g, i)
  {
    if i > 0 {
      CountAgree(f, g, i - 1);
    }
  }

  lemma {:induction false} CountConcat(f: seq<byte>, g: seq<byte>, i: nat)
    requires i <= |g|
    ensures CountTo(f + g, |f| + i) == Count(f) + CountTo(g, i)
  {
    if i == 0 {
      CountAgree(f + g, f, |f|);
    } else {
      CountConcat(f, g, i - 1);
    }
  }

  lemma CountOfConcat(f: seq<byte>, g: seq<byte>)
    ensures Count(f + g) == Count(f) + Count(g)
  {
    CountConcat(f, g, |g|);
  }

  lemma {:induction false} CountZero(flags: seq<byte>, i: nat)
    requires i <= |flags|
    ensures CountTo(flags, i) == 0 <==> forall k :: 0 <= k < i ==> !Used(flags[k])
  {
    if i > 0 {
      CountZero(flags, i - 1);
    }
  }

  lemma DropAccount(flags: seq<byte>, m: nat)
    requires m <= |flags|
    ensures Count(flags[..m]) == Count(flags) <==> forall k :: m <= k < |flags| ==> !Used(flags[k])
  {
    var low, high := flags[..m], flags[m..];
    assert low + high == flags;
    CountOfConcat(low, high);
    CountZero(high, |high|);
    assert forall k :: m <= k < |flags| ==> flags[k] == high[k - m];
  }

  lemma GrowAccount(flags: seq<byte>, exposed: seq<byte>)
    ensures Count(flags + exposed) == Count(flags) <==> forall k :: 0 <= k < |exposed| ==> !Used(exposed[k])
  {
    CountOfConcat(flags, exposed);
    CountZero(exposed, |exposed|);
  }

  lemma {:induction false} SplitCount(flags: seq<byte>, f: nat)
    requires f <= |flags|
    ensures Count(flags) >= Count(flags[..f])
    ensures Count(flags) == Count(flags[..f]) ==> forall k :: f <= k < |flags| ==> !Used(flags[k])
  {
    DropAccount(flags, f);
    assert flags[..f] + flags[f..] == flags;
    CountOfConcat(flags[..f], flags[f..]);
  }

  lemma {:induction false} CountFull(flags: seq<byte>, i: nat)
    requires i <= |flags| && forall k :: 0 <= k < i ==> Used(flags[k])
    ensures CountTo(flags, i) == i
  {
    if i > 0 {
      CountFull(flags, i - 1);
    }
  }

  function Shift(u: seq<nat>, d: nat): (r: seq<nat>) {
    seq(|u|, k requires 0 <= k < |u| => u[k] + d)
  }

  lemma {:induction false} UsedIdxConcat(f: seq<byte>, g: seq<byte>, i: nat)
    requires i <= |g|
    ensures UsedIdx(f + g, |f| + i) == UsedIdx(f, |f|) + Shift(UsedIdx(g, i), |f|)
  {
    if i == 0 {
      UsedIdxAgree(f + g, f, |f|);
    } else {
      UsedIdxConcat(f, g, i - 1);
      UsedIdxStep(f + g, |f| + i);
      UsedIdxStep(g, i);
      ShiftAppend(UsedIdx(g, i - 1), i - 1, |f|);
    }
  }

  lemma UsedIdxStep(flags: seq<byte>, i: nat)
    requires 0 < i <= |flags|
    ensures UsedIdx(flags, i) == if Used(flags[i - 1]) then UsedIdx(flags, i - 1) + [i - 1] else UsedIdx(flags, i - 1)
  {
  }

  lemma ShiftAppend(u: seq<nat>, x: nat, d: nat)
    ensures Shift(u + [x], d) == Shift(u, d) + [x + d]
  {
  }
}
