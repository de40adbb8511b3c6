/** The C machine underneath the two libraries: integer widths, how a call can
    end, and the few facts about sequences and products that every module needs. */
module Machine {

  const U32: int := 0x1_0000_0000
  const U64: int := 0x1_0000_0000_0000_0000

  type byte = x: int | 0 <= x < 256
  type uint32 = x: int | 0 <= x < 0x1_0000_0000
  type uint64 = x: int | 0 <= x < 0x1_0000_0000_0000_0000

  /** Unsigned 32-bit sum and difference, wrapping at 2^32. */
  function Add32(a: uint32, b: uint32): (r: uint32) {
    if a + b < U32 then a + b else a + b - U32
  }

  function Sub32(a: uint32, b: uint32): (r: uint32) {
    if a >= b then a - b else a - b + U32
  }

  /** How a library call ends.
      - Done: it returns.
      - Exit: it calls pups_error, whose default action leaves the process.
      - Fault: it reads or writes memory outside the object it allocated, which C leaves undefined. */
  datatype Outcome<+T> = Done(value: T) | Exit | Fault {
    predicate IsFailure() {
      !Done?
    }

    function PropagateFailure<U>(): Outcome<U>
      requires IsFailure()
    {
      if Exit? then Exit else Fault
    }

    function Extract(): T
      requires !IsFailure()
    {
      value
    }
  }

  datatype Option<+T> = None | Some(value: T)

  /** Product bounds for block k of n blocks of bs bytes. */
  lemma BlockBounds(k: nat, n: nat, bs: nat)
    requires k < n
    ensures 0 <= k * bs <= (k + 1) * bs <= n * bs
    ensures (k + 1) * bs == k * bs + bs
  {
    ScaleMonotone(k + 1, n, bs);
  }

  lemma {:induction false} ScaleMonotone(a: nat, b: nat, bs: nat)
    requires a <= b
    ensures 0 <= a * bs <= b * bs
  {
    assert b * bs - a * bs == (b - a) * bs;
  }

  /** Overwriting xs from index at with data. */
  function Patch(xs: seq<byte>, at: nat, data: seq<byte>): (r: seq<byte>)
    requires at + |data| <= |xs|
    ensures |r| == |xs|
  {
    xs[..at] + data + xs[at + |data|..]
  }

  /** A slice clear of the patched range is as before; a slice around it is patched in place. */
  lemma SliceOfPatch(xs: seq<byte>, at: nat, data: seq<byte>, lo: nat, hi: nat)
    requires at + |data| <= |xs| && lo <= hi <= |xs|
    ensures hi <= at || at + |data| <= lo ==> Patch(xs, at, data)[lo..hi] == xs[lo..hi]
    ensures lo <= at && at + |data| <= hi ==> Patch(xs, at, data)[lo..hi] == Patch(xs[lo..hi], at - lo, data)
  {
  }

  function Repeat<T>(n: nat, x: T): (r: seq<T>)
    ensures |r| == n && forall k :: 0 <= k < n ==> r[k] == x
  {
    seq(n, _ => x)
  }

  function Swap<T>(xs: seq<T>, i: nat, j: nat): (r: seq<T>)
    requires i < |xs| && j < |xs|
    ensures |r| == |xs|
  {
    xs[i := xs[j]][j := xs[i]]
  }

  lemma SwapPermutes<T>(xs: seq<T>, i: nat, j: nat)
    requires i < |xs| && j < |xs|
    ensures multiset(Swap(xs, i, j)) == multiset(xs)
  {
  }

  /** What realloc leaves of xs when the new capacity is m: the old prefix, then
      whatever the heap happened to hold (junk). */
  function Realloc<T>(xs: seq<T>, m: nat, junk: seq<T>): (r: seq<T>)
    requires |junk| >= m - |xs|
    ensures |r| == m
  {
    if m <= |xs| then xs[..m] else xs + junk[..m - |xs|]
  }
}
