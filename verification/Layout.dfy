/** cache_create: object offsets, block and cache size in 64-bit arithmetic, and the cache it makes. */
module Layout {
  import opened Machine
  import opened Slabs
  import opened Counting
  import opened Calls
  import opened Accounting
  import opened Simulation

  function Add64(a: uint64, b: uint64): (r: uint64) {
    if a + b < U64 then a + b else a + b - U64
  }

  function Mul64(n: nat, b: nat): (r: uint64) {
    ScaleMonotone(0, n, b);
    n * b % U64
  }

  /** Sum of the first j sizes, without wrapping. */
  function Sum(size: seq<uint64>, j: nat): (r: nat)
    requires j <= |size|
  {
    if j == 0 then 0 else Sum(size, j - 1) + size[j - 1]
  }

  /** Offset the loop stores for object j. In an empty entry the word before the size table, which the
      loop adds first, is the last word of the cleared offset table: 0. */
  function OffsetAt(size: seq<uint64>, j: nat): (r: uint64)
    requires j <= |size|
  {
    if j == 0 then 0 else Add64(OffsetAt(size, j - 1), size[j - 1])
  }

  /** The block size counts the last object a second time. */
  function BlockSizeOf(size: seq<uint64>): (r: uint64) {
    if |size| == 0 then 0 else Add64(OffsetAt(size, |size|), size[|size| - 1])
  }

  /** The same without wrapping. */
  function TrueBlockSize(size: seq<uint64>): (r: nat) {
    if |size| == 0 then 0 else Sum(size, |size|) + size[|size| - 1]
  }

  function Start(size: seq<uint64>, i: nat, j: nat): (r: nat)
    requires j < |size|
  {
    ScaleMonotone(0, i, BlockSizeOf(size));
    i * BlockSizeOf(size) + OffsetAt(size, j)
  }

  /** Every object of every block ends inside the mapping, and no two overlap. */
  ghost predicate Inside(size: seq<uint64>, n: nat) {
    forall i, j :: 0 <= i < n && 0 <= j < |size| ==>
      Start(size, i, j) + size[j] <= Mul64(n, BlockSizeOf(size))
  }

  ghost predicate Apart(size: seq<uint64>, n: nat) {
    forall i, j, k, l :: 0 <= i < n && 0 <= j < |size| && 0 <= k < n && 0 <= l < |size| && (i, j) != (k, l) ==>
      Start(size, i, j) + size[j] <= Start(size, k, l) || Start(size, k, l) + size[l] <= Start(size, i, j)
  }

  lemma {:induction false} SumMonotone(size: seq<uint64>, j: nat, l: nat)
    requires j <= l <= |size|
    ensures Sum(size, j) <= Sum(size, l)
    decreases l
  {
    if j < l {
      SumMonotone(size, j, l - 1);
    }
  }

  /** While the sum of all sizes fits, the stored offsets are the prefix sums. */
  lemma {:induction false} OffsetIsSum(size: seq<uint64>, j: nat)
    requires j <= |size| && Sum(size, j) < U64
    ensures OffsetAt(size, j) == Sum(size, j)
  {
    if j > 0 {
      OffsetIsSum(size, j - 1);
    }
  }

  lemma FitsOffsets(size: seq<uint64>)
    requires |size| > 0 && TrueBlockSize(size) < U64
    ensures BlockSizeOf(size) == TrueBlockSize(size)
    ensures forall j :: 0 <= j <= |size| ==> OffsetAt(size, j) == Sum(size, j) <= BlockSizeOf(size)
    ensures forall j :: 0 <= j < |size| ==> OffsetAt(size, j) + size[j] <= BlockSizeOf(size)
  {
    forall j | 0 <= j <= |size|
      ensures OffsetAt(size, j) == Sum(size, j) <= Sum(size, |size|)
    {
      SumMonotone(size, j, |size|);
      OffsetIsSum(size, j);
    }
    forall j | 0 <= j < |size|
      ensures OffsetAt(size, j) + size[j] <= BlockSizeOf(size)
    {
      assert Sum(size, j + 1) == Sum(size, j) + size[j];
    }
  }

  lemma MulFits(n: nat, b: nat)
    ensures n * b < U64 ==> Mul64(n, b) == n * b
    ensures n * b >= U64 ==> Mul64(n, b) <= n * b - U64
  {
    ScaleMonotone(0, n, b);
    var x := n * b;
    assert x == U64 * (x / U64) + x % U64;
  }

  /** One direction: without overflow every object lies inside, clear of every other. */
  lemma FitsLayout(size: seq<uint64>, n: nat)
    requires |size| > 0 && TrueBlockSize(size) < U64 && n * TrueBlockSize(size) < U64
    ensures Inside(size, n) && Apart(size, n)
  {
    FitsOffsets(size);
    MulFits(n, BlockSizeOf(size));
    forall i, j | 0 <= i < n && 0 <= j < |size|
      ensures Start(size, i, j) + size[j] <= Mul64(n, BlockSizeOf(size))
    {
      BlockBounds(i, n, BlockSizeOf(size));
    }
    forall i, j, k, l | 0 <= i < n && 0 <= j < |size| && 0 <= k < n && 0 <= l < |size| && (i, j) != (k, l)
      ensures Start(size, i, j) + size[j] <= Start(size, k, l) || Start(size, k, l) + size[l] <= Start(size, i, j)
    {
      if i < k || (i == k && j < l) {
        Before(size, n, i, j, k, l);
      } else {
        Before(size, n, k, l, i, j);
      }
    }
  }

  lemma Before(size: seq<uint64>, n: nat, i: nat, j: nat, k: nat, l: nat)
    requires |size| > 0 && TrueBlockSize(size) < U64 && j < |size| && l < |size|
    requires i < k < n || (i == k && j < l)
    ensures Start(size, i, j) + size[j] <= Start(size, k, l)
  {
    FitsOffsets(size);
    if i < k {
      EarlierBlock(i, k, BlockSizeOf(size), OffsetAt(size, j) + size[j]);
    } else {
      EarlierSum(size, j, l);
    }
  }

  lemma {:induction false} EarlierSum(size: seq<uint64>, j: nat, l: nat)
    requires j < l < |size|
    ensures Sum(size, j) + size[j] <= Sum(size, l)
  {
    SumMonotone(size, j + 1, l);
  }

  lemma EarlierBlock(i: nat, k: nat, b: nat, end: nat)
    requires i < k && end <= b
    ensures i * b + end <= k * b
  {
    BlockBounds(i, k, b);
  }

  /** Some object sticks out of its block if the block size overflows. */
  lemma OverflowSticksOut(size: seq<uint64>)
    requires |size| > 0 && TrueBlockSize(size) >= U64
    ensures exists j :: 0 <= j < |size| && OffsetAt(size, j) + size[j] > BlockSizeOf(size)
  {
    if forall j :: 0 <= j < |size| ==> OffsetAt(size, j) + size[j] <= BlockSizeOf(size) {
      InBlockOffsets(size, |size|);
      assert false;
    }
  }

  lemma {:induction false} InBlockOffsets(size: seq<uint64>, j: nat)
    requires 0 < |size| && j <= |size|
    requires forall l :: 0 <= l < |size| ==> OffsetAt(size, l) + size[l] <= BlockSizeOf(size)
    ensures OffsetAt(size, j) == Sum(size, j)
  {
    if j > 0 {
      InBlockOffsets(size, j - 1);
    }
  }

  /** The other direction: with overflow some object of the last block lies outside the mapping. */
  lemma OverflowLayout(size: seq<uint64>, n: nat)
    requires |size| > 0 && n > 0 && n * TrueBlockSize(size) >= U64
    ensures !Inside(size, n)
  {
    var b := BlockSizeOf(size);
    MulFits(n, b);
    assert n * b == (n - 1) * b + b;
    if TrueBlockSize(size) >= U64 {
      OverflowSticksOut(size);
      var j :| 0 <= j < |size| && OffsetAt(size, j) + size[j] > b;
      assert Start(size, n - 1, j) + size[j] > n * b;
    } else {
      FitsOffsets(size);
      var j := |size| - 1;
      assert Start(size, n - 1, j) + size[j] == n * b - size[j];
    }
  }

  /** The layout is sound, every object inside the mapping and clear of all others, exactly when the
      cache size does not overflow 64 bits. */
  lemma LayoutExact(size: seq<uint64>, n: nat)
    requires |size| > 0 && n > 0
    ensures Inside(size, n) && Apart(size, n) <==> n * TrueBlockSize(size) < U64
  {
    if n * TrueBlockSize(size) < U64 {
      ScaleMonotone(1, n, TrueBlockSize(size));
      FitsLayout(size, n);
    } else {
      OverflowLayout(size, n);
    }
  }

  // ---- The cache that cache_create makes in an empty table entry ----

  /** cache_create without CACHE_USE_MAPINFO, for the object sizes registered so far, n blocks, a mapping
      at base and the bytes of the backing file. Without objects the size of object n_objects - 1, which is
      object 2^32 - 1, lies far outside the table; storing the offset past the last object overruns the
      256-word table when 256 objects are registered; mapping 0 bytes fails; reading a mapping beyond the
      end of a shorter file faults. */
  function Create(march: string, public: bool, size: seq<uint64>, n: int, base: nat, file: seq<byte>)
      : (r: Outcome<Slab>)
    requires n < U32
  {
    if n <= 0 then Exit
    else if |size| == 0 || |size| >= MAX_CACHE_BLOCK_OBJECTS then Fault
    else
      var need := Mul64(n, BlockSizeOf(size));
      if need == 0 then Exit
      else if |file| < need then Fault
      else Done(Fresh(march, public, size, n, base, file[..need], file[need..]))
  }

  /** Entry j of a table whose first entries are the given ones and whose other entries are 0. */
  function Padded(xs: seq<nat>): (r: Table)
    requires |xs| <= 256
  {
    seq(256, j requires 0 <= j < 256 => if j < |xs| then xs[j] else 0)
  }

  /** The loop stores one offset past the last object. */
  function OffsetTable(size: seq<uint64>): (r: Table)
    requires |size| < MAX_CACHE_BLOCK_OBJECTS
  {
    Padded(seq(|size| + 1, j requires 0 <= j <= |size| => OffsetAt(size, j)))
  }

  /** The new cache before its pointer table is filled in. */
  function Blank(march: string, public: bool, size: seq<uint64>, n: nat, base: nat, arena: seq<byte>, beyond: seq<byte>)
      : (s: Slab)
    requires 0 < n < U32 && |size| < MAX_CACHE_BLOCK_OBJECTS
  {
    Slab(march, public, 0, n, |size|, BlockSizeOf(size), OffsetTable(size), Padded(size), base, arena, beyond,
         Repeat(n, Padded([])), Repeat(n, 0), Repeat(n, 0), Repeat(2 * n, IMMORTAL_WORD), Repeat(n, 0), Repeat(n, 0))
  }

  function Fresh(march: string, public: bool, size: seq<uint64>, n: nat, base: nat, arena: seq<byte>, beyond: seq<byte>)
      : (s: Slab)
    requires 0 < n < U32 && |size| < MAX_CACHE_BLOCK_OBJECTS
  {
    var s := Blank(march, public, size, n, base, arena, beyond);
    s.(ptr := seq(n, i requires 0 <= i < n => Row(s, base, i, Padded([]))))
  }

  lemma FreshSound(march: string, public: bool, size: seq<uint64>, n: nat, base: nat, arena: seq<byte>,
                   beyond: seq<byte>)
    requires 0 < n < U32 && 0 < |size| < MAX_CACHE_BLOCK_OBJECTS && TrueBlockSize(size) < U64
    requires BlockSizeOf(size) > 0 && |arena| == n * BlockSizeOf(size)
    ensures var s := Fresh(march, public, size, n, base, arena, beyond);
      && Sound(s) && Accurate(s) && s.n == n && s.objects == |size|
      && (forall k :: 0 <= k < n ==> !Slots(s)[k].used && Slots(s)[k].tag == 0)
      && forall i, j :: 0 <= i < n && 0 <= j < |size| ==> s.ptr[i][j] == base + Start(size, i, j)
  {
    FitsOffsets(size);
    var s := Fresh(march, public, size, n, base, arena, beyond);
    CountZero(s.flags, n);
  }

  // ---- What cache_create answers ----

  /** The stored offsets are the prefix sums modulo 2^64. */
  lemma {:induction false} OffsetWraps(size: seq<uint64>, j: nat)
    requires j <= |size|
    ensures OffsetAt(size, j) == Sum(size, j) % U64
  {
    if j > 0 {
      OffsetWraps(size, j - 1);
      WrapSum(Sum(size, j - 1), size[j - 1]);
    }
  }

  lemma WrapSum(x: nat, y: uint64)
    ensures Add64(x % U64, y) == (x + y) % U64
  {
    assert x == U64 * (x / U64) + x % U64;
    var z := x % U64 + y;
    assert x + y == U64 * (x / U64) + z;
    assert (x + y) % U64 == z % U64;
  }

  lemma WrapProduct(n: nat, x: nat)
    ensures Mul64(n, x % U64) == Mul64(n, x)
  {
    var q, r := x / U64, x % U64;
    ScaleMonotone(0, n, r);
    ScaleMonotone(0, n, x);
    assert n * x == n * (U64 * q + r) == U64 * (n * q) + n * r;
    assert (U64 * (n * q) + n * r) % U64 == (n * r) % U64;
  }

  /** The size of the mapping asked for is the true size of the cache modulo 2^64. */
  lemma NeedWraps(size: seq<uint64>, n: nat)
    requires |size| > 0
    ensures Mul64(n, BlockSizeOf(size)) == Mul64(n, TrueBlockSize(size))
  {
    OffsetWraps(size, |size|);
    WrapSum(Sum(size, |size|), size[|size| - 1]);
    WrapProduct(n, TrueBlockSize(size));
  }

  predicate Registered(size: seq<uint64>) {
    0 < |size| < MAX_CACHE_BLOCK_OBJECTS
  }

  /** For any arguments: the cache is created exactly for at least one block, 1 to 255 objects, and a file that
      holds as many bytes as the true size of the cache modulo 2^64, if that is not 0. The call leaves the process
      exactly for no blocks or a size of 0 modulo 2^64, and faults in all other cases. */
  lemma CreateExact(march: string, public: bool, size: seq<uint64>, n: int, base: nat, file: seq<byte>)
    requires n < U32
    ensures var r := Create(march, public, size, n, base, file);
      var need := if n > 0 then Mul64(n, TrueBlockSize(size)) else 0;
      && (r.Done? <==> n > 0 && Registered(size) && 0 < need <= |file|)
      && (r.Exit? <==> n <= 0 || (Registered(size) && need == 0))
      && (r.Fault? <==> n > 0 && (!Registered(size) || |file| < need))
  {
    if n > 0 && |size| > 0 {
      NeedWraps(size, n);
    }
  }

  /** The arguments for which a cache is created whose size does not overflow. */
  predicate Creatable(size: seq<uint64>, n: int, file: seq<byte>) {
    0 < n < U32 && Registered(size) && 0 < n * TrueBlockSize(size) < U64 && n * TrueBlockSize(size) <= |file|
  }

  /** Such a cache is created, sound and accurate, with the parts that the caller asked for; all its slots are
      unused, with tag 0 and the bytes of the file; and the address of object (i, j) is its place in the layout. */
  lemma CreateSound(march: string, public: bool, size: seq<uint64>, n: int, base: nat, file: seq<byte>)
    requires Creatable(size, n, file)
    ensures Create(march, public, size, n, base, file).Done?
    ensures var s := Create(march, public, size, n, base, file).value;
      && Sound(s) && Accurate(s) && s.n == n && s.objects == |size|
      && s.march == march && s.public == public && s.base == base && s.blockSize == TrueBlockSize(size)
      && (forall k :: 0 <= k < n ==> !Slots(s)[k].used && Slots(s)[k].tag == 0)
      && s.arena + s.beyond == file && |s.arena| == n * TrueBlockSize(size)
      && (forall j :: 0 <= j < MAX_CACHE_BLOCK_OBJECTS ==> s.size[j] == if j < |size| then size[j] else 0)
      && (forall j :: 0 <= j < MAX_CACHE_BLOCK_OBJECTS ==> s.offset[j] == if j <= |size| then Sum(size, j) else 0)
      && (forall i, j :: 0 <= i < n && |size| <= j < MAX_CACHE_BLOCK_OBJECTS ==> s.ptr[i][j] == 0)
      && forall i, j :: 0 <= i < n && 0 <= j < |size| ==> s.ptr[i][j] == base + Start(size, i, j)
  {
    CreateIsFresh(march, public, size, n, base, file);
    var need := n * BlockSizeOf(size);
    FreshSound(march, public, size, n, base, file[..need], file[need..]);
    FitsOffsets(size);
    assert file[..need] + file[need..] == file;
  }

  lemma CreateIsFresh(march: string, public: bool, size: seq<uint64>, n: int, base: nat, file: seq<byte>)
    requires Creatable(size, n, file)
    ensures TrueBlockSize(size) == BlockSizeOf(size) < U64 && BlockSizeOf(size) > 0
    ensures var need := n * BlockSizeOf(size);
      && 0 <= need <= |file|
      && Create(march, public, size, n, base, file)
           == Done(Fresh(march, public, size, n, base, file[..need], file[need..]))
  {
    var b := BlockSizeOf(size);
    ScaleMonotone(1, n, TrueBlockSize(size));
    FitsOffsets(size);
    NeedExact(n, b);
  }

  lemma NeedExact(n: nat, b: nat)
    requires 0 < n && n * b < U64
    ensures Mul64(n, b) == n * b && (Mul64(n, b) == 0 ==> b == 0)
  {
    MulFits(n, b);
    if b > 0 {
      ScaleMonotone(1, b, n);
    }
  }

  /** Every run of proper calls on a freshly created cache: no memory fault, and the slots always as the
      caller expects. */
  lemma CreatedRun(march: string, public: bool, size: seq<uint64>, n: int, base: nat, file: seq<byte>, calls: seq<Call>)
    requires Creatable(size, n, file)
    requires var r := Create(march, public, size, n, base, file);
      r.Done? && Shape(r.value) ==> FeasibleRun(r.value, calls) && ProperRun(r.value, calls)
    ensures var r := Create(march, public, size, n, base, file);
      && r.Done? && Shape(r.value) && FeasibleRun(r.value, calls)
      && !Run(r.value, calls).Fault? && AsExpected(r.value, calls)
      && (KeepsAccountRun(r.value, calls) && Run(r.value, calls).Done? ==> Accurate(Run(r.value, calls).value))
  {
    CreateSound(march, public, size, n, base, file);
    var s := Create(march, public, size, n, base, file).value;
    RunFollows(s, calls);
    if KeepsAccountRun(s, calls) {
      AccountingRun(s, calls);
    }
  }
}
