/** One entry of the cache table, changed in place by the library calls. Every method is proved against
    the function of the same name on values (module Slabs): State() is that value. */
module Caches {
  import opened Machine
  import opened Slabs
  import opened Layout
  import Compaction
  import opened Words
  import Mapinfo
  import Persist
  import MapinfoFile

  /** memcpy inside one buffer, which C defines only for ranges that do not overlap. */
  method MemCopy(a: array<byte>, to: nat, from: nat, len: nat)
    requires to + len <= a.Length && from + len <= a.Length
    requires to + len <= from || from + len <= to
    modifies a
    ensures a[..] == Patch(old(a[..]), to, old(a[from..from + len]))
  {
    ghost var was := a[..];
    for k := 0 to len
      invariant forall l :: to <= l < to + k ==> a[l] == was[l - to + from]
      invariant forall l :: 0 <= l < to || to + k <= l < a.Length ==> a[l] == was[l]
    {
      a[to + k] := a[from + k];
    }
    assert a[..] == Patch(was, to, was[from..from + len]);
  }

  /** bcopy of caller data into a buffer. */
  method CopyIn(a: array<byte>, to: nat, data: seq<byte>)
    requires to + |data| <= a.Length
    modifies a
    ensures a[..] == Patch(old(a[..]), to, data)
  {
    ghost var was := a[..];
    for k := 0 to |data|
      invariant forall l :: to <= l < to + k ==> a[l] == data[l - to]
      invariant forall l :: 0 <= l < to || to + k <= l < a.Length ==> a[l] == was[l]
    {
      a[to + k] := data[k];
    }
    assert a[..] == Patch(was, to, data);
  }

  /** realloc: the contents of the part that grows are whatever the heap holds. */
  method ReallocArray<T(0)>(a: array<T>, m: nat) returns (b: array<T>, ghost junk: seq<T>)
    ensures fresh(b) && b.Length == m && |junk| >= m - a.Length
    ensures b[..] == Realloc(a[..], m, junk)
  {
    b := new T[m];
    var k := if m <= a.Length then m else a.Length;
    junk := b[k..];
    forall i | 0 <= i < k {
      b[i] := a[i];
    }
    assert b[..] == a[..k] + junk;
    assert a[..a.Length] == a[..];
  }

  /** mmap of the file's bytes. */
  method MapFile(bytes: seq<byte>) returns (a: array<byte>)
    ensures fresh(a) && a[..] == bytes
  {
    a := new byte[|bytes|](i requires 0 <= i < |bytes| => bytes[i]);
  }

  /** An array of n entries x. */
  method Filled<T>(n: nat, x: T) returns (a: array<T>)
    ensures fresh(a) && a[..] == Repeat(n, x)
  {
    a := new T[n](_ => x);
  }

  method FromSeq<T>(xs: seq<T>) returns (a: array<T>)
    ensures fresh(a) && a[..] == xs
  {
    a := new T[|xs|](i requires 0 <= i < |xs| => xs[i]);
  }

  ghost function ArbitraryJunk(m: nat): (junk: Junk)
    ensures |junk.flags| == |junk.tag| == |junk.ptr| == |junk.lifetime| == m
  {
    Junk(seq(m, _ => 0), seq(m, _ => 0), seq(m, _ => seq(256, _ => 0)), seq(m, _ => 0))
  }

  /** data stored through the pointer of block k's first object, with a flag and a tag for block k. */
  ghost function Placed(s: Slab, k: nat, data: seq<byte>, flag: byte, newTag: uint32): (t: Slab)
    requires Shape(s) && k < s.n && Mapped(s, s.ptr[k][0], |data|)
  {
    Store(s, s.ptr[k][0], data).(flags := s.flags[k := flag], tag := s.tag[k := newTag])
  }

  class Cache {
    var march: string
    var public: bool
    var used: uint32
    var n: uint32
    var objects: nat
    var blockSize: nat
    const offset: array<nat>
    const size: array<nat>
    var base: nat
    var arena: array<byte>
    var beyond: seq<byte>
    var ptr: array<Table>
    var flags: array<byte>
    var tag: array<uint32>
    var lifetime: array<uint32>  // two words of 4 bytes a block
    var hubness: array<uint32>
    var binding: array<uint32>

    ghost function Repr(): set<object>
      reads this
    {
      {this, offset, size, arena, ptr, flags, tag, lifetime, hubness, binding}
    }

    /** The buffers are separate objects of the right sizes. */
    ghost predicate Separate()
      reads this
    {
      && offset.Length == size.Length == 256
      && offset != size && arena != flags
      && tag != lifetime && tag != hubness && tag != binding
      && lifetime != hubness && lifetime != binding && hubness != binding
    }

    ghost function State(): (s: Slab)
      requires Separate()
      reads this, Repr()
    {
      Slab(march, public, used, n, objects, blockSize, offset[..], size[..], base, arena[..], beyond, ptr[..],
           flags[..], tag[..], lifetime[..], hubness[..], binding[..])
    }

    ghost predicate Valid()
      reads this, Repr()
    {
      Separate() && Shape(State())
    }

    // ---- Creation ----

    /** An entry with no cache in it; some object sizes may have been registered. */
    ghost predicate Unmapped()
      reads this, Repr()
    {
      && Separate() && used == 0 && objects <= 256
      && offset[..] == seq(256, _ => 0)
      && (forall j :: 0 <= j < objects ==> 0 < size[j] < U64)
      && (forall j :: objects <= j < 256 ==> size[j] == 0)
    }

    constructor ()
      ensures Unmapped() && objects == 0
    {
      march, public, used, n, objects, blockSize, base, beyond := "", false, 0, 0, 0, 0, 0, [];
      offset := new nat[256](_ => 0);
      size := new nat[256](_ => 0);
      arena, ptr, flags, tag := new byte[0], new Table[0], new byte[0], new uint32[0];
      lifetime, hubness, binding := new uint32[0], new uint32[0], new uint32[0];
    }

    /** cache_add_object: the size of the next object; the table holds 256. */
    method AddObject(bytes: uint64) returns (r: Outcome<()>)
      requires Unmapped()
      modifies this`objects, size
      ensures bytes == 0 ==> r == Exit
      ensures bytes > 0 && old(objects) == 256 ==> r == Fault
      ensures bytes > 0 && old(objects) < 256 ==>
        r == Done(()) && Unmapped() && size[..objects] == old(size[..objects]) + [bytes]
    {
      if bytes == 0 || objects > MAX_CACHE_BLOCK_OBJECTS {
        return Exit;
      }
      if objects >= size.Length {
        return Fault;
      }
      size[objects] := bytes;
      objects := objects + 1;
      return Done(());
    }

    /** Sums the sizes into the offset table. The word before the first size is the last word of the offset table. */
    method LayOut() returns (total: uint64)
      requires Unmapped() && objects < 256
      modifies offset
      ensures var sizes: seq<uint64> := size[..objects];
        && offset[..] == OffsetTable(sizes)
        && total == OffsetAt(sizes, objects)
    {
      ghost var sizes: seq<uint64> := size[..objects];
      ghost var table := OffsetTable(sizes);
      total := 0;
      for i := 0 to objects + 1
        invariant total == if i == 0 then 0 else OffsetAt(sizes, i - 1)
        invariant forall j :: 0 <= j < i ==> offset[j] == table[j]
        invariant forall j :: i <= j < 256 ==> offset[j] == 0
      {
        total := Add64(total, if i == 0 then offset[MAX_CACHE_BLOCK_OBJECTS - 1] else size[i - 1]);
        offset[i] := total;
      }
    }

    method Create(arch: string, shared: bool, blocks: int, newBase: nat, file: seq<byte>) returns (r: Outcome<()>)
      requires Unmapped() && blocks < U32
      modifies this, offset
      ensures match Layout.Create(arch, shared, old(size[..objects]), blocks, newBase, file)
              case Done(t) => r == Done(()) && Separate() && State() == t && AllNew()
              case Exit => r == Exit
              case Fault => r == Fault
    {
      if blocks <= 0 {
        return Exit;
      } else if objects == 0 || objects >= MAX_CACHE_BLOCK_OBJECTS {
        return Fault;
      }
      r := CreateFrom(arch, shared, blocks, newBase, file, size[..objects]);
    }

    method CreateFrom(arch: string, shared: bool, blocks: uint32, newBase: nat, file: seq<byte>,
                      ghost sizes: seq<uint64>)
      returns (r: Outcome<()>)
      requires Unmapped() && blocks > 0 && 0 < objects < 256 && sizes == size[..objects]
      modifies this, offset
      ensures var need := Mul64(blocks, BlockSizeOf(sizes));
        if need == 0 then r == Exit
        else if |file| < need then r == Fault
        else r == Done(()) && Separate() && AllNew()
             && State() == Fresh(arch, shared, sizes, blocks, newBase, file[..need], file[need..])
    {
      var need := MeasureCache(blocks);
      r := MapMeasured(arch, shared, blocks, newBase, file, need, sizes);
    }

    method MapMeasured(arch: string, shared: bool, blocks: uint32, newBase: nat, file: seq<byte>, need: uint64,
                       ghost sizes: seq<uint64>)
      returns (r: Outcome<()>)
      requires Measured(sizes) && blocks > 0
      modifies this
      ensures if need == 0 then r == Exit
        else if |file| < need then r == Fault
        else r == Done(()) && Separate() && AllNew()
             && State() == Fresh(arch, shared, sizes, blocks, newBase, file[..need], file[need..])
    {
      if need == 0 {
        return Exit;
      } else if |file| < need {
        return Fault;
      }
      march, public := arch, shared;
      Build(blocks, newBase, file[..need], file[need..], sizes);
      r := Done(());
    }

    /** Offsets, block size and cache size. */
    method MeasureCache(blocks: uint32) returns (need: uint64)
      requires Unmapped() && 0 < objects < 256
      modifies this`blockSize, offset
      ensures Measured(size[..objects]) && need == Mul64(blocks, BlockSizeOf(size[..objects]))
    {
      var total := LayOut();
      blockSize := Add64(total, size[objects - 1]);
      need := Mul64(blocks, blockSize);
    }

    /** The tables and sizes are those of the given object sizes. */
    ghost predicate Measured(sizes: seq<uint64>)
      reads this, Repr()
    {
      && Separate() && used == 0 && |sizes| == objects < 256
      && offset[..] == OffsetTable(sizes) && size[..] == Padded(sizes) && blockSize == BlockSizeOf(sizes)
    }

    /** Maps the file, allocates the per-block arrays and fills in the pointer table. */
    method Build(blocks: uint32, newBase: nat, mapped: seq<byte>, rest: seq<byte>, ghost sizes: seq<uint64>)
      requires Measured(sizes) && blocks > 0
      modifies this
      ensures Separate() && AllNew()
      ensures State() == Fresh(old(march), old(public), sizes, blocks, newBase, mapped, rest)
    {
      Allocate(blocks, newBase, mapped, rest, sizes);
      assert |State().ptr| == n;
      MapBlocks();
      FreshFrom(march, public, sizes, blocks, newBase, mapped, rest, ptr[..]);
    }

    method Allocate(blocks: uint32, newBase: nat, mapped: seq<byte>, rest: seq<byte>, ghost sizes: seq<uint64>)
      requires Measured(sizes) && blocks > 0
      modifies this
      ensures Separate() && AllNew()
      ensures State() == Blank(old(march), old(public), sizes, blocks, newBase, mapped, rest)
    {
      hide Repeat, Padded, OffsetTable, BlockSizeOf, Blank;
      n := blocks;
      AllocArrays();
      Map(newBase, mapped, rest);
      BlankFrom(State(), march, public, sizes, blocks, newBase, mapped, rest);
    }

    method AllocArrays()
      requires Separate()
      modifies this`flags, this`tag, this`ptr, this`lifetime, this`hubness, this`binding
      ensures Separate() && fresh(flags) && fresh(tag) && fresh(ptr)
      ensures fresh(lifetime) && fresh(hubness) && fresh(binding)
      ensures State() == old(State()).(flags := Repeat(n, 0), tag := Repeat(n, 0), ptr := Repeat(n, Padded([])),
                                       lifetime := Repeat(2 * n, IMMORTAL_WORD),
                                       hubness := Repeat(n, 0), binding := Repeat(n, 0))
    {
      hide Repeat, Padded;
      AllocBlocks();
      AllocRows();
      AllocLifetimes();
      AllocRecords();
    }

    method AllocBlocks()
      requires Separate()
      modifies this`flags, this`tag
      ensures Separate() && fresh(flags) && fresh(tag)
      ensures State() == old(State()).(flags := Repeat(n, 0), tag := Repeat(n, 0))
    {
      hide Repeat;
      flags := Filled(n, 0);
      tag := Filled(n, 0);
    }

    method AllocLifetimes()
      requires Separate()
      modifies this`lifetime
      ensures Separate() && fresh(lifetime)
      ensures State() == old(State()).(lifetime := Repeat(2 * n, IMMORTAL_WORD))
    {
      hide Repeat;
      lifetime := Filled(2 * n, IMMORTAL_WORD);
    }

    method AllocRecords()
      requires Separate()
      modifies this`hubness, this`binding
      ensures Separate() && fresh(hubness) && fresh(binding)
      ensures State() == old(State()).(hubness := Repeat(n, 0), binding := Repeat(n, 0))
    {
      hide Repeat;
      hubness := Filled(n, 0);
      binding := Filled(n, 0);
    }

    method Map(newBase: nat, mapped: seq<byte>, rest: seq<byte>)
      requires Separate()
      modifies this`arena, this`base, this`beyond
      ensures Separate() && fresh(arena)
      ensures State() == old(State()).(arena := mapped, base := newBase, beyond := rest)
    {
      arena := MapFile(mapped);
      base, beyond := newBase, rest;
    }

    // ---- Creation from a mapinfo record ----

    /** The object tables as cache_read_mapinfo leaves them. */
    method LoadTable(table: array<nat>, xs: seq<nat>)
      requires table.Length == 256 && |xs| <= 256 && table[..] == seq(256, _ => 0)
      modifies table
      ensures table[..] == Padded(xs)
    {
      for j := 0 to |xs|
        invariant forall l :: 0 <= l < j ==> table[l] == xs[l]
        invariant forall l :: j <= l < 256 ==> table[l] == 0
      {
        table[j] := xs[j];
      }
    }

    method LoadBlocks(b: Mapinfo.Blocks, k: nat)
      requires Separate() && Mapinfo.BlocksFit(b, k)
      modifies this`flags, this`tag, this`lifetime, this`hubness, this`binding
      ensures Separate() && fresh(flags) && fresh(tag) && fresh(lifetime) && fresh(hubness) && fresh(binding)
      ensures flags[..] == b.flags && tag[..] == b.tag && lifetime[..] == Persist.Halves(b.lifetime)
      ensures hubness[..] == b.hubness && binding[..] == b.binding
    {
      Widths();
      flags := FromSeq<byte>(b.flags);
      tag := FromSeq<uint32>(b.tag);
      lifetime := FromSeq(Persist.Halves(b.lifetime));
      hubness := FromSeq<uint32>(b.hubness);
      binding := FromSeq<uint32>(b.binding);
    }

    method LoadGeometry(i: Mapinfo.Info, shared: bool)
      requires Unmapped() && objects == 0 && Mapinfo.InfoFits(i)
      modifies this`march, this`public, this`used, this`n, this`objects, this`blockSize, offset, size
      ensures Separate() && march == Persist.TextOf(i.names.march) && public == shared
      ensures used == i.geometry.used && n == i.geometry.n && objects == i.geometry.objects <= 256
      ensures blockSize == i.geometry.blockSize
      ensures offset[..] == Padded(i.objects.offset) && size[..] == Padded(i.objects.size)
    {
      Widths();
      assert size[..] == seq(256, _ => 0);
      LoadTable(offset, i.objects.offset);
      LoadTable(size, i.objects.size);
      march, public := Persist.TextOf(i.names.march), shared;
      used, n, objects, blockSize := i.geometry.used, i.geometry.n, i.geometry.objects, i.geometry.blockSize;
    }

    /** cache_read_mapinfo, then cache_create with CACHE_USE_MAPINFO, into an empty entry. */
    method Restore(i: Mapinfo.Info, here: string, mapping: Persist.Mapping, newBase: nat, file: seq<byte>, check: bool,
                   crcOf: seq<byte> -> uint64)
      returns (r: Outcome<bool>)
      requires Unmapped() && objects == 0 && Mapinfo.InfoFits(i)
      modifies this, offset, size
      ensures match Persist.Restore(i, here, mapping, newBase, file, check, crcOf)
              case Done(t) => r == Done(t.Some?) && (t.Some? ==> Separate() && State() == t.value)
              case Exit => r == Exit
              case Fault => r == Fault
    {
      if Persist.TextOf(i.names.march) != here {
        return Exit;
      }
      var need := Mul64(i.geometry.n, i.geometry.blockSize);
      if mapping.Neither? || need == 0 {
        return Exit;
      } else if |file| < need {
        return Fault;
      } else if check && Persist.Corrupt(i.names.crc, crcOf(file[..need])) {
        return Done(false);
      }
      Rebuild(i, mapping.Public?, newBase, file[..need], file[need..]);
      r := Done(true);
    }

    /** The same, with the record read from the bytes of the mapinfo file. */
    method RestoreFile(bytes: seq<byte>, here: string, mapping: Persist.Mapping, newBase: nat, file: seq<byte>,
                       check: bool, crcOf: seq<byte> -> uint64)
      returns (r: Outcome<bool>)
      requires Unmapped() && objects == 0
      modifies this, offset, size
      ensures match Persist.RestoreFrom(bytes, here, mapping, newBase, file, check, crcOf)
              case Done(t) => r == Done(t.Some?) && (t.Some? ==> Separate() && State() == t.value)
              case Exit => r == Exit
              case Fault => r == Fault
    {
      var read := MapinfoFile.ReadMapinfo(bytes);
      if !read.Done? {
        return if read.Exit? then Exit else Fault;
      }
      Persist.DecodeFits(bytes);
      r := Restore(read.value, here, mapping, newBase, file, check, crcOf);
    }

    method LoadInfo(i: Mapinfo.Info, shared: bool)
      requires Unmapped() && objects == 0 && Mapinfo.InfoFits(i)
      modifies this, offset, size
      ensures Separate() && OfInfo(i, shared, State())
    {
      LoadGeometry(i, shared);
      LoadBlocks(i.blocks, i.geometry.n);
    }

    method AllocRows()
      requires Separate()
      modifies this`ptr
      ensures Separate() && fresh(ptr)
      ensures State() == old(State()).(ptr := Repeat(n, Padded([])))
    {
      ptr := Filled(n, Padded([]));
    }

    method Rebuild(i: Mapinfo.Info, shared: bool, newBase: nat, mapped: seq<byte>, rest: seq<byte>)
      requires Unmapped() && objects == 0 && Mapinfo.InfoFits(i)
      modifies this, offset, size
      ensures Separate() && State() == Persist.Restored(i, shared, newBase, mapped, rest)
    {
      LoadInfo(i, shared);
      Map(newBase, mapped, rest);
      AllocRows();
      MapRestored(i, shared);
    }

    method MapRestored(i: Mapinfo.Info, shared: bool)
      requires Separate() && Mapinfo.InfoFits(i) && OfInfo(i, shared, State()) && ptr[..] == Repeat(n, Padded([]))
      modifies ptr
      ensures State() == Persist.Restored(i, shared, base, old(arena[..]), beyond)
    {
      assert |State().ptr| == n;
      MapBlocks();
      RestoredFrom(i, shared, State());
    }

    // ---- Access ----

    method AccessObject(block: nat, obj: nat) returns (r: Outcome<nat>)
      requires Valid()
      ensures r == Slabs.AccessObject(State(), block, obj)
    {
      if block >= n || obj >= objects {
        return Exit;
      }
      return Done(ptr[block][obj]);
    }

    /** A call kept the buffers themselves, if not their contents. */
    twostate predicate SameBuffers()
      reads this
    {
      && arena == old(arena) && ptr == old(ptr) && flags == old(flags) && tag == old(tag)
      && lifetime == old(lifetime) && hubness == old(hubness) && binding == old(binding)
    }

    /** Creation allocates all buffers but the two object tables. */
    twostate predicate AllNew()
      reads this
    {
      && fresh(arena) && fresh(ptr) && fresh(flags) && fresh(tag)
      && fresh(lifetime) && fresh(hubness) && fresh(binding)
    }

    /** A call kept the buffers themselves, or put new ones in place of those it reallocates. */
    twostate predicate SameOrFreshBuffers()
      reads this
    {
      SameBuffers() ||
      (fresh(arena) && fresh(ptr) && fresh(flags) && fresh(tag) && fresh(lifetime)
       && hubness == old(hubness) && binding == old(binding))
    }

    method FillBlock(block: nat, obj: nat, data: seq<byte>, loaded: bool, newTag: uint32) returns (r: Outcome<()>)
      requires Valid()
      modifies arena, flags, tag
      ensures match Slabs.FillBlock(old(State()), block, obj, data, loaded, newTag)
              case Done(t) => r == Done(()) && Valid() && State() == t
              case Exit => r == Exit
              case Fault => r == Fault
    {
      var a := AccessObject(block, obj);
      if a.Exit? {
        return Exit;
      }
      if a.value < base || a.value + |data| > base + arena.Length {
        return Fault;
      }
      CopyIn(arena, a.value - base, data);
      if loaded {
        flags[block] := MarkUsed(flags[block]);
        tag[block] := newTag;
      }
      return Done(());
    }

    method AddBlock(data: Option<seq<byte>>, access: Access, obj: nat, block: int, newTag: uint32)
      returns (r: Outcome<nat>)
      requires Valid()
      modifies this`used, arena, flags, tag
      ensures match Slabs.AddBlock(old(State()), data, access, obj, block, newTag)
              case Done((t, i)) => r == Done(i) && Valid() && State() == t
              case Exit => r == Exit
              case Fault => r == Fault
    {
      if data.None? || access.rdlock || !(access.wrlock || access.havelock || access.loaded) {
        return Exit;
      }
      if block != ANY_CACHE_BLOCK {
        if block < 0 {
          return Exit;
        }
        var o := FillBlock(block, obj, data.value, access.loaded, newTag);
        if !o.Done? {
          return if o.Exit? then Exit else Fault;
        }
        used := Add32(used, 1);
        return Done(block);
      }
      for i := 0 to n
        invariant Valid() && State() == old(State())
        invariant Slabs.FirstFree(State().flags, 0) == Slabs.FirstFree(State().flags, i)
      {
        if !Used(flags[i]) {
          var o := FillBlock(i, obj, data.value, access.loaded, newTag);
          return if o.Done? then Done(i) else if o.Exit? then Exit else Fault;
        }
      }
      // n_blocks is raised first, so the resize that follows finds nothing to do
      // and the new index lies past the end of the pointer table.
      if obj >= objects {
        return Exit;
      }
      return Fault;
    }

    // ---- Flags and tags ----

    method DeleteBlock(block: nat) returns (r: Outcome<bool>)
      requires Valid()
      modifies this`used, flags
      ensures match Slabs.DeleteBlock(old(State()), block)
              case Done((t, b)) => r == Done(b) && Valid() && State() == t
              case Exit => r == Exit
              case Fault => r == Fault
    {
      if block >= n {
        return Exit;
      }
      if Used(flags[block]) {
        flags[block] := MarkFree(flags[block]);
        if used > 0 {
          used := used - 1;
        }
        return Done(true);
      }
      return Done(false);
    }

    method RestoreBlock(block: nat) returns (r: Outcome<bool>)
      requires Valid()
      modifies this`used, flags
      ensures match Slabs.RestoreBlock(old(State()), block)
              case Done((t, b)) => r == Done(b) && Valid() && State() == t
              case Exit => r == Exit
              case Fault => r == Fault
    {
      if block >= n {
        return Exit;
      }
      if MarkFree(flags[block]) != 0 {
        flags[block] := MarkUsed(flags[block]);
        used := Add32(used, 1);
        return Done(true);
      }
      return Done(false);
    }

    method SetUsed(block: nat, use: bool) returns (r: Outcome<()>)
      requires Valid()
      modifies this`used, flags
      ensures match Slabs.SetUsed(old(State()), block, use)
              case Done(t) => r == Done(()) && Valid() && State() == t
              case Exit => r == Exit
              case Fault => r == Fault
    {
      if block >= n {
        return Exit;
      }
      if use {
        flags[block] := MarkUsed(flags[block]);
        used := Add32(used, 1);
      } else {
        flags[block] := MarkFree(flags[block]);
        if used > 0 {
          used := used - 1;
        }
      }
      return Done(());
    }

    method Clear(which: uint32) returns (cleared: nat)
      requires Valid()
      modifies this`used, this`objects, flags
      ensures Valid()
      ensures (State(), cleared) == Slabs.Clear(old(State()), which)
    {
      cleared := 0;
      for i := 0 to n
        invariant Valid()
        invariant (State(), cleared) == ClearTo(old(State()), which, i)
      {
        if Used(flags[i]) {
          if which == ALL_CACHE_BLOCKS || tag[i] == which {
            FreeBlock(i);
            cleared := cleared + 1;
          }
        }
      }
      objects := 0;
    }

    method FreeBlock(i: nat)
      requires Valid() && i < n
      modifies this`used, flags
      ensures Valid() && State() == old(State()).(flags := old(flags[..])[i := MarkFree(old(flags[i]))],
                                                          used := Decrement(old(used)))
    {
      flags[i] := MarkFree(flags[i]);
      if used > 0 {
        used := used - 1;
      }
    }

    method ChangeTag(from: uint32, to: uint32) returns (changed: nat)
      requires Valid()
      modifies tag
      ensures Valid()
      ensures (State(), changed) == Slabs.Retag(old(State()), from, to)
    {
      changed := 0;
      for i := 0 to n
        invariant Valid()
        invariant State() == old(State()).(tag := tag[..])
        invariant (tag[..], changed) == Slabs.RetagTo(old(tag[..]), from, to, i)
      {
        if tag[i] == from {
          tag[i] := to;
          changed := changed + 1;
        }
      }
    }

    // ---- Compaction ----

    method SwapEntries(i: nat, j: nat)
      requires Valid() && i < n && j < n
      modifies ptr, tag, flags
      ensures Valid()
      ensures State() == old(State()).(ptr := Swap(old(ptr[..]), i, j), tag := Swap(old(tag[..]), i, j),
                                       flags := Swap(old(flags[..]), i, j))
    {
      ptr[i], ptr[j] := ptr[j], ptr[i];
      tag[i], tag[j] := tag[j], tag[i];
      flags[i], flags[j] := flags[j], flags[i];
    }

    /** The hole lies to the left of the block, so the copy does not overlap. */
    method CopyBlock(block: nat, hole: nat)
      requires hole < block && (block + 1) * blockSize <= arena.Length
      requires (hole + 1) * blockSize <= arena.Length
      modifies arena
      ensures arena[..] == Slabs.CopyBlock(old(arena[..]), blockSize, hole, block)
    {
      BlockBounds(hole, block, blockSize);
      MemCopy(arena, hole * blockSize, block * blockSize, blockSize);
    }

    method MoveBlock(block: nat, hole: nat)
      requires Valid() && hole < block < n
      modifies arena, ptr, tag, flags
      ensures Valid()
      ensures State() == Slabs.MoveBlock(old(State()), block, hole)
    {
      BlockBounds(block, n, blockSize);
      BlockBounds(hole, n, blockSize);
      CopyBlock(block, hole);
      SwapEntries(hole, block);
      flags[hole] := MarkUsed(flags[hole]);
      flags[block] := MarkFree(flags[block]);
    }

    /** The walk fills the first hole with the next used block, block by block. */
    method FillHoles() returns (moved: nat)
      requires Valid()
      modifies arena, ptr, tag, flags
      ensures Valid()
      ensures State() == Slabs.WalkTo(old(State()), n).s && moved == Slabs.WalkTo(old(State()), n).moved
    {
      var filling := false;
      var hole := 0;
      moved := 0;
      for i := 0 to n
        invariant Valid()
        invariant Walk(State(), filling, hole, moved) == Slabs.WalkTo(old(State()), i)
      {
        if !Used(flags[i]) {
          if !filling {
            hole := i;
            filling := true;
          }
        } else if filling {
          MoveBlock(i, hole);
          hole := hole + 1;
          moved := moved + 1;
        }
      }
    }

    method Compact(newBase: nat) returns (r: Outcome<nat>, ghost junk: Junk)
      requires Valid()
      modifies this, arena, ptr, tag, flags
      ensures Exposes(junk, old(State()), ShrinkSize(old(n), old(used)))
      ensures match Slabs.Compact(old(State()), newBase, junk)
              case Done((t, moved)) => r == Done(moved) && Valid() && SameOrFreshBuffers() && State() == t
              case Exit => r == Exit
              case Fault => r == Fault
    {
      var moved := FillHoles();
      var m := ShrinkSize(n, used);
      Compaction.WalkFrame(old(State()), n);
      if public && m > 0 {
        var o;
        o, junk := Resize(m, newBase);
        return Done(moved), junk;
      }
      return Done(moved), ArbitraryJunk(m);
    }

    // ---- Resizing ----

    /** The pointer of every object of every block, from the offsets and the base. */
    method MapBlocks()
      requires Separate() && ptr.Length == n && objects <= 256
      modifies ptr
      ensures forall i :: 0 <= i < n ==> ptr[i] == RowOf(offset[..], objects, blockSize, base, i, old(ptr[i]))
    {
      for i := 0 to n
        invariant forall k :: 0 <= k < i ==> ptr[k] == RowOf(offset[..], objects, blockSize, base, k, old(ptr[k]))
        invariant forall k :: i <= k < n ==> ptr[k] == old(ptr[k])
      {
        ptr[i] := MapRow(i, ptr[i]);
      }
    }

    method MapRow(i: nat, prior: Table) returns (row: Table)
      requires Separate() && objects <= 256
      ensures row == RowOf(offset[..], objects, blockSize, base, i, prior)
    {
      row := prior;
      for j := 0 to objects
        invariant forall l :: 0 <= l < j ==> row[l] == PlaceOf(offset[..], blockSize, base, i, l)
        invariant forall l :: j <= l < 256 ==> row[l] == prior[l]
      {
        ScaleMonotone(0, i, blockSize);
        row := row[j := offset[j] + i * blockSize + base];
      }
    }

    /** munmap, posix_fallocate and mmap: the file grows if it must, and is mapped again. */
    method Remap(need: nat, newBase: nat)
      modifies this`arena, this`beyond, this`base
      ensures fresh(arena) && base == newBase
      ensures var file := Extend(old(arena[..]) + old(beyond), need);
        arena[..] == file[..need] && beyond == file[need..]
    {
      var file := Extend(arena[..] + beyond, need);
      arena := MapFile(file[..need]);
      beyond := file[need..];
      base := newBase;
    }

    method ReallocTables(m: uint32) returns (ghost junk: Junk)
      modifies this`flags, this`tag, this`lifetime, this`ptr, this`n
      ensures fresh(flags) && fresh(tag) && fresh(lifetime) && fresh(ptr) && tag != lifetime && n == m
      ensures |junk.flags| >= m - |old(flags[..])| && flags[..] == Realloc(old(flags[..]), m, junk.flags)
      ensures |junk.tag| >= m - |old(tag[..])| && tag[..] == Realloc(old(tag[..]), m, junk.tag)
      ensures |junk.ptr| >= m - |old(ptr[..])| && ptr[..] == Realloc(old(ptr[..]), m, junk.ptr)
      ensures |junk.lifetime| >= m - |old(lifetime[..])|
      ensures lifetime[..] == Realloc(old(lifetime[..]), m, junk.lifetime)
    {
      var flags', tag', ptr', lifetime';
      ghost var j1, j2, j3, j4;
      flags', j1 := ReallocArray(flags, m);
      tag', j2 := ReallocArray(tag, m);
      lifetime', j3 := ReallocArray(lifetime, m);  // one word a block
      ptr', j4 := ReallocArray(ptr, m);
      flags, tag, lifetime, ptr, n := flags', tag', lifetime', ptr', m;
      junk := Junk(j1, j2, j4, j3);
    }

    method Resize(m: uint32, newBase: nat) returns (r: Outcome<()>, ghost junk: Junk)
      requires Valid()
      modifies this
      ensures Exposes(junk, old(State()), m)
      ensures match Slabs.Resize(old(State()), m, newBase, junk)
              case Done(t) => r == Done(()) && Valid() && SameOrFreshBuffers() && State() == t
              case Exit => r == Exit
              case Fault => r == Fault
    {
      if m == n {
        return Done(()), ArbitraryJunk(m);
      } else if m == 0 {
        return Exit, ArbitraryJunk(m);
      }
      junk := ChangeSize(m, newBase);
      r := Done(());
    }

    method ChangeSize(m: uint32, newBase: nat) returns (ghost junk: Junk)
      requires Valid() && 0 < m != n
      modifies this
      ensures Exposes(junk, old(State()), m)
      ensures Valid() && SameOrFreshBuffers() && Done(State()) == Slabs.Resize(old(State()), m, newBase, junk)
    {
      hide Slabs.Resize;
      ghost var s := State();
      Remap(m * blockSize, newBase);
      junk := ReallocTables(m);
      ghost var rows := ptr[..];
      MapBlocks();
      assert Separate();
      ResizedTo(s, m, newBase, junk, rows, State());
    }

    // ---- Merging ----

    /** The bytes of a block, through the pointer of its first object. */
    method LoadBlock(k: nat, ghost src: Slab) returns (r: Outcome<seq<byte>>)
      requires k < n == ptr.Length
      requires base == src.base && blockSize == src.blockSize && ptr[..] == src.ptr && arena[..] == src.arena
      ensures r == Load(src, src.ptr[k][0], src.blockSize)
    {
      var from := ptr[k][0];
      if from < base || from + blockSize > base + arena.Length {
        return Fault;
      }
      return Done(arena[from - base..from - base + blockSize]);
    }

    /** data onto block k, through the pointer of its first object, with a flag and a tag. */
    method PlaceBlock(k: nat, data: seq<byte>, flag: byte, newTag: uint32) returns (r: Outcome<()>)
      requires Valid() && k < n
      modifies arena, flags, tag
      ensures if Mapped(old(State()), old(ptr[k][0]), |data|)
              then r == Done(()) && Valid() && State() == Placed(old(State()), k, data, flag, newTag)
              else r == Fault
    {
      var to := ptr[k][0];
      if to < base || to + |data| > base + arena.Length {
        return Fault;
      }
      CopyIn(arena, to - base, data);
      flags[k] := flag;
      tag[k] := newTag;
      return Done(());
    }

    method Merge(other: Cache, newTag: uint32, newBase: nat) returns (r: Outcome<nat>, ghost junk: Junk)
      requires Valid() && other.Valid() && Repr() !! other.Repr()
      modifies this, arena, flags, tag
      ensures Exposes(junk, old(State()), Add32(old(n), old(other.n)))
      ensures match Slabs.Merge(old(State()), old(other.State()), newTag, newBase, junk)
              case Done((t, merged)) => r == Done(merged) && Valid() && State() == t && SameOrFreshBuffers()
              case Exit => r == Exit
              case Fault => r == Fault
    {
      if march != other.march || blockSize != other.blockSize {
        return Exit, ArbitraryJunk(Add32(n, other.n));
      }
      r, junk := MergeLike(other, newTag, newBase, other.State());
    }

    /** The merge of a cache with itself. */
    method MergeSelf(newTag: uint32, newBase: nat) returns (r: Outcome<nat>, ghost junk: Junk)
      requires Valid()
      modifies this, arena, flags, tag
      ensures Exposes(junk, old(State()), Add32(old(n), old(n)))
      ensures match Slabs.MergeSelf(old(State()), newTag, newBase, junk)
              case Done((t, merged)) => r == Done(merged) && Valid() && State() == t && SameOrFreshBuffers()
              case Exit => r == Exit
              case Fault => r == Fault
    {
      var n1 := n;
      var o;
      o, junk := Resize(Add32(n, n), newBase);
      if !o.Done? {
        return Exit, junk;
      }
      r := Duplicate(n1, newTag);
    }

    /** From the point where the cache, at blocks long before, has been resized. */
    method Duplicate(at: nat, newTag: uint32) returns (r: Outcome<nat>)
      requires Valid()
      modifies this`used, arena, flags, tag
      ensures match Slabs.SelfBlocks(old(State()), at, newTag)
              case Done((t, merged)) => r == Done(merged) && Valid() && State() == t
              case Exit => false
              case Fault => r == Fault
    {
      hide SelfTo;
      if at <= n {
        var o := DuplicateBlocks(at, n - at, newTag, State());
        if !o.Done? {
          return Fault;
        }
      }
      used := Add32(used, used);
      return Done(at);
    }

    method DuplicateBlocks(at: nat, rounds: nat, newTag: uint32, ghost d: Slab) returns (r: Outcome<()>)
      requires Valid() && at + rounds <= n && d == State()
      modifies arena, flags, tag
      ensures r.Done? ==> Valid() && SelfTo(d, at, newTag, rounds) == Done(State())
      ensures !r.Done? ==> r.Fault? && SelfTo(d, at, newTag, rounds).Fault?
    {
      hide SelfStep;
      for merged := 0 to rounds
        invariant Valid()
        invariant SelfTo(d, at, newTag, merged) == Done(State())
      {
        SelfNext(d, at, newTag, merged, State());
        var o := DuplicateBlock(at, merged, newTag);
        if !o.Done? {
          SelfStuck(d, at, newTag, merged + 1, rounds);
          return Fault;
        }
      }
      return Done(());
    }

    method DuplicateBlock(at: nat, k: nat, newTag: uint32) returns (r: Outcome<()>)
      requires Valid() && at + k < n
      modifies arena, flags, tag
      ensures match SelfStep(old(State()), at, newTag, k)
              case Done(t) => r == Done(()) && Valid() && State() == t
              case Exit => false
              case Fault => r == Fault
    {
      var from, to := ptr[k][0], ptr[at + k][0];
      var data := LoadBlock(k, State());
      if !data.Done? || (from < to + blockSize && to < from + blockSize) {
        return Fault;
      }
      r := PlaceBlock(at + k, data.value, flags[k], newTag);
    }

    /** The merge of a cache of the same architecture and block size. */
    method MergeLike(other: Cache, newTag: uint32, newBase: nat, ghost src: Slab)
      returns (r: Outcome<nat>, ghost junk: Junk)
      requires Valid() && Shape(src) && other.Offers(src, this) && other.used == src.used && other !in Repr()
      modifies this, arena, flags, tag
      ensures Exposes(junk, old(State()), Add32(old(n), src.n))
      ensures var d := Slabs.Resize(old(State()), Add32(old(n), src.n), newBase, junk);
        match (if d.Done? then Slabs.MergeBlocks(d.value, src, old(n), newTag) else Exit)
        case Done((t, merged)) => r == Done(merged) && Valid() && State() == t && SameOrFreshBuffers()
        case Exit => r == Exit
        case Fault => r == Fault
    {
      var n1 := n;
      var o;
      o, junk := Resize(Add32(n, other.n), newBase);
      if !o.Done? {
        return Exit, junk;
      }
      r := MergeRest(other, n1, newTag, src);
    }

    /** The parts of src that a merge reads, unshared with the buffers that it writes. */
    ghost predicate Offers(src: Slab, to: Cache)
      reads this, ptr, arena, flags, to
    {
      && n == src.n && base == src.base && blockSize == src.blockSize
      && ptr[..] == src.ptr && arena[..] == src.arena && flags[..] == src.flags
      && {this, ptr, arena, flags} !! {to, to.arena, to.flags, to.tag}
    }

    /** cache_merge from the point where this cache, at blocks long before, has been resized. */
    method MergeRest(other: Cache, at: nat, newTag: uint32, ghost src: Slab) returns (r: Outcome<nat>)
      requires Valid() && Shape(src) && other.Offers(src, this) && other.used == src.used && n <= at + src.n
      modifies this`used, arena, flags, tag
      ensures match Slabs.MergeBlocks(old(State()), src, at, newTag)
              case Done((t, merged)) => r == Done(merged) && Valid() && State() == t
              case Exit => false
              case Fault => r == Fault
    {
      if at <= n {
        var o := CopyBlocks(other, at, n - at, newTag, State(), src);
        if !o.Done? {
          return Fault;
        }
      }
      used := Add32(used, other.used);
      return Done(other.n);
    }

    method CopyBlocks(other: Cache, at: nat, rounds: nat, newTag: uint32, ghost d: Slab, ghost src: Slab)
      returns (r: Outcome<()>)
      requires Valid() && Shape(src) && other.Offers(src, this)
      requires at + rounds <= n && rounds <= src.n && d == State()
      modifies arena, flags, tag
      ensures r.Done? ==> Valid() && MergeTo(d, src, at, newTag, rounds) == Done(State())
      ensures !r.Done? ==> r.Fault? && MergeTo(d, src, at, newTag, rounds).Fault?
    {
      for merged := 0 to rounds
        invariant Valid() && other.Offers(src, this)
        invariant MergeTo(d, src, at, newTag, merged) == Done(State())
      {
        MergeNext(d, src, at, newTag, merged, State());
        var o := MergeBlock(other, at, merged, newTag, src);
        if !o.Done? {
          MergeStuck(d, src, at, newTag, merged + 1, rounds);
          return Fault;
        }
      }
      return Done(());
    }

    /** One round of the loop. */
    method MergeBlock(other: Cache, at: nat, k: nat, newTag: uint32, ghost src: Slab) returns (r: Outcome<()>)
      requires Valid() && Shape(src) && other.Offers(src, this) && at + k < n && k < src.n
      modifies arena, flags, tag
      ensures other.Offers(src, this)
      ensures match MergeStep(old(State()), src, at, newTag, k)
              case Done(t) => r == Done(()) && Valid() && State() == t
              case Exit => false
              case Fault => r == Fault
    {
      var data := other.LoadBlock(k, src);
      if !data.Done? {
        return Fault;
      }
      r := PlaceBlock(at + k, data.value, other.flags[k], newTag);
    }
  }

  lemma MergeNext(dst: Slab, src: Slab, at: nat, newTag: uint32, k: nat, e: Slab)
    requires Shape(dst) && Shape(src) && at + k < dst.n && k < src.n
    requires MergeTo(dst, src, at, newTag, k) == Done(e)
    ensures MergeTo(dst, src, at, newTag, k + 1) == MergeStep(e, src, at, newTag, k)
  {
  }

  lemma SelfNext(d: Slab, at: nat, newTag: uint32, k: nat, e: Slab)
    requires Shape(d) && at + k < d.n && SelfTo(d, at, newTag, k) == Done(e)
    ensures SelfTo(d, at, newTag, k + 1) == SelfStep(e, at, newTag, k)
  {
  }

  lemma {:induction false} SelfStuck(d: Slab, at: nat, newTag: uint32, k: nat, l: nat)
    requires Shape(d) && k <= l && at + l <= d.n && SelfTo(d, at, newTag, k).Fault?
    ensures SelfTo(d, at, newTag, l).Fault?
  {
    if k < l {
      SelfStuck(d, at, newTag, k, l - 1);
    }
  }

  /** A merge that has faulted stays so. */
  lemma {:induction false} MergeStuck(dst: Slab, src: Slab, at: nat, newTag: uint32, k: nat, l: nat)
    requires Shape(dst) && Shape(src) && k <= l && at + l <= dst.n && l <= src.n
    requires MergeTo(dst, src, at, newTag, k).Fault?
    ensures MergeTo(dst, src, at, newTag, l).Fault?
  {
    if k < l {
      MergeStuck(dst, src, at, newTag, k, l - 1);
    }
  }

  lemma BlankFrom(s: Slab, march: string, public: bool, sizes: seq<uint64>, n: uint32, base: nat, mapped: seq<byte>,
                  rest: seq<byte>)
    requires 0 < n && |sizes| < MAX_CACHE_BLOCK_OBJECTS
    requires s.march == march && s.public == public && s.used == 0 && s.n == n && s.objects == |sizes|
    requires s.blockSize == BlockSizeOf(sizes) && s.offset == OffsetTable(sizes) && s.size == Padded(sizes)
    requires s.base == base && s.arena == mapped && s.beyond == rest && s.ptr == Repeat(n, Padded([]))
    requires s.flags == Repeat(n, 0) && s.tag == Repeat(n, 0) && s.lifetime == Repeat(2 * n, IMMORTAL_WORD)
    requires s.hubness == Repeat(n, 0) && s.binding == Repeat(n, 0)
    ensures s == Blank(march, public, sizes, n, base, mapped, rest)
  {
  }

  /** The pieces of a new cache, put together. */
  lemma FreshFrom(march: string, public: bool, sizes: seq<uint64>, n: uint32, base: nat, mapped: seq<byte>,
                  rest: seq<byte>, rows: seq<Table>)
    requires 0 < n && |sizes| < MAX_CACHE_BLOCK_OBJECTS && |rows| == n
    requires forall i :: 0 <= i < n ==>
      rows[i] == RowOf(OffsetTable(sizes), |sizes|, BlockSizeOf(sizes), base, i, Padded([]))
    ensures Blank(march, public, sizes, n, base, mapped, rest).(ptr := rows)
         == Fresh(march, public, sizes, n, base, mapped, rest)
  {
  }

  /** s has everything the record says. */
  ghost predicate OfInfo(i: Mapinfo.Info, shared: bool, s: Slab)
    requires Mapinfo.InfoFits(i)
  {
    && s.march == Persist.TextOf(i.names.march) && s.public == shared
    && s.used == i.geometry.used && s.n == i.geometry.n && s.objects == i.geometry.objects <= 256
    && s.blockSize == i.geometry.blockSize
    && s.offset == Padded(i.objects.offset) && s.size == Padded(i.objects.size)
    && s.flags == i.blocks.flags && s.tag == i.blocks.tag && s.lifetime == Persist.Halves(i.blocks.lifetime)
    && s.hubness == i.blocks.hubness && s.binding == i.blocks.binding
  }

  /** With its pointer table filled in, that is the restored cache. */
  lemma RestoredFrom(i: Mapinfo.Info, shared: bool, t: Slab)
    requires Mapinfo.InfoFits(i) && OfInfo(i, shared, t) && |t.ptr| == t.n
    requires forall k :: 0 <= k < t.n ==>
      t.ptr[k] == RowOf(t.offset, t.objects, t.blockSize, t.base, k, Padded([]))
    ensures t == Persist.Restored(i, shared, t.base, t.arena, t.beyond)
  {
  }

  /** The pieces of a resize, put together. */
  lemma ResizedTo(s: Slab, m: uint32, newBase: nat, junk: Junk, rows: seq<Table>, t: Slab)
    requires Shape(s) && Exposes(junk, s, m) && 0 < m != s.n
    requires var file := Extend(s.arena + s.beyond, m * s.blockSize);
      t == s.(n := m, base := newBase, arena := file[..m * s.blockSize], beyond := file[m * s.blockSize..],
              flags := Realloc(s.flags, m, junk.flags), tag := Realloc(s.tag, m, junk.tag),
              lifetime := Realloc(s.lifetime, m, junk.lifetime), ptr := t.ptr)
    requires rows == Realloc(s.ptr, m, junk.ptr) && |t.ptr| == m
    requires forall i :: 0 <= i < m ==> t.ptr[i] == RowOf(s.offset, s.objects, s.blockSize, newBase, i, rows[i])
    ensures Slabs.Resize(s, m, newBase, junk) == Done(t)
  {
    assert t.ptr == Slabs.Resize(s, m, newBase, junk).value.ptr;
  }
}
