/** Writing a cache's mapinfo file and creating the cache again from it, possibly mapped elsewhere. */
module Persist {
  import opened Machine
  import opened Words
  import opened Slabs
  import opened Addressing
  import opened Simulation
  import Layout
  import opened Mapinfo

  /** The per-block records reach as far as the writer's loops read: of each lifetime only the low word, so the
      lifetime array may end in the middle of the last entry. */
  predicate Recordable(s: Slab)
    requires Shape(s)
  {
    |s.lifetime| + 1 >= 2 * s.n && |s.hubness| >= s.n && |s.binding| >= s.n
  }

  /** Also the high word of the last lifetime is there. */
  predicate Whole(s: Slab) {
    |s.lifetime| >= 2 * s.n
  }

  /** The lifetime of block i: two words, the second of which the writer never looks at. */
  function LifetimeOf(words: seq<uint32>, i: nat): (x: uint64)
    requires 2 * i < |words|
  {
    words[2 * i] + U32 * if 2 * i + 1 < |words| then words[2 * i + 1] else 0
  }

  /** 8-byte numbers as words, the low one first. */
  function Halves(xs: seq<nat>): (words: seq<uint32>)
    ensures |words| == 2 * |xs|
  {
    seq(2 * |xs|, k requires 0 <= k < 2 * |xs| => if k % 2 == 0 then xs[k / 2] % U32 else xs[k / 2] / U32 % U32)
  }

  /** Reading 8 bytes for each lifetime gives the words of the array back. */
  lemma HalvesOfLifetimes(words: seq<uint32>, n: nat)
    requires 2 * n <= |words|
    ensures Halves(seq(n, i requires 0 <= i < n => LifetimeOf(words, i))) == words[..2 * n]
  {
    var xs := seq(n, i requires 0 <= i < n => LifetimeOf(words, i));
    forall k | 0 <= k < 2 * n
      ensures Halves(xs)[k] == words[k]
    {
      var i := k / 2;
      assert xs[i] == words[2 * i] + U32 * words[2 * i + 1];
      assert k == 2 * i + k % 2;
      assert xs[i] % U32 == words[2 * i] && xs[i] / U32 == words[2 * i + 1];
    }
  }

  /** The parts of a cache entry that only the mapinfo file cares for. */
  datatype Notes = Notes(names: Names, mmap: nat, colsize: nat, desc: seq<seq<byte>>)

  /** The record cache_write_mapinfo writes; it reads past the end of a record array that is too short. */
  function ToInfo(s: Slab, x: Notes): (r: Outcome<Info>)
    requires Shape(s)
  {
    if !Recordable(s) then Fault
    else
      Done(Info(x.names,
                Geometry(x.mmap, s.used, s.n, s.objects, |s.arena|, s.blockSize, x.colsize),
                Objects(x.desc, s.offset[..s.objects], s.size[..s.objects]),
                Blocks(s.flags, s.tag, seq(s.n, i requires 0 <= i < s.n => LifetimeOf(s.lifetime, i)), s.hubness[..s.n],
                       s.binding[..s.n])))
  }

  /** The characters before the terminating NUL. */
  function TextOf(bs: seq<byte>): (r: string) {
    if bs == [] || bs[0] == 0 then "" else [bs[0] as char] + TextOf(bs[1..])
  }

  /** Of a field that holds a text, a NUL and anything after it, the text. */
  lemma {:induction false} TextOfField(text: seq<byte>, tail: seq<byte>)
    requires forall k :: 0 <= k < |text| ==> text[k] != 0
    ensures |TextOf(text + [0] + tail)| == |text|
    ensures forall k :: 0 <= k < |text| ==> TextOf(text + [0] + tail)[k] == text[k] as char
  {
    if text != [] {
      TextOfField(text[1..], tail);
      assert (text + [0] + tail)[1..] == text[1..] + [0] + tail;
    }
  }

  /** The mapping flags of a caller who asks for CACHE_USE_MAPINFO; with neither, mmap fails. */
  datatype Mapping = Private | Public | Neither

  /** The cache made from a record and the mapped bytes. */
  function Restored(i: Info, public: bool, base: nat, arena: seq<byte>, beyond: seq<byte>): (s: Slab)
    requires InfoFits(i)
  {
    Widths();
    var g := i.geometry;
    var offset := Layout.Padded(i.objects.offset);
    Slab(TextOf(i.names.march), public, g.used, g.n, g.objects, g.blockSize, offset, Layout.Padded(i.objects.size),
         base, arena, beyond,
         seq(g.n, k requires 0 <= k < g.n => RowOf(offset, g.objects, g.blockSize, base, k, Layout.Padded([]))),
         i.blocks.flags, i.blocks.tag, Halves(i.blocks.lifetime), i.blocks.hubness, i.blocks.binding)
  }

  /** The mapped bytes contradict the recorded checksum; a checksum of 0 contradicts nothing. */
  predicate Corrupt(recorded: nat, found: nat) {
    found != 0 && recorded != 0 && recorded != found
  }

  /** cache_create with CACHE_USE_MAPINFO after cache_read_mapinfo: None is the -1 returned for a corrupt
      cache. check is whether the caller asks for the checksum. */
  function Restore(i: Info, here: string, mapping: Mapping, base: nat, file: seq<byte>, check: bool,
                   crcOf: seq<byte> -> uint64)
      : (r: Outcome<Option<Slab>>)
    requires InfoFits(i)
  {
    if TextOf(i.names.march) != here then Exit
    else
      var need := Layout.Mul64(i.geometry.n, i.geometry.blockSize);
      if mapping.Neither? || need == 0 then Exit
      else if |file| < need then Fault
      else if check && Corrupt(i.names.crc, crcOf(file[..need])) then Done(None)
      else Done(Some(Restored(i, mapping.Public?, base, file[..need], file[need..])))
  }

  // ---- What is read fits ----

  lemma {:induction false} WordsFit(bs: seq<byte>, k: nat, w: nat)
    requires TakeWords(bs, k, w).Done?
    ensures Within(TakeWords(bs, k, w).value.0, k, w)
  {
    if k > 0 {
      WordsFit(bs[w..], k - 1, w);
      ValueBound(bs[..w]);
    }
  }

  lemma {:induction false} FieldsFit(bs: seq<byte>, k: nat)
    requires TakeFields(bs, k).Done?
    ensures forall i :: 0 <= i < k ==> |TakeFields(bs, k).value.0[i]| == NAME_BYTES
  {
    if k > 0 {
      FieldsFit(bs[NAME_BYTES..], k - 1);
    }
  }

  lemma NamesReadFit(bs: seq<byte>)
    requires GetNames(bs).Done?
    ensures NamesFit(GetNames(bs).value.0)
  {
    ValueBound(bs[..8]);
  }

  lemma GeometryReadFits(bs: seq<byte>)
    requires GetGeometry(bs).Done? && GetGeometry(bs).value.0.objects <= MAX_OBJECTS
    ensures GeometryFits(GetGeometry(bs).value.0)
  {
    var b1 := bs[4..];
    var b2 := b1[4..];
    var b3 := b2[4..];
    var b4 := b3[4..];
    var b5 := b4[8..];
    var b6 := b5[8..];
    ValueBound(bs[..4]);
    ValueBound(b1[..4]);
    ValueBound(b2[..4]);
    ValueBound(b3[..4]);
    ValueBound(b4[..8]);
    ValueBound(b5[..8]);
    ValueBound(b6[..4]);
  }

  lemma ObjectsReadFit(bs: seq<byte>, k: nat)
    requires GetObjects(bs, k).Done?
    ensures k <= MAX_OBJECTS && ObjectsFit(GetObjects(bs, k).value.0, k)
  {
    FieldsFit(bs, k);
    var b1 := TakeFields(bs, k).value.1;
    WordsFit(b1, k, 8);
    WordsFit(TakeWords(b1, k, 8).value.1, k, 8);
  }

  lemma BlocksReadFit(bs: seq<byte>, k: nat)
    requires GetBlocks(bs, k).Done?
    ensures BlocksFit(GetBlocks(bs, k).value.0, k)
  {
    var b1 := TakeWords(bs, k, 1).value.1;
    var b2 := TakeWords(b1, k, 4).value.1;
    var b3 := TakeWords(b2, k, 8).value.1;
    var b4 := TakeWords(b3, k, 4).value.1;
    WordsFit(bs, k, 1);
    WordsFit(b1, k, 4);
    WordsFit(b2, k, 8);
    WordsFit(b3, k, 4);
    WordsFit(b4, k, 4);
  }

  /** Whatever bytes are read, the record that comes out is one the format can hold. */
  lemma DecodeFits(bs: seq<byte>)
    requires Decode(bs).Done?
    ensures InfoFits(Decode(bs).value.0)
  {
    var (names, b1) := GetNames(bs).value;
    var (geometry, b2) := GetGeometry(b1).value;
    var (objects, b3) := GetObjects(b2, geometry.objects).value;
    NamesReadFit(bs);
    ObjectsReadFit(b2, geometry.objects);
    GeometryReadFits(b1);
    BlocksReadFit(b3, geometry.n);
  }

  /** Reading the mapinfo file whose bytes are given, then creating the cache from it. */
  function RestoreFrom(bytes: seq<byte>, here: string, mapping: Mapping, base: nat, file: seq<byte>, check: bool,
                       crcOf: seq<byte> -> uint64)
      : (r: Outcome<Option<Slab>>)
  {
    match Decode(bytes)
    case Done((i, _)) =>
      DecodeFits(bytes);
      Restore(i, here, mapping, base, file, check, crcOf)
    case Exit => Exit
    case Fault => Fault
  }

  // ---- What creating from a record answers ----

  /** Size of the mapping for a record, in 64-bit arithmetic. */
  function NeedOf(i: Info): (need: uint64) {
    Layout.Mul64(i.geometry.n, i.geometry.blockSize)
  }

  /** The checks that leave the process: of the architecture, of the mapping flags, of the size. */
  predicate Impossible(i: Info, here: string, mapping: Mapping) {
    TextOf(i.names.march) != here || mapping.Neither? || NeedOf(i) == 0
  }

  /** For any record that fits: the call leaves the process, faults for a file that is too short, refuses a cache
      of which two checksums that are not 0 differ, if asked to check, and otherwise makes the cache over the
      file, shared exactly if it is mapped public. */
  lemma RestoreExact(i: Info, here: string, mapping: Mapping, base: nat, file: seq<byte>, check: bool,
                     crcOf: seq<byte> -> uint64)
    requires InfoFits(i)
    ensures var r, need := Restore(i, here, mapping, base, file, check, crcOf), NeedOf(i);
      && (r.Exit? <==> Impossible(i, here, mapping))
      && (r.Fault? <==> !Impossible(i, here, mapping) && |file| < need)
      && (r == Done(None) <==>
            && !Impossible(i, here, mapping) && |file| >= need && check
            && i.names.crc != 0 && crcOf(file[..need]) != 0 && i.names.crc != crcOf(file[..need]))
      && (r.Done? && r.value.Some? ==>
            var t := r.value.value;
            && (t.public <==> mapping == Public) && t.base == base && t.march == here
            && t.arena + t.beyond == file && |t.arena| == need
            && t.n == i.geometry.n && t.blockSize == i.geometry.blockSize)
  {
    var need := NeedOf(i);
    if |file| >= need {
      assert file[..need] + file[need..] == file;
    }
  }

  // ---- Persist, then restore ----

  /** The entry's own numbers fit their fields, as those of any C record do, and its notes describe it. */
  ghost predicate Describes(x: Notes, s: Slab, crcOf: seq<byte> -> uint64)
    requires Shape(s)
  {
    && NamesFit(x.names) && x.names.crc == crcOf(s.arena) && TextOf(x.names.march) == s.march
    && x.mmap < U32 && x.colsize < U32
    && |x.desc| == s.objects && (forall j :: 0 <= j < s.objects ==> |x.desc[j]| == NAME_BYTES)
    && |s.arena| < U64 && s.blockSize < U64
    && forall j :: 0 <= j < s.objects ==> s.offset[j] < U64 && s.size[j] < U64
  }

  /** t is the cache s again: same blocks, flags, tags and count, and every object reads the same. */
  ghost predicate SameCache(s: Slab, t: Slab)
    requires Shape(s)
  {
    && Sound(t) && t.march == s.march && t.n == s.n && t.objects == s.objects && t.used == s.used
    && t.flags == s.flags && t.tag == s.tag && Slots(t) == Slots(s)
    && forall k, j :: 0 <= k < s.n && 0 <= j < s.objects ==> ReadObject(t, k, j) == ReadObject(s, k, j)
  }

  lemma InfoOfFits(s: Slab, x: Notes, crcOf: seq<byte> -> uint64)
    requires Shape(s) && Recordable(s) && Describes(x, s, crcOf)
    ensures InfoFits(ToInfo(s, x).value)
  {
    Widths();
  }

  /** Any record that agrees with s up to lifetimes, hubnesses and bindings makes, over a file that starts
      with bytes, a sound cache with the flags and tags of s and those bytes. */
  lemma RestoredSound(s: Slab, i: Info, public: bool, base: nat, bytes: seq<byte>, beyond: seq<byte>)
    requires Sound(s) && InfoFits(i) && |bytes| == |s.arena|
    requires i.geometry.n == s.n && i.geometry.objects == s.objects && i.geometry.blockSize == s.blockSize
    requires i.objects.offset == s.offset[..s.objects] && i.objects.size == s.size[..s.objects]
    requires i.blocks.flags == s.flags
    ensures Sound(Restored(i, public, base, bytes, beyond))
  {
    var t := Restored(i, public, base, bytes, beyond);
    assert forall j :: 0 <= j < s.objects ==> t.offset[j] == s.offset[j] && t.size[j] == s.size[j];
    assert Canonical(t);
  }

  lemma RestoredSame(s: Slab, t: Slab)
    requires Sound(s) && Sound(t) && t.arena == s.arena && t.blockSize == s.blockSize && t.march == s.march
    requires t.n == s.n && t.objects == s.objects && t.used == s.used && t.flags == s.flags && t.tag == s.tag
    requires forall j :: 0 <= j < s.objects ==> t.offset[j] == s.offset[j] && t.size[j] == s.size[j]
    ensures SameCache(s, t)
  {
    forall k | 0 <= k < s.n
      ensures BlockOf(t, k) == BlockOf(s, k) && Slots(t)[k] == Slots(s)[k]
    {
    }
    forall k, j | 0 <= k < s.n && 0 <= j < s.objects
      ensures ReadObject(t, k, j) == ReadObject(s, k, j)
    {
      CanonicalRead(s, k, j);
      CanonicalRead(t, k, j);
    }
  }

  /** The record read back, whatever it makes of lifetimes, hubnesses and bindings. */
  ghost predicate ReadsAs(i: Info, b: Info) {
    InfoFits(b) && b == i.(blocks := b.blocks) && b.blocks.flags == i.blocks.flags && b.blocks.tag == i.blocks.tag
  }

  /** Over the unchanged backing file, at any base address, a record that reads back makes the same cache
      again, and the checksum never rejects it. */
  lemma RestoreUnchanged(s: Slab, x: Notes, b: Info, mapping: Mapping, base: nat, check: bool,
                         crcOf: seq<byte> -> uint64)
    requires Sound(s) && Recordable(s) && Describes(x, s, crcOf) && !mapping.Neither?
    requires ReadsAs(ToInfo(s, x).value, b)
    ensures var r := Restore(b, s.march, mapping, base, s.arena + s.beyond, check, crcOf);
      && r.Done? && r.value.Some? && SameCache(s, r.value.value)
      && r.value.value.lifetime == Halves(b.blocks.lifetime)
      && r.value.value.hubness == b.blocks.hubness && r.value.value.binding == b.blocks.binding
  {
    var file := s.arena + s.beyond;
    Layout.MulFits(s.n, s.blockSize);
    assert file[..|s.arena|] == s.arena && file[|s.arena|..] == s.beyond;
    ScaleMonotone(1, s.n, s.blockSize);
    RestoredSound(s, b, mapping.Public?, base, s.arena, s.beyond);
    RestoredSame(s, Restored(b, mapping.Public?, base, s.arena, s.beyond));
  }

  /** A recordable cache's mapinfo file, with tail after the record, can be read back exactly when at
      least 4 bytes a block follow, and then the cache restored from it at any base is the same. */
  lemma PersistRestore(s: Slab, x: Notes, tail: seq<byte>, mapping: Mapping, base: nat, check: bool,
                       crcOf: seq<byte> -> uint64)
    requires Sound(s) && Recordable(s) && Describes(x, s, crcOf) && !mapping.Neither?
    ensures var bytes := Encode(ToInfo(s, x).value, LIFETIME_BYTES_WRITTEN, tail);
      && (Decode(bytes).Done? <==> |tail| >= s.n * 4)
      && var r := RestoreFrom(bytes, s.march, mapping, base, s.arena + s.beyond, check, crcOf);
         if |tail| >= s.n * 4 then r.Done? && r.value.Some? && SameCache(s, r.value.value) else r.Exit?
  {
    var i := ToInfo(s, x).value;
    InfoOfFits(s, x, crcOf);
    ReadBackExact(i, tail);
    var bytes := Encode(i, LIFETIME_BYTES_WRITTEN, tail);
    if Decode(bytes).Done? {
      DecodeFits(bytes);
      RestoreUnchanged(s, x, Decode(bytes).value.0, mapping, base, check, crcOf);
    }
  }

  lemma LifetimesBack(s: Slab, x: Notes)
    requires Shape(s) && Recordable(s) && Whole(s)
    ensures Halves(ToInfo(s, x).value.blocks.lifetime) == s.lifetime[..2 * s.n]
  {
    HalvesOfLifetimes(s.lifetime, s.n);
  }

  /** With 8 bytes a lifetime the file can always be read back, and the restored cache also has the
      lifetimes, hubnesses and bindings. */
  lemma PersistRestoreIntended(s: Slab, x: Notes, tail: seq<byte>, mapping: Mapping, base: nat, check: bool,
                               crcOf: seq<byte> -> uint64)
    requires Sound(s) && Recordable(s) && Whole(s) && Describes(x, s, crcOf) && !mapping.Neither?
    ensures var bytes := Encode(ToInfo(s, x).value, 8, tail);
      && Decode(bytes).Done? && InfoFits(Decode(bytes).value.0)
      && var r := Restore(Decode(bytes).value.0, s.march, mapping, base, s.arena + s.beyond, check, crcOf);
         && r.Done? && r.value.Some? && SameCache(s, r.value.value)
         && r.value.value.lifetime == s.lifetime[..2 * s.n]
         && r.value.value.hubness == s.hubness[..s.n] && r.value.value.binding == s.binding[..s.n]
  {
    hide Restore, SameCache, Halves;
    var i := ToInfo(s, x).value;
    InfoOfFits(s, x, crcOf);
    IntendedRoundTrip(i, tail);
    RestoreUnchanged(s, x, i, mapping, base, check, crcOf);
    LifetimesBack(s, x);
  }

  /** The record says how large the mapping is, and no field of it depends on where the cache is mapped. */
  lemma RecordExact(s: Slab, x: Notes)
    requires Shape(s)
    ensures ToInfo(s, x).Done? <==> Recordable(s)
    ensures Recordable(s) ==>
      var g := ToInfo(s, x).value.geometry;
      g.cacheSize == g.n * g.blockSize && g.n == s.n && g.mmap == x.mmap && g.colsize == x.colsize
    ensures Recordable(s) ==> ToInfo(s, x).value.names == x.names && ToInfo(s, x).value.objects.desc == x.desc
    ensures forall base, rows: seq<Table> :: |rows| == s.n ==> ToInfo(s.(base := base, ptr := rows), x) == ToInfo(s, x)
  {
  }

  /** A file that cannot be read is not restored from; with too many objects that is a fault if it goes on. */
  lemma UnreadableExact(bytes: seq<byte>, here: string, mapping: Mapping, base: nat, file: seq<byte>, check: bool,
                        crcOf: seq<byte> -> uint64)
    ensures var r := RestoreFrom(bytes, here, mapping, base, file, check, crcOf);
      if Decode(bytes).Done? then
        InfoFits(Decode(bytes).value.0) && r == Restore(Decode(bytes).value.0, here, mapping, base, file, check, crcOf)
      else r.Fault? <==> Decode(bytes).Fault?
  {
    if Decode(bytes).Done? {
      DecodeFits(bytes);
    }
  }

  /** Restoring the cache over other bytes of the same length: with a check asked for, it is refused exactly when
      neither checksum is 0 and they differ. */
  lemma DamageExact(s: Slab, x: Notes, b: Info, mapping: Mapping, base: nat, bytes: seq<byte>, check: bool,
                    crcOf: seq<byte> -> uint64)
    requires Sound(s) && Recordable(s) && Describes(x, s, crcOf) && !mapping.Neither?
    requires ReadsAs(ToInfo(s, x).value, b) && |bytes| == |s.arena|
    ensures var r := Restore(b, s.march, mapping, base, bytes + s.beyond, check, crcOf);
      && r.Done?
      && (r.value.None? <==> check && crcOf(s.arena) != 0 && crcOf(bytes) != 0 && crcOf(s.arena) != crcOf(bytes))
      && (r.value.Some? ==> Sound(r.value.value) && r.value.value.arena == bytes && r.value.value.flags == s.flags)
  {
    Layout.MulFits(s.n, s.blockSize);
    ScaleMonotone(1, s.n, s.blockSize);
    var file := bytes + s.beyond;
    assert file[..|bytes|] == bytes && file[|bytes|..] == s.beyond;
    RestoreExact(b, s.march, mapping, base, file, check, crcOf);
    RestoredSound(s, b, mapping.Public?, base, bytes, s.beyond);
  }

  /** A created cache can be recorded; its blocks live for ever and have hubness and binding 0. */
  lemma CreatedRecordable(march: string, public: bool, size: seq<uint64>, n: int, base: nat, file: seq<byte>)
    requires Layout.Creatable(size, n, file)
    ensures var r := Layout.Create(march, public, size, n, base, file);
      && r.Done? && Shape(r.value) && Recordable(r.value) && Whole(r.value)
      && forall i :: 0 <= i < n ==>
           LifetimeOf(r.value.lifetime, i) == U64 - 1 && r.value.hubness[i] == 0 && r.value.binding[i] == 0
  {
    Layout.CreateSound(march, public, size, n, base, file);
  }
}
