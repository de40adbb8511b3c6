/** The mapinfo file: what cache_write_mapinfo writes and what cache_read_mapinfo makes of it. The writer
    gives each block lifetime 4 bytes, the reader takes 8. */
module Mapinfo {
  import opened Machine
  import opened Words

  const NAME_BYTES: nat := 256
  const AUXINFO_BYTES: nat := 2048
  const MAX_OBJECTS: nat := 256

  datatype Names = Names(crc: nat, path: seq<byte>, name: seq<byte>, mapinfoName: seq<byte>, mmapName: seq<byte>,
                         march: seq<byte>, auxinfo: seq<byte>)

  datatype Geometry = Geometry(mmap: nat, used: nat, n: nat, objects: nat, cacheSize: nat, blockSize: nat, colsize: nat)

  datatype Objects = Objects(desc: seq<seq<byte>>, offset: seq<nat>, size: seq<nat>)

  datatype Blocks = Blocks(flags: seq<nat>, tag: seq<nat>, lifetime: seq<nat>, hubness: seq<nat>, binding: seq<nat>)

  datatype Info = Info(names: Names, geometry: Geometry, objects: Objects, blocks: Blocks)

  // ---- Records that fit the file ----

  ghost predicate NamesFit(x: Names) {
    && x.crc < Pow256(8)
    && |x.path| == |x.name| == |x.mapinfoName| == |x.mmapName| == |x.march| == NAME_BYTES
    && |x.auxinfo| == AUXINFO_BYTES
  }

  ghost predicate GeometryFits(g: Geometry) {
    && g.mmap < Pow256(4) && g.used < Pow256(4) && g.n < Pow256(4) && g.objects < Pow256(4)
    && g.cacheSize < Pow256(8) && g.blockSize < Pow256(8) && g.colsize < Pow256(4)
    && g.objects <= MAX_OBJECTS
  }

  ghost predicate Within(xs: seq<nat>, k: nat, w: nat) {
    |xs| == k && forall i :: 0 <= i < |xs| ==> xs[i] < Pow256(w)
  }

  ghost predicate ObjectsFit(o: Objects, k: nat) {
    && |o.desc| == k && (forall i :: 0 <= i < k ==> |o.desc[i]| == NAME_BYTES)
    && Within(o.offset, k, 8) && Within(o.size, k, 8)
  }

  ghost predicate BlocksFit(b: Blocks, k: nat) {
    && Within(b.flags, k, 1) && Within(b.tag, k, 4) && Within(b.lifetime, k, 8)
    && Within(b.hubness, k, 4) && Within(b.binding, k, 4)
  }

  ghost predicate InfoFits(i: Info) {
    && NamesFit(i.names) && GeometryFits(i.geometry)
    && ObjectsFit(i.objects, i.geometry.objects) && BlocksFit(i.blocks, i.geometry.n)
  }

  // ---- The bytes written; tail is whatever follows ----

  function PutNames(x: Names, tail: seq<byte>): (r: seq<byte>) {
    Bytes(x.crc, 8) + (x.path + (x.name + (x.mapinfoName + (x.mmapName + (x.march + (x.auxinfo + tail))))))
  }

  function PutGeometry(g: Geometry, tail: seq<byte>): (r: seq<byte>) {
    Bytes(g.mmap, 4) + (Bytes(g.used, 4) + (Bytes(g.n, 4) + (Bytes(g.objects, 4)
      + (Bytes(g.cacheSize, 8) + (Bytes(g.blockSize, 8) + (Bytes(g.colsize, 4) + tail))))))
  }

  function Flatten(fields: seq<seq<byte>>): (r: seq<byte>) {
    if fields == [] then [] else fields[0] + Flatten(fields[1..])
  }

  function PutObjects(o: Objects, tail: seq<byte>): (r: seq<byte>) {
    Flatten(o.desc) + (Pack(o.offset, 8) + (Pack(o.size, 8) + tail))
  }

  /** Block tables with w bytes for a lifetime; the writer's w is 4, which drops the high half. */
  function PutBlocks(b: Blocks, w: nat, tail: seq<byte>): (r: seq<byte>) {
    Pack(b.flags, 1) + (Pack(b.tag, 4) + (Pack(b.lifetime, w) + (Pack(b.hubness, 4) + (Pack(b.binding, 4) + tail))))
  }

  function Encode(i: Info, w: nat, tail: seq<byte>): (r: seq<byte>) {
    PutNames(i.names, PutGeometry(i.geometry, PutObjects(i.objects, PutBlocks(i.blocks, w, tail))))
  }

  const LIFETIME_BYTES_WRITTEN: nat := 4

  // ---- What the reader makes of a stream, and what it leaves unread ----

  function GetNames(bs: seq<byte>): (r: Outcome<(Names, seq<byte>)>) {
    var (crc, bs) :- TakeWord(bs, 8);
    var (path, bs) :- Take(bs, NAME_BYTES);
    var (name, bs) :- Take(bs, NAME_BYTES);
    var (mapinfoName, bs) :- Take(bs, NAME_BYTES);
    var (mmapName, bs) :- Take(bs, NAME_BYTES);
    var (march, bs) :- Take(bs, NAME_BYTES);
    var (auxinfo, bs) :- Take(bs, AUXINFO_BYTES);
    Done((Names(crc, path, name, mapinfoName, mmapName, march, auxinfo), bs))
  }

  function GetGeometry(bs: seq<byte>): (r: Outcome<(Geometry, seq<byte>)>) {
    var (mmap, bs) :- TakeWord(bs, 4);
    var (used, bs) :- TakeWord(bs, 4);
    var (n, bs) :- TakeWord(bs, 4);
    var (objects, bs) :- TakeWord(bs, 4);
    var (cacheSize, bs) :- TakeWord(bs, 8);
    var (blockSize, bs) :- TakeWord(bs, 8);
    var (colsize, bs) :- TakeWord(bs, 4);
    Done((Geometry(mmap, used, n, objects, cacheSize, blockSize, colsize), bs))
  }

  function TakeFields(bs: seq<byte>, k: nat): (r: Outcome<(seq<seq<byte>>, seq<byte>)>)
    ensures r.Done? || r.Exit?
    ensures r.Done? ==> |r.value.0| == k
  {
    if k == 0 then Done(([], bs))
    else
      var (f, bs) :- Take(bs, NAME_BYTES);
      var (fs, bs) :- TakeFields(bs, k - 1);
      Done(([f] + fs, bs))
  }

  /** The description after the 256th runs past the object table, if the file has a byte left for it; a file
      that ends before is an error first. */
  function GetObjects(bs: seq<byte>, k: nat): (r: Outcome<(Objects, seq<byte>)>) {
    if k > MAX_OBJECTS then
      var (_, bs) :- TakeFields(bs, MAX_OBJECTS);
      if bs == [] then Exit else Fault
    else
      var (desc, bs) :- TakeFields(bs, k);
      var (offset, bs) :- TakeWords(bs, k, 8);
      var (size, bs) :- TakeWords(bs, k, 8);
      Done((Objects(desc, offset, size), bs))
  }

  function GetBlocks(bs: seq<byte>, k: nat): (r: Outcome<(Blocks, seq<byte>)>) {
    var (flags, bs) :- TakeWords(bs, k, 1);
    var (tag, bs) :- TakeWords(bs, k, 4);
    var (lifetime, bs) :- TakeWords(bs, k, 8);
    var (hubness, bs) :- TakeWords(bs, k, 4);
    var (binding, bs) :- TakeWords(bs, k, 4);
    Done((Blocks(flags, tag, lifetime, hubness, binding), bs))
  }

  function Decode(bs: seq<byte>): (r: Outcome<(Info, seq<byte>)>) {
    var (names, bs) :- GetNames(bs);
    var (geometry, bs) :- GetGeometry(bs);
    var (objects, bs) :- GetObjects(bs, geometry.objects);
    var (blocks, bs) :- GetBlocks(bs, geometry.n);
    Done((Info(names, geometry, objects, blocks), bs))
  }

  // ---- Section by section ----

  lemma NamesBack(x: Names, tail: seq<byte>)
    requires NamesFit(x)
    ensures GetNames(PutNames(x, tail)) == Done((x, tail))
  {
    var t6 := x.auxinfo + tail;
    var t5 := x.march + t6;
    var t4 := x.mmapName + t5;
    var t3 := x.mapinfoName + t4;
    var t2 := x.name + t3;
    var t1 := x.path + t2;
    TakeWordExact(x.crc, 8, t1);
    TakeExact(x.path, t2);
    TakeExact(x.name, t3);
    TakeExact(x.mapinfoName, t4);
    TakeExact(x.mmapName, t5);
    TakeExact(x.march, t6);
    TakeExact(x.auxinfo, tail);
  }

  lemma GeometryBack(g: Geometry, tail: seq<byte>)
    requires GeometryFits(g)
    ensures GetGeometry(PutGeometry(g, tail)) == Done((g, tail))
  {
    var t6 := Bytes(g.colsize, 4) + tail;
    var t5 := Bytes(g.blockSize, 8) + t6;
    var t4 := Bytes(g.cacheSize, 8) + t5;
    var t3 := Bytes(g.objects, 4) + t4;
    var t2 := Bytes(g.n, 4) + t3;
    var t1 := Bytes(g.used, 4) + t2;
    TakeWordExact(g.mmap, 4, t1);
    TakeWordExact(g.used, 4, t2);
    TakeWordExact(g.n, 4, t3);
    TakeWordExact(g.objects, 4, t4);
    TakeWordExact(g.cacheSize, 8, t5);
    TakeWordExact(g.blockSize, 8, t6);
    TakeWordExact(g.colsize, 4, tail);
  }

  lemma {:induction false} FieldsBack(fields: seq<seq<byte>>, tail: seq<byte>)
    requires forall i :: 0 <= i < |fields| ==> |fields[i]| == NAME_BYTES
    ensures TakeFields(Flatten(fields) + tail, |fields|) == Done((fields, tail))
  {
    if fields == [] {
      assert Flatten(fields) + tail == tail;
    } else {
      FieldsBack(fields[1..], tail);
      assert Flatten(fields) + tail == fields[0] + (Flatten(fields[1..]) + tail);
      TakeExact(fields[0], Flatten(fields[1..]) + tail);
      assert [fields[0]] + fields[1..] == fields;
    }
  }

  lemma WordsBack(xs: seq<nat>, k: nat, w: nat, tail: seq<byte>)
    requires Within(xs, k, w)
    ensures TakeWords(Pack(xs, w) + tail, k, w) == Done((xs, tail))
  {
    UnpackPack(xs, w);
    TakeWordsExact(Pack(xs, w), k, w, tail);
  }

  /** With more than 256 objects the reader never returns: it faults exactly when the file goes on after 256
      descriptions. */
  lemma TooManyObjects(bs: seq<byte>, k: nat)
    requires k > MAX_OBJECTS
    ensures GetObjects(bs, k) == if |bs| > MAX_OBJECTS * NAME_BYTES then Fault else Exit
  {
    FieldsEnough(bs, MAX_OBJECTS);
  }

  lemma {:induction false} FieldsEnough(bs: seq<byte>, k: nat)
    ensures var r := TakeFields(bs, k);
      && (r.Done? <==> k * NAME_BYTES <= |bs|)
      && (r.Done? ==> |r.value.1| == |bs| - k * NAME_BYTES)
  {
    if k > 0 && |bs| >= NAME_BYTES {
      FieldsEnough(bs[NAME_BYTES..], k - 1);
    }
  }

  lemma ObjectsBack(o: Objects, k: nat, tail: seq<byte>)
    requires ObjectsFit(o, k) && k <= MAX_OBJECTS
    ensures GetObjects(PutObjects(o, tail), k) == Done((o, tail))
  {
    var t2 := Pack(o.size, 8) + tail;
    FieldsBack(o.desc, Pack(o.offset, 8) + t2);
    WordsBack(o.offset, k, 8, t2);
    WordsBack(o.size, k, 8, tail);
  }

  /** After the flags and tags, the reader takes the next 8k, 4k and 4k bytes, whatever they were meant as. */
  lemma BlocksBack(b: Blocks, k: nat, l: seq<byte>, h: seq<byte>, g: seq<byte>, tail: seq<byte>)
    requires Within(b.flags, k, 1) && Within(b.tag, k, 4)
    requires |l| == k * 8 && |h| == k * 4 && |g| == k * 4
    ensures GetBlocks(Pack(b.flags, 1) + (Pack(b.tag, 4) + (l + (h + (g + tail)))), k)
         == Done((Blocks(b.flags, b.tag, Unpack(l, k, 8), Unpack(h, k, 4), Unpack(g, k, 4)), tail))
  {
    var t3 := g + tail;
    var t2 := h + t3;
    var t1 := l + t2;
    WordsBack(b.flags, k, 1, Pack(b.tag, 4) + t1);
    WordsBack(b.tag, k, 4, t1);
    TakeWordsExact(l, k, 8, t2);
    TakeWordsExact(h, k, 4, t3);
    TakeWordsExact(g, k, 4, tail);
  }

  // ---- The whole file ----

  /** With 8 bytes a lifetime the reader is a left inverse of the writer, for every record and whatever
      follows it in the file. */
  lemma IntendedRoundTrip(i: Info, tail: seq<byte>)
    requires InfoFits(i)
    ensures Decode(Encode(i, 8, tail)) == Done((i, tail))
  {
    var b, k := i.blocks, i.geometry.n;
    UnpackPack(b.lifetime, 8);
    UnpackPack(b.hubness, 4);
    UnpackPack(b.binding, 4);
    BlocksBack(b, k, Pack(b.lifetime, 8), Pack(b.hubness, 4), Pack(b.binding, 4), tail);
    HeaderBack(i, PutBlocks(b, 8, tail));
  }

  /** Everything before the block tables is read back as written. */
  lemma HeaderBack(i: Info, rest: seq<byte>)
    requires NamesFit(i.names) && GeometryFits(i.geometry) && ObjectsFit(i.objects, i.geometry.objects)
    ensures var bs := PutNames(i.names, PutGeometry(i.geometry, PutObjects(i.objects, rest)));
      var r := GetBlocks(rest, i.geometry.n);
      Decode(bs) == if r.Done? then Done((i.(blocks := r.value.0), r.value.1)) else r.PropagateFailure()
  {
    NamesBack(i.names, PutGeometry(i.geometry, PutObjects(i.objects, rest)));
    GeometryBack(i.geometry, PutObjects(i.objects, rest));
    ObjectsBack(i.objects, i.geometry.objects, rest);
  }

  /** The m-th 4-byte word after the tags: the low halves of the lifetimes, then the hubnesses. */
  function Written(b: Blocks, m: nat): (r: nat)
    requires m < |b.lifetime| + |b.hubness|
  {
    if m < |b.lifetime| then b.lifetime[m] % U32 else b.hubness[m - |b.lifetime|]
  }

  /** The lifetimes the reader makes up: each from two of those words. */
  function Paired(b: Blocks, k: nat): (r: seq<nat>)
    requires |b.lifetime| == k && |b.hubness| == k
  {
    seq(k, j requires 0 <= j < k => Written(b, 2 * j) + U32 * Written(b, 2 * j + 1))
  }

  /** What reading makes of the block tables b when the bytes after them start with extra. */
  function Misread(b: Blocks, k: nat, extra: seq<byte>): (r: Blocks)
    requires |b.lifetime| == k && |b.hubness| == k && |extra| == k * 4
  {
    Blocks(b.flags, b.tag, Paired(b, k), b.binding, Unpack(extra, k, 4))
  }

  /** As written, reading exits unless at least 4 more bytes a block follow the record; then flags and tags
      are right, the lifetimes are paired words, the hubnesses are the bindings, and the bindings are
      whatever follows. */
  lemma ReadBackExact(i: Info, tail: seq<byte>)
    requires InfoFits(i)
    ensures var k := i.geometry.n;
      Decode(Encode(i, LIFETIME_BYTES_WRITTEN, tail))
        == if |tail| < k * 4 then Exit
           else Done((i.(blocks := Misread(i.blocks, k, tail[..k * 4])), tail[k * 4..]))
  {
    HeaderBack(i, PutBlocks(i.blocks, 4, tail));
    BlocksReadBack(i.blocks, i.geometry.n, tail);
  }

  lemma BlocksReadBack(b: Blocks, k: nat, tail: seq<byte>)
    requires BlocksFit(b, k)
    ensures GetBlocks(PutBlocks(b, 4, tail), k)
         == if |tail| < k * 4 then Exit else Done((Misread(b, k, tail[..k * 4]), tail[k * 4..]))
  {
    PackLength(b.binding, 4);
    PairedWords(b, k);
    var l := Pack(b.lifetime, 4) + Pack(b.hubness, 4);
    var h := Pack(b.binding, 4);
    SplitBlocks(b, l, h, tail);
    if |tail| < k * 4 {
      ShortRead(b, k, l, h, tail);
    } else {
      assert tail[..k * 4] + tail[k * 4..] == tail;
      BlocksBack(b, k, l, h, tail[..k * 4], tail[k * 4..]);
      UnpackPack(b.binding, 4);
    }
  }

  lemma SplitBlocks(b: Blocks, l: seq<byte>, h: seq<byte>, tail: seq<byte>)
    requires l == Pack(b.lifetime, 4) + Pack(b.hubness, 4) && h == Pack(b.binding, 4)
    ensures PutBlocks(b, 4, tail) == Pack(b.flags, 1) + (Pack(b.tag, 4) + (l + (h + tail)))
  {
    Regroup(Pack(b.lifetime, 4), Pack(b.hubness, 4), h + tail);
  }

  lemma ShortRead(b: Blocks, k: nat, l: seq<byte>, h: seq<byte>, tail: seq<byte>)
    requires Within(b.flags, k, 1) && Within(b.tag, k, 4)
    requires |l| == k * 8 && |h| == k * 4 && |tail| < k * 4
    ensures GetBlocks(Pack(b.flags, 1) + (Pack(b.tag, 4) + (l + (h + tail))), k) == Exit
  {
    WordsBack(b.flags, k, 1, Pack(b.tag, 4) + (l + (h + tail)));
    WordsBack(b.tag, k, 4, l + (h + tail));
    TakeWordsExact(l, k, 8, h + tail);
    TakeWordsExact(h, k, 4, tail);
    TakeWordsEnough(tail, k, 4);
  }

  /** 2k words of 4 bytes, read as k words of 8. */
  lemma {:induction false} UnpackPairs(xs: seq<nat>, k: nat)
    requires |xs| == 2 * k
    ensures |Pack(xs, 4)| == k * 8
    ensures forall j :: 0 <= j < k ==>
      Unpack(Pack(xs, 4), k, 8)[j] == xs[2 * j] % U32 + U32 * (xs[2 * j + 1] % U32)
  {
    PackLength(xs, 4);
    if k > 0 {
      var rest := xs[2..];
      UnpackPairs(rest, k - 1);
      assert xs[1..][1..] == rest;
      var a, b := Bytes(xs[0], 4), Bytes(xs[1], 4);
      assert Pack(xs, 4) == a + b + Pack(rest, 4);
      assert Pack(xs, 4)[..8] == a + b && Pack(xs, 4)[8..] == Pack(rest, 4);
      PairValue(xs[0], xs[1]);
      TakeWordsEnough(Pack(xs, 4), k, 8);
      TakeWordsEnough(Pack(rest, 4), k - 1, 8);
      forall j | 0 < j < k
        ensures Unpack(Pack(xs, 4), k, 8)[j] == xs[2 * j] % U32 + U32 * (xs[2 * j + 1] % U32)
      {
        assert Unpack(Pack(xs, 4), k, 8)[j] == Unpack(Pack(rest, 4), k - 1, 8)[j - 1];
        assert rest[2 * (j - 1)] == xs[2 * j] && rest[2 * (j - 1) + 1] == xs[2 * j + 1];
      }
    }
  }

  lemma PairValue(x: nat, y: nat)
    ensures Value(Bytes(x, 4) + Bytes(y, 4)) == x % U32 + U32 * (y % U32)
  {
    LowBytes(x);
    LowBytes(y);
    Widths();
    ValueConcat(Bytes(x, 4), Bytes(y, 4));
  }

  /** Writing 4 bytes keeps the low half. */
  lemma LowBytes(x: nat)
    ensures Value(Bytes(x, 4)) == x % U32
  {
    Widths();
    ValueOfBytes(x % U32, 4);
    LowBytesAgree(x, x % U32, 4, x / U32);
  }

  lemma {:induction false} LowBytesAgree(x: nat, y: nat, w: nat, q: nat)
    requires x == y + Pow256(w) * q
    ensures Bytes(x, w) == Bytes(y, w)
  {
    if w > 0 {
      var p := Pow256(w - 1) * q;
      assert x == y + 256 * p;
      LowBytesAgree(x / 256, y / 256, w - 1, q);
    }
  }

  lemma PairedWords(b: Blocks, k: nat)
    requires Within(b.lifetime, k, 8) && Within(b.hubness, k, 4)
    ensures var l := Pack(b.lifetime, 4) + Pack(b.hubness, 4);
      |l| == k * 8 && Unpack(l, k, 8) == Paired(b, k)
  {
    var xs := b.lifetime + b.hubness;
    PackConcat(b.lifetime, b.hubness, 4);
    UnpackPairs(xs, k);
    Widths();
    var r := Paired(b, k);
    forall j | 0 <= j < k
      ensures Unpack(Pack(xs, 4), k, 8)[j] == r[j]
    {
      SmallMod(b, k, 2 * j);
      SmallMod(b, k, 2 * j + 1);
    }
  }

  lemma SmallMod(b: Blocks, k: nat, m: nat)
    requires Within(b.lifetime, k, 8) && Within(b.hubness, k, 4) && m < 2 * k
    ensures (b.lifetime + b.hubness)[m] % U32 == Written(b, m)
  {
    Widths();
  }

  lemma {:induction false} PackConcat(xs: seq<nat>, ys: seq<nat>, w: nat)
    ensures Pack(xs + ys, w) == Pack(xs, w) + Pack(ys, w)
  {
    hide Bytes;
    if xs == [] {
      assert xs + ys == ys;
    } else {
      PackConcat(xs[1..], ys, w);
      assert (xs + ys)[0] == xs[0] && (xs + ys)[1..] == xs[1..] + ys;
      Regroup(Bytes(xs[0], w), Pack(xs[1..], w), Pack(ys, w));
    }
  }

  /** A mapinfo file just written to a new file cannot be read back unless the cache has no blocks. */
  lemma FreshFileUnreadable(i: Info)
    requires InfoFits(i)
    ensures Decode(Encode(i, LIFETIME_BYTES_WRITTEN, [])).Exit? <==> i.geometry.n > 0
  {
    ReadBackExact(i, []);
  }

  /** The file is opened without truncation: writing leaves the end of a longer old file in place. */
  function Overwrite(was: seq<byte>, written: seq<byte>): (r: seq<byte>) {
    written + if |written| < |was| then was[|written|..] else []
  }

  /** Over an old file, reading back succeeds exactly when the old file was longer by 4 bytes a block. */
  lemma OverwriteReadable(i: Info, was: seq<byte>)
    requires InfoFits(i)
    ensures var e := Encode(i, LIFETIME_BYTES_WRITTEN, []);
      Decode(Overwrite(was, e)).Done? <==> i.geometry.n == 0 || |was| >= |e| + i.geometry.n * 4
  {
    var e := Encode(i, LIFETIME_BYTES_WRITTEN, []);
    var tail := if |e| < |was| then was[|e|..] else [];
    EncodeAppend(i, LIFETIME_BYTES_WRITTEN, tail);
    ReadBackExact(i, tail);
  }

  lemma EncodeAppend(i: Info, w: nat, tail: seq<byte>)
    ensures Encode(i, w, []) + tail == Encode(i, w, tail)
  {
    var b0, b1 := PutBlocks(i.blocks, w, []), PutBlocks(i.blocks, w, tail);
    BlocksAppend(i.blocks, w, [], tail);
    assert [] + tail == tail;
    var o0, o1 := PutObjects(i.objects, b0), PutObjects(i.objects, b1);
    ObjectsAppend(i.objects, b0, tail);
    var g0, g1 := PutGeometry(i.geometry, o0), PutGeometry(i.geometry, o1);
    GeometryAppend(i.geometry, o0, tail);
    NamesAppend(i.names, g0, tail);
  }

  lemma NamesAppend(x: Names, mid: seq<byte>, tail: seq<byte>)
    ensures PutNames(x, mid) + tail == PutNames(x, mid + tail)
  {
    var t6 := x.auxinfo + mid;
    var t5 := x.march + t6;
    var t4 := x.mmapName + t5;
    var t3 := x.mapinfoName + t4;
    var t2 := x.name + t3;
    var t1 := x.path + t2;
    Regroup(Bytes(x.crc, 8), t1, tail);
    Regroup(x.path, t2, tail);
    Regroup(x.name, t3, tail);
    Regroup(x.mapinfoName, t4, tail);
    Regroup(x.mmapName, t5, tail);
    Regroup(x.march, t6, tail);
    Regroup(x.auxinfo, mid, tail);
  }

  lemma GeometryAppend(g: Geometry, mid: seq<byte>, tail: seq<byte>)
    ensures PutGeometry(g, mid) + tail == PutGeometry(g, mid + tail)
  {
    var t6 := Bytes(g.colsize, 4) + mid;
    var t5 := Bytes(g.blockSize, 8) + t6;
    var t4 := Bytes(g.cacheSize, 8) + t5;
    var t3 := Bytes(g.objects, 4) + t4;
    var t2 := Bytes(g.n, 4) + t3;
    var t1 := Bytes(g.used, 4) + t2;
    Regroup(Bytes(g.mmap, 4), t1, tail);
    Regroup(Bytes(g.used, 4), t2, tail);
    Regroup(Bytes(g.n, 4), t3, tail);
    Regroup(Bytes(g.objects, 4), t4, tail);
    Regroup(Bytes(g.cacheSize, 8), t5, tail);
    Regroup(Bytes(g.blockSize, 8), t6, tail);
    Regroup(Bytes(g.colsize, 4), mid, tail);
  }

  lemma ObjectsAppend(o: Objects, mid: seq<byte>, tail: seq<byte>)
    ensures PutObjects(o, mid) + tail == PutObjects(o, mid + tail)
  {
    var t2 := Pack(o.size, 8) + mid;
    var t1 := Pack(o.offset, 8) + t2;
    Regroup(Flatten(o.desc), t1, tail);
    Regroup(Pack(o.offset, 8), t2, tail);
    Regroup(Pack(o.size, 8), mid, tail);
  }

  lemma BlocksAppend(b: Blocks, w: nat, mid: seq<byte>, tail: seq<byte>)
    ensures PutBlocks(b, w, mid) + tail == PutBlocks(b, w, mid + tail)
  {
    var t4 := Pack(b.binding, 4) + mid;
    var t3 := Pack(b.hubness, 4) + t4;
    var t2 := Pack(b.lifetime, w) + t3;
    var t1 := Pack(b.tag, 4) + t2;
    Regroup(Pack(b.flags, 1), t1, tail);
    Regroup(Pack(b.tag, 4), t2, tail);
    Regroup(Pack(b.lifetime, w), t3, tail);
    Regroup(Pack(b.hubness, 4), t4, tail);
    Regroup(Pack(b.binding, 4), mid, tail);
  }

  /** The record comes back unchanged exactly when enough bytes follow it, hubnesses and bindings agree, the
      bindings happen to follow the record in the file, and the lifetimes are their own pairing. */
  lemma RoundTripExact(i: Info, tail: seq<byte>)
    requires InfoFits(i)
    ensures var b, k, r := i.blocks, i.geometry.n, Decode(Encode(i, LIFETIME_BYTES_WRITTEN, tail));
      (r.Done? && r.value.0 == i)
      <==> |tail| >= k * 4 && b.hubness == b.binding && tail[..k * 4] == Pack(b.binding, 4)
           && b.lifetime == Paired(b, k)
  {
    ReadBackExact(i, tail);
    var k := i.geometry.n;
    if |tail| >= k * 4 {
      UnpackPack(i.blocks.binding, 4);
      PackUnpack(tail[..k * 4], k, 4);
    }
  }

  lemma {:induction false} PackUnpack(bs: seq<byte>, k: nat, w: nat)
    requires |bs| == k * w
    ensures Pack(Unpack(bs, k, w), w) == bs
  {
    if k > 0 {
      assert k * w == (k - 1) * w + w;
      ScaleMonotone(0, k - 1, w);
      PackUnpack(bs[w..], k - 1, w);
      TakeWordsEnough(bs, k, w);
      TakeWordsEnough(bs[w..], k - 1, w);
      BytesOfValue(bs[..w]);
      assert Unpack(bs, k, w)[1..] == Unpack(bs[w..], k - 1, w);
    }
  }

  lemma {:induction false} BytesOfValue(bs: seq<byte>)
    ensures Bytes(Value(bs), |bs|) == bs
  {
    if bs != [] {
      BytesOfValue(bs[1..]);
      var v := Value(bs[1..]);
      assert Value(bs) % 256 == bs[0] && Value(bs) / 256 == v;
      assert [bs[0]] + bs[1..] == bs;
    }
  }

  /** With all hubnesses 0 the lifetimes survive exactly when every block but the first has lifetime 0 and
      the first fits 32 bits; in particular not the immortal lifetime every new block has. */
  lemma LifetimesSurvive(b: Blocks, k: nat)
    requires Within(b.lifetime, k, 8) && Within(b.hubness, k, 4) && forall j :: 0 <= j < k ==> b.hubness[j] == 0
    ensures b.lifetime == Paired(b, k)
      <==> forall j :: 0 <= j < k ==> b.lifetime[j] < (if j == 0 then U32 else 1)
  {
    AllOwnPairs(b.lifetime, b, k);
    if forall m :: 0 <= m < k ==> OwnPair(b, m) {
      forall j | 0 <= j < k
        ensures b.lifetime[j] < (if j == 0 then U32 else 1)
      {
        OwnPairSmall(b, k, j);
      }
    } else {
      var j :| 0 <= j < k && !OwnPair(b, j);
      if forall j :: 0 <= j < k ==> b.lifetime[j] < (if j == 0 then U32 else 1) {
        SmallPair(b, k, j);
      }
    }
  }

  lemma AllOwnPairs(xs: seq<nat>, b: Blocks, k: nat)
    requires xs == b.lifetime && |b.lifetime| == k && |b.hubness| == k
    ensures xs == Paired(b, k) <==> forall m :: 0 <= m < k ==> OwnPair(b, m)
  {
    var r := Paired(b, k);
    assert forall m :: 0 <= m < k ==> (xs[m] == r[m] <==> OwnPair(b, m));
  }

  ghost predicate OwnPair(b: Blocks, j: nat)
    requires |b.lifetime| == |b.hubness| && j < |b.lifetime|
  {
    b.lifetime[j] == Written(b, 2 * j) + U32 * Written(b, 2 * j + 1)
  }

  lemma {:induction false} OwnPairSmall(b: Blocks, k: nat, j: nat)
    requires |b.lifetime| == k && |b.hubness| == k && forall m :: 0 <= m < k ==> b.hubness[m] == 0
    requires forall m :: 0 <= m < k ==> OwnPair(b, m)
    requires j < k
    ensures b.lifetime[j] < if j == 0 then U32 else 1
    decreases k - j
  {
    if 0 < j && 2 * j < k {
      OwnPairSmall(b, k, 2 * j);
    }
    if 2 * j + 1 < k {
      OwnPairSmall(b, k, 2 * j + 1);
    }
    WordBound(b, k, 2 * j);
    WordBound(b, k, 2 * j + 1);
    assert OwnPair(b, j);
  }

  lemma WordBound(b: Blocks, k: nat, m: nat)
    requires |b.lifetime| == k && |b.hubness| == k && forall m :: 0 <= m < k ==> b.hubness[m] == 0
    requires m < 2 * k && (0 < m < k ==> b.lifetime[m] == 0)
    ensures Written(b, m) < if m == 0 then U32 else 1
  {
  }

  lemma SmallPair(b: Blocks, k: nat, j: nat)
    requires |b.lifetime| == k && |b.hubness| == k && forall m :: 0 <= m < k ==> b.hubness[m] == 0
    requires forall m :: 0 <= m < k ==> b.lifetime[m] < if m == 0 then U32 else 1
    requires j < k
    ensures OwnPair(b, j)
  {
    assert Written(b, 2 * j) == if j == 0 then b.lifetime[0] else 0;
    assert Written(b, 2 * j + 1) == 0;
  }
}
