/** cache_write_mapinfo and cache_read_mapinfo as the calls they make on an open file, proved against the
    functions of module Mapinfo. */
module MapinfoFile {
  import opened Machine
  import opened Words
  import opened Mapinfo

  /** What writing n bytes over the start of bs leaves of it. */
  function Drop(bs: seq<byte>, n: nat): (r: seq<byte>) {
    if n < |bs| then bs[n..] else []
  }

  /** A run of writes: the bytes that go before the offset in the end, and the bytes after it at the start. */
  datatype Plan = Plan(start: nat, goal: seq<byte>, rest: seq<byte>)

  /** An open descriptor: the bytes of the file and the offset of the next read or write. */
  class File {
    var data: seq<byte>
    var at: nat

    ghost predicate Valid()
      reads this
    {
      at <= |data|
    }

    ghost function Rest(): (r: seq<byte>)
      requires Valid()
      reads this
    {
      data[at..]
    }

    /** All of the plan is written but the bytes left. */
    ghost predicate Left(p: Plan, left: seq<byte>)
      reads this
    {
      && Valid() && p.start <= at
      && data[..at] + left == p.goal
      && data[at..] == Drop(p.rest, at - p.start)
    }

    constructor (contents: seq<byte>)
      ensures Valid() && Rest() == contents
      ensures forall bs :: Left(Plan(0, bs, contents), bs)
    {
      data, at := contents, 0;
      new;
      assert forall bs: seq<byte> :: data[..at] + bs == bs;
    }

    // ---- Writing ----

    method Write(bs: seq<byte>, ghost p: Plan, ghost left: seq<byte>)
      requires Left(p, bs + left)
      modifies this
      ensures Left(p, left)
    {
      data := data[..at] + bs + if at + |bs| < |data| then data[at + |bs|..] else [];
      at := at + |bs|;
    }

    method WriteWords(xs: seq<nat>, w: nat, ghost p: Plan, ghost left: seq<byte>)
      requires Left(p, Pack(xs, w) + left)
      modifies this
      ensures Left(p, left)
    {
      assert xs[0..] == xs;
      for i := 0 to |xs|
        invariant Left(p, Pack(xs[i..], w) + left)
      {
        Regroup(Bytes(xs[i], w), Pack(xs[i..][1..], w), left);
        assert xs[i..][1..] == xs[i + 1..];
        Write(Bytes(xs[i], w), p, Pack(xs[i + 1..], w) + left);
      }
      assert Pack(xs[|xs|..], w) + left == left;
    }

    method WriteFields(fields: seq<seq<byte>>, ghost p: Plan, ghost left: seq<byte>)
      requires Left(p, Flatten(fields) + left)
      modifies this
      ensures Left(p, left)
    {
      assert fields[0..] == fields;
      for i := 0 to |fields|
        invariant Left(p, Flatten(fields[i..]) + left)
      {
        Regroup(fields[i], Flatten(fields[i..][1..]), left);
        assert fields[i..][1..] == fields[i + 1..];
        Write(fields[i], p, Flatten(fields[i + 1..]) + left);
      }
      assert Flatten(fields[|fields|..]) + left == left;
    }

    method WriteNames(x: Names, ghost p: Plan, ghost left: seq<byte>)
      requires Left(p, PutNames(x, left))
      modifies this
      ensures Left(p, left)
    {
      ghost var t6 := x.auxinfo + left;
      ghost var t5 := x.march + t6;
      ghost var t4 := x.mmapName + t5;
      ghost var t3 := x.mapinfoName + t4;
      ghost var t2 := x.name + t3;
      ghost var t1 := x.path + t2;
      Write(Bytes(x.crc, 8), p, t1);
      Write(x.path, p, t2);
      Write(x.name, p, t3);
      Write(x.mapinfoName, p, t4);
      Write(x.mmapName, p, t5);
      Write(x.march, p, t6);
      Write(x.auxinfo, p, left);
    }

    method WriteGeometry(g: Geometry, ghost p: Plan, ghost left: seq<byte>)
      requires Left(p, PutGeometry(g, left))
      modifies this
      ensures Left(p, left)
    {
      ghost var t6 := Bytes(g.colsize, 4) + left;
      ghost var t5 := Bytes(g.blockSize, 8) + t6;
      ghost var t4 := Bytes(g.cacheSize, 8) + t5;
      ghost var t3 := Bytes(g.objects, 4) + t4;
      ghost var t2 := Bytes(g.n, 4) + t3;
      ghost var t1 := Bytes(g.used, 4) + t2;
      Write(Bytes(g.mmap, 4), p, t1);
      Write(Bytes(g.used, 4), p, t2);
      Write(Bytes(g.n, 4), p, t3);
      Write(Bytes(g.objects, 4), p, t4);
      Write(Bytes(g.cacheSize, 8), p, t5);
      Write(Bytes(g.blockSize, 8), p, t6);
      Write(Bytes(g.colsize, 4), p, left);
    }

    method WriteObjects(o: Objects, ghost p: Plan, ghost left: seq<byte>)
      requires Left(p, PutObjects(o, left))
      modifies this
      ensures Left(p, left)
    {
      WriteFields(o.desc, p, Pack(o.offset, 8) + (Pack(o.size, 8) + left));
      WriteWords(o.offset, 8, p, Pack(o.size, 8) + left);
      WriteWords(o.size, 8, p, left);
    }

    method WriteBlocks(b: Blocks, ghost p: Plan, ghost left: seq<byte>)
      requires Left(p, PutBlocks(b, LIFETIME_BYTES_WRITTEN, left))
      modifies this
      ensures Left(p, left)
    {
      ghost var t4 := Pack(b.binding, 4) + left;
      ghost var t3 := Pack(b.hubness, 4) + t4;
      ghost var t2 := Pack(b.lifetime, LIFETIME_BYTES_WRITTEN) + t3;
      ghost var t1 := Pack(b.tag, 4) + t2;
      WriteWords(b.flags, 1, p, t1);
      WriteWords(b.tag, 4, p, t2);
      WriteWords(b.lifetime, LIFETIME_BYTES_WRITTEN, p, t3);
      WriteWords(b.hubness, 4, p, t4);
      WriteWords(b.binding, 4, p, left);
    }

    method WriteInfo(i: Info, ghost p: Plan)
      requires Left(p, Encode(i, LIFETIME_BYTES_WRITTEN, []))
      modifies this
      ensures Left(p, [])
    {
      ghost var blocks := PutBlocks(i.blocks, LIFETIME_BYTES_WRITTEN, []);
      ghost var objects := PutObjects(i.objects, blocks);
      ghost var geometry := PutGeometry(i.geometry, objects);
      WriteNames(i.names, p, geometry);
      WriteGeometry(i.geometry, p, objects);
      WriteObjects(i.objects, p, blocks);
      WriteBlocks(i.blocks, p, []);
    }

    lemma Written(p: Plan)
      requires Left(p, []) && p.start == 0
      ensures data == Overwrite(p.rest, p.goal)
    {
      assert data[..at] + [] == data[..at];
      assert data == data[..at] + data[at..];
    }

    // ---- Reading ----

    method Read(k: nat) returns (r: Outcome<seq<byte>>)
      requires Valid()
      modifies this`at
      ensures Valid() && r == First(Take(old(Rest()), k))
      ensures r.Done? ==> Rest() == Take(old(Rest()), k).value.1
    {
      if |data| - at < k {
        r := Exit;
      } else {
        r := Done(data[at..at + k]);
        assert data[at..at + k] == data[at..][..k];
        at := at + k;
      }
    }

    method ReadWord(w: nat) returns (r: Outcome<nat>)
      requires Valid()
      modifies this`at
      ensures Valid() && r == First(TakeWord(old(Rest()), w))
      ensures r.Done? ==> Rest() == TakeWord(old(Rest()), w).value.1
    {
      var bs :- Read(w);
      r := Done(Value(bs));
    }

    method ReadWords(k: nat, w: nat) returns (r: Outcome<seq<nat>>)
      requires Valid()
      modifies this`at
      ensures Valid() && r == First(TakeWords(old(Rest()), k, w))
      ensures r.Done? ==> Rest() == TakeWords(old(Rest()), k, w).value.1
    {
      var xs: seq<nat> := [];
      AfterAfter([], [], TakeWords(Rest(), k, w));
      for i := 0 to k
        invariant Valid()
        invariant After(xs, TakeWords(Rest(), k - i, w)) == TakeWords(old(Rest()), k, w)
      {
        WordStep(xs, Rest(), k - i, w);
        var x :- ReadWord(w);
        xs := xs + [x];
      }
      assert xs + [] == xs;
      r := Done(xs);
    }

    method ReadFields(k: nat) returns (r: Outcome<seq<seq<byte>>>)
      requires Valid()
      modifies this`at
      ensures Valid() && r == First(TakeFields(old(Rest()), k))
      ensures r.Done? ==> Rest() == TakeFields(old(Rest()), k).value.1
    {
      var fs: seq<seq<byte>> := [];
      AfterAfter([], [], TakeFields(Rest(), k));
      for i := 0 to k
        invariant Valid()
        invariant After(fs, TakeFields(Rest(), k - i)) == TakeFields(old(Rest()), k)
      {
        FieldStep(fs, Rest(), k - i);
        var f :- Read(NAME_BYTES);
        fs := fs + [f];
      }
      assert fs + [] == fs;
      r := Done(fs);
    }

    method ReadNames() returns (r: Outcome<Names>)
      requires Valid()
      modifies this`at
      ensures Valid() && r == First(GetNames(old(Rest())))
      ensures r.Done? ==> Rest() == GetNames(old(Rest())).value.1
    {
      var crc :- ReadWord(8);
      var path :- Read(NAME_BYTES);
      var name :- Read(NAME_BYTES);
      var mapinfoName :- Read(NAME_BYTES);
      var mmapName :- Read(NAME_BYTES);
      var march :- Read(NAME_BYTES);
      var auxinfo :- Read(AUXINFO_BYTES);
      r := Done(Names(crc, path, name, mapinfoName, mmapName, march, auxinfo));
    }

    method ReadGeometry() returns (r: Outcome<Geometry>)
      requires Valid()
      modifies this`at
      ensures Valid() && r == First(GetGeometry(old(Rest())))
      ensures r.Done? ==> Rest() == GetGeometry(old(Rest())).value.1
    {
      var mmap :- ReadWord(4);
      var used :- ReadWord(4);
      var n :- ReadWord(4);
      var objects :- ReadWord(4);
      var cacheSize :- ReadWord(8);
      var blockSize :- ReadWord(8);
      var colsize :- ReadWord(4);
      r := Done(Geometry(mmap, used, n, objects, cacheSize, blockSize, colsize));
    }

    method ReadObjects(k: nat) returns (r: Outcome<Objects>)
      requires Valid()
      modifies this`at
      ensures Valid() && r == First(GetObjects(old(Rest()), k))
      ensures r.Done? ==> Rest() == GetObjects(old(Rest()), k).value.1
    {
      if k > MAX_OBJECTS {
        var table :- ReadFields(MAX_OBJECTS);
        return if at == |data| then Exit else Fault;
      }
      var desc :- ReadFields(k);
      var offset :- ReadWords(k, 8);
      var size :- ReadWords(k, 8);
      r := Done(Objects(desc, offset, size));
    }

    method ReadBlocks(k: nat) returns (r: Outcome<Blocks>)
      requires Valid()
      modifies this`at
      ensures Valid() && r == First(GetBlocks(old(Rest()), k))
      ensures r.Done? ==> Rest() == GetBlocks(old(Rest()), k).value.1
    {
      var flags :- ReadWords(k, 1);
      var tag :- ReadWords(k, 4);
      var lifetime :- ReadWords(k, 8);
      var hubness :- ReadWords(k, 4);
      var binding :- ReadWords(k, 4);
      r := Done(Blocks(flags, tag, lifetime, hubness, binding));
    }
  }

  /** cache_write_mapinfo over a file holding was. */
  method WriteMapinfo(i: Info, was: seq<byte>) returns (file: seq<byte>)
    ensures file == Overwrite(was, Encode(i, LIFETIME_BYTES_WRITTEN, []))
  {
    var f := new File(was);
    ghost var p := Plan(0, Encode(i, LIFETIME_BYTES_WRITTEN, []), was);
    f.WriteInfo(i, p);
    f.Written(p);
    file := f.data;
  }

  /** cache_read_mapinfo into an empty entry, from a file holding bytes. */
  method ReadMapinfo(bytes: seq<byte>) returns (r: Outcome<Info>)
    ensures r == First(Decode(bytes))
  {
    var f := new File(bytes);
    var names :- f.ReadNames();
    var geometry :- f.ReadGeometry();
    var objects :- f.ReadObjects(geometry.objects);
    var blocks :- f.ReadBlocks(geometry.n);
    r := Done(Info(names, geometry, objects, blocks));
  }

  /** What was read, without what is left to read. */
  function First<T>(r: Outcome<(T, seq<byte>)>): (x: Outcome<T>) {
    if r.Done? then Done(r.value.0) else if r.Exit? then Exit else Fault
  }

  /** A read whose first elements xs are already in. */
  function After<T>(xs: seq<T>, r: Outcome<(seq<T>, seq<byte>)>): (x: Outcome<(seq<T>, seq<byte>)>) {
    if r.Done? then Done((xs + r.value.0, r.value.1)) else r
  }

  lemma AfterAfter<T>(a: seq<T>, b: seq<T>, r: Outcome<(seq<T>, seq<byte>)>)
    ensures After(a, After(b, r)) == After(a + b, r) && After([], r) == r
  {
    if r.Done? {
      assert [] + r.value.0 == r.value.0;
      assert a + (b + r.value.0) == (a + b) + r.value.0;
    }
  }

  lemma WordStep(xs: seq<nat>, bs: seq<byte>, k: nat, w: nat)
    requires k > 0
    ensures After(xs, TakeWords(bs, k, w))
         == if |bs| < w then Exit else After(xs + [Value(bs[..w])], TakeWords(bs[w..], k - 1, w))
  {
    if |bs| >= w {
      AfterAfter(xs, [Value(bs[..w])], TakeWords(bs[w..], k - 1, w));
    }
  }

  lemma FieldStep(fs: seq<seq<byte>>, bs: seq<byte>, k: nat)
    requires k > 0
    ensures After(fs, TakeFields(bs, k))
         == if |bs| < NAME_BYTES then Exit else After(fs + [bs[..NAME_BYTES]], TakeFields(bs[NAME_BYTES..], k - 1))
  {
    if |bs| >= NAME_BYTES {
      AfterAfter(fs, [bs[..NAME_BYTES]], TakeFields(bs[NAME_BYTES..], k - 1));
    }
  }
}
