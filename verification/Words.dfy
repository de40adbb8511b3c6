/** Little-endian words in a byte stream. */
module Words {
  import opened Machine

  function Pow256(w: nat): (r: nat)
    ensures r > 0
  {
    if w == 0 then 1 else 256 * Pow256(w - 1)
  }

  lemma Widths()
    ensures Pow256(1) == 256 && Pow256(4) == U32 && Pow256(8) == U64
  {
    assert Pow256(2) == 0x1_0000;
    assert Pow256(6) == 0x1_0000_0000_0000;
  }

  /** The low w bytes of x, lowest first. */
  function Bytes(x: nat, w: nat): (r: seq<byte>)
    ensures |r| == w
  {
    if w == 0 then [] else [x % 256] + Bytes(x / 256, w - 1)
  }

  function Value(bs: seq<byte>): (r: nat) {
    if bs == [] then 0 else bs[0] + 256 * Value(bs[1..])
  }

  lemma {:induction false} ValueOfBytes(x: nat, w: nat)
    requires x < Pow256(w)
    ensures Value(Bytes(x, w)) == x
  {
    if w > 0 {
      ValueOfBytes(x / 256, w - 1);
      assert Bytes(x, w)[1..] == Bytes(x / 256, w - 1);
    }
  }

  lemma {:induction false} ValueConcat(a: seq<byte>, b: seq<byte>)
    ensures Value(a + b) == Value(a) + Pow256(|a|) * Value(b)
  {
    if a == [] {
      assert a + b == b;
    } else {
      ValueConcat(a[1..], b);
      assert (a + b)[1..] == a[1..] + b;
      assert Pow256(|a|) * Value(b) == 256 * (Pow256(|a| - 1) * Value(b));
    }
  }

  lemma {:induction false} ValueBound(bs: seq<byte>)
    ensures Value(bs) < Pow256(|bs|)
  {
    if bs != [] {
      ValueBound(bs[1..]);
    }
  }

  lemma Regroup(a: seq<byte>, b: seq<byte>, c: seq<byte>)
    ensures (a + b) + c == a + (b + c)
  {
  }

  /** The words xs, w bytes each. */
  function Pack(xs: seq<nat>, w: nat): (r: seq<byte>) {
    if xs == [] then [] else Bytes(xs[0], w) + Pack(xs[1..], w)
  }

  lemma {:induction false} PackLength(xs: seq<nat>, w: nat)
    ensures |Pack(xs, w)| == |xs| * w
  {
    if xs != [] {
      PackLength(xs[1..], w);
      assert |xs| * w == (|xs| - 1) * w + w;
    }
  }

  /** pups_read of k bytes: a short read is an error, and errors leave the process. */
  function Take(bs: seq<byte>, k: nat): (r: Outcome<(seq<byte>, seq<byte>)>) {
    if |bs| < k then Exit else Done((bs[..k], bs[k..]))
  }

  lemma TakeExact(a: seq<byte>, b: seq<byte>)
    ensures Take(a + b, |a|) == Done((a, b))
  {
  }

  function TakeWord(bs: seq<byte>, w: nat): (r: Outcome<(nat, seq<byte>)>) {
    if |bs| < w then Exit else Done((Value(bs[..w]), bs[w..]))
  }

  lemma TakeWordExact(x: nat, w: nat, b: seq<byte>)
    requires x < Pow256(w)
    ensures TakeWord(Bytes(x, w) + b, w) == Done((x, b))
  {
    ValueOfBytes(x, w);
    assert (Bytes(x, w) + b)[..w] == Bytes(x, w);
  }

  /** k reads of one word each. */
  function TakeWords(bs: seq<byte>, k: nat, w: nat): (r: Outcome<(seq<nat>, seq<byte>)>)
    ensures r.Done? || r.Exit?
    ensures r.Done? ==> |r.value.0| == k
  {
    if k == 0 then Done(([], bs))
    else if |bs| < w then Exit
    else
      var (xs, rest) :- TakeWords(bs[w..], k - 1, w);
      Done(([Value(bs[..w])] + xs, rest))
  }

  /** Reading runs out exactly when fewer than k * w bytes are left. */
  lemma {:induction false} TakeWordsEnough(bs: seq<byte>, k: nat, w: nat)
    ensures TakeWords(bs, k, w).Done? <==> k * w <= |bs|
  {
    ScaleMonotone(0, k, w);
    if k > 0 {
      assert k * w == (k - 1) * w + w;
      ScaleMonotone(0, k - 1, w);
      if |bs| >= w {
        TakeWordsEnough(bs[w..], k - 1, w);
      }
    }
  }

  /** The words that k * w bytes stand for. */
  function Unpack(bs: seq<byte>, k: nat, w: nat): (r: seq<nat>)
    requires |bs| == k * w
    ensures |r| == k
  {
    TakeWordsEnough(bs, k, w);
    TakeWords(bs, k, w).value.0
  }

  lemma {:induction false} TakeWordsExact(a: seq<byte>, k: nat, w: nat, b: seq<byte>)
    requires |a| == k * w
    ensures TakeWords(a + b, k, w) == Done((Unpack(a, k, w), b))
  {
    TakeWordsEnough(a, k, w);
    if k == 0 {
      assert a + b == b;
    } else {
      assert k * w == (k - 1) * w + w;
      ScaleMonotone(0, k - 1, w);
      TakeWordsExact(a[w..], k - 1, w, b);
      TakeWordsEnough(a[w..], k - 1, w);
      assert (a + b)[w..] == a[w..] + b;
      assert (a + b)[..w] == a[..w];
    }
  }

  /** Words that fit their width come back as written. */
  lemma {:induction false} UnpackPack(xs: seq<nat>, w: nat)
    requires forall i :: 0 <= i < |xs| ==> xs[i] < Pow256(w)
    ensures |Pack(xs, w)| == |xs| * w && Unpack(Pack(xs, w), |xs|, w) == xs
  {
    PackLength(xs, w);
    if xs != [] {
      PackLength(xs[1..], w);
      assert |xs| * w == (|xs| - 1) * w + w;
      UnpackPack(xs[1..], w);
      ValueOfBytes(xs[0], w);
      TakeWordsEnough(Pack(xs, w), |xs|, w);
      TakeWordsEnough(Pack(xs[1..], w), |xs| - 1, w);
      assert Pack(xs, w)[..w] == Bytes(xs[0], w);
      assert Pack(xs, w)[w..] == Pack(xs[1..], w);
    }
  }
}
