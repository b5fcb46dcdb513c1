/** Byte strings, the numbers they stand for, and memory. */
module Bytes {
  import opened Words
  import opened Merkleization

  type Byte = b: nat | b < 256

  function BigEndian(bs: seq<Byte>): (w: nat)
    ensures w < Pow2(8 * |bs|)
  {
    if bs == [] then 0
    else
      var n := |bs| - 1;
      assert Pow2(8 * |bs|) == 256 * Pow2(8 * n) by { Pow2Step(|bs|); }
      BigEndian(bs[..n]) * 256 + bs[n]
  }

  lemma Pow2Of256()
    ensures Pow2(256) == TWO_256
  {
    Pow2Of64();
    Pow2Add(64, 64);
    Pow2Add(128, 128);
  }

  function ToWord(bs: seq<Byte>): Bytes32
    requires |bs| == 32
  {
    Pow2Of256();
    BigEndian(bs)
  }

  /** Leading bytes are the higher bits. */
  lemma {:induction false} BigEndianSplit(bs: seq<Byte>, n: nat)
    requires n <= |bs|
    ensures BigEndian(bs) == Concat(BigEndian(bs[..n]), 8 * (|bs| - n), BigEndian(bs[n..]))
  {
    hide Concat, Pow2;
    var last := |bs| - 1;
    if n == |bs| {
      assert bs[..n] == bs && bs[n..] == [];
      ConcatNothing(BigEndian(bs));
    } else {
      var init, low := bs[..last], bs[n..];
      BigEndianSplit(init, n);
      assert init[..n] == bs[..n] && init[n..] == low[..last - n];
      assert BigEndian(low) == BigEndian(low[..last - n]) * 256 + bs[last];
      ConcatByte(BigEndian(bs[..n]), last - n, BigEndian(init[n..]), bs[last]);
    }
  }

  lemma ConcatNothing(a: nat)
    ensures Concat(a, 0, 0) == a
  {
  }

  lemma ConcatByte(a: nat, n: nat, b: nat, d: nat)
    ensures Concat(a, 8 * n, b) * 256 + d == Concat(a, 8 * (n + 1), b * 256 + d)
  {
    Pow2Step(n + 1);
    assert a * (256 * Pow2(8 * n)) == 256 * (a * Pow2(8 * n));
  }

  /** Shifting a word right leaves its leading bytes. */
  lemma LeadingBytes(bs: seq<Byte>, n: nat)
    requires n <= |bs|
    ensures Shr(BigEndian(bs), 8 * (|bs| - n)) == BigEndian(bs[..n])
  {
    BigEndianSplit(bs, n);
    ShrConcat(BigEndian(bs[..n]), 8 * (|bs| - n), BigEndian(bs[n..]));
  }

  /** The n-byte big-endian form of a number, its higher bytes cut off. */
  function Fixed(w: nat, n: nat): (bs: seq<Byte>)
    ensures |bs| == n
  {
    if n == 0 then [] else Fixed(w / 256, n - 1) + [w % 256]
  }

  lemma {:induction false} FixedOfBytes(bs: seq<Byte>)
    ensures Fixed(BigEndian(bs), |bs|) == bs
  {
    if bs != [] {
      FixedOfBytes(bs[..|bs| - 1]);
    }
  }

  /** The shortest big-endian form of a number; that of 0 is empty. */
  function Minimal(n: nat): seq<Byte> {
    if n == 0 then [] else Minimal(n / 256) + [n % 256]
  }

  lemma {:induction false} MinimalValue(n: nat)
    ensures BigEndian(Minimal(n)) == n
    ensures n > 0 ==> Minimal(n) != [] && Minimal(n)[0] != 0
  {
    if n > 0 {
      MinimalValue(n / 256);
      assert Minimal(n)[..|Minimal(n)| - 1] == Minimal(n / 256);
    }
  }

  lemma {:induction false} MinimalLength(n: nat, k: nat)
    requires n < Pow2(8 * k)
    ensures |Minimal(n)| <= k
    decreases k
  {
    if n > 0 {
      if k > 0 {
        Pow2Step(k);
        MinimalLength(n / 256, k - 1);
      }
    }
  }

  // ---------------------------------------------------------------- memory

  /** Memory as far as it is in use, all zero from there on. Addresses that wrap around would run out of gas. */
  type Mem = seq<Byte>

  function At(mem: Mem, p: nat): Byte {
    if p < |mem| then mem[p] else 0
  }

  function Read(mem: Mem, p: nat, n: nat): (bs: seq<Byte>)
    ensures |bs| == n && forall k | 0 <= k < n :: bs[k] == At(mem, p + k)
  {
    if n == 0 then [] else Read(mem, p, n - 1) + [At(mem, p + n - 1)]
  }

  lemma ReadPrefix(mem: Mem, p: nat, n: nat, k: nat)
    requires k <= n
    ensures Read(mem, p, n)[..k] == Read(mem, p, k)
  {
  }

  /** The bytes stand in memory from p on. */
  ghost predicate Placed(mem: Mem, p: nat, bs: seq<Byte>) {
    forall k | 0 <= k < |bs| :: At(mem, p + k) == bs[k]
  }

  lemma PlacedRead(mem: Mem, p: nat, bs: seq<Byte>)
    requires Placed(mem, p, bs)
    ensures Read(mem, p, |bs|) == bs
  {
  }

  lemma PlacedParts(mem: Mem, p: nat, a: seq<Byte>, b: seq<Byte>)
    requires Placed(mem, p, a + b)
    ensures Placed(mem, p, a) && Placed(mem, p + |a|, b)
  {
    forall k | 0 <= k < |a| ensures At(mem, p + k) == a[k] {
      assert (a + b)[k] == a[k];
    }
    forall k | 0 <= k < |b| ensures At(mem, p + |a| + k) == b[k] {
      assert (a + b)[|a| + k] == b[k] && At(mem, p + (|a| + k)) == (a + b)[|a| + k];
    }
  }

  /** mload */
  function Load(mem: Mem, p: nat): Bytes32 {
    ToWord(Read(mem, p, 32))
  }

  lemma LoadLeading(mem: Mem, p: nat, n: nat)
    requires n <= 32
    ensures Shr(Load(mem, p), 8 * (32 - n)) == BigEndian(Read(mem, p, n))
  {
    LeadingBytes(Read(mem, p, 32), n);
    ReadPrefix(mem, p, 32, n);
  }
}
