/** Byte strings as leaves of Merkle trees: 32 bytes to a chunk, the last one padded with zeros. */
module Packing {
  import opened Bytes
  import opened Words
  import opened Merkleization

  function Padded(bs: seq<Byte>, n: nat): (r: seq<Byte>)
    requires |bs| <= n
    ensures |r| == n && r[..|bs|] == bs && forall k | |bs| <= k < n :: r[k] == 0
    decreases n - |bs|
  {
    if |bs| == n then bs else Padded(bs + [0], n)
  }

  function Chunk(s: seq<Byte>, from: nat): Bytes32
    requires from <= |s|
  {
    ToWord(Padded(s[from..if from + 32 <= |s| then from + 32 else |s|], 32))
  }

  method BytesToChunks(s: seq<Byte>) returns (chunks: seq<Bytes32>)
    ensures |chunks| == (|s| + 31) / 32
    ensures forall i | 0 <= i < |chunks| :: chunks[i] == Chunk(s, 32 * i)
  {
    chunks := [];
    var i: nat := 0;
    while i < |s|
      invariant i == 32 * |chunks| && |chunks| <= (|s| + 31) / 32
      invariant forall k | 0 <= k < |chunks| :: chunks[k] == Chunk(s, 32 * k)
    {
      chunks := chunks + [Chunk(s, i)];
      i := i + 32;
    }
  }

  /** The chunks of a string determine every byte of it: packing loses nothing but the length. */
  lemma ChunkBytes(s: seq<Byte>, i: nat)
    requires i < |s|
    ensures Fixed(Chunk(s, i - i % 32), 32)[i % 32] == s[i]
  {
    var from := i - i % 32;
    var part := s[from..if from + 32 <= |s| then from + 32 else |s|];
    FixedOfBytes(Padded(part, 32));
    assert part[i % 32] == s[i];
  }

  lemma PackingIsInjective(s: seq<Byte>, t: seq<Byte>)
    requires |s| == |t| && forall i | 0 <= i < (|s| + 31) / 32 :: Chunk(s, 32 * i) == Chunk(t, 32 * i)
    ensures s == t
  {
    hide Chunk;
    forall i | 0 <= i < |s| ensures s[i] == t[i] {
      var c := i / 32;
      assert i - i % 32 == 32 * c && c < (|s| + 31) / 32;
      ChunkBytes(s, i);
      ChunkBytes(t, i);
      assert Chunk(s, 32 * c) == Chunk(t, 32 * c);
    }
  }

  method NewPackedVectorMerkleTree(data: seq<Byte>) returns (t: MerkleTree)
    ensures WellFormed(t) && !t.isList && t.length == 0 && |t.leaves| == (|data| + 31) / 32
    ensures forall i | 0 <= i < |t.leaves| :: t.leaves[i] == Chunk(data, 32 * i)
    ensures forall p :: IsPow2(p) && |t.leaves| <= p ==> t.limit <= p
  {
    var leaves := BytesToChunks(data);
    t := NewVectorMerkleTree(leaves);
  }

  /** Unlike for other lists, nothing is checked: the tree is only well-formed for a large enough power of two. */
  method NewPackedListMerkleTree(data: seq<Byte>, length: nat, limit: nat) returns (t: MerkleTree)
    ensures t.isList && t.length == length && t.limit == limit && |t.leaves| == (|data| + 31) / 32
    ensures forall i | 0 <= i < |t.leaves| :: t.leaves[i] == Chunk(data, 32 * i)
    ensures WellFormed(t) <==> IsPow2(limit) && (|data| + 31) / 32 <= limit
  {
    var leaves := BytesToChunks(data);
    t := MerkleTree(true, length, limit, leaves);
  }
}
