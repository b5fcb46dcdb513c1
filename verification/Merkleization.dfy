/** SSZ Merkle trees and single-branch proofs: the Go prover and the Solidity verifier. */
module Merkleization {
  import opened Words

  /** A sparse tree: `limit` leaf positions of which the first |leaves| are in use. */
  datatype MerkleTree = MerkleTree(isList: bool, length: nat, limit: nat, leaves: seq<Bytes32>)

  datatype MerkleProof = MerkleProof(genIndex: nat, path: seq<Bytes32>)

  /** The shape that every constructor but the packed list one enforces. */
  predicate WellFormed(t: MerkleTree) {
    IsPow2(t.limit) && |t.leaves| <= t.limit
  }

  // ---------------------------------------------------------------- zero subtrees

  /** Root of the all-zero subtree with n leaves. */
  function ZeroNode(h: PairHash, n: nat): Bytes32 {
    if n <= 1 then 0 else var z := ZeroNode(h, n / 2); h(z, z)
  }

  ghost function Doubled(h: PairHash, z: Bytes32, n: nat): Bytes32
    decreases n
  {
    if n <= 1 then z else Doubled(h, h(z, z), n / 2)
  }

  lemma {:induction false} DoubledCommutes(h: PairHash, z: Bytes32, n: nat)
    ensures var d := Doubled(h, z, n); Doubled(h, h(z, z), n) == h(d, d)
    decreases n
  {
    if n > 1 {
      DoubledCommutes(h, h(z, z), n / 2);
    }
  }

  lemma {:induction false} DoubledIsZeroNode(h: PairHash, n: nat)
    ensures Doubled(h, 0, n) == ZeroNode(h, n)
  {
    if n > 1 {
      DoubledIsZeroNode(h, n / 2);
      DoubledCommutes(h, 0, n / 2);
    }
  }

  method ZeroHash(h: PairHash, n: nat) returns (res: Bytes32)
    ensures res == ZeroNode(h, n)
  {
    res := 0;
    var m := n;
    DoubledIsZeroNode(h, n);
    while m > 1
      invariant Doubled(h, res, m) == ZeroNode(h, n)
    {
      res := h(res, res);
      m := m / 2;
    }
  }

  /** The least power of two that is at least n. */
  method CeilPow2(n: nat) returns (res: nat)
    ensures IsPow2(res) && n <= res
    ensures forall p :: IsPow2(p) && n <= p ==> res <= p
  {
    res := 1;
    while res < n
      invariant IsPow2(res)
      invariant forall p :: IsPow2(p) && n <= p ==> res <= p
      decreases n - res
    {
      forall p | IsPow2(p) && n <= p ensures 2 * res <= p {
        NextPow2(res, p);
      }
      res := res * 2;
    }
  }

  lemma {:induction false} NextPow2(a: nat, b: nat)
    requires IsPow2(a) && IsPow2(b) && a < b
    ensures 2 * a <= b
  {
    if a > 1 {
      NextPow2(a / 2, b / 2);
    }
  }

  // ---------------------------------------------------------------- tree constructors

  method NewVectorMerkleTree(leaves: seq<Bytes32>) returns (t: MerkleTree)
    ensures WellFormed(t) && !t.isList && t.length == 0 && t.leaves == leaves
    ensures forall p :: IsPow2(p) && |leaves| <= p ==> t.limit <= p
  {
    var limit := CeilPow2(|leaves|);
    t := MerkleTree(false, 0, limit, leaves);
  }

  /** None is a panic: too many leaves, or a limit that has more than one bit set. */
  method NewListMerkleTree(leaves: seq<Bytes32>, limit: nat) returns (t: Option<MerkleTree>)
    ensures t.Some? <==> |leaves| <= limit && (limit == 0 || IsPow2(limit))
    ensures t.Some? ==> t.value == MerkleTree(true, |leaves|, limit, leaves)
  {
    if limit < |leaves| || !(limit == 0 || IsPow2(limit)) {
      return None;
    }
    return Some(MerkleTree(true, |leaves|, limit, leaves));
  }

  // ---------------------------------------------------------------- merkleization

  /** The sparse recursion: absent chunks are replaced by all-zero subtrees. */
  function Merkle(h: PairHash, chunks: seq<Bytes32>, n: nat): Bytes32
    requires IsPow2(n) && |chunks| <= n
  {
    if |chunks| == 0 then ZeroNode(h, n)
    else if n == 1 then chunks[0]
    else
      var m := n / 2;
      if |chunks| <= m then h(Merkle(h, chunks, m), ZeroNode(h, m))
      else h(Merkle(h, chunks[..m], m), Merkle(h, chunks[m..], m))
  }

  function Hash(h: PairHash, t: MerkleTree): Bytes32
    requires WellFormed(t)
  {
    var x := Merkle(h, t.leaves, t.limit);
    if t.isList then h(x, UintToHash(t.length)) else x
  }

  /** The little-endian 64-bit encoding of v, padded to 32 bytes on the right. */
  function UintToHash(v: nat): Bytes32 {
    ReversedBound(v, 8, 0);
    Pow2Of64();
    Reversed(v, 8, 0) * 0x1_0000_0000_0000_0000_0000_0000_0000_0000_0000_0000_0000_0000
  }

  /** Appends the n lowest bytes of x to acc, lowest byte first. */
  function Reversed(x: nat, n: nat, acc: nat): nat
    decreases n
  {
    if n == 0 then acc else Reversed(x / 256, n - 1, acc * 256 + x % 256)
  }

  lemma {:induction false} ReversedBound(x: nat, n: nat, acc: nat)
    ensures Reversed(x, n, acc) < (acc + 1) * Pow2(8 * n)
    decreases n
  {
    if n > 0 {
      var next := acc * 256 + x % 256;
      ReversedBound(x / 256, n - 1, next);
      Pow2Step(n);
      MulMono(next + 1, (acc + 1) * 256, Pow2(8 * (n - 1)));
      assert ((acc + 1) * 256) * Pow2(8 * (n - 1)) == (acc + 1) * (256 * Pow2(8 * (n - 1)));
    }
  }

  lemma Pow2Step(n: nat)
    requires n > 0
    ensures Pow2(8 * n) == 256 * Pow2(8 * (n - 1))
  {
    hide Pow2;
    Pow2Of8();
    Pow2Add(8, 8 * (n - 1));
    assert 8 + 8 * (n - 1) == 8 * n;
  }

  lemma Pow2Of8()
    ensures Pow2(8) == 256
  {
    assert Pow2(4) == 16;
    Pow2Add(4, 4);
  }

  lemma Pow2Of64()
    ensures Pow2(64) == 0x1_0000_0000_0000_0000
  {
    var p8, p16, p32 := Pow2(8), Pow2(16), Pow2(32);
    assert Pow2(4) == 16;
    Pow2Add(4, 4);
    Pow2Add(8, 8);
    assert p16 == 0x1_0000;
    Pow2Add(16, 16);
    assert p32 == 0x1_0000_0000;
    Pow2Add(32, 32);
  }

  /** Node i of the full zero-padded tree in heap order: the SSZ definition. */
  ghost function Node(h: PairHash, leaves: seq<Bytes32>, limit: nat, i: nat): Bytes32
    requires 1 <= i < 2 * limit
    decreases 2 * limit - i
  {
    if i >= limit then
      if i - limit < |leaves| then leaves[i - limit] else 0
    else h(Node(h, leaves, limit, 2 * i), Node(h, leaves, limit, 2 * i + 1))
  }

  /** The chunks in leaf positions lo .. lo + k. */
  ghost function Slice(leaves: seq<Bytes32>, lo: nat, k: nat): (s: seq<Bytes32>)
    ensures |s| <= k
  {
    if lo >= |leaves| then [] else if lo + k >= |leaves| then leaves[lo..] else leaves[lo..lo + k]
  }

  /** Sparse merkleization of the range lo .. lo + k is the full tree's node i above that range. */
  lemma {:induction false} SubtreeIsNode(h: PairHash, leaves: seq<Bytes32>, limit: nat, i: nat, lo: nat, k: nat)
    requires IsPow2(k) && i * k == lo + limit && lo + k <= limit
    ensures 1 <= i < 2 * limit
    ensures Merkle(h, Slice(leaves, lo, k), k) == Node(h, leaves, limit, i)
    decreases k
  {
    hide Slice, Merkle, Node;
    NodeInTree(limit, i, lo, k);
    if k == 1 {
      LeafSlice(h, leaves, limit, i);
    } else {
      var m := k / 2;
      NodeStep(h, leaves, limit, i);
      ChildRanges(i, k, m);
      SubtreeIsNode(h, leaves, limit, 2 * i, lo, m);
      SubtreeIsNode(h, leaves, limit, 2 * i + 1, lo + m, m);
      SliceHalves(h, leaves, lo, m);
    }
  }

  lemma LeafSlice(h: PairHash, leaves: seq<Bytes32>, limit: nat, i: nat)
    requires limit <= i < 2 * limit
    ensures Merkle(h, Slice(leaves, i - limit, 1), 1) == Node(h, leaves, limit, i)
  {
  }

  lemma NodeStep(h: PairHash, leaves: seq<Bytes32>, limit: nat, i: nat)
    requires 1 <= i < limit
    ensures Node(h, leaves, limit, i) == h(Node(h, leaves, limit, 2 * i), Node(h, leaves, limit, 2 * i + 1))
  {
  }

  lemma NodeInTree(limit: nat, i: nat, lo: nat, k: nat)
    requires k >= 1 && i * k == lo + limit && lo + k <= limit
    ensures 1 <= i < 2 * limit
    ensures k == 1 ==> i >= limit
    ensures k > 1 ==> i < limit
  {
    if k > 1 {
      MulMono(2, k, i);
    }
  }

  lemma ChildRanges(i: nat, k: nat, m: nat)
    requires k == 2 * m
    ensures (2 * i) * m == i * k
    ensures (2 * i + 1) * m == i * k + m
  {
  }

  /** Merkleizing 2m positions is hashing the two halves, whichever of them are empty. */
  lemma SliceHalves(h: PairHash, leaves: seq<Bytes32>, lo: nat, m: nat)
    requires IsPow2(m)
    ensures IsPow2(2 * m)
    ensures Merkle(h, Slice(leaves, lo, 2 * m), 2 * m)
         == h(Merkle(h, Slice(leaves, lo, m), m), Merkle(h, Slice(leaves, lo + m, m), m))
  {
    var s := Slice(leaves, lo, 2 * m);
    assert (2 * m) / 2 == m;
    if |s| <= m {
      assert Slice(leaves, lo, m) == s;
      assert Slice(leaves, lo + m, m) == [];
    } else {
      assert Slice(leaves, lo, m) == s[..m];
      assert Slice(leaves, lo + m, m) == s[m..];
    }
  }

  /** Sparse merkleization equals full zero-padded merkleization. */
  lemma SparseIsFull(h: PairHash, leaves: seq<Bytes32>, limit: nat)
    requires IsPow2(limit) && |leaves| <= limit
    ensures Merkle(h, leaves, limit) == Node(h, leaves, limit, 1)
  {
    SubtreeIsNode(h, leaves, limit, 1, 0, limit);
    assert Slice(leaves, 0, limit) == leaves;
  }

  // ---------------------------------------------------------------- the leaves below a node

  /** The number of leaf positions below node i. */
  ghost function Width(limit: nat, i: nat): (k: nat)
    requires i >= 1
    ensures k >= 1
    decreases limit - i
  {
    if i >= limit then 1 else 2 * Width(limit, 2 * i)
  }

  /** The leftmost leaf position below node i. */
  ghost function LeftEdge(limit: nat, i: nat): nat
    requires i >= 1
    decreases limit - i
  {
    if i >= limit then i - limit else LeftEdge(limit, 2 * i)
  }

  lemma {:induction false} EdgeBounds(limit: nat, i: nat)
    requires IsPow2(limit) && 1 <= i < 2 * limit
    ensures i * Width(limit, i) == LeftEdge(limit, i) + limit
    ensures IsPow2(Width(limit, i))
    ensures LeftEdge(limit, i) + Width(limit, i) <= limit
    decreases limit - i
  {
    if i < limit {
      hide IsPow2;
      var k := Width(limit, 2 * i);
      EdgeBounds(limit, 2 * i);
      EdgeBounds(limit, 2 * i + 1);
      SameWidth(limit, i);
      ChildRanges(i, 2 * k, k);
      DoublePow2(k);
    }
  }

  lemma DoublePow2(k: nat)
    requires IsPow2(k)
    ensures IsPow2(2 * k)
  {
    assert (2 * k) / 2 == k;
  }

  lemma SameWidth(limit: nat, i: nat)
    requires IsPow2(limit) && i >= 1
    ensures Width(limit, 2 * i) == Width(limit, 2 * i + 1)
  {
    SameLevel(limit, 2 * i, 2 * i + 1);
  }

  /** Nodes of one level have equally many leaves below them. */
  lemma {:induction false} SameLevel(limit: nat, a: nat, b: nat)
    requires IsPow2(limit) && a >= 1 && b >= 1 && Log2(a) == Log2(b)
    ensures Width(limit, a) == Width(limit, b)
    decreases limit - a
  {
    LevelOf(limit, a);
    LevelOf(limit, b);
    if a < limit {
      SameLevel(limit, 2 * a, 2 * b);
    }
  }

  lemma {:induction false} LevelOf(limit: nat, a: nat)
    requires IsPow2(limit) && a >= 1
    ensures a < limit <==> Log2(a) < Log2(limit)
  {
    if limit > 1 && a > 1 {
      LevelOf(limit / 2, a / 2);
    }
  }

  /** Siblings cover adjacent ranges of equal width, and their parent covers both. */
  lemma Siblings(limit: nat, g: nat)
    requires IsPow2(limit) && 1 < g < 2 * limit
    ensures 1 <= g / 2 < limit
    ensures Width(limit, g / 2) == 2 * Width(limit, g)
    ensures g % 2 == 1 ==> Width(limit, g - 1) == Width(limit, g) && LeftEdge(limit, g - 1) == LeftEdge(limit, g / 2)
    ensures g % 2 == 1 ==> LeftEdge(limit, g - 1) + Width(limit, g) == LeftEdge(limit, g)
    ensures g % 2 == 0 ==> Width(limit, g + 1) == Width(limit, g) && LeftEdge(limit, g) == LeftEdge(limit, g / 2)
    ensures g % 2 == 0 ==> LeftEdge(limit, g) + Width(limit, g) == LeftEdge(limit, g + 1)
  {
    AdjacentEdges(limit, g / 2);
  }

  lemma AdjacentEdges(limit: nat, i: nat)
    requires IsPow2(limit) && 1 <= i < limit
    ensures Width(limit, 2 * i) == Width(limit, 2 * i + 1)
    ensures LeftEdge(limit, 2 * i) + Width(limit, 2 * i) == LeftEdge(limit, 2 * i + 1)
  {
    hide Width, LeftEdge, IsPow2;
    SameWidth(limit, i);
    EdgeBounds(limit, 2 * i);
    EdgeBounds(limit, 2 * i + 1);
    var k := Width(limit, 2 * i);
    ChildRanges(i, 2 * k, k);
  }
}
