/** Single Merkle branches: what the prover emits, how both sides restore a root from it, and why it binds. */
module Branches {
  import opened Words
  import opened Merkleization

  // ---------------------------------------------------------------- restoring a root

  /** Hashes a node with its sibling; the lowest bit of g says on which side it stands. */
  function Join(h: PairHash, x: Bytes32, g: nat, sibling: Bytes32): Bytes32 {
    if g % 2 == 1 then h(sibling, x) else h(x, sibling)
  }

  function Climb(h: PairHash, x: Bytes32, g: nat, path: seq<Bytes32>): Bytes32
    decreases |path|
  {
    if path == [] then x else Climb(h, Join(h, x, g, path[0]), g / 2, path[1..])
  }

  /** The root restored from a leaf at generalized index g, None when the path length does not fit g. */
  function RestoreRoot(h: PairHash, leaf: Bytes32, g: nat, path: seq<Bytes32>): Option<Bytes32> {
    if Shr(g, |path|) == 1 then Some(Climb(h, leaf, g, path)) else None
  }

  /** The contract's walk: a fixed number of rounds, bit i of the index tested in round i. */
  method RestoreMerkleRoot(h: PairHash, leaf: Bytes32, genIndex: nat, proof: seq<Bytes32>) returns (r: Option<Bytes32>)
    ensures r == RestoreRoot(h, leaf, genIndex, proof)
  {
    if Shr(genIndex, |proof|) != 1 {
      return None;
    }
    var node := leaf;
    for i := 0 to |proof|
      invariant Climb(h, node, Shr(genIndex, i), proof[i..]) == Climb(h, leaf, genIndex, proof)
    {
      ShrStep(genIndex, i);
      assert proof[i..][1..] == proof[i + 1..];
      if Bit(genIndex, i) == 0 {
        node := h(node, proof[i]);
      } else {
        node := h(proof[i], node);
      }
    }
    r := Some(node);
  }

  /** The prover's walk: the index is halved until it reaches the root. */
  method ReconstructRoot(h: PairHash, p: MerkleProof, data: Bytes32) returns (r: Option<Bytes32>)
    ensures r == RestoreRoot(h, data, p.genIndex, p.path)
  {
    var g := p.genIndex;
    if Shr(g, |p.path|) != 1 {
      return None;
    }
    TopBit(g, |p.path|);
    var leaf := data;
    var i := 0;
    while g > 1
      invariant g >= 1 && i <= |p.path| && Log2(g) == |p.path| - i
      invariant Climb(h, leaf, g, p.path[i..]) == Climb(h, data, p.genIndex, p.path)
      decreases g
    {
      assert p.path[i..][1..] == p.path[i + 1..];
      if g % 2 == 1 {
        leaf := h(p.path[i], leaf);
      } else {
        leaf := h(leaf, p.path[i]);
      }
      g := g / 2;
      i := i + 1;
    }
    r := Some(leaf);
  }

  // ---------------------------------------------------------------- the branch of a tree

  function Sibling(g: nat): nat {
    if g % 2 == 1 then g - 1 else g + 1
  }

  /** The siblings on the way from node g to the root, lowest first. */
  ghost function Branch(h: PairHash, leaves: seq<Bytes32>, limit: nat, g: nat): seq<Bytes32>
    requires 1 <= g < 2 * limit
  {
    if g == 1 then [] else [Node(h, leaves, limit, Sibling(g))] + Branch(h, leaves, limit, g / 2)
  }

  lemma {:induction false} BranchLength(h: PairHash, leaves: seq<Bytes32>, limit: nat, g: nat)
    requires 1 <= g < 2 * limit
    ensures |Branch(h, leaves, limit, g)| == Log2(g)
  {
    if g > 1 {
      BranchLength(h, leaves, limit, g / 2);
    }
  }

  lemma {:induction false} BranchClimbsToRoot(h: PairHash, leaves: seq<Bytes32>, limit: nat, g: nat)
    requires 1 <= g < 2 * limit
    ensures Climb(h, Node(h, leaves, limit, g), g, Branch(h, leaves, limit, g)) == Node(h, leaves, limit, 1)
  {
    if g > 1 {
      BranchClimbsToRoot(h, leaves, limit, g / 2);
      assert Branch(h, leaves, limit, g)[1..] == Branch(h, leaves, limit, g / 2);
    }
  }

  /** The branch of every node of a tree restores that tree's root. */
  lemma BranchRestores(h: PairHash, leaves: seq<Bytes32>, limit: nat, g: nat)
    requires 1 <= g < 2 * limit
    ensures RestoreRoot(h, Node(h, leaves, limit, g), g, Branch(h, leaves, limit, g)) == Some(Node(h, leaves, limit, 1))
  {
    TopBit(g, Log2(g));
    BranchLength(h, leaves, limit, g);
    BranchClimbsToRoot(h, leaves, limit, g);
  }

  // ---------------------------------------------------------------- the prover

  ghost function HonestProof(h: PairHash, t: MerkleTree, idx: nat): MerkleProof
    requires idx < t.limit
  {
    var path := Branch(h, t.leaves, t.limit, idx + t.limit);
    if t.isList then MerkleProof(idx + 2 * t.limit, path + [UintToHash(t.length)])
    else MerkleProof(idx + t.limit, path)
  }

  /** Collects a branch while widening the window l .. r around the leaf; None is the out-of-bounds panic. */
  method MakeProof(h: PairHash, t: MerkleTree, idx: int) returns (p: Option<MerkleProof>)
    requires WellFormed(t)
    ensures p.Some? <==> 0 <= idx < |t.leaves|
    ensures p.Some? ==> p.value == HonestProof(h, t, idx)
  {
    if idx < 0 || idx >= |t.leaves| {
      return None;
    }
    var genIdx: nat := idx + t.limit;
    var path: seq<Bytes32> := [];
    var l: nat, r: nat := idx, idx + 1;
    var k: nat := 1;
    while genIdx > 1
      invariant 1 <= genIdx < 2 * t.limit
      invariant k == Width(t.limit, genIdx) && l == LeftEdge(t.limit, genIdx) && l <= idx && r == l + k
      invariant path + Branch(h, t.leaves, t.limit, genIdx) == Branch(h, t.leaves, t.limit, idx + t.limit)
      decreases genIdx
    {
      BranchStep(h, t.leaves, t.limit, genIdx, path);
      var sibling: Bytes32;
      sibling, l, r := SiblingRoot(h, t, genIdx, k, l, r);
      path := path + [sibling];
      genIdx := genIdx / 2;
      k := k * 2;
    }
    assert path + Branch(h, t.leaves, t.limit, 1) == path;
    if t.isList {
      return Some(MerkleProof(idx + t.limit * 2, path + [UintToHash(t.length)]));
    }
    return Some(MerkleProof(idx + t.limit, path));
  }

  /** One round of the prover's loop: the sibling subtree's root and the window of the parent. */
  method SiblingRoot(h: PairHash, t: MerkleTree, genIdx: nat, k: nat, l0: nat, r0: nat)
    returns (sibling: Bytes32, l: nat, r: nat)
    requires WellFormed(t) && 1 < genIdx < 2 * t.limit
    requires k == Width(t.limit, genIdx) && l0 == LeftEdge(t.limit, genIdx) < |t.leaves| && r0 == l0 + k
    ensures sibling == Node(h, t.leaves, t.limit, Sibling(genIdx))
    ensures l == LeftEdge(t.limit, genIdx / 2) <= l0 && r == l + 2 * k
    ensures 2 * k == Width(t.limit, genIdx / 2)
  {
    hide Merkle, Node, Width, LeftEdge, IsPow2;
    l, r := l0, r0;
    Siblings(t.limit, genIdx);
    if genIdx % 2 == 1 {
      assert Sibling(genIdx) == genIdx - 1;
      l := l - k;
      var e := r - k;
      if e >= |t.leaves| {
        e := |t.leaves|;
      }
      SubtreeAt(h, t, genIdx - 1, l, e);
      sibling := Merkle(h, t.leaves[l..e], k);
    } else {
      assert Sibling(genIdx) == genIdx + 1;
      r := r + k;
      var e := r;
      if e >= |t.leaves| {
        e := |t.leaves|;
      }
      if l + k <= e {
        SubtreeAt(h, t, genIdx + 1, l + k, e);
        sibling := Merkle(h, t.leaves[l + k..e], k);
      } else {
        SubtreeAt(h, t, genIdx + 1, e, e);
        sibling := Merkle(h, t.leaves[e..e], k);
      }
    }
  }

  lemma BranchStep(h: PairHash, leaves: seq<Bytes32>, limit: nat, g: nat, path: seq<Bytes32>)
    requires 1 < g < 2 * limit
    ensures (path + [Node(h, leaves, limit, Sibling(g))]) + Branch(h, leaves, limit, g / 2)
         == path + Branch(h, leaves, limit, g)
  {
  }

  /** What the prover emits for node i: the sparse root of the leaves below it, if there are any. */
  lemma SubtreeAt(h: PairHash, t: MerkleTree, i: nat, a: nat, b: nat)
    requires WellFormed(t) && 1 <= i < 2 * t.limit && a <= b <= |t.leaves|
    requires a == Min(LeftEdge(t.limit, i), |t.leaves|)
    requires b == Min(LeftEdge(t.limit, i) + Width(t.limit, i), |t.leaves|)
    ensures var k := Width(t.limit, i);
            IsPow2(k) && b - a <= k && Merkle(h, t.leaves[a..b], k) == Node(h, t.leaves, t.limit, i)
  {
    var lo, k := LeftEdge(t.limit, i), Width(t.limit, i);
    EdgeBounds(t.limit, i);
    SubtreeIsNode(h, t.leaves, t.limit, i, lo, k);
    assert t.leaves[a..b] == Slice(t.leaves, lo, k);
  }

  function Min(a: nat, b: nat): nat {
    if a <= b then a else b
  }

  // ---------------------------------------------------------------- round trip, binding, composition

  /** Every proof the prover makes restores the tree's root from the proved leaf, list or vector. */
  lemma ProofRoundTrip(h: PairHash, t: MerkleTree, idx: nat)
    requires WellFormed(t) && idx < |t.leaves|
    ensures var p := HonestProof(h, t, idx);
            RestoreRoot(h, t.leaves[idx], p.genIndex, p.path) == Some(Hash(h, t))
  {
    assert Node(h, t.leaves, t.limit, idx + t.limit) == t.leaves[idx];
    hide Node, Merkle, RestoreRoot, Branch, UintToHash;
    BranchRestores(h, t.leaves, t.limit, idx + t.limit);
    SparseIsFull(h, t.leaves, t.limit);
    if t.isList {
      MixedIn(h, t, idx, t.leaves[idx]);
    }
  }

  /** The length on top of a leaf's branch. */
  lemma MixedIn(h: PairHash, t: MerkleTree, idx: nat, leaf: Bytes32)
    requires WellFormed(t) && idx < t.limit
    requires RestoreRoot(h, leaf, idx + t.limit, Branch(h, t.leaves, t.limit, idx + t.limit))
             == Some(Node(h, t.leaves, t.limit, 1))
    ensures RestoreRoot(h, leaf, idx + 2 * t.limit,
                        Branch(h, t.leaves, t.limit, idx + t.limit) + [UintToHash(t.length)])
         == Some(h(Node(h, t.leaves, t.limit, 1), UintToHash(t.length)))
  {
    hide Node, RestoreRoot, Branch, UintToHash;
    var g, path := idx + t.limit, Branch(h, t.leaves, t.limit, idx + t.limit);
    Pow2OfLog2(t.limit);
    LeafDepth(t.limit, idx);
    BranchLength(h, t.leaves, t.limit, g);
    LengthMixIn(h, Node(h, t.leaves, t.limit, 1), UintToHash(t.length));
    assert Concat(2, |path|, idx) == idx + 2 * t.limit && Concat(1, |path|, idx) == g;
    Compose(h, leaf, idx, 2, path, [UintToHash(t.length)]);
  }

  lemma LengthMixIn(h: PairHash, root: Bytes32, len: Bytes32)
    ensures RestoreRoot(h, root, 2, [len]) == Some(h(root, len))
  {
    assert Shr(2, 1) == Shr(1, 0);
    assert [len][1..] == [];
    assert Climb(h, root, 2, [len]) == Climb(h, h(root, len), 1, []);
  }

  /** All leaves of a tree are at the depth of its limit. */
  lemma {:induction false} LeafDepth(limit: nat, idx: nat)
    requires IsPow2(limit) && idx < limit
    ensures Log2(idx + limit) == Log2(limit)
  {
    if limit > 1 {
      LeafDepth(limit / 2, idx / 2);
      assert (idx + limit) / 2 == idx / 2 + limit / 2;
    }
  }

  /** The pairs hashed while climbing. */
  ghost function Hashed(h: PairHash, x: Bytes32, g: nat, path: seq<Bytes32>): seq<(Bytes32, Bytes32)>
    decreases |path|
  {
    if path == [] then []
    else
      [if g % 2 == 1 then (path[0], x) else (x, path[0])] + Hashed(h, Join(h, x, g, path[0]), g / 2, path[1..])
  }

  /** No pair of one list collides with a different pair of the other. */
  ghost predicate NoCollision(h: PairHash, s: seq<(Bytes32, Bytes32)>, t: seq<(Bytes32, Bytes32)>) {
    forall p, q | p in s && q in t :: h(p.0, p.1) == h(q.0, q.1) ==> p == q
  }

  /** Two branches of one index with the same root prove the same leaf, unless they exhibit a collision. */
  lemma {:induction false} BranchBinds(h: PairHash, x: Bytes32, y: Bytes32, g: nat, p: seq<Bytes32>, q: seq<Bytes32>)
    requires RestoreRoot(h, x, g, p).Some? && RestoreRoot(h, x, g, p) == RestoreRoot(h, y, g, q)
    requires NoCollision(h, Hashed(h, x, g, p), Hashed(h, y, g, q))
    ensures x == y && p == q
  {
    TopBit(g, |p|);
    TopBit(g, |q|);
    ClimbBinds(h, x, y, g, p, q);
  }

  lemma {:induction false} ClimbBinds(h: PairHash, x: Bytes32, y: Bytes32, g: nat, p: seq<Bytes32>, q: seq<Bytes32>)
    requires |p| == |q| && Climb(h, x, g, p) == Climb(h, y, g, q)
    requires NoCollision(h, Hashed(h, x, g, p), Hashed(h, y, g, q))
    ensures x == y && p == q
    decreases |p|
  {
    if p != [] {
      var s, t := Hashed(h, x, g, p), Hashed(h, y, g, q);
      assert forall e :: e in s[1..] ==> e in s;
      assert forall e :: e in t[1..] ==> e in t;
      assert s[1..] == Hashed(h, Join(h, x, g, p[0]), g / 2, p[1..]);
      assert t[1..] == Hashed(h, Join(h, y, g, q[0]), g / 2, q[1..]);
      ClimbBinds(h, Join(h, x, g, p[0]), Join(h, y, g, q[0]), g / 2, p[1..], q[1..]);
      assert s[0] in s && t[0] in t;
    }
  }

  /** Climbing two paths in turn is climbing their concatenation. */
  lemma {:induction false} ClimbConcat(h: PairHash, x: Bytes32, g: nat, p: seq<Bytes32>, q: seq<Bytes32>)
    ensures Climb(h, x, g, p + q) == Climb(h, Climb(h, x, g, p), Shr(g, |p|), q)
    decreases |p|
  {
    if p == [] {
      assert p + q == q;
    } else {
      assert (p + q)[1..] == p[1..] + q;
      ClimbConcat(h, Join(h, x, g, p[0]), g / 2, p[1..], q);
    }
  }

  /** A climb of n rounds reads the n lowest bits of its index only. */
  lemma {:induction false} ClimbLowBits(h: PairHash, x: Bytes32, a: nat, b: nat, r: nat, p: seq<Bytes32>)
    requires r < Pow2(|p|)
    ensures Climb(h, x, Concat(a, |p|, r), p) == Climb(h, x, Concat(b, |p|, r), p)
    decreases |p|
  {
    if p != [] {
      var n := |p| - 1;
      HalveSum(a, n, r);
      HalveSum(b, n, r);
      ClimbLowBits(h, Join(h, x, r, p[0]), a, b, r / 2, p[1..]);
    }
  }

  /**
   * Concatenation of generalized indices: a branch from leaf to mid followed by one from mid to root is a branch
   * from leaf to root, under the upper index shifted left by the lower depth plus the lower offset.
   */
  lemma Compose(h: PairHash, leaf: Bytes32, r: nat, g: nat, p: seq<Bytes32>, q: seq<Bytes32>)
    requires r < Pow2(|p|)
    ensures var mid := RestoreRoot(h, leaf, Concat(1, |p|, r), p);
            mid.Some? && RestoreRoot(h, leaf, Concat(g, |p|, r), p + q) == RestoreRoot(h, mid.value, g, q)
  {
    var n := |p|;
    ShrConcat(1, n, r);
    ClimbLowBits(h, leaf, 1, g, r, p);
    ClimbConcat(h, leaf, Concat(g, n, r), p, q);
    ShrConcat(g, n, r);
    ShrAdd(Concat(g, n, r), n, |q|);
    assert |p + q| == n + |q|;
  }
}
