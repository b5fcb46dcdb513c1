/** The prover of Merkle multi-proofs: a sweep over all sibling pairs, and why the walk inverts it. */
module MultiProver {
  import opened Words
  import opened Merkleization
  import opened MultiProofs

  // ---------------------------------------------------------------- what the sweep computes

  /** A node is known when a selected leaf lies below it. */
  ghost predicate Known(selected: set<nat>, limit: nat, i: nat)
    requires i >= 1
    decreases limit - i
  {
    if i >= limit then i in selected else Known(selected, limit, 2 * i) || Known(selected, limit, 2 * i + 1)
  }

  /** The known nodes among lo + 1 .. hi, in descending order. */
  ghost function KnownDown(selected: set<nat>, limit: nat, lo: nat, hi: nat): seq<nat>
    decreases hi
  {
    if hi <= lo then []
    else if Known(selected, limit, hi) then [hi] + KnownDown(selected, limit, lo, hi - 1)
    else KnownDown(selected, limit, lo, hi - 1)
  }

  /** The values of tree nodes; indices outside the tree have none, so 0 stands in. */
  ghost function NodesAt(h: PairHash, t: MerkleTree, gs: seq<nat>): (xs: seq<Bytes32>)
    ensures |xs| == |gs|
  {
    seq(|gs|, k requires 0 <= k < |gs| =>
      if 1 <= gs[k] < 2 * t.limit then Node(h, t.leaves, t.limit, gs[k]) else 0)
  }

  /** What the sweep emits for the sibling pair 2m, 2m + 1: the sibling that the verifier lacks. */
  ghost function PairDecommitment(h: PairHash, t: MerkleTree, selected: set<nat>, m: nat): seq<Bytes32>
    requires 1 <= m < t.limit
  {
    var left, right := Known(selected, t.limit, 2 * m), Known(selected, t.limit, 2 * m + 1);
    if left && !right then [Node(h, t.leaves, t.limit, 2 * m + 1)]
    else if !left && right then [Node(h, t.leaves, t.limit, 2 * m)]
    else []
  }

  /** What the sweep emits for the pairs of nodes m, m - 1, .. 1. */
  ghost function SweepDown(h: PairHash, t: MerkleTree, selected: set<nat>, m: nat): seq<Bytes32>
    requires m < t.limit
  {
    if m == 0 then [] else PairDecommitment(h, t, selected, m) + SweepDown(h, t, selected, m - 1)
  }

  /** Heap positions of leaves, last leaf first. */
  function GenIndices(indices: seq<int>, limit: nat): seq<nat>
    requires forall k | 0 <= k < |indices| :: indices[k] >= 0
  {
    if indices == [] then []
    else
      var last := |indices| - 1;
      [indices[last] + limit] + GenIndices(indices[..last], limit)
  }

  lemma {:induction false} GenIndicesAt(indices: seq<int>, limit: nat)
    requires forall k | 0 <= k < |indices| :: indices[k] >= 0
    ensures LastFirst(indices, limit, GenIndices(indices, limit))
  {
    if indices != [] {
      var last := |indices| - 1;
      GenIndicesAt(indices[..last], limit);
      hide GenIndices;
      LastFirstCons(indices, limit, GenIndices(indices[..last], limit));
    }
  }

  /** gs are the heap positions of the leaves, in reverse order. */
  ghost predicate LastFirst(indices: seq<int>, limit: nat, gs: seq<nat>) {
    |gs| == |indices|
    && forall j, k | 0 <= j < |indices| && 0 <= k < |gs| && j + k == |gs| - 1 :: gs[k] == indices[j] + limit
  }

  lemma LastFirstCons(indices: seq<int>, limit: nat, gs: seq<nat>)
    requires indices != [] && indices[|indices| - 1] >= 0 && LastFirst(indices[..|indices| - 1], limit, gs)
    ensures LastFirst(indices, limit, [indices[|indices| - 1] + limit] + gs)
  {
    var last := |indices| - 1;
    var gs' := [indices[last] + limit] + gs;
    forall j, k | 0 <= j < |indices| && 0 <= k < |gs'| && j + k == |gs'| - 1 ensures gs'[k] == indices[j] + limit {
      assert k > 0 ==> gs'[k] == gs[k - 1] && indices[..last][j] == indices[j];
    }
  }

  ghost predicate InRange(t: MerkleTree, indices: seq<int>) {
    forall k | 0 <= k < |indices| :: 0 <= indices[k] < |t.leaves|
  }

  ghost function Selected(indices: seq<int>, limit: nat): set<nat>
    requires forall k | 0 <= k < |indices| :: indices[k] >= 0
  {
    set k | 0 <= k < |indices| :: indices[k] + limit
  }

  /** The proof for a list of leaf positions: highest index first, like everything the walk reads. */
  ghost function HonestMultiProof(h: PairHash, t: MerkleTree, indices: seq<int>): MerkleMultiProof
    requires WellFormed(t) && InRange(t, indices)
  {
    if indices == [] then MerkleMultiProof([], [], [Hash(h, t)])
    else
      var gs := GenIndices(indices, t.limit);
      MerkleMultiProof(gs, NodesAt(h, t, gs),
                       SweepDown(h, t, Selected(indices, t.limit), t.limit - 1))
  }

  // ---------------------------------------------------------------- the walk inverts the sweep

  /** Moving the window down by one pair replaces that pair by its parent at the end of the queue. */
  lemma {:induction false} WindowDown(selected: set<nat>, limit: nat, m: nat, hi: nat)
    requires 1 <= m <= hi
    ensures var window := KnownDown(selected, limit, m, hi);
            KnownDown(selected, limit, m - 1, hi) == if Known(selected, limit, m) then window + [m] else window
    decreases hi
  {
    hide Known;
    if hi > m {
      WindowDown(selected, limit, m, hi - 1);
    } else {
      assert KnownDown(selected, limit, m, m) == KnownDown(selected, limit, m - 1, m - 1) == [];
    }
  }

  /** As long as the root is known, some node of every window is. */
  lemma {:induction false} WindowNotEmpty(selected: set<nat>, limit: nat, m: nat)
    requires m < limit && Known(selected, limit, 1)
    ensures KnownDown(selected, limit, m, 2 * m + 1) != []
  {
    if m > 0 {
      WindowNotEmpty(selected, limit, m - 1);
      var j := SomeKnown(selected, limit, m - 1, 2 * m - 1);
      if j > m {
        KnownIsListed(selected, limit, m, 2 * m + 1, j);
      } else if Known(selected, limit, 2 * m) {
        KnownIsListed(selected, limit, m, 2 * m + 1, 2 * m);
      } else {
        KnownIsListed(selected, limit, m, 2 * m + 1, 2 * m + 1);
      }
    }
  }

  lemma {:induction false} SomeKnown(selected: set<nat>, limit: nat, lo: nat, hi: nat) returns (j: nat)
    requires KnownDown(selected, limit, lo, hi) != []
    ensures lo < j <= hi && Known(selected, limit, j)
    decreases hi
  {
    if Known(selected, limit, hi) {
      j := hi;
    } else {
      j := SomeKnown(selected, limit, lo, hi - 1);
    }
  }

  lemma {:induction false} KnownIsListed(selected: set<nat>, limit: nat, lo: nat, hi: nat, j: nat)
    requires lo < j <= hi && Known(selected, limit, j)
    ensures KnownDown(selected, limit, lo, hi) != []
    decreases hi
  {
    if hi > j {
      KnownIsListed(selected, limit, lo, hi - 1, j);
    }
  }

  /** The known nodes among the sibling pair 2m, 2m + 1. */
  ghost function KnownPair(selected: set<nat>, limit: nat, m: nat): seq<nat>
    requires m >= 1
  {
    var left, right := Known(selected, limit, 2 * m), Known(selected, limit, 2 * m + 1);
    if left && right then [2 * m + 1, 2 * m] else if right then [2 * m + 1] else if left then [2 * m] else []
  }

  lemma PairOnTop(selected: set<nat>, limit: nat, m: nat)
    requires m >= 1
    ensures KnownDown(selected, limit, m, 2 * m + 1)
            == KnownPair(selected, limit, m) + KnownDown(selected, limit, m, 2 * m - 1)
  {
    hide Known;
    var rest := KnownDown(selected, limit, m, 2 * m - 1);
    var left := KnownDown(selected, limit, m, 2 * m);
    assert left == if Known(selected, limit, 2 * m) then [2 * m] + rest else rest;
  }

  lemma {:induction false} KnownDownBelow(selected: set<nat>, limit: nat, lo: nat, hi: nat)
    ensures forall k | 0 <= k < |KnownDown(selected, limit, lo, hi)| :: lo < KnownDown(selected, limit, lo, hi)[k] <= hi
    decreases hi
  {
    if hi > lo {
      KnownDownBelow(selected, limit, lo, hi - 1);
    }
  }

  /**
   * The walk is a stuttering refinement of the sweep: while the sweep is at pair m, the queue holds exactly the
   * known nodes of m + 1 .. 2m + 1, and the decommitments still to come are those the sweep has still to emit.
   */
  lemma {:induction false} WalkFollowsSweep(h: PairHash, t: MerkleTree, selected: set<nat>, m: nat, gs: seq<nat>,
                                            extra: seq<Bytes32>)
    requires m < t.limit && Known(selected, t.limit, 1) && gs == KnownDown(selected, t.limit, m, 2 * m + 1)
    ensures gs != []
    ensures Walk(h, gs, NodesAt(h, t, gs), SweepDown(h, t, selected, m) + extra)
         == Restored(Node(h, t.leaves, t.limit, 1), extra)
  {
    hide Walk;
    WindowNotEmpty(selected, t.limit, m);
    if m == 0 {
      WalkEnds(h, t, selected, extra);
    } else {
      var rest := KnownDown(selected, t.limit, m, 2 * m - 1);
      var next := KnownDown(selected, t.limit, m - 1, 2 * m - 1);
      WalkFollowsSweep(h, t, selected, m - 1, next, extra);
      PairOnTop(selected, t.limit, m);
      WindowDown(selected, t.limit, m, 2 * m - 1);
      if Known(selected, t.limit, m) {
        SweepStep(h, t, selected, m, rest, extra);
      } else {
        SweepSkips(h, t, selected, m, rest);
      }
    }
  }

  lemma WalkEnds(h: PairHash, t: MerkleTree, selected: set<nat>, extra: seq<Bytes32>)
    requires t.limit > 0 && Known(selected, t.limit, 1)
    ensures var gs := KnownDown(selected, t.limit, 0, 1);
            |gs| > 0 && Walk(h, gs, NodesAt(h, t, gs), SweepDown(h, t, selected, 0) + extra)
                        == Restored(Node(h, t.leaves, t.limit, 1), extra)
  {
    assert KnownDown(selected, t.limit, 0, 0) == [];
  }

  /** A pair without a known node changes neither the queue nor the decommitments. */
  lemma SweepSkips(h: PairHash, t: MerkleTree, selected: set<nat>, m: nat, rest: seq<nat>)
    requires 1 <= m < t.limit && !Known(selected, t.limit, m)
    ensures KnownPair(selected, t.limit, m) + rest == rest
    ensures SweepDown(h, t, selected, m) == SweepDown(h, t, selected, m - 1)
  {
    hide Node;
  }

  lemma AppendAssoc<T>(a: seq<T>, b: seq<T>, c: seq<T>)
    ensures (a + b) + c == a + (b + c)
  {
  }

  lemma DropPrefix<T>(a: seq<T>, b: seq<T>)
    ensures (a + b)[|a|..] == b
  {
  }

  lemma NodesAtAppend(h: PairHash, t: MerkleTree, a: seq<nat>, b: seq<nat>)
    ensures NodesAt(h, t, a + b) == NodesAt(h, t, a) + NodesAt(h, t, b)
  {
  }

  /** One round of the sweep over a pair with a known node is one round of the walk. */
  lemma SweepStep(h: PairHash, t: MerkleTree, selected: set<nat>, m: nat, rest: seq<nat>, extra: seq<Bytes32>)
    requires 1 <= m < t.limit && Known(selected, t.limit, m) && rest == KnownDown(selected, t.limit, m, 2 * m - 1)
    ensures var gs := KnownPair(selected, t.limit, m) + rest;
            Walk(h, gs, NodesAt(h, t, gs), SweepDown(h, t, selected, m) + extra)
            == Walk(h, rest + [m], NodesAt(h, t, rest + [m]), SweepDown(h, t, selected, m - 1) + extra)
  {
    hide Walk, Pick, KnownDown, Known;
    var pair, emitted := KnownPair(selected, t.limit, m), PairDecommitment(h, t, selected, m);
    var gs := pair + rest;
    var x, y := Node(h, t.leaves, t.limit, 2 * m), Node(h, t.leaves, t.limit, 2 * m + 1);
    var below := SweepDown(h, t, selected, m - 1);
    var s := Siblings(x, y, |pair|, |emitted|);
    AppendAssoc(emitted, below, extra);
    PickPair(h, t, selected, m, rest, emitted + (below + extra));
    WalkStep(h, gs, NodesAt(h, t, gs), emitted + (below + extra), s);
    NodesAtAppend(h, t, pair, rest);
    NodesAtAppend(h, t, rest, [m]);
    DropPrefix(pair, rest);
    DropPrefix(NodesAt(h, t, pair), NodesAt(h, t, rest));
    DropPrefix(emitted, below + extra);
    assert NodesAt(h, t, [m]) == [h(x, y)];
  }

  lemma PickPair(h: PairHash, t: MerkleTree, selected: set<nat>, m: nat, rest: seq<nat>, dec: seq<Bytes32>)
    requires 1 <= m < t.limit && Known(selected, t.limit, m) && rest == KnownDown(selected, t.limit, m, 2 * m - 1)
    requires PairDecommitment(h, t, selected, m) <= dec
    ensures var pair, emitted := KnownPair(selected, t.limit, m), PairDecommitment(h, t, selected, m);
            var gs := pair + rest;
            |gs| > 0 && gs[0] / 2 == m && gs[0] != 1
            && Pick(gs, NodesAt(h, t, gs), dec)
               == Some(Siblings(Node(h, t.leaves, t.limit, 2 * m), Node(h, t.leaves, t.limit, 2 * m + 1), |pair|,
                                |emitted|))
  {
    hide Node, KnownDown, NodesAt;
    var pair, emitted := KnownPair(selected, t.limit, m), PairDecommitment(h, t, selected, m);
    var gs := pair + rest;
    assert Known(selected, t.limit, 2 * m) || Known(selected, t.limit, 2 * m + 1);
    hide Known;
    KnownDownBelow(selected, t.limit, m, 2 * m - 1);
    assert |pair| == 1 && |gs| > 1 ==> gs[1] == rest[0] < 2 * m;
    NodeAt(h, t, gs, 0);
    if |pair| == 2 {
      NodeAt(h, t, gs, 1);
    } else {
      assert emitted[0] == dec[0];
    }
  }

  lemma NodeAt(h: PairHash, t: MerkleTree, gs: seq<nat>, k: nat)
    requires k < |gs| && 1 <= gs[k] < 2 * t.limit
    ensures NodesAt(h, t, gs)[k] == Node(h, t.leaves, t.limit, gs[k])
  {
  }

  // ---------------------------------------------------------------- the round trip

  ghost predicate Ascending(indices: seq<int>) {
    forall j, k | 0 <= j < k < |indices| :: indices[j] < indices[k]
  }

  /** With strictly ascending positions the proof's index list is the sweep's first window. */
  lemma {:induction false} GenIndicesAreKnown(limit: nat, selected: set<nat>, indices: seq<int>, hi: nat)
    requires Ascending(indices) && 1 <= limit <= hi + 1
    requires forall k | 0 <= k < |indices| :: 0 <= indices[k] <= hi - limit
    requires forall i | limit <= i <= hi :: i in selected <==> i - limit in indices
    ensures GenIndices(indices, limit) == KnownDown(selected, limit, limit - 1, hi)
    decreases hi
  {
    hide Ascending, GenIndices, KnownDown;
    KnownLeaf(selected, limit, hi);
    if hi == limit - 1 {
      NoLeaf(indices, limit);
    } else if hi in selected {
      var fewer := DropLast(limit, selected, indices, hi);
      GenIndicesAreKnown(limit, selected, fewer, hi - 1);
      GenIndicesSnoc(fewer, hi - limit, limit);
    } else {
      assert hi - limit !in indices;
      GenIndicesAreKnown(limit, selected, indices, hi - 1);
    }
  }

  lemma NoLeaf(indices: seq<int>, limit: nat)
    requires forall k | 0 <= k < |indices| :: 0 <= indices[k] <= -1
    ensures GenIndices(indices, limit) == []
  {
  }

  /** Among the leaves the known ones are the selected ones. */
  lemma KnownLeaf(selected: set<nat>, limit: nat, hi: nat)
    requires 1 <= limit <= hi + 1
    ensures hi == limit - 1 ==> KnownDown(selected, limit, limit - 1, hi) == []
    ensures hi >= limit ==>
              var rest := KnownDown(selected, limit, limit - 1, hi - 1);
              KnownDown(selected, limit, limit - 1, hi) == if hi in selected then [hi] + rest else rest
  {
  }

  lemma GenIndicesSnoc(fewer: seq<int>, last: int, limit: nat)
    requires (forall k | 0 <= k < |fewer| :: fewer[k] >= 0) && last >= 0
    ensures GenIndices(fewer + [last], limit) == [last + limit] + GenIndices(fewer, limit)
  {
    assert (fewer + [last])[..|fewer|] == fewer;
  }

  lemma DropLast(limit: nat, selected: set<nat>, indices: seq<int>, hi: nat) returns (fewer: seq<int>)
    requires Ascending(indices) && 1 <= limit <= hi && hi in selected
    requires forall k | 0 <= k < |indices| :: indices[k] >= 0 && indices[k] + limit <= hi
    requires forall i | limit <= i <= hi :: i in selected <==> i - limit in indices
    ensures indices == fewer + [hi - limit] && Ascending(fewer) && fewer == indices[..|indices| - 1]
    ensures forall k | 0 <= k < |fewer| :: fewer[k] >= 0 && fewer[k] + limit <= hi - 1
    ensures forall i | limit <= i <= hi - 1 :: i in selected <==> i - limit in fewer
  {
    var last := |indices| - 1;
    var k :| 0 <= k < |indices| && indices[k] == hi - limit;
    assert indices[k] <= indices[last];
    fewer := indices[..last];
    assert indices == fewer + [indices[last]];
  }

  /** Above a selected leaf every node up to the root is known. */
  lemma {:induction false} KnownUp(selected: set<nat>, limit: nat, i: nat)
    requires IsPow2(limit) && 1 <= i < 2 * limit && Known(selected, limit, i)
    ensures Known(selected, limit, 1)
    decreases i
  {
    if i > 1 {
      assert Known(selected, limit, i / 2);
      KnownUp(selected, limit, i / 2);
    }
  }

  /** A proof for strictly ascending positions restores the vector root and needs every decommitment it carries. */
  lemma MultiProofRestores(h: PairHash, t: MerkleTree, indices: seq<int>)
    requires WellFormed(t) && InRange(t, indices) && Ascending(indices) && indices != []
    ensures var p := HonestMultiProof(h, t, indices);
            Reconstruct(h, p.genIndices, p.leavesHashes, p.decommitments)
            == Restored(Merkle(h, t.leaves, t.limit), [])
  {
    hide Node, Merkle, Known, KnownDown, SweepDown, NodesAt, Walk;
    var limit := t.limit;
    var selected := Selected(indices, limit);
    SelectedIndices(indices, limit);
    GenIndicesAreKnown(limit, selected, indices, 2 * limit - 1);
    assert indices[0] in indices;
    GenIndicesAt(indices, limit);
    KnownUp(selected, limit, indices[0] + limit);
    WalkFollowsSweep(h, t, selected, limit - 1, GenIndices(indices, limit), []);
    NothingLeft(SweepDown(h, t, selected, limit - 1));
    SparseIsFull(h, t.leaves, limit);
  }

  lemma NothingLeft<T>(s: seq<T>)
    ensures s + [] == s
  {
  }

  lemma SelectedIndices(indices: seq<int>, limit: nat)
    requires forall k | 0 <= k < |indices| :: indices[k] >= 0
    ensures forall i: nat | limit <= i :: i in Selected(indices, limit) <==> i - limit in indices
  {
    forall i: nat | limit <= i && i - limit in indices ensures i in Selected(indices, limit) {
      var k :| 0 <= k < |indices| && indices[k] == i - limit;
    }
  }

  /**
   * The round trip holds for vectors, and for lists when no position is selected. With selected positions a list
   * proof leaves the length out, so it restores the hash of the tree only if mixing the length in changes nothing.
   */
  lemma MultiRoundTrip(h: PairHash, t: MerkleTree, indices: seq<int>)
    requires WellFormed(t) && InRange(t, indices) && Ascending(indices)
    ensures var p := HonestMultiProof(h, t, indices);
            var out := Reconstruct(h, p.genIndices, p.leavesHashes, p.decommitments);
            && out.Restored? && out.unused == []
            && (out.root == Hash(h, t) <==>
                indices == [] || !t.isList || h(out.root, UintToHash(t.length)) == out.root)
  {
    if indices != [] {
      MultiProofRestores(h, t, indices);
    }
  }

  /** A hash of pairs that never returns its first argument. */
  function Flip(a: Bytes32, b: Bytes32): Bytes32 {
    if a == 0 then 1 else 0
  }

  /** So the proof of the first of two leaves of a list does not restore the list's hash. */
  lemma ListProofMissesLength()
    ensures var t := MerkleTree(true, 2, 2, [5, 6]);
            && WellFormed(t) && InRange(t, [0])
            && var p := HonestMultiProof(Flip, t, [0]);
               Root(Reconstruct(Flip, p.genIndices, p.leavesHashes, p.decommitments)) !in {None, Some(Hash(Flip, t))}
  {
    hide HonestMultiProof, Reconstruct, Merkle;
    var t := MerkleTree(true, 2, 2, [5, 6]);
    assert IsPow2(2);
    MultiRoundTrip(Flip, t, [0]);
  }

  // ---------------------------------------------------------------- the prover

  ghost predicate KnowsDownTo(known: map<nat, bool>, selected: set<nat>, limit: nat, m: nat) {
    forall j | m < j < 2 * limit :: (j in known && known[j]) <==> Known(selected, limit, j)
  }

  ghost predicate HashesDownTo(h: PairHash, t: MerkleTree, hashes: map<nat, Bytes32>, m: nat) {
    forall j | m < j < 2 * t.limit :: j in hashes && hashes[j] == Node(h, t.leaves, t.limit, j)
  }

  /** None is the out-of-bounds panic. */
  method MakeMultiProof(h: PairHash, t: MerkleTree, indices: seq<int>) returns (p: Option<MerkleMultiProof>)
    requires WellFormed(t)
    ensures p.Some? <==> InRange(t, indices)
    ensures p.Some? ==> p.value == HonestMultiProof(h, t, indices)
  {
    if |indices| == 0 {
      return Some(MerkleMultiProof([], [], [Hash(h, t)]));
    }
    var hashes := LeafHashes(h, t);
    var gs, xs, known := SelectLeaves(h, t, indices);
    if known == None {
      return None;
    }
    var decommitments := Sweep(h, t, hashes, known.value, Selected(indices, t.limit));
    p := Some(MerkleMultiProof(gs, xs, decommitments));
  }

  method LeafHashes(h: PairHash, t: MerkleTree) returns (hashes: map<nat, Bytes32>)
    requires WellFormed(t)
    ensures HashesDownTo(h, t, hashes, t.limit - 1)
  {
    hashes := map[];
    for i := 0 to t.limit
      invariant forall j | t.limit <= j < t.limit + i :: j in hashes && hashes[j] == Node(h, t.leaves, t.limit, j)
    {
      if i < |t.leaves| {
        hashes := hashes[i + t.limit := t.leaves[i]];
      } else {
        var zero := ZeroHash(h, 0);
        hashes := hashes[i + t.limit := zero];
      }
    }
  }

  /** Collects indices and leaf hashes from the last position to the first. */
  method SelectLeaves(h: PairHash, t: MerkleTree, indices: seq<int>)
    returns (gs: seq<nat>, xs: seq<Bytes32>, known: Option<map<nat, bool>>)
    requires WellFormed(t) && |indices| > 0
    ensures known.Some? <==> InRange(t, indices)
    ensures known.Some? ==> gs == GenIndices(indices, t.limit) && xs == NodesAt(h, t, gs)
    ensures known.Some? ==> KnowsDownTo(known.value, Selected(indices, t.limit), t.limit, t.limit - 1)
  {
    gs, xs := [], [];
    var marks: map<nat, bool> := map[];
    var i: nat := |indices|;
    while i > 0
      invariant i <= |indices|
      invariant Chosen(h, t, indices, i, gs, xs, marks) == true
      decreases i
    {
      i := i - 1;
      if indices[i] < 0 || indices[i] >= |t.leaves| {
        return gs, xs, None;
      }
      ChooseLeaf(h, t, indices, i, gs, xs, marks);
      gs := gs + [indices[i] + t.limit];
      xs := xs + [t.leaves[indices[i]]];
      marks := marks[indices[i] + t.limit := true];
    }
    known := Some(marks);
    AllChosen(h, t, indices, gs, xs, marks);
  }

  /** The positions from i on are chosen: their heap indices and leaves are listed last first, and they are marked. */
  ghost predicate Chosen(h: PairHash, t: MerkleTree, indices: seq<int>, i: nat, gs: seq<nat>, xs: seq<Bytes32>,
                         marks: map<nat, bool>) {
    && i <= |indices| && |gs| == |indices| - i && xs == NodesAt(h, t, gs)
    && (forall k | i <= k < |indices| :: 0 <= indices[k] < |t.leaves|)
    && (forall k | 0 <= k < |gs| :: gs[k] == indices[|indices| - 1 - k] + t.limit)
    && (forall j: nat :: j in marks <==> exists k | i <= k < |indices| :: j == indices[k] + t.limit)
    && (forall j | j in marks :: marks[j])
  }

  lemma ChooseLeaf(h: PairHash, t: MerkleTree, indices: seq<int>, i: nat, gs: seq<nat>, xs: seq<Bytes32>,
                   marks: map<nat, bool>)
    requires |t.leaves| <= t.limit && i < |indices| && 0 <= indices[i] < |t.leaves|
    requires Chosen(h, t, indices, i + 1, gs, xs, marks)
    ensures Chosen(h, t, indices, i, gs + [indices[i] + t.limit], xs + [t.leaves[indices[i]]],
                   marks[indices[i] + t.limit := true])
  {
    NodesAtAppend(h, t, gs, [indices[i] + t.limit]);
  }

  lemma AllChosen(h: PairHash, t: MerkleTree, indices: seq<int>, gs: seq<nat>, xs: seq<Bytes32>, marks: map<nat, bool>)
    requires WellFormed(t) && Chosen(h, t, indices, 0, gs, xs, marks)
    ensures InRange(t, indices) && gs == GenIndices(indices, t.limit) && xs == NodesAt(h, t, gs)
    ensures KnowsDownTo(marks, Selected(indices, t.limit), t.limit, t.limit - 1)
  {
    GenIndicesAt(indices, t.limit);
    assert gs == GenIndices(indices, t.limit);
  }

  method Sweep(h: PairHash, t: MerkleTree, hashes0: map<nat, Bytes32>, known0: map<nat, bool>, ghost selected: set<nat>)
    returns (decommitments: seq<Bytes32>)
    requires WellFormed(t) && HashesDownTo(h, t, hashes0, t.limit - 1)
    requires KnowsDownTo(known0, selected, t.limit, t.limit - 1)
    ensures decommitments == SweepDown(h, t, selected, t.limit - 1)
  {
    hide SweepDown, HashesDownTo, KnowsDownTo;
    decommitments := [];
    var hashes: map<nat, Bytes32>, known: map<nat, bool> := hashes0, known0;
    var i: nat := t.limit * 2 - 1;
    assert i / 2 == t.limit - 1 && i % 2 == 1;
    while i > 1
      invariant SweptTo(h, t, selected, hashes, known, decommitments, i) == true
      decreases i
    {
      hashes, known, decommitments := VisitPair(h, t, hashes, known, selected, i, decommitments);
      i := i - 2;
    }
    AllSwept(h, t, selected, hashes, known, decommitments, i);
  }

  /** The pairs above node i are done; what was emitted, and what is still to be, make up the whole. */
  ghost predicate SweptTo(h: PairHash, t: MerkleTree, selected: set<nat>, hashes: map<nat, Bytes32>,
                          known: map<nat, bool>, emitted: seq<Bytes32>, i: nat) {
    && i % 2 == 1 && i < 2 * t.limit
    && HashesDownTo(h, t, hashes, i / 2) && KnowsDownTo(known, selected, t.limit, i / 2)
    && emitted + SweepDown(h, t, selected, i / 2) == SweepDown(h, t, selected, t.limit - 1)
  }

  lemma AllSwept(h: PairHash, t: MerkleTree, selected: set<nat>, hashes: map<nat, Bytes32>, known: map<nat, bool>,
                 emitted: seq<Bytes32>, i: nat)
    requires i <= 1 && SweptTo(h, t, selected, hashes, known, emitted, i)
    ensures emitted == SweepDown(h, t, selected, t.limit - 1)
  {
    NothingLeft(emitted);
  }

  /** One round of the sweep: the sibling pair i - 1, i. */
  method VisitPair(h: PairHash, t: MerkleTree, hashes0: map<nat, Bytes32>, known0: map<nat, bool>,
                   ghost selected: set<nat>, i: nat, emitted: seq<Bytes32>)
    returns (hashes: map<nat, Bytes32>, known: map<nat, bool>, decommitments: seq<Bytes32>)
    requires 1 < i && SweptTo(h, t, selected, hashes0, known0, emitted, i)
    ensures SweptTo(h, t, selected, hashes, known, decommitments, i - 2)
  {
    hide HashesDownTo, KnowsDownTo, SweepDown, Known;
    SweepPair(h, t, hashes0, known0, selected, i / 2, emitted);
    hashes, known, decommitments := hashes0, known0, emitted;
    var left, right := i - 1 in known && known[i - 1], i in known && known[i];
    if left && !right {
      decommitments := decommitments + [hashes[i]];
    }
    if !left && right {
      decommitments := decommitments + [hashes[i - 1]];
    }
    known := known[i / 2 := left || right];
    hashes := hashes[i / 2 := h(hashes[i - 1], hashes[i])];
  }

  lemma SweepPair(h: PairHash, t: MerkleTree, hashes: map<nat, Bytes32>, known: map<nat, bool>, selected: set<nat>,
                  m: nat, emitted: seq<Bytes32>)
    requires 1 <= m < t.limit && HashesDownTo(h, t, hashes, m) && KnowsDownTo(known, selected, t.limit, m)
    ensures 2 * m in hashes && 2 * m + 1 in hashes
    ensures var left, right := 2 * m in known && known[2 * m], 2 * m + 1 in known && known[2 * m + 1];
            var x, y := hashes[2 * m], hashes[2 * m + 1];
            && HashesDownTo(h, t, hashes[m := h(x, y)], m - 1)
            && KnowsDownTo(known[m := left || right], selected, t.limit, m - 1)
            && (if left && !right then emitted + [y] else if !left && right then emitted + [x] else emitted)
               + SweepDown(h, t, selected, m - 1)
               == emitted + SweepDown(h, t, selected, m)
  {
    AppendAssoc(emitted, PairDecommitment(h, t, selected, m), SweepDown(h, t, selected, m - 1));
    NothingLeft(emitted);
  }
}
