/** Merkle multi-proofs: the growing queue of the prover and the ring buffer of the verifier. */
module MultiProofs {
  import opened Words
  import opened Merkleization

  datatype MerkleMultiProof = MerkleMultiProof(genIndices: seq<nat>, leavesHashes: seq<Bytes32>,
                                               decommitments: seq<Bytes32>)

  // ---------------------------------------------------------------- the level-order walk

  /** A finished walk: the root and the decommitments it did not need. A walk that runs out of them fails. */
  datatype Outcome = Failed | Restored(root: Bytes32, unused: seq<Bytes32>)

  /** Two siblings: left and right value, the number of queued nodes and of decommitments among them. */
  datatype Siblings = Siblings(left: Bytes32, right: Bytes32, popped: nat, used: nat)

  /** The first queued node and its sibling, which comes from the queue or else from the decommitments. */
  function Pick(gs: seq<nat>, xs: seq<Bytes32>, dec: seq<Bytes32>): (r: Option<Siblings>)
    requires |gs| == |xs| > 0
    ensures r.Some? ==> 1 <= r.value.popped <= |gs| && r.value.used <= |dec| && r.value.popped + r.value.used == 2
  {
    if gs[0] % 2 == 1 && |gs| > 1 && gs[1] == gs[0] - 1 then Some(Siblings(xs[1], xs[0], 2, 0))
    else if dec == [] then None
    else if gs[0] % 2 == 0 then Some(Siblings(xs[0], dec[0], 1, 1))
    else Some(Siblings(dec[0], xs[0], 1, 1))
  }

  /** The walk over a queue of nodes: pop one or two siblings, push their parent. */
  function Walk(h: PairHash, gs: seq<nat>, xs: seq<Bytes32>, dec: seq<Bytes32>): Outcome
    requires |gs| == |xs| > 0
    decreases |gs| + |dec|
  {
    if gs[0] == 1 then Restored(xs[0], dec)
    else
      match Pick(gs, xs, dec)
      case None => Failed
      case Some(s) => Walk(h, gs[s.popped..] + [gs[0] / 2], xs[s.popped..] + [h(s.left, s.right)], dec[s.used..])
  }

  function Root(out: Outcome): Option<Bytes32> {
    if out.Restored? then Some(out.root) else None
  }

  /** With no indices the first decommitment is the root. */
  function Reconstruct(h: PairHash, gs: seq<nat>, xs: seq<Bytes32>, dec: seq<Bytes32>): Outcome
    requires |gs| == |xs|
  {
    if gs == [] then (if dec == [] then Failed else Restored(dec[0], dec[1..])) else Walk(h, gs, xs, dec)
  }

  // ---------------------------------------------------------------- the ring buffer refines the queue

  /** Slot of the k-th queued entry of a ring of length n whose first entry is at head. */
  function Slot(head: nat, k: nat, n: nat): nat {
    if head + k < n then head + k else head + k - n
  }

  lemma NextSlot(x: nat, n: nat)
    requires x < n
    ensures (x + 1) % n == Slot(x, 1, n)
  {
    if x + 1 == n {
      assert n % n == 0;
    }
  }

  /** The ring's entries from head on are the queue's. */
  ghost predicate Holds<T>(ring: seq<T>, head: nat, queue: seq<T>) {
    head < |ring| && |queue| <= |ring|
    && forall k | 0 <= k < |queue| :: ring[Slot(head, k, |ring|)] == queue[k]
  }

  lemma PopHolds<T>(ring: seq<T>, head: nat, queue: seq<T>)
    requires Holds(ring, head, queue) && |queue| > 0
    ensures ring[head] == queue[0]
    ensures var next := Slot(head, 1, |ring|);
            (head + 1) % |ring| == next && Holds(ring, next, queue[1..])
            && Slot(head, |queue|, |ring|) == Slot(next, |queue| - 1, |ring|)
            && (next == Slot(head, |queue|, |ring|) <==> |queue| == 1)
  {
    var next := Slot(head, 1, |ring|);
    NextSlot(head, |ring|);
    assert ring[Slot(head, 0, |ring|)] == queue[0];
    forall k | 0 <= k < |queue| - 1 ensures ring[Slot(next, k, |ring|)] == queue[1..][k] {
      assert Slot(next, k, |ring|) == Slot(head, k + 1, |ring|);
    }
  }

  /** The slot at the tail is free: overwriting it keeps every queued entry. */
  lemma PushHolds<T>(ring: seq<T>, head: nat, queue: seq<T>, x: T)
    requires Holds(ring, head, queue) && |queue| < |ring|
    ensures var tail := Slot(head, |queue|, |ring|);
            tail < |ring| && Holds(ring[tail := x], head, queue + [x])
            && (tail + 1) % |ring| == Slot(head, |queue| + 1, |ring|)
  {
    var tail := Slot(head, |queue|, |ring|);
    NextSlot(tail, |ring|);
    var next := ring[tail := x];
    forall k | 0 <= k < |queue| + 1 ensures next[Slot(head, k, |ring|)] == (queue + [x])[k] {
      assert k < |queue| ==> Slot(head, k, |ring|) != tail;
    }
  }

  /** The two rings hold the queue from head on, and the first free slot is tail. */
  ghost predicate Queued(indices: array<nat>, hashes: array<Bytes32>, head: nat, tail: nat, gs: seq<nat>,
                         xs: seq<Bytes32>)
    reads indices, hashes
  {
    indices as object != hashes as object && indices.Length == hashes.Length
    && |gs| == |xs| && tail == Slot(head, |gs|, indices.Length)
    && Holds(indices[..], head, gs) && Holds(hashes[..], head, xs)
  }

  /** Reads the entry at the head and moves the head on. */
  method Pop(indices: array<nat>, hashes: array<Bytes32>, head: nat, ghost tail: nat, ghost gs: seq<nat>,
             ghost xs: seq<Bytes32>)
    returns (index: nat, hash: Bytes32, next: nat)
    requires Queued(indices, hashes, head, tail, gs, xs) && |gs| > 0
    ensures index == gs[0] && hash == xs[0]
    ensures Queued(indices, hashes, next, tail, gs[1..], xs[1..])
    ensures next < indices.Length && (|gs| > 1 ==> indices[next] == gs[1] && hashes[next] == xs[1])
    ensures next == tail <==> |gs| == 1
  {
    PopHolds(indices[..], head, gs);
    PopHolds(hashes[..], head, xs);
    index, hash := indices[head], hashes[head];
    next := (head + 1) % indices.Length;
    if |gs| > 1 {
      PopHolds(indices[..], next, gs[1..]);
      PopHolds(hashes[..], next, xs[1..]);
    }
  }

  /** Overwrites the free slot at the tail with a parent node. */
  method Push(indices: array<nat>, hashes: array<Bytes32>, ghost head: nat, tail: nat,
              ghost gs: seq<nat>, ghost xs: seq<Bytes32>, index: nat, hash: Bytes32)
    returns (next: nat)
    requires Queued(indices, hashes, head, tail, gs, xs) && |gs| < indices.Length
    modifies indices, hashes
    ensures Queued(indices, hashes, head, next, gs + [index], xs + [hash]) == true
  {
    PushHolds(indices[..], head, gs, index);
    PushHolds(hashes[..], head, xs, hash);
    ghost var ring, cells := indices[..], hashes[..];
    indices[tail] := index;
    hashes[tail] := hash;
    assert indices[..] == ring[tail := index] && hashes[..] == cells[tail := hash];
    next := (tail + 1) % indices.Length;
  }

  /** The sibling of a node just popped: from decommitments, or from the ring if it is queued next. */
  method TakeSibling(indices: array<nat>, hashes: array<Bytes32>, head: nat, tail: nat, decommitments: seq<Bytes32>,
                     di: nat, index: nat, hash: Bytes32, ghost gs: seq<nat>, ghost xs: seq<Bytes32>)
    returns (s: Option<Siblings>, next: nat)
    requires |gs| == |xs| > 0 && gs[0] == index != 1 && xs[0] == hash && di <= |decommitments|
    requires Queued(indices, hashes, head, tail, gs[1..], xs[1..]) && head < indices.Length
    requires |gs| > 1 ==> indices[head] == gs[1] && hashes[head] == xs[1]
    requires head == tail <==> |gs| == 1
    ensures s == Pick(gs, xs, decommitments[di..])
    ensures s.Some? ==> Queued(indices, hashes, next, tail, gs[s.value.popped..], xs[s.value.popped..]) == true
  {
    next := head;
    if index % 2 == 0 {
      if di >= |decommitments| {
        return None, next;
      }
      s := Some(Siblings(hash, decommitments[di], 1, 1));
    } else if indices[head] == index - 1 && head != tail {
      var j: nat, sibling: Bytes32;
      j, sibling, next := Pop(indices, hashes, head, tail, gs[1..], xs[1..]);
      s := Some(Siblings(sibling, hash, 2, 0));
      assert gs[1..][1..] == gs[2..] && xs[1..][1..] == xs[2..];
    } else {
      if di >= |decommitments| {
        return None, next;
      }
      s := Some(Siblings(decommitments[di], hash, 1, 1));
    }
  }

  /** The walk still to be done from the nodes in the rings ends in out. */
  ghost predicate Walking(h: PairHash, indices: array<nat>, hashes: array<Bytes32>, head: nat, tail: nat,
                          decommitments: seq<Bytes32>, di: nat, gs: seq<nat>, xs: seq<Bytes32>, out: Outcome)
    reads indices, hashes
  {
    && 0 < |gs| == |xs| <= indices.Length && di <= |decommitments| && Queued(indices, hashes, head, tail, gs, xs)
    && Walk(h, gs, xs, decommitments[di..]) == out
  }

  /** One round: it ends the walk, or replaces one or two nodes of the rings by their parent. */
  method RingStep(h: PairHash, indices: array<nat>, hashes: array<Bytes32>, head0: nat, tail0: nat,
                  decommitments: seq<Bytes32>, di0: nat, ghost gs0: seq<nat>, ghost xs0: seq<Bytes32>,
                  ghost out: Outcome)
    returns (stop: bool, root: Option<Bytes32>, head: nat, tail: nat, di: nat, ghost gs: seq<nat>,
             ghost xs: seq<Bytes32>)
    requires Walking(h, indices, hashes, head0, tail0, decommitments, di0, gs0, xs0, out)
    modifies indices, hashes
    ensures stop ==> root == Root(out)
    ensures !stop ==> Walking(h, indices, hashes, head, tail, decommitments, di, gs, xs, out) == true
    ensures !stop ==> |gs| - di < |gs0| - di0
  {
    hide Walk, Pick, Queued;
    stop, root, tail, di, gs, xs := true, None, tail0, di0, gs0, xs0;
    var index: nat, hash: Bytes32;
    index, hash, head := Pop(indices, hashes, head0, tail, gs, xs);
    WalkStops(h, gs, xs, decommitments[di..]);
    if index == 1 {
      root := Some(hash);
      return;
    }
    var s: Option<Siblings>;
    s, head := TakeSibling(indices, hashes, head, tail, decommitments, di, index, hash, gs, xs);
    if s.Some? {
      stop := false;
      hash := h(s.value.left, s.value.right);
      WalkStep(h, gs, xs, decommitments[di..], s.value);
      gs, xs := gs[s.value.popped..], xs[s.value.popped..];
      tail := Push(indices, hashes, head, tail, gs, xs, index / 2, hash);
      gs, xs := gs + [index / 2], xs + [hash];
      assert decommitments[di..][s.value.used..] == decommitments[di + s.value.used..];
      di := di + s.value.used;
    }
  }

  lemma StartWalking(h: PairHash, indices: array<nat>, hashes: array<Bytes32>, decommitments: seq<Bytes32>)
    requires indices as object != hashes as object && indices.Length == hashes.Length > 0
    ensures Walking(h, indices, hashes, 0, 0, decommitments, 0, indices[..], hashes[..],
                    Walk(h, indices[..], hashes[..], decommitments))
  {
    hide Walk;
    assert decommitments[0..] == decommitments;
  }

  /**
   * The contract's walk. The two input arrays double as ring buffers: parents overwrite the slots of nodes that
   * were already popped. None stands for a revert.
   */
  method RestoreMerkleMultiRoot(h: PairHash, indices: array<nat>, hashes: array<Bytes32>, decommitments: seq<Bytes32>)
    returns (r: Option<Bytes32>)
    requires indices as object != hashes as object
    modifies indices, hashes
    ensures indices.Length != hashes.Length ==> r == None
    ensures indices.Length == hashes.Length ==>
              r == Root(Reconstruct(h, old(indices[..]), old(hashes[..]), decommitments))
  {
    var n := indices.Length;
    if n != hashes.Length {
      return None;
    }
    if n == 0 {
      return if |decommitments| == 0 then None else Some(decommitments[0]);
    }
    hide Walk, Walking;
    var head: nat, tail: nat, di: nat := 0, 0, 0;
    ghost var gs: seq<nat>, xs: seq<Bytes32> := indices[..], hashes[..];
    ghost var out := Walk(h, gs, xs, decommitments);
    StartWalking(h, indices, hashes, decommitments);
    while true
      invariant Walking(h, indices, hashes, head, tail, decommitments, di, gs, xs, out) == true
      decreases if di <= |decommitments| then |gs| + |decommitments| - di else 0
    {
      var stop, root;
      stop, root, head, tail, di, gs, xs := RingStep(h, indices, hashes, head, tail, decommitments, di, gs, xs, out);
      if stop {
        return root;
      }
    }
  }

  lemma WalkStep(h: PairHash, gs: seq<nat>, xs: seq<Bytes32>, dec: seq<Bytes32>, s: Siblings)
    requires |gs| == |xs| > 0 && gs[0] != 1 && Pick(gs, xs, dec) == Some(s)
    ensures Walk(h, gs, xs, dec)
         == Walk(h, gs[s.popped..] + [gs[0] / 2], xs[s.popped..] + [h(s.left, s.right)], dec[s.used..])
  {
  }

  /** The prover's own check of a proof: the same walk over slices that grow at the end. */
  method ReconstructMultiRoot(h: PairHash, p: MerkleMultiProof) returns (r: Option<Bytes32>)
    requires |p.genIndices| == |p.leavesHashes|
    ensures r == Root(Reconstruct(h, p.genIndices, p.leavesHashes, p.decommitments))
  {
    if |p.genIndices| == 0 {
      return if |p.decommitments| == 0 then None else Some(p.decommitments[0]);
    }
    hide Walk, Pick;
    var indices, hashes := p.genIndices, p.leavesHashes;
    var head: nat, di: nat := 0, 0;
    ghost var out := Walk(h, indices, hashes, p.decommitments);
    while true
      invariant Waiting(h, indices, hashes, head, p.decommitments, di, out) == true
      decreases if head < |indices| then |indices| - head + |p.decommitments| - di else 0
    {
      var stop, root;
      stop, root, indices, hashes, head, di := QueueStep(h, indices, hashes, head, p.decommitments, di, out);
      if stop {
        return root;
      }
    }
  }

  /** The walk still to be done from the unread part of the queue ends in out. */
  ghost predicate Waiting(h: PairHash, indices: seq<nat>, hashes: seq<Bytes32>, head: nat, decommitments: seq<Bytes32>,
                          di: nat, out: Outcome) {
    && |indices| == |hashes| && head < |indices| && di <= |decommitments|
    && Walk(h, indices[head..], hashes[head..], decommitments[di..]) == out
  }

  /** One round: it ends the walk, or reads one or two nodes and appends their parent. */
  method QueueStep(h: PairHash, indices0: seq<nat>, hashes0: seq<Bytes32>, head0: nat, decommitments: seq<Bytes32>,
                   di0: nat, ghost out: Outcome)
    returns (stop: bool, root: Option<Bytes32>, indices: seq<nat>, hashes: seq<Bytes32>, head: nat, di: nat)
    requires Waiting(h, indices0, hashes0, head0, decommitments, di0, out)
    ensures stop ==> root == Root(out)
    ensures !stop ==> Waiting(h, indices, hashes, head, decommitments, di, out)
    ensures !stop ==> |indices| == |indices0| + 1 && head > head0 && di >= di0 && head - head0 + di - di0 == 2
  {
    hide Walk, Pick;
    indices, hashes, head, di := indices0, hashes0, head0, di0;
    stop, root := true, None;
    WalkStops(h, indices[head..], hashes[head..], decommitments[di..]);
    if indices[head] == 1 {
      root := Some(hashes[head]);
      return;
    }
    var s := NextSiblings(indices, hashes, head, decommitments, di);
    if s.Some? {
      stop := false;
      var parent, hash := indices[head] / 2, h(s.value.left, s.value.right);
      WalkStep(h, indices[head..], hashes[head..], decommitments[di..], s.value);
      Advance(indices, head, s.value.popped, parent);
      Advance(hashes, head, s.value.popped, hash);
      indices, hashes := indices + [parent], hashes + [hash];
      head, di := head + s.value.popped, di + s.value.used;
    }
  }

  /** The first node of the growing queue and its sibling. */
  method NextSiblings(indices: seq<nat>, hashes: seq<Bytes32>, head: nat, decommitments: seq<Bytes32>, di: nat)
    returns (s: Option<Siblings>)
    requires |indices| == |hashes| && head < |indices| && di <= |decommitments|
    ensures s == Pick(indices[head..], hashes[head..], decommitments[di..])
    ensures s.Some? ==> 1 <= s.value.popped <= |indices| - head && s.value.used <= |decommitments| - di
    ensures s.Some? ==> s.value.popped + s.value.used == 2
  {
    var index, hash := indices[head], hashes[head];
    if index % 2 == 1 && head + 1 != |indices| && indices[head + 1] == index - 1 {
      return Some(Siblings(hashes[head + 1], hash, 2, 0));
    }
    if di >= |decommitments| {
      return None;
    }
    if index % 2 == 0 {
      return Some(Siblings(hash, decommitments[di], 1, 1));
    }
    return Some(Siblings(decommitments[di], hash, 1, 1));
  }

  lemma WalkStops(h: PairHash, gs: seq<nat>, xs: seq<Bytes32>, dec: seq<Bytes32>)
    requires |gs| == |xs| > 0
    ensures gs[0] == 1 ==> Walk(h, gs, xs, dec) == Restored(xs[0], dec)
    ensures gs[0] != 1 && Pick(gs, xs, dec) == None ==> Walk(h, gs, xs, dec) == Failed
  {
  }

  lemma Advance<T>(s: seq<T>, head: nat, n: nat, x: T)
    requires head + n <= |s|
    ensures (s + [x])[head + n..] == s[head..][n..] + [x]
  {
  }

  // ---------------------------------------------------------------- soundness

  /**
   * Strictly descending indices, no two of which are an ancestor and its descendant's parent: one tree level or two.
   */
  ghost predicate LevelOrder(gs: seq<nat>) {
    |gs| > 0 && gs[|gs| - 1] >= 1 && gs[0] < 2 * gs[|gs| - 1]
    && forall i, j | 0 <= i < j < |gs| :: gs[i] > gs[j]
  }

  /** Popping a node, with or without its sibling, and pushing the parent keeps the order. */
  lemma LevelOrderStep(gs: seq<nat>)
    requires LevelOrder(gs) && gs[0] > 1
    ensures gs[0] % 2 == 1 && |gs| > 1 && gs[1] == gs[0] - 1 ==> LevelOrder(gs[2..] + [gs[0] / 2])
    ensures !(gs[0] % 2 == 1 && |gs| > 1 && gs[1] == gs[0] - 1) ==> LevelOrder(gs[1..] + [gs[0] / 2])
  {
    var skip := if gs[0] % 2 == 1 && |gs| > 1 && gs[1] == gs[0] - 1 then 2 else 1;
    var next := gs[skip..] + [gs[0] / 2];
    if |gs| > skip {
      assert next[0] == gs[skip] && next[|next| - 2] == gs[|gs| - 1];
      assert next[0] <= gs[0] - (1 + gs[0] % 2);
    }
  }

  /** A queue that still holds index 1 holds nothing else. */
  lemma RootIsAlone(gs: seq<nat>)
    requires LevelOrder(gs) && gs[0] == 1
    ensures |gs| == 1
  {
    var j := |gs| - 1;
    var last := gs[j];
    assert j == 0 || 1 > last;
  }

  /** The pairs that a walk hashes, in order. */
  ghost function WalkHashed(h: PairHash, gs: seq<nat>, xs: seq<Bytes32>, dec: seq<Bytes32>): seq<(Bytes32, Bytes32)>
    requires |gs| == |xs| > 0
    decreases |gs| + |dec|
  {
    if gs[0] == 1 then []
    else
      match Pick(gs, xs, dec)
      case None => []
      case Some(s) =>
        [(s.left, s.right)]
        + WalkHashed(h, gs[s.popped..] + [gs[0] / 2], xs[s.popped..] + [h(s.left, s.right)], dec[s.used..])
  }

  /** No pair of the list has the hash of an inner node of the tree without being that node's children. */
  ghost predicate NoClash(h: PairHash, leaves: seq<Bytes32>, limit: nat, pairs: seq<(Bytes32, Bytes32)>) {
    forall p, i | p in pairs && 1 <= i < limit ::
      h(p.0, p.1) == Node(h, leaves, limit, i) ==>
        p.0 == Node(h, leaves, limit, 2 * i) && p.1 == Node(h, leaves, limit, 2 * i + 1)
  }

  ghost predicate AllTrue(h: PairHash, leaves: seq<Bytes32>, limit: nat, gs: seq<nat>, xs: seq<Bytes32>)
    requires |gs| == |xs|
  {
    forall k | 0 <= k < |gs| :: 1 <= gs[k] < 2 * limit && xs[k] == Node(h, leaves, limit, gs[k])
  }

  /**
   * Soundness: a walk over level-ordered indices that ends in the tree's root started from true nodes only,
   * whatever decommitments it was given.
   */
  lemma {:induction false} WalkSound(h: PairHash, leaves: seq<Bytes32>, limit: nat,
                                     gs: seq<nat>, xs: seq<Bytes32>, dec: seq<Bytes32>)
    requires |gs| == |xs| && LevelOrder(gs) && gs[0] < 2 * limit
    requires var out := Walk(h, gs, xs, dec); out.Restored? && out.root == Node(h, leaves, limit, 1)
    requires NoClash(h, leaves, limit, WalkHashed(h, gs, xs, dec))
    ensures AllTrue(h, leaves, limit, gs, xs)
    decreases |gs| + |dec|
  {
    if gs[0] == 1 {
      RootIsAlone(gs);
    } else {
      var s := Pick(gs, xs, dec).value;
      var parent := h(s.left, s.right);
      LevelOrderStep(gs);
      NoClashTail(h, leaves, limit, WalkHashed(h, gs, xs, dec));
      WalkSound(h, leaves, limit, gs[s.popped..] + [gs[0] / 2], xs[s.popped..] + [parent], dec[s.used..]);
      StepBack(h, leaves, limit, gs, xs, dec);
    }
  }

  lemma NoClashTail(h: PairHash, leaves: seq<Bytes32>, limit: nat, pairs: seq<(Bytes32, Bytes32)>)
    requires NoClash(h, leaves, limit, pairs) && |pairs| > 0
    ensures NoClash(h, leaves, limit, pairs[1..]) && NoClash(h, leaves, limit, pairs[..1])
  {
  }

  /** If the queue after a step holds true nodes only, so does the queue before it. */
  lemma StepBack(h: PairHash, leaves: seq<Bytes32>, limit: nat, gs: seq<nat>, xs: seq<Bytes32>, dec: seq<Bytes32>)
    requires |gs| == |xs| && LevelOrder(gs) && 1 < gs[0] < 2 * limit && Pick(gs, xs, dec).Some?
    requires var s := Pick(gs, xs, dec).value;
             AllTrue(h, leaves, limit, gs[s.popped..] + [gs[0] / 2], xs[s.popped..] + [h(s.left, s.right)])
             && NoClash(h, leaves, limit, [(s.left, s.right)])
    ensures AllTrue(h, leaves, limit, gs, xs)
  {
    hide Node;
    var s := Pick(gs, xs, dec).value;
    var ngs, nxs := gs[s.popped..] + [gs[0] / 2], xs[s.popped..] + [h(s.left, s.right)];
    var last := |gs| - s.popped;
    assert ngs[last] == gs[0] / 2 && nxs[last] == h(s.left, s.right);
    assert (s.left, s.right) in [(s.left, s.right)];
    forall k | s.popped <= k < |gs| ensures 1 <= gs[k] < 2 * limit && xs[k] == Node(h, leaves, limit, gs[k]) {
      assert ngs[k - s.popped] == gs[k] && nxs[k - s.popped] == xs[k];
    }
  }
}
