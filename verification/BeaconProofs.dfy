/** Proofs of execution payload fields against beacon states, for the same, a recent or an ancient slot. */
module BeaconProofs {
  import opened Words
  import opened Merkleization
  import opened Branches

  const RECEIPTS_ROOT: nat := 3
  const STATE_ROOT: nat := 2
  const BLOCK_ROOTS_FIELD: nat := 5
  const STATE_ROOTS_FIELD: nat := 6
  const HISTORICAL_ROOTS_FIELD: nat := 7
  const PAYLOAD_FIELD: nat := 24

  /** SLOTS_PER_HISTORICAL_ROOT and HISTORICAL_ROOTS_LIMIT. */
  datatype Spec = Spec(slots: nat, limit: nat)

  ghost predicate ValidSpec(p: Spec) {
    IsPow2(p.slots) && IsPow2(p.limit)
  }

  // ---------------------------------------------------------------- beacon states

  /** A beacon state with 25 field roots, four of which are determined by the parts kept here. */
  datatype BeaconState = BeaconState(fields: seq<Bytes32>, blockRoots: seq<Bytes32>, stateRoots: seq<Bytes32>,
                                     historicalRoots: seq<Bytes32>, payload: seq<Bytes32>)

  predicate ValidState(p: Spec, s: BeaconState) {
    && p.slots >= 1 && IsPow2(p.slots) && IsPow2(p.limit)
    && |s.fields| == 25 && |s.blockRoots| == p.slots && |s.stateRoots| == p.slots
    && |s.historicalRoots| <= p.limit && |s.payload| == 14
  }

  function RootsTree(p: Spec, roots: seq<Bytes32>): MerkleTree {
    MerkleTree(false, 0, p.slots, roots)
  }

  function HistoryTree(p: Spec, roots: seq<Bytes32>): MerkleTree {
    MerkleTree(true, |roots|, p.limit, roots)
  }

  function PayloadTree(s: BeaconState): MerkleTree {
    MerkleTree(false, 0, 16, s.payload)
  }

  lemma SmallLimits()
    ensures IsPow2(16) && IsPow2(32) && Log2(16) == 4 && Log2(32) == 5
  {
    assert Pow2(4) == 16;
    Pow2IsPow2(4);
    Pow2IsPow2(5);
  }

  function StateTree(h: PairHash, p: Spec, s: BeaconState): MerkleTree
    requires ValidState(p, s)
  {
    SmallLimits();
    MerkleTree(false, 0, 32,
               s.fields[BLOCK_ROOTS_FIELD := Hash(h, RootsTree(p, s.blockRoots))]
                       [STATE_ROOTS_FIELD := Hash(h, RootsTree(p, s.stateRoots))]
                       [HISTORICAL_ROOTS_FIELD := Hash(h, HistoryTree(p, s.historicalRoots))]
                       [PAYLOAD_FIELD := Hash(h, PayloadTree(s))])
  }

  function StateRoot(h: PairHash, p: Spec, s: BeaconState): Bytes32
    requires ValidState(p, s)
  {
    SmallLimits();
    Hash(h, StateTree(h, p, s))
  }

  function BatchRoot(h: PairHash, p: Spec, s: BeaconState): Bytes32
    requires ValidState(p, s)
  {
    h(Hash(h, RootsTree(p, s.blockRoots)), Hash(h, RootsTree(p, s.stateRoots)))
  }

  /**
   * From the state of one slot to that of the next, as far as roots of older states go: process_slot enters the old
   * state's root, and process_historical_roots_update ends each batch. A block may change everything else.
   */
  ghost predicate Follows(h: PairHash, p: Spec, slot: nat, s: BeaconState, t: BeaconState) {
    && ValidState(p, s) && ValidState(p, t)
    && t.stateRoots == s.stateRoots[slot % p.slots := StateRoot(h, p, s)]
    && t.historicalRoots
       == if (slot + 1) % p.slots == 0 then s.historicalRoots + [BatchRoot(h, p, t)] else s.historicalRoots
  }

  /** The states of all slots from genesis on. */
  ghost predicate History(h: PairHash, p: Spec, states: seq<BeaconState>) {
    && ValidSpec(p) && |states| > 0 && ValidState(p, states[0]) && states[0].historicalRoots == []
    && forall k | 0 <= k < |states| - 1 :: Follows(h, p, k, states[k], states[k + 1])
  }

  lemma StateAt(h: PairHash, p: Spec, states: seq<BeaconState>, k: nat)
    requires History(h, p, states) && k < |states|
    ensures ValidState(p, states[k]) && p.slots >= 1 && p.limit >= 1
  {
    if k > 0 {
      assert Follows(h, p, k - 1, states[k - 1], states[k]);
    }
  }

  /** The state roots of the last slots are found at their slots modulo the vector length. */
  lemma {:induction false} RecentRoot(h: PairHash, p: Spec, states: seq<BeaconState>, target: nat, source: nat)
    requires History(h, p, states) && target < source < |states| && source <= target + p.slots
    ensures ValidState(p, states[target]) && ValidState(p, states[source])
    ensures states[source].stateRoots[target % p.slots] == StateRoot(h, p, states[target])
    decreases source
  {
    hide StateRoot, BatchRoot;
    StateAt(h, p, states, target);
    assert Follows(h, p, source - 1, states[source - 1], states[source]);
    ModBounds(target, p.slots);
    ModBounds(source - 1, p.slots);
    if source > target + 1 {
      RecentRoot(h, p, states, target, source - 1);
      DifferentSlots(target, source - 1, p.slots);
    }
  }

  lemma ModBounds(a: nat, n: nat)
    requires n >= 1
    ensures 0 <= a % n < n
  {
  }

  lemma DifferentSlots(a: nat, b: nat, n: nat)
    requires a < b < a + n
    ensures a % n != b % n
  {
    if a % n == b % n {
      var d := b / n - a / n;
      assert b - a == n * d by {
        assert b == n * (b / n) + b % n && a == n * (a / n) + a % n;
        assert n * (b / n) - n * (a / n) == n * d;
      }
      if d <= 0 { MulMono(0, -d, n); } else { MulMono(1, d, n); }
      assert false;
    }
  }

  /** Batch number i was closed when slot (i + 1) * slots was entered, and stays in the list. */
  lemma {:induction false} AncientBatch(h: PairHash, p: Spec, states: seq<BeaconState>, i: nat, end: nat, source: nat)
    requires History(h, p, states) && source < |states| && p.slots >= 1
    ensures ValidState(p, states[source]) && |states[source].historicalRoots| == source / p.slots
    ensures end == (i + 1) * p.slots <= source ==>
              ValidState(p, states[end]) && i < source / p.slots
              && states[source].historicalRoots[i] == BatchRoot(h, p, states[end])
    decreases source
  {
    StateAt(h, p, states, source);
    if source > 0 {
      AncientBatch(h, p, states, i, end, source - 1);
      assert Follows(h, p, source - 1, states[source - 1], states[source]);
      NextQuotient(source - 1, p.slots);
      if end == (i + 1) * p.slots <= source {
        StateAt(h, p, states, end);
        BatchEnd(i, p.slots, source);
      }
    } else {
      if end == (i + 1) * p.slots {
        MulMono(1, i + 1, p.slots);
      }
    }
  }

  lemma NextQuotient(s: nat, n: nat)
    requires n >= 1
    ensures (s + 1) / n == if (s + 1) % n == 0 then s / n + 1 else s / n
  {
    var q, r := s / n, s % n;
    assert s == n * q + r;
    if r == n - 1 {
      assert s + 1 == n * (q + 1);
      Quotient(s + 1, q + 1, 0, n);
    } else {
      Quotient(s + 1, q, r + 1, n);
    }
  }

  lemma Quotient(x: nat, q: nat, r: nat, n: nat)
    requires r < n && x == n * q + r
    ensures x / n == q && x % n == r
  {
    var d := x / n - q;
    assert n * d == r - x % n by { assert x == n * (x / n) + x % n; assert n * (x / n) - n * q == n * d; }
    if d > 0 { MulMono(1, d, n); }
  }

  lemma BatchEnd(i: nat, n: nat, source: nat)
    requires n >= 1 && (i + 1) * n <= source
    ensures i < source / n
    ensures source == (i + 1) * n ==> source % n == 0 && source / n == i + 1
    ensures source > (i + 1) * n ==> (i + 1) * n <= source - 1
  {
    var q, r := source / n, source % n;
    assert source == n * q + r;
    if q <= i {
      MulMono(q, i, n);
      assert false;
    }
    if source == (i + 1) * n {
      Quotient(source, i + 1, 0, n);
    }
  }

  // ---------------------------------------------------------------- the contract's index

  /** The generalized index under which the contract expects a payload field; None is a revert. */
  function PayloadIndex(p: Spec, source: nat, target: nat, field: nat): Option<nat>
    requires p.slots >= 1
  {
    if target == source then Some((32 + 24) * 16 + field)
    else if target + p.slots <= source then
      var batches := ((32 + 7) * 2 + 0) * p.limit + target / p.slots;
      Some((((batches * 2 + 1) * p.slots + target % p.slots) * 32 + 24) * 16 + field)
    else if target < source then Some((((32 + 6) * p.slots + target % p.slots) * 32 + 24) * 16 + field)
    else None
  }

  // ---------------------------------------------------------------- composing paths

  ghost predicate Proves(h: PairHash, leaf: Bytes32, g: nat, path: seq<Bytes32>, root: Bytes32) {
    RestoreRoot(h, leaf, g, path) == Some(root)
  }

  /** Puts a path within a subtree, of which r is the offset, below one that leads from the subtree's root on. */
  lemma Below(h: PairHash, leaf: Bytes32, r: nat, q: seq<Bytes32>, mid: Bytes32, g: nat, path: seq<Bytes32>,
              root: Bytes32)
    requires r < Pow2(|q|) && Proves(h, leaf, Concat(1, |q|, r), q, mid) && Proves(h, mid, g, path, root)
    ensures Proves(h, leaf, Concat(g, |q|, r), q + path, root)
  {
    Compose(h, leaf, r, g, q, path);
  }

  /** A proof in a vector tree, put below a path that leads from the tree's root on. */
  lemma VectorBelow(h: PairHash, t: MerkleTree, idx: nat, g: nat, path: seq<Bytes32>, root: Bytes32)
    requires WellFormed(t) && !t.isList && idx < |t.leaves| && Proves(h, Hash(h, t), g, path, root)
    ensures Proves(h, t.leaves[idx], g * t.limit + idx, HonestProof(h, t, idx).path + path, root)
  {
    hide Node, Concat, Merkle;
    var depth, q := Log2(t.limit), HonestProof(h, t, idx).path;
    Pow2OfLog2(t.limit);
    ProofRoundTrip(h, t, idx);
    LeafDepth(t.limit, idx);
    BranchLength(h, t.leaves, t.limit, idx + t.limit);
    ConcatPow2(1, depth, idx, t.limit);
    ConcatPow2(g, depth, idx, t.limit);
    hide HonestProof, Hash;
    Below(h, t.leaves[idx], idx, q, Hash(h, t), g, path, root);
  }

  /** The same for a list tree, whose proofs end with the length mixed in. */
  lemma ListBelow(h: PairHash, t: MerkleTree, idx: nat, g: nat, path: seq<Bytes32>, root: Bytes32)
    requires WellFormed(t) && t.isList && idx < |t.leaves| && Proves(h, Hash(h, t), g, path, root)
    ensures Proves(h, t.leaves[idx], g * (2 * t.limit) + idx, HonestProof(h, t, idx).path + path, root)
  {
    hide Concat, Hash, HonestProof, Proves, IsPow2;
    var n, q := Log2(t.limit) + 1, HonestProof(h, t, idx).path;
    ListProof(h, t, idx);
    ConcatPow2(1, n, idx, 2 * t.limit);
    ConcatPow2(g, n, idx, 2 * t.limit);
    Below(h, t.leaves[idx], idx, q, Hash(h, t), g, path, root);
  }

  /** The length of a proof from a list, and its index. */
  lemma ListProof(h: PairHash, t: MerkleTree, idx: nat)
    requires WellFormed(t) && t.isList && idx < |t.leaves|
    ensures var n, q := Log2(t.limit) + 1, HonestProof(h, t, idx).path;
            |q| == n && Pow2(n) == 2 * t.limit && Proves(h, t.leaves[idx], 1 * (2 * t.limit) + idx, q, Hash(h, t))
  {
    hide Node, Merkle, Branch, UintToHash, RestoreRoot, Hash;
    Pow2OfLog2(t.limit);
    ProofRoundTrip(h, t, idx);
    LeafDepth(t.limit, idx);
    BranchLength(h, t.leaves, t.limit, idx + t.limit);
  }

  lemma ConcatPow2(g: nat, n: nat, r: nat, p: nat)
    requires p == Pow2(n)
    ensures Concat(g, n, r) == g * p + r
  {
  }

  /** The right one of two siblings. */
  lemma RightChild(h: PairHash, left: Bytes32, right: Bytes32)
    ensures Proves(h, right, Concat(1, 1, 1), [left], h(left, right))
  {
    assert Concat(1, 1, 1) == 3 && Shr(3, 1) == Shr(1, 0);
    assert [left][1..] == [];
    assert Climb(h, right, 3, [left]) == Climb(h, h(left, right), 1, []);
  }

  // ---------------------------------------------------------------- the prover's path

  ghost function FieldPath(h: PairHash, p: Spec, s: BeaconState, field: nat): seq<Bytes32>
    requires ValidState(p, s) && field < 25
  {
    HonestProof(h, StateTree(h, p, s), field).path
  }

  /** A field of a state, put below a path that leads from the state's root on. */
  lemma FieldBelow(h: PairHash, p: Spec, s: BeaconState, field: nat, g: nat, path: seq<Bytes32>, root: Bytes32)
    requires ValidState(p, s) && field < 25 && Proves(h, StateRoot(h, p, s), g, path, root)
    ensures Proves(h, StateTree(h, p, s).leaves[field], g * 32 + field, FieldPath(h, p, s, field) + path, root)
  {
    SmallLimits();
    hide Proves, Hash, HonestProof;
    VectorBelow(h, StateTree(h, p, s), field, g, path, root);
  }

  lemma FieldProved(h: PairHash, p: Spec, s: BeaconState, field: nat)
    requires ValidState(p, s) && field < 25
    ensures Proves(h, StateTree(h, p, s).leaves[field], 32 + field, FieldPath(h, p, s, field), StateRoot(h, p, s))
  {
    hide Proves, StateRoot, StateTree;
    Itself(h, StateRoot(h, p, s));
    FieldBelow(h, p, s, field, 1, [], StateRoot(h, p, s));
    assert FieldPath(h, p, s, field) + [] == FieldPath(h, p, s, field);
  }

  /** The batch a slot belongs to, its position there, and the slot at which the batch was closed. */
  function BatchOf(slots: nat, target: nat): nat
    requires slots >= 1
  {
    target / slots
  }

  function WithinBatch(slots: nat, target: nat): (j: nat)
    requires slots >= 1
    ensures j < slots
  {
    target % slots
  }

  function EndOfBatch(slots: nat, target: nat): (end: nat)
    requires slots >= 1
  {
    target - target % slots + slots
  }

  /** From the state root of the target to that of the source, lowest sibling first. */
  ghost function UpperPath(h: PairHash, p: Spec, states: seq<BeaconState>, source: nat, target: nat): seq<Bytes32>
    requires target <= source < |states| && ValidState(p, states[source])
    requires target + p.slots <= source ==>
               ClosedBatch(h, p, states, source, BatchOf(p.slots, target), EndOfBatch(p.slots, target))
  {
    if target == source then []
    else if source < target + p.slots then RecentPath(h, p, states[source], WithinBatch(p.slots, target))
    else
      AncientPath(h, p, states[source], states[EndOfBatch(p.slots, target)], BatchOf(p.slots, target),
                  WithinBatch(p.slots, target))
  }

  /** From the state roots of a state to its root. */
  ghost function RecentPath(h: PairHash, p: Spec, s: BeaconState, j: nat): seq<Bytes32>
    requires ValidState(p, s) && j < p.slots
  {
    HonestProof(h, RootsTree(p, s.stateRoots), j).path + FieldPath(h, p, s, STATE_ROOTS_FIELD)
  }

  /** From the state roots of the state e that closed batch i to the root of state s. */
  ghost function AncientPath(h: PairHash, p: Spec, s: BeaconState, e: BeaconState, i: nat, j: nat): seq<Bytes32>
    requires ValidState(p, s) && ValidState(p, e) && i < |s.historicalRoots| && j < p.slots
  {
    HonestProof(h, RootsTree(p, e.stateRoots), j).path
    + ([Hash(h, RootsTree(p, e.blockRoots))]
       + (HonestProof(h, HistoryTree(p, s.historicalRoots), i).path + FieldPath(h, p, s, HISTORICAL_ROOTS_FIELD)))
  }

  /** The state that closed the target's batch lies between target and source. */
  lemma AncientEnd(h: PairHash, p: Spec, states: seq<BeaconState>, source: nat, target: nat)
    requires History(h, p, states) && target + p.slots <= source < |states| && p.slots >= 1
    ensures ClosedBatch(h, p, states, source, BatchOf(p.slots, target), EndOfBatch(p.slots, target))
    ensures target < EndOfBatch(p.slots, target) <= target + p.slots
  {
    hide History, BatchRoot;
    var i, j := BatchOf(p.slots, target), WithinBatch(p.slots, target);
    var end := EndOfBatch(p.slots, target);
    assert target == p.slots * i + j;
    assert end == (i + 1) * p.slots;
    AncientBatch(h, p, states, i, end, source);
    StateAt(h, p, states, end);
    StateAt(h, p, states, source);
  }

  ghost predicate ClosedBatch(h: PairHash, p: Spec, states: seq<BeaconState>, source: nat, i: nat, end: nat) {
    && end < |states| && source < |states| && ValidState(p, states[end]) && ValidState(p, states[source])
    && i < |states[source].historicalRoots| && states[source].historicalRoots[i] == BatchRoot(h, p, states[end])
  }

  /** The index of the target's state root within the source state. */
  function UpperIndex(p: Spec, source: nat, target: nat): nat
    requires p.slots >= 1
  {
    if target == source then 1
    else if target + p.slots <= source then AncientIndex(p, BatchOf(p.slots, target), WithinBatch(p.slots, target))
    else RecentIndex(p, WithinBatch(p.slots, target))
  }

  /** Entry j of the state roots, and entry j of the state roots of batch i. */
  function RecentIndex(p: Spec, j: nat): nat {
    (32 + 6) * p.slots + j
  }

  function AncientIndex(p: Spec, i: nat, j: nat): nat {
    ((((32 + 7) * 2 + 0) * p.limit + i) * 2 + 1) * p.slots + j
  }

  /** From an entry of the state roots to the root of their state. */
  lemma RecentSteps(h: PairHash, p: Spec, s: BeaconState, j: nat)
    requires ValidState(p, s) && j < p.slots
    ensures Proves(h, s.stateRoots[j], RecentIndex(p, j), RecentPath(h, p, s, j), StateRoot(h, p, s))
  {
    hide StateRoot, Hash, Proves, FieldPath, HonestProof;
    FieldProved(h, p, s, STATE_ROOTS_FIELD);
    VectorBelow(h, RootsTree(p, s.stateRoots), j, 38, FieldPath(h, p, s, STATE_ROOTS_FIELD), StateRoot(h, p, s));
  }

  /** From a batch in the list of historical roots to the root of the state. */
  lemma ListSteps(h: PairHash, p: Spec, s: BeaconState, i: nat)
    requires ValidState(p, s) && i < |s.historicalRoots|
    ensures Proves(h, s.historicalRoots[i], 78 * p.limit + i,
                   HonestProof(h, HistoryTree(p, s.historicalRoots), i).path
                     + FieldPath(h, p, s, HISTORICAL_ROOTS_FIELD),
                   StateRoot(h, p, s))
  {
    hide StateRoot, Hash, Proves, FieldPath, HonestProof;
    FieldProved(h, p, s, HISTORICAL_ROOTS_FIELD);
    ListBelow(h, HistoryTree(p, s.historicalRoots), i, 39, FieldPath(h, p, s, HISTORICAL_ROOTS_FIELD),
              StateRoot(h, p, s));
  }

  /** From the state roots of a closed batch to the root of a later state. */
  lemma BatchSteps(h: PairHash, p: Spec, s: BeaconState, e: BeaconState, i: nat)
    requires ValidState(p, s) && ValidState(p, e) && i < |s.historicalRoots|
    requires s.historicalRoots[i] == BatchRoot(h, p, e)
    ensures Proves(h, Hash(h, RootsTree(p, e.stateRoots)), (78 * p.limit + i) * 2 + 1,
                   [Hash(h, RootsTree(p, e.blockRoots))]
                   + (HonestProof(h, HistoryTree(p, s.historicalRoots), i).path
                      + FieldPath(h, p, s, HISTORICAL_ROOTS_FIELD)),
                   StateRoot(h, p, s))
  {
    hide StateRoot, HonestProof, FieldPath, Hash, Proves;
    ListSteps(h, p, s, i);
    OnTheRight(h, Hash(h, RootsTree(p, e.blockRoots)), Hash(h, RootsTree(p, e.stateRoots)), 78 * p.limit + i,
               HonestProof(h, HistoryTree(p, s.historicalRoots), i).path + FieldPath(h, p, s, HISTORICAL_ROOTS_FIELD),
               StateRoot(h, p, s));
  }

  lemma OnTheRight(h: PairHash, left: Bytes32, right: Bytes32, g: nat, path: seq<Bytes32>, root: Bytes32)
    requires Proves(h, h(left, right), g, path, root)
    ensures Proves(h, right, g * 2 + 1, [left] + path, root)
  {
    hide Proves;
    RightChild(h, left, right);
    assert Concat(g, 1, 1) == g * 2 + 1;
    Below(h, right, 1, [left], h(left, right), g, path, root);
  }

  /** From an entry of those state roots. */
  lemma AncientSteps(h: PairHash, p: Spec, s: BeaconState, e: BeaconState, i: nat, j: nat)
    requires ValidState(p, s) && ValidState(p, e) && i < |s.historicalRoots| && j < p.slots
    requires s.historicalRoots[i] == BatchRoot(h, p, e)
    ensures Proves(h, e.stateRoots[j], AncientIndex(p, i, j), AncientPath(h, p, s, e, i, j), StateRoot(h, p, s))
  {
    hide StateRoot, Hash, Proves, FieldPath, HonestProof;
    BatchSteps(h, p, s, e, i);
    VectorBelow(h, RootsTree(p, e.stateRoots), j, (78 * p.limit + i) * 2 + 1,
                [Hash(h, RootsTree(p, e.blockRoots))]
                + (HonestProof(h, HistoryTree(p, s.historicalRoots), i).path
                   + FieldPath(h, p, s, HISTORICAL_ROOTS_FIELD)),
                StateRoot(h, p, s));
  }

  /** The target's state root is proved by the source's, in all three ranges. */
  lemma UpperProved(h: PairHash, p: Spec, states: seq<BeaconState>, source: nat, target: nat)
    requires History(h, p, states) && target <= source < |states|
    ensures PathExists(h, p, states, source, target)
    ensures Proves(h, StateRoot(h, p, states[target]), UpperIndex(p, source, target),
                   UpperPath(h, p, states, source, target), StateRoot(h, p, states[source]))
  {
    hide StateRoot, History, AncientPath, RecentPath, BatchRoot, Proves, ValidState, EndOfBatch, BatchOf, AncientIndex,
         RecentIndex;
    StateAt(h, p, states, source);
    StateAt(h, p, states, target);
    if target == source {
      Itself(h, StateRoot(h, p, states[source]));
    } else if source < target + p.slots {
      RecentProved(h, p, states, source, target);
    } else {
      AncientEnd(h, p, states, source, target);
      AncientProved(h, p, states, source, target);
    }
  }

  lemma RecentProved(h: PairHash, p: Spec, states: seq<BeaconState>, source: nat, target: nat)
    requires History(h, p, states) && target < source < |states| && source < target + p.slots
    ensures ValidState(p, states[source]) && ValidState(p, states[target])
    ensures Proves(h, StateRoot(h, p, states[target]), RecentIndex(p, WithinBatch(p.slots, target)),
                   RecentPath(h, p, states[source], WithinBatch(p.slots, target)), StateRoot(h, p, states[source]))
  {
    hide StateRoot, History, RecentPath, Proves, RecentIndex;
    RecentRoot(h, p, states, target, source);
    RecentSteps(h, p, states[source], WithinBatch(p.slots, target));
  }

  lemma AncientProved(h: PairHash, p: Spec, states: seq<BeaconState>, source: nat, target: nat)
    requires History(h, p, states) && target + p.slots <= source < |states| && p.slots >= 1
    requires ClosedBatch(h, p, states, source, BatchOf(p.slots, target), EndOfBatch(p.slots, target))
    ensures ValidState(p, states[target])
    ensures var i, j := BatchOf(p.slots, target), WithinBatch(p.slots, target);
            Proves(h, StateRoot(h, p, states[target]), AncientIndex(p, i, j),
                   AncientPath(h, p, states[source], states[EndOfBatch(p.slots, target)], i, j),
                   StateRoot(h, p, states[source]))
  {
    hide StateRoot, History, AncientPath, Proves, BatchRoot, BatchOf, AncientIndex;
    AncientEnd(h, p, states, source, target);
    RecentRoot(h, p, states, target, EndOfBatch(p.slots, target));
    AncientSteps(h, p, states[source], states[EndOfBatch(p.slots, target)], BatchOf(p.slots, target),
                 WithinBatch(p.slots, target));
  }

  lemma Itself(h: PairHash, root: Bytes32)
    ensures Proves(h, root, 1, [], root)
  {
  }

  /** All states that the prover looks up are there. */
  ghost predicate PathExists(h: PairHash, p: Spec, states: seq<BeaconState>, source: nat, target: nat) {
    && target <= source < |states| && ValidState(p, states[source]) && ValidState(p, states[target])
    && (target + p.slots <= source ==>
          ClosedBatch(h, p, states, source, BatchOf(p.slots, target), EndOfBatch(p.slots, target)))
  }

  /** The whole path: payload field, payload header, state, and on to the source. */
  ghost function PayloadPath(h: PairHash, p: Spec, states: seq<BeaconState>, source: nat, target: nat,
                             field: nat): seq<Bytes32>
    requires PathExists(h, p, states, source, target) && field < 14
  {
    HonestProof(h, PayloadTree(states[target]), field).path
    + (FieldPath(h, p, states[target], PAYLOAD_FIELD) + UpperPath(h, p, states, source, target))
  }

  /**
   * Proof composition. For every target up to the source, the prover's path restores the source's state root from
   * the payload field of the target's state, under the index that the contract computes.
   */
  lemma PayloadProofVerifies(h: PairHash, p: Spec, states: seq<BeaconState>, source: nat, target: nat, field: nat)
    requires History(h, p, states) && target <= source < |states| && field < 14
    ensures PathExists(h, p, states, source, target)
    ensures PayloadIndex(p, source, target, field).Some?
    ensures RestoreRoot(h, states[target].payload[field], PayloadIndex(p, source, target, field).value,
                        PayloadPath(h, p, states, source, target, field))
            == Some(StateRoot(h, p, states[source]))
  {
    hide StateRoot, History, UpperPath, UpperIndex, PayloadIndex, FieldPath, HonestProof;
    StateAt(h, p, states, target);
    UpperProved(h, p, states, source, target);
    LowerProved(h, p, states[target], field, UpperIndex(p, source, target), UpperPath(h, p, states, source, target),
                StateRoot(h, p, states[source]));
    IndexSteps(p, source, target, field);
  }

  lemma LowerProved(h: PairHash, p: Spec, t: BeaconState, field: nat, u: nat, upper: seq<Bytes32>, root: Bytes32)
    requires ValidState(p, t) && field < 14 && Proves(h, StateRoot(h, p, t), u, upper, root)
    ensures Proves(h, t.payload[field], (u * 32 + 24) * 16 + field,
                   HonestProof(h, PayloadTree(t), field).path + (FieldPath(h, p, t, PAYLOAD_FIELD) + upper), root)
  {
    hide StateRoot, Hash, Proves, FieldPath, HonestProof;
    assert WellFormed(PayloadTree(t)) by { SmallLimits(); }
    FieldBelow(h, p, t, PAYLOAD_FIELD, u, upper, root);
    VectorBelow(h, PayloadTree(t), field, u * 32 + 24, FieldPath(h, p, t, PAYLOAD_FIELD) + upper, root);
  }

  /** Later targets are refused. */
  lemma IndexSteps(p: Spec, source: nat, target: nat, field: nat)
    requires p.slots >= 1
    ensures PayloadIndex(p, source, target, field)
         == if target > source then None else Some((UpperIndex(p, source, target) * 32 + 24) * 16 + field)
  {
  }

  /** Whatever path the contract accepts under its index proves the true payload field, short of a hash collision. */
  lemma PayloadProofBinds(h: PairHash, p: Spec, states: seq<BeaconState>, source: nat, target: nat, field: nat,
                          claimed: Bytes32, path: seq<Bytes32>)
    requires History(h, p, states) && target <= source < |states| && field < 14
    requires PathExists(h, p, states, source, target) && PayloadIndex(p, source, target, field).Some?
    requires var g := PayloadIndex(p, source, target, field).value;
             && RestoreRoot(h, claimed, g, path) == Some(StateRoot(h, p, states[source]))
             && NoCollision(h, Hashed(h, claimed, g, path),
                               Hashed(h, states[target].payload[field], g,
                                      PayloadPath(h, p, states, source, target, field)))
    ensures claimed == states[target].payload[field] && path == PayloadPath(h, p, states, source, target, field)
  {
    StateAt(h, p, states, target);
    hide StateRoot, PayloadPath, History, PathExists, ValidState, PayloadIndex;
    PayloadProofVerifies(h, p, states, source, target, field);
    BranchBinds(h, claimed, states[target].payload[field], PayloadIndex(p, source, target, field).value,
                path, PayloadPath(h, p, states, source, target, field));
  }

  // ---------------------------------------------------------------- the prover's methods

  method MakeFieldProof(h: PairHash, p: Spec, s: BeaconState, field: nat) returns (path: seq<Bytes32>)
    requires ValidState(p, s) && field < 25
    ensures path == FieldPath(h, p, s, field)
  {
    hide HonestProof, Hash, IsPow2;
    var tree := StateTree(h, p, s);
    assert WellFormed(tree) && |tree.leaves| == 25 by { SmallLimits(); }
    var proof := MakeProof(h, tree, field);
    path := proof.value.path;
  }

  method MakePayloadFieldProof(h: PairHash, s: BeaconState, field: nat) returns (path: seq<Bytes32>)
    requires |s.payload| == 14 && field < 14
    ensures path == HonestProof(h, PayloadTree(s), field).path
  {
    hide HonestProof;
    var tree := NewVectorMerkleTree(s.payload);
    assert tree == PayloadTree(s) by { LeastPow2(tree.limit, 14, 8); }
    var proof := MakeProof(h, tree, field);
    path := proof.value.path;
  }

  /** The power of two above a number that exceeds the one below. */
  lemma LeastPow2(limit: nat, n: nat, below: nat)
    requires IsPow2(limit) && IsPow2(below) && below < n <= 2 * below && n <= limit
    requires forall p :: IsPow2(p) && n <= p ==> limit <= p
    ensures limit == 2 * below
  {
    NextPow2(below, limit);
    assert IsPow2(2 * below) by { assert (2 * below) / 2 == below; }
  }

  /** A vector of historical length, its tree and one of its proofs. */
  method MakeRootsProof(h: PairHash, p: Spec, roots: seq<Bytes32>, slot: nat)
    returns (path: seq<Bytes32>, root: Bytes32)
    requires p.slots >= 1 && IsPow2(p.slots) && |roots| == p.slots
    ensures path == HonestProof(h, RootsTree(p, roots), WithinBatch(p.slots, slot)).path
    ensures root == Hash(h, RootsTree(p, roots))
  {
    hide HonestProof, Hash;
    var tree := NewVectorMerkleTree(roots);
    assert tree == RootsTree(p, roots);
    var proof := MakeProof(h, tree, WithinBatch(|roots|, slot));
    path, root := proof.value.path, Hash(h, tree);
  }

  /** None is an error: the source lies before the target, or a state is not available. */
  method MakeExecutionPayloadReceiptsRootProof(h: PairHash, p: Spec, states: seq<BeaconState>, source: nat, target: nat)
    returns (r: Option<seq<Bytes32>>)
    requires History(h, p, states)
    ensures r.Some? <==> target <= source < |states|
    ensures r.Some? ==>
              PathExists(h, p, states, source, target)
              && r.value == PayloadPath(h, p, states, source, target, RECEIPTS_ROOT)
  {
    if source < target || source >= |states| {
      return None;
    }
    var proof := MakeUpperProof(h, p, states, source, target);
    var fieldPath := MakeFieldProof(h, p, states[target], PAYLOAD_FIELD);
    proof := fieldPath + proof;
    var payloadPath := MakePayloadFieldProof(h, states[target], RECEIPTS_ROOT);
    proof := payloadPath + proof;
    r := Some(proof);
  }

  /** The part from the target's state root on, in one of three ranges. */
  method MakeUpperProof(h: PairHash, p: Spec, states: seq<BeaconState>, source: nat, target: nat)
    returns (proof: seq<Bytes32>)
    requires History(h, p, states) && target <= source < |states|
    ensures PathExists(h, p, states, source, target) && proof == UpperPath(h, p, states, source, target)
  {
    StateAt(h, p, states, source);
    StateAt(h, p, states, target);
    hide History, HonestProof, FieldPath;
    proof := [];
    if source == target {
    } else if target + p.slots > source {
      var path1, root := MakeRootsProof(h, p, states[source].stateRoots, target);
      var path2 := MakeFieldProof(h, p, states[source], STATE_ROOTS_FIELD);
      proof := path1 + path2;
    } else {
      AncientEnd(h, p, states, source, target);
      proof := MakeAncientProof(h, p, states[source], states[EndOfBatch(p.slots, target)], target);
    }
  }

  method MakeAncientProof(h: PairHash, p: Spec, s: BeaconState, e: BeaconState, target: nat)
    returns (proof: seq<Bytes32>)
    requires ValidState(p, s) && ValidState(p, e) && BatchOf(p.slots, target) < |s.historicalRoots|
    ensures proof == AncientPath(h, p, s, e, BatchOf(p.slots, target), WithinBatch(p.slots, target))
  {
    hide HonestProof, FieldPath, Hash, BatchOf, WithinBatch, StateRoot;
    var path1, root := MakeRootsProof(h, p, e.stateRoots, target);
    var unused, blockRoot := MakeRootsProof(h, p, e.blockRoots, target);
    var tree := NewListMerkleTree(s.historicalRoots, p.limit);
    var proof2 := MakeProof(h, tree.value, BatchOf(p.slots, target));
    var path3 := MakeFieldProof(h, p, s, HISTORICAL_ROOTS_FIELD);
    proof := path1 + [blockRoot];
    proof := proof + proof2.value.path;
    proof := proof + path3;
    Regroup(path1, [blockRoot], proof2.value.path, path3);
  }

  lemma Regroup<T>(a: seq<T>, b: seq<T>, c: seq<T>, d: seq<T>)
    ensures ((a + b) + c) + d == a + (b + (c + d))
  {
  }

  /** The state root of the execution payload, for a slot's own state. */
  method MakeExecutionPayloadStateRootProof(h: PairHash, p: Spec, states: seq<BeaconState>, slot: nat)
    returns (r: Option<seq<Bytes32>>)
    requires History(h, p, states)
    ensures r.Some? <==> slot < |states|
    ensures r.Some? ==>
              PathExists(h, p, states, slot, slot) && r.value == PayloadPath(h, p, states, slot, slot, STATE_ROOT)
  {
    if slot >= |states| {
      return None;
    }
    StateAt(h, p, states, slot);
    var proof1 := MakeFieldProof(h, p, states[slot], PAYLOAD_FIELD);
    var proof2 := MakePayloadFieldProof(h, states[slot], STATE_ROOT);
    assert proof1 + [] == proof1;
    r := Some(proof2 + proof1);
  }
}
