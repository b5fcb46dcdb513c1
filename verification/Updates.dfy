/** From the prover to the verifier: which updates made from true beacon states pass every check of the contract. */
module Updates {
  import opened Bytes
  import opened Words
  import opened Merkleization
  import opened Branches
  import opened MultiProofs
  import opened MultiProver
  import opened SyncCommittee
  import opened LightClient
  import B = BeaconProofs

  const FINALIZED_CHECKPOINT_FIELD: nat := 20
  const CURRENT_SYNC_COMMITTEE_FIELD: nat := 22
  const NEXT_SYNC_COMMITTEE_FIELD: nat := 23

  /** What the prover fetches for an update: states, headers and the sync aggregate of the signing block. */
  datatype Inputs = Inputs(current: B.BeaconState, attestedState: B.BeaconState, attested: Header, finalized: Header,
                           epoch: Bytes32, keys: seq<Point>, signature: Signature, signatureSlot: Uint64,
                           forkVersion: nat, withFinality: bool)

  /** The fetched parts belong together, as on the real chain. */
  ghost predicate Consistent(c: Crypto, p: B.Spec, x: Inputs) {
    && |x.keys| == SYNC_COMMITTEE_SIZE && CommutativeSemigroup(c.add)
    && B.ValidState(p, x.current) && B.ValidState(p, x.attestedState)
    && x.current.fields[CURRENT_SYNC_COMMITTEE_FIELD] == CommitteeContainer(c, x.keys)
    && x.attested.stateRoot == B.StateRoot(c.h, p, x.attestedState)
    && x.attestedState.fields[FINALIZED_CHECKPOINT_FIELD] == c.h(x.epoch, HeaderRoot(c.h, x.finalized))
  }

  /** The committee container is a field of the current state. */
  lemma CommitteeInState(c: Crypto, p: B.Spec, x: Inputs)
    requires Consistent(c, p, x)
    ensures Commits(c, B.StateRoot(c.h, p, x.current), CURRENT_SYNC_COMMITTEE_INDEX, x.keys,
                    B.FieldPath(c.h, p, x.current, CURRENT_SYNC_COMMITTEE_FIELD))
  {
    hide B.StateRoot, B.FieldPath, CommitteeContainer, RestoreRoot;
    B.FieldProved(c.h, p, x.current, CURRENT_SYNC_COMMITTEE_FIELD);
  }

  /** The finalized root is the right half of a field of the attested state. */
  lemma FinalityInState(c: Crypto, p: B.Spec, x: Inputs)
    requires Consistent(c, p, x)
    ensures RestoreRoot(c.h, HeaderRoot(c.h, x.finalized), FINALIZED_ROOT_INDEX,
                        [x.epoch] + B.FieldPath(c.h, p, x.attestedState, FINALIZED_CHECKPOINT_FIELD))
         == Some(x.attested.stateRoot)
  {
    hide B.StateRoot, B.FieldPath, HeaderRoot, RestoreRoot;
    CheckpointProved(c, p, x.attestedState, x.epoch, HeaderRoot(c.h, x.finalized));
  }

  lemma CheckpointProved(c: Crypto, p: B.Spec, s: B.BeaconState, epoch: Bytes32, root: Bytes32)
    requires B.ValidState(p, s) && s.fields[FINALIZED_CHECKPOINT_FIELD] == c.h(epoch, root)
    ensures RestoreRoot(c.h, root, FINALIZED_ROOT_INDEX,
                        [epoch] + B.FieldPath(c.h, p, s, FINALIZED_CHECKPOINT_FIELD)) == Some(B.StateRoot(c.h, p, s))
  {
    hide B.StateRoot, B.FieldPath, RestoreRoot;
    B.FieldProved(c.h, p, s, FINALIZED_CHECKPOINT_FIELD);
    B.OnTheRight(c.h, epoch, root, 52, B.FieldPath(c.h, p, s, FINALIZED_CHECKPOINT_FIELD), B.StateRoot(c.h, p, s));
  }

  /** No collision between the supplied finality branch and the true one, for a checkpoint with this root. */
  ghost predicate NoFinalityCollision(c: Crypto, p: B.Spec, s: B.BeaconState, epoch: Bytes32, root: Bytes32, u: Update)
    requires B.ValidState(p, s)
  {
    NoCollision(c.h, Hashed(c.h, HeaderRoot(c.h, u.finalized), FINALIZED_ROOT_INDEX, u.finalityBranch),
                Hashed(c.h, root, FINALIZED_ROOT_INDEX, [epoch] + B.FieldPath(c.h, p, s, FINALIZED_CHECKPOINT_FIELD)))
  }

  /**
   * Soundness of the finality proof. The finalized header of a verified update is the one that the attested header's
   * state names, and without a finality branch it is blank.
   */
  lemma FinalityBinds(c: Crypto, p: B.Spec, slot: nat, stateRoot: Bytes32, u: Update, s: B.BeaconState, epoch: Bytes32,
                      root: Bytes32)
    requires Verified(c, slot, stateRoot, u)
    requires B.ValidState(p, s) && u.attested.stateRoot == B.StateRoot(c.h, p, s)
    requires s.fields[FINALIZED_CHECKPOINT_FIELD] == c.h(epoch, root)
    requires u.finalityBranch != [] ==> NoFinalityCollision(c, p, s, epoch, root, u)
    ensures u.finalityBranch != [] ==> HeaderRoot(c.h, u.finalized) == root
    ensures u.finalityBranch == [] ==> u.finalized.slot == 0
  {
    hide B.StateRoot, B.FieldPath, HeaderRoot, RestoreRoot, Hashed, NoCollision, CommitteeProved;
    if u.finalityBranch != [] {
      var path := [epoch] + B.FieldPath(c.h, p, s, FINALIZED_CHECKPOINT_FIELD);
      CheckpointProved(c, p, s, epoch, root);
      BranchBinds(c.h, HeaderRoot(c.h, u.finalized), root, FINALIZED_ROOT_INDEX, u.finalityBranch, path);
    }
  }

  /** So that header, and no other, is what the contract stores: as the head, or as the candidate. */
  lemma FinalizedHeaderIsStored(g: Config, p: B.Spec, t: State, now: nat, u: Update, s: B.BeaconState, epoch: Bytes32,
                                f: Header)
    requires StepSpec(g, t, now, u).Some? && u.finalityBranch != []
    requires B.ValidState(p, s) && u.attested.stateRoot == B.StateRoot(g.crypto.h, p, s)
    requires s.fields[FINALIZED_CHECKPOINT_FIELD] == g.crypto.h(epoch, HeaderRoot(g.crypto.h, f))
    requires NoFinalityCollision(g.crypto, p, s, epoch, HeaderRoot(g.crypto.h, f), u)
    requires NoCollision(g.crypto.h, HeaderPairs(g.crypto.h, u.finalized), HeaderPairs(g.crypto.h, f))
    ensures var r, root := StepSpec(g, t, now, u).value, HeaderRoot(g.crypto.h, f);
            if 3 * |u.missed| <= SYNC_COMMITTEE_SIZE then
              r.head == f.slot && r.headers == t.headers[f.slot := StoredHeader(root, f.stateRoot)] && r.best == t.best
            else
              && r.head == t.head && r.headers == t.headers
              && r.best.slot == f.slot && r.best.root == root && r.best.stateRoot == f.stateRoot
  {
    hide B.StateRoot, HeaderRoot, HeaderPairs, NoFinalityCollision, NoCollision, StepSpec, Verified;
    StepCases(g, t, now, u);
    FinalityBinds(g.crypto, p, t.head, StateRootAt(t, t.head), u, s, epoch, HeaderRoot(g.crypto.h, f));
    HeaderRootBinds(g.crypto.h, u.finalized, f);
  }

  /** The committee part of an update, as the prover computes it from keys and bits. */
  ghost predicate HonestCommittee(c: Crypto, keys: seq<Point>, bits: seq<Byte>, u: Update) {
    && |keys| == SYNC_COMMITTEE_SIZE && SameBits(u.bitList, bits)
    && AllSignersSum(c.add, keys, SignedBits(bits)) == Some(u.aggregate)
    && u.missed == AllMissingKeys(keys, SignedBits(bits))
    && InRange(KeyTree(c.keyHash, keys), AllMissingUp(SignedBits(bits))) && WellFormed(KeyTree(c.keyHash, keys))
    && u.decommitments == HonestMultiProof(c.h, KeyTree(c.keyHash, keys), AllMissingUp(SignedBits(bits))).decommitments
  }

  /** The contract restores the container of the prover's keys. */
  lemma HonestCommitteeRoot(c: Crypto, keys: seq<Point>, bits: seq<Byte>, u: Update)
    requires HonestCommittee(c, keys, bits, u) && CommutativeSemigroup(c.add)
    ensures |u.bitList| == BIT_LIST_WORDS && CommitteeRoot(c, u) == Some(CommitteeContainer(c, keys))
  {
    SizeIsPow2();
    hide SignedBits, HonestMultiProof, Hash, Reconstruct, AllSignersSum;
    ProverAgreesWithContract(c.h, c.add, c.keyHash, keys, bits, u.bitList);
  }

  /**
   * What MakeUpdate returns: the prover's committee, the branch of the current one, a newer header, a good signature.
   */
  ghost predicate Made(c: Crypto, p: B.Spec, x: Inputs, slot: nat, bits: seq<Byte>, u: Update)
    requires B.ValidState(p, x.current) && B.ValidState(p, x.attestedState)
  {
    && HonestCommittee(c, x.keys, bits, u) && |u.bitList| == BIT_LIST_WORDS
    && u.signatureSlot == x.signatureSlot && u.attested == x.attested
    && u.committeeBranch == B.FieldPath(c.h, p, x.current, CURRENT_SYNC_COMMITTEE_FIELD)
    && (if x.withFinality then
          u.finalized == x.finalized
          && u.finalityBranch == [x.epoch] + B.FieldPath(c.h, p, x.attestedState, FINALIZED_CHECKPOINT_FIELD)
        else u.finalityBranch == [] && u.finalized.slot == 0)
    && Active(u).slot > slot && c.verify(SignRoot(c, u), u.aggregate, u.signature)
  }

  // ---------------------------------------------------------------- under the current and the next committee's index

  /** Fields 22 and 23 are siblings, and the rest of their paths is the same. */
  lemma CommitteePaths(h: PairHash, p: B.Spec, s: B.BeaconState)
    requires B.ValidState(p, s)
    ensures exists rest ::
              && B.FieldPath(h, p, s, CURRENT_SYNC_COMMITTEE_FIELD) == [s.fields[NEXT_SYNC_COMMITTEE_FIELD]] + rest
              && B.FieldPath(h, p, s, NEXT_SYNC_COMMITTEE_FIELD) == [s.fields[CURRENT_SYNC_COMMITTEE_FIELD]] + rest
  {
    hide Hash;
    var leaves := B.StateTree(h, p, s).leaves;
    SiblingBranches(h, leaves);
    assert B.FieldPath(h, p, s, CURRENT_SYNC_COMMITTEE_FIELD) == [leaves[23]] + Branch(h, leaves, 32, 27);
    assert B.FieldPath(h, p, s, NEXT_SYNC_COMMITTEE_FIELD) == [leaves[22]] + Branch(h, leaves, 32, 27);
  }

  lemma SiblingBranches(h: PairHash, leaves: seq<Bytes32>)
    requires |leaves| == 25
    ensures Branch(h, leaves, 32, 54) == [leaves[23]] + Branch(h, leaves, 32, 27)
    ensures Branch(h, leaves, 32, 55) == [leaves[22]] + Branch(h, leaves, 32, 27)
  {
    assert Node(h, leaves, 32, 55) == leaves[23] && Node(h, leaves, 32, 54) == leaves[22];
  }

  /** The pairs hashed on the way up from the current and from the next committee under the latter's index. */
  ghost predicate NoCommitteeCollision(c: Crypto, p: B.Spec, s: B.BeaconState)
    requires B.ValidState(p, s)
  {
    NoCollision(c.h,
                Hashed(c.h, s.fields[CURRENT_SYNC_COMMITTEE_FIELD], NEXT_SYNC_COMMITTEE_INDEX,
                       B.FieldPath(c.h, p, s, CURRENT_SYNC_COMMITTEE_FIELD)),
                Hashed(c.h, s.fields[NEXT_SYNC_COMMITTEE_FIELD], NEXT_SYNC_COMMITTEE_INDEX,
                       B.FieldPath(c.h, p, s, NEXT_SYNC_COMMITTEE_FIELD)))
  }

  /** The branch of the current committee proves it under the next one's index only if the two are the same. */
  lemma WrongIndex(c: Crypto, p: B.Spec, s: B.BeaconState)
    requires B.ValidState(p, s) && NoCommitteeCollision(c, p, s)
    ensures RestoreRoot(c.h, s.fields[CURRENT_SYNC_COMMITTEE_FIELD], NEXT_SYNC_COMMITTEE_INDEX,
                        B.FieldPath(c.h, p, s, CURRENT_SYNC_COMMITTEE_FIELD)) == Some(B.StateRoot(c.h, p, s))
       <==> s.fields[CURRENT_SYNC_COMMITTEE_FIELD] == s.fields[NEXT_SYNC_COMMITTEE_FIELD]
  {
    hide B.StateRoot, B.FieldPath, RestoreRoot, Hashed, NoCollision, Hash;
    var now, next := s.fields[CURRENT_SYNC_COMMITTEE_FIELD], s.fields[NEXT_SYNC_COMMITTEE_FIELD];
    var nowPath := B.FieldPath(c.h, p, s, CURRENT_SYNC_COMMITTEE_FIELD);
    var nextPath := B.FieldPath(c.h, p, s, NEXT_SYNC_COMMITTEE_FIELD);
    B.FieldProved(c.h, p, s, NEXT_SYNC_COMMITTEE_FIELD);
    CommitteePaths(c.h, p, s);
    if RestoreRoot(c.h, now, NEXT_SYNC_COMMITTEE_INDEX, nowPath) == Some(B.StateRoot(c.h, p, s)) {
      BranchBinds(c.h, now, next, NEXT_SYNC_COMMITTEE_INDEX, nowPath, nextPath);
    }
  }

  // ---------------------------------------------------------------- which updates are accepted

  /** The committee check of the contract, under either index. */
  lemma CommitteeCheck(c: Crypto, p: B.Spec, x: Inputs, bits: seq<Byte>, u: Update, index: nat)
    requires Consistent(c, p, x) && HonestCommittee(c, x.keys, bits, u)
    requires u.committeeBranch == B.FieldPath(c.h, p, x.current, CURRENT_SYNC_COMMITTEE_FIELD)
    requires index == CURRENT_SYNC_COMMITTEE_INDEX || index == NEXT_SYNC_COMMITTEE_INDEX
    requires index == NEXT_SYNC_COMMITTEE_INDEX ==> NoCommitteeCollision(c, p, x.current)
    ensures |u.bitList| == BIT_LIST_WORDS
    ensures CommitteeProved(c, B.StateRoot(c.h, p, x.current), index, u)
       <==> index == CURRENT_SYNC_COMMITTEE_INDEX
            || x.current.fields[CURRENT_SYNC_COMMITTEE_FIELD] == x.current.fields[NEXT_SYNC_COMMITTEE_FIELD]
  {
    hide B.StateRoot, B.FieldPath, HonestCommittee, CommitteeContainer, CommitteeRoot, RestoreRoot,
         NoCommitteeCollision;
    HonestCommitteeRoot(c, x.keys, bits, u);
    if index == CURRENT_SYNC_COMMITTEE_INDEX {
      CommitteeInState(c, p, x);
    } else {
      WrongIndex(c, p, x.current);
    }
  }

  /**
   * The contract accepts exactly the updates with enough signers of the committee's current period; those of the
   * next period only if both periods have the same committee, because the prover never proves the next one.
   */
  lemma MadeIsVerified(c: Crypto, p: B.Spec, x: Inputs, slot: nat, bits: seq<Byte>, u: Update)
    requires Consistent(c, p, x) && Made(c, p, x, slot, bits, u)
    requires Period(x.signatureSlot) == Period(slot) + 1 ==> NoCommitteeCollision(c, p, x.current)
    ensures Verified(c, slot, B.StateRoot(c.h, p, x.current), u)
       <==> && Signatures(u) >= MIN_SYNC_COMMITTEE_PARTICIPANTS
            && (|| Period(x.signatureSlot) == Period(slot)
                || (Period(x.signatureSlot) == Period(slot) + 1
                    && x.current.fields[CURRENT_SYNC_COMMITTEE_FIELD] == x.current.fields[NEXT_SYNC_COMMITTEE_FIELD]))
  {
    hide B.StateRoot, B.FieldPath, HonestCommittee, CommitteeProved, HeaderRoot, RestoreRoot, B.ValidState, Period,
         NoCommitteeCollision;
    if x.withFinality {
      FinalityInState(c, p, x);
    }
    var index := CommitteeIndex(slot, u.signatureSlot);
    if index.Some? {
      CommitteeCheck(c, p, x, bits, u, index.value);
    }
  }

  // ---------------------------------------------------------------- the prover

  /** The update made of its parts; without finality the finalized header stays blank. */
  function Assemble(x: Inputs, made: CommitteeUpdate<Point>, finalityBranch: seq<Bytes32>,
                    committeeBranch: seq<Bytes32>): Update {
    Update(x.forkVersion, x.signatureSlot, x.attested, if x.withFinality then x.finalized else Header(0, 0, 0, 0, 0),
           finalityBranch, x.signature, made.bitList, made.aggregate, made.missing, made.decommitments, committeeBranch)
  }

  /**
   * The prover's update for slot `slot`. None stands for a panic, an error or nothing to prove: nobody signed, the
   * signature is bad, or the header is not newer.
   */
  method MakeUpdate(c: Crypto, p: B.Spec, x: Inputs, slot: nat, bits: array<Byte>) returns (r: Option<Update>)
    requires Consistent(c, p, x) && bits.Length == 32 * BIT_LIST_WORDS
    modifies bits
    ensures r.Some? ==> Made(c, p, x, slot, old(bits[..]), r.value)
    ensures r == None <==>
              || AllSignersSum(c.add, x.keys, SignedBits(old(bits[..]))) == None
              || !c.verify(c.h(HeaderRoot(c.h, x.attested), c.domain(x.forkVersion)),
                           AllSignersSum(c.add, x.keys, SignedBits(old(bits[..]))).value, x.signature)
              || (if x.withFinality then x.finalized.slot else x.attested.slot) <= slot
  {
    hide B.StateRoot, B.FieldPath, HeaderRoot, SignedBits, SameBits, HonestMultiProof, AllSignersSum;
    ghost var before := bits[..];
    var committeeBranch := B.MakeFieldProof(c.h, p, x.current, CURRENT_SYNC_COMMITTEE_FIELD);
    var made := MakeCommitteeUpdate(c.h, c.add, c.keyHash, x.keys, bits);
    if made == None {
      return None;
    }
    if !c.verify(c.h(HeaderRoot(c.h, x.attested), c.domain(x.forkVersion)), made.value.aggregate, x.signature) {
      return None;
    }
    var finalityBranch: seq<Bytes32> := [];
    if x.withFinality {
      var path := B.MakeFieldProof(c.h, p, x.attestedState, FINALIZED_CHECKPOINT_FIELD);
      finalityBranch := [x.epoch] + path;
      if x.finalized.slot <= slot {
        return None;
      }
    } else if x.attested.slot <= slot {
      return None;
    }
    r := Some(Assemble(x, made.value, finalityBranch, committeeBranch));
    BitListLength(r.value.bitList, before);
  }

  lemma BitListLength(words: seq<Bytes32>, bits: seq<Byte>)
    requires SameBits(words, bits)
    ensures |words| == BIT_LIST_WORDS
  {
  }

  // ---------------------------------------------------------------- the signing block

  /** The answer of the beacon node for a slot; a block carries the sync aggregate's bits. */
  datatype Fetched = NotFound | Failing | Block(signed: Participation)

  datatype Choice = Chosen(slot: Uint64) | Refused | Searching

  function Participants(signed: seq<bool>, n: nat): nat
    requires n <= |signed|
  {
    if n == 0 then 0 else if signed[n - 1] then Participants(signed, n - 1) + 1 else Participants(signed, n - 1)
  }

  /** Enough signers: ten, or two thirds of the committee when finality is wanted. */
  predicate Enough(signed: Participation, finality: bool) {
    var n := Participants(signed, |signed|);
    n >= MIN_SYNC_COMMITTEE_PARTICIPANTS && (finality ==> 3 * n >= 2 * SYNC_COMMITTEE_SIZE)
  }

  predicate Skipped(b: Fetched, finality: bool) {
    b.NotFound? || (b.Block? && !Enough(b.signed, finality))
  }

  /** The last slot of the period after that of cur, in 64 bits. */
  function NextPeriodEnd(cur: Uint64): Uint64 {
    (cur - cur % SLOTS_PER_SYNC_COMMITTEE_PERIOD + 2 * SLOTS_PER_SYNC_COMMITTEE_PERIOD - 1) % TWO_64
  }

  /** Where the search starts: at the target if there is one, else at the clock's slot; None is an error. */
  function SearchStart(cur: Uint64, target: Uint64, clock: Uint64): Option<Uint64> {
    if target > 0 then
      if target < cur || target > NextPeriodEnd(cur) then None else Some(target)
    else if clock < NextPeriodEnd(cur) then Some(clock)
    else Some(NextPeriodEnd(cur))
  }

  /**
   * Walks down from the start to a block with enough signers; Searching after `rounds` rounds. It finds the highest
   * such block at or below the start, unless a request fails before.
   */
  method ChooseSigningSlot(block: nat -> Fetched, finality: bool, cur: Uint64, target: Uint64, clock: Uint64,
                           rounds: nat)
    returns (r: Choice)
    ensures SearchStart(cur, target, clock) == None ==> r == Refused
    ensures r.Chosen? ==> block(r.slot).Block? && Enough(block(r.slot).signed, finality)
    ensures r.Chosen? ==>
              var start := SearchStart(cur, target, clock).value;
              forall k: nat | k <= start && (k > r.slot || r.slot > start) :: Skipped(block(k), finality)
    ensures SearchStart(cur, target, clock).Some? ==>
              forall s: nat | s <= SearchStart(cur, target, clock).value < s + rounds
                && block(s).Block? && Enough(block(s).signed, finality)
                && (forall k: nat | s < k <= SearchStart(cur, target, clock).value :: Skipped(block(k), finality)) ::
                r == Chosen(s)
  {
    var start := SearchStart(cur, target, clock);
    if start == None {
      return Refused;
    }
    var slot: Uint64 := start.value;
    for i := 0 to rounds
      invariant if i <= start.value then slot == start.value - i else true
      invariant forall k: nat | k <= start.value < k + i :: Skipped(block(k), finality)
    {
      var b := block(slot);
      if b.Failing? {
        return Refused;
      }
      if b.Block? && Enough(b.signed, finality) {
        return Chosen(slot);
      }
      slot := if slot == 0 then TWO_64 - 1 else slot - 1;
    }
    r := Searching;
  }

  lemma {:induction false} SignersAndMissing<G>(keys: seq<G>, signed: seq<bool>, n: nat)
    requires n <= |signed| && n <= |keys|
    ensures |MissingKeys(keys, signed, n)| + Participants(signed, n) == n
  {
    if n > 0 {
      SignersAndMissing(keys, signed, n - 1);
    }
  }

  /**
   * The search starts at the target, which must lie between the head and the end of the next period, or, without one,
   * at the clock's slot, at the latest at that end.
   */
  lemma StartsExactly(cur: Uint64, target: Uint64, clock: Uint64)
    requires cur + 2 * SLOTS_PER_SYNC_COMMITTEE_PERIOD < TWO_64
    ensures var start := SearchStart(cur, target, clock);
            && (start == None <==> target != 0 && (target < cur || Period(target) > Period(cur) + 1))
            && (start.Some? && target != 0 ==> start.value == target)
            && (start.Some? && target == 0 ==>
                  && start.value <= clock && Period(start.value) <= Period(cur) + 1
                  && (start.value < clock ==> Period(start.value + 1) > Period(cur) + 1))
  {
  }

  lemma PeriodsUpTo(cur: Uint64, slot: nat)
    requires cur + 2 * SLOTS_PER_SYNC_COMMITTEE_PERIOD < TWO_64 && cur <= slot <= NextPeriodEnd(cur)
    ensures Period(slot) == Period(cur) || Period(slot) == Period(cur) + 1
  {
  }

  /**
   * From the search to the contract: the update for the signing block that the prover finds is accepted if and only
   * if that block is of the head's own period, or the next period has the same committee.
   */
  lemma FoundUpdateIsVerified(c: Crypto, p: B.Spec, x: Inputs, slot: Uint64, bits: seq<Byte>, u: Update, target: Uint64,
                              clock: Uint64)
    requires Consistent(c, p, x) && Made(c, p, x, slot, bits, u) && NoCommitteeCollision(c, p, x.current)
    requires slot + 2 * SLOTS_PER_SYNC_COMMITTEE_PERIOD < TWO_64 && SearchStart(slot, target, clock).Some?
    requires x.signatureSlot <= SearchStart(slot, target, clock).value && Enough(SignedBits(bits), x.withFinality)
    requires x.attested.slot < x.signatureSlot && (x.withFinality ==> x.finalized.slot <= x.attested.slot)
    ensures Verified(c, slot, B.StateRoot(c.h, p, x.current), u)
       <==> || Period(x.signatureSlot) == Period(slot)
            || x.current.fields[CURRENT_SYNC_COMMITTEE_FIELD] == x.current.fields[NEXT_SYNC_COMMITTEE_FIELD]
  {
    hide Period, Verified, SignedBits, B.StateRoot, B.FieldPath, NoCommitteeCollision, MissingKeys, Participants,
         MissingUp, SignerSum, HonestMultiProof, HeaderRoot;
    MadeIsVerified(c, p, x, slot, bits, u);
    SignersAndMissing(x.keys, SignedBits(bits), |SignedBits(bits)|);
    PeriodsUpTo(slot, x.signatureSlot);
  }

  // ---------------------------------------------------------------- a rejected update of the next period

  function Minus(a: Bytes32, b: Bytes32): Bytes32 {
    if a < b then a + TWO_256 - b else a - b
  }

  function Plus(a: Point, b: Point): Point {
    a + b
  }

  function KeyWord(k: Point): Bytes32 {
    k % TWO_256
  }

  lemma {:induction false} MinusClimbs(x: Bytes32, y: Bytes32, g: nat, path: seq<Bytes32>)
    requires x != y
    ensures Climb(Minus, x, g, path) != Climb(Minus, y, g, path)
    decreases |path|
  {
    if path != [] {
      MinusInjective(x, y, path[0]);
      MinusClimbs(Join(Minus, x, g, path[0]), Join(Minus, y, g, path[0]), g / 2, path[1..]);
    }
  }

  lemma MinusInjective(x: Bytes32, y: Bytes32, s: Bytes32)
    requires x != y
    ensures Minus(x, s) != Minus(y, s) && Minus(s, x) != Minus(s, y)
  {
  }

  /** With two different committees, the current one is not proved under the next one's index. */
  lemma MinusRejects(p: B.Spec, s: B.BeaconState)
    requires B.ValidState(p, s)
    requires s.fields[NEXT_SYNC_COMMITTEE_FIELD] == (s.fields[CURRENT_SYNC_COMMITTEE_FIELD] + 1) % TWO_256
    ensures RestoreRoot(Minus, s.fields[CURRENT_SYNC_COMMITTEE_FIELD], NEXT_SYNC_COMMITTEE_INDEX,
                        B.FieldPath(Minus, p, s, CURRENT_SYNC_COMMITTEE_FIELD)) != Some(B.StateRoot(Minus, p, s))
  {
    hide B.StateRoot, B.FieldPath, Hash, Minus;
    var now, next := s.fields[CURRENT_SYNC_COMMITTEE_FIELD], s.fields[NEXT_SYNC_COMMITTEE_FIELD];
    B.FieldProved(Minus, p, s, NEXT_SYNC_COMMITTEE_FIELD);
    CommitteePaths(Minus, p, s);
    var rest :| B.FieldPath(Minus, p, s, CURRENT_SYNC_COMMITTEE_FIELD) == [next] + rest
                && B.FieldPath(Minus, p, s, NEXT_SYNC_COMMITTEE_FIELD) == [now] + rest;
    MinusDiffers(now, next);
    MinusClimbs(Minus(next, now), Minus(now, next), NEXT_SYNC_COMMITTEE_INDEX / 2, rest);
    assert ([next] + rest)[1..] == rest && ([now] + rest)[1..] == rest;
  }

  lemma MinusDiffers(now: Bytes32, next: Bytes32)
    requires next == (now + 1) % TWO_256
    ensures Minus(next, now) == 1 && Minus(now, next) == TWO_256 - 1
  {
  }

  function ExampleCrypto(): Crypto {
    Crypto(Minus, Plus, KeyWord, KeyWord, _ => 0, (_, _, _) => true)
  }

  function ExampleState(container: Bytes32): B.BeaconState {
    var fields: seq<Bytes32> := seq(25, _ => 0);
    B.BeaconState(fields[22 := container][23 := (container + 1) % TWO_256], [0], [0], [], seq(14, _ => 0))
  }

  /** A block of the first slot of period 1 signs the header of the slot before. */
  function ExampleInputs(keys: seq<Point>): Inputs
    requires |keys| == SYNC_COMMITTEE_SIZE
  {
    var s := ExampleState(CommitteeContainer(ExampleCrypto(), keys));
    var blank := Header(0, 0, 0, 0, 0);
    var attestedState := s.(fields := s.fields[20 := Minus(0, HeaderRoot(Minus, blank))]);
    var last := SLOTS_PER_SYNC_COMMITTEE_PERIOD - 1;
    Inputs(s, attestedState, Header(last, 0, 0, B.StateRoot(Minus, B.Spec(1, 1), attestedState), 0), blank, 0, keys, 0,
           last + 1, 0, false)
  }

  lemma ExampleConsistent(keys: seq<Point>)
    requires |keys| == SYNC_COMMITTEE_SIZE
    ensures Consistent(ExampleCrypto(), B.Spec(1, 1), ExampleInputs(keys))
  {
    hide Minus, B.StateRoot, CommitteeContainer, HeaderRoot;
  }

  /**
   * A run of the prover for slot 0 whose update the contract rejects although its state and committee are true, the
   * whole committee signed, the signature is good and the header is newer: it was signed in the next period.
   */
  method RejectedUpdate(keys: seq<Point>) returns (r: Option<Update>)
    requires |keys| == SYNC_COMMITTEE_SIZE
    ensures var c, p, x := ExampleCrypto(), B.Spec(1, 1), ExampleInputs(keys);
            && Consistent(c, p, x) && Period(x.signatureSlot) == Period(0) + 1
            && r.Some? && Signatures(r.value) == SYNC_COMMITTEE_SIZE
            && Made(c, p, x, 0, seq(32 * BIT_LIST_WORDS, _ => 255), r.value)
            && !Verified(c, 0, B.StateRoot(c.h, p, x.current), r.value)
  {
    hide Minus, B.StateRoot, CommitteeContainer, HeaderRoot, Made, SignedBits, Verified, SignerSum, MissingKeys,
         ExampleState;
    var c, p, x := ExampleCrypto(), B.Spec(1, 1), ExampleInputs(keys);
    ExampleConsistent(keys);
    var bits := new Byte[32 * BIT_LIST_WORDS](_ => 255);
    ghost var all: seq<Byte> := seq(32 * BIT_LIST_WORDS, _ => 255);
    assert bits[..] == all;
    AllSign(all);
    Unanimous(c.add, keys, SignedBits(all), |SignedBits(all)|);
    r := MakeUpdate(c, p, x, 0, bits);
    ExampleRejected(keys, all, r.value);
  }

  lemma ExampleRejected(keys: seq<Point>, bits: seq<Byte>, u: Update)
    requires |keys| == SYNC_COMMITTEE_SIZE && B.ValidState(B.Spec(1, 1), ExampleInputs(keys).current)
    requires B.ValidState(B.Spec(1, 1), ExampleInputs(keys).attestedState)
    requires Made(ExampleCrypto(), B.Spec(1, 1), ExampleInputs(keys), 0, bits, u)
    ensures !Verified(ExampleCrypto(), 0, B.StateRoot(Minus, B.Spec(1, 1), ExampleInputs(keys).current), u)
    ensures |bits| == 32 * BIT_LIST_WORDS && u.missed == AllMissingKeys(keys, SignedBits(bits))
  {
    hide Minus, B.StateRoot, CommitteeContainer, HeaderRoot, SignedBits, Consistent, Verified, MissingKeys, SignerSum;
    ExampleConsistent(keys);
    NextIsRejected(ExampleCrypto(), B.Spec(1, 1), ExampleInputs(keys), 0, bits, u);
  }

  lemma NextIsRejected(c: Crypto, p: B.Spec, x: Inputs, slot: nat, bits: seq<Byte>, u: Update)
    requires Consistent(c, p, x) && Made(c, p, x, slot, bits, u) && c.h == Minus
    requires x.current.fields[NEXT_SYNC_COMMITTEE_FIELD]
            == (x.current.fields[CURRENT_SYNC_COMMITTEE_FIELD] + 1) % TWO_256
    requires Period(x.signatureSlot) == Period(slot) + 1
    ensures !Verified(c, slot, B.StateRoot(c.h, p, x.current), u)
    ensures u.missed == AllMissingKeys(x.keys, SignedBits(bits))
  {
    hide B.StateRoot, B.FieldPath, CommitteeContainer, CommitteeRoot, RestoreRoot, FinalityProved, SignRoot, Minus;
    HonestCommitteeRoot(c, x.keys, bits, u);
    MinusRejects(p, x.current);
  }

  lemma AllSign(bits: seq<Byte>)
    requires |bits| == 32 * BIT_LIST_WORDS && forall k | 0 <= k < |bits| :: bits[k] == 255
    ensures forall k | 0 <= k < SYNC_COMMITTEE_SIZE :: SignedBits(bits)[k]
  {
    forall k | 0 <= k < SYNC_COMMITTEE_SIZE ensures SignedBits(bits)[k] {
      EveryBit(k % 8);
    }
  }

  lemma EveryBit(n: nat)
    requires n < 8
    ensures Bit(255, n) == 1
  {
    assert Bit(255, 0) == 1 && Bit(255, 1) == 1 && Bit(255, 2) == 1 && Bit(255, 3) == 1;
    assert Bit(255, 4) == 1 && Bit(255, 5) == 1 && Bit(255, 6) == 1 && Bit(255, 7) == 1;
  }

  lemma {:induction false} Unanimous<G>(add: (G, G) -> G, keys: seq<G>, signed: seq<bool>, n: nat)
    requires n <= |signed| && n <= |keys| && forall k | 0 <= k < |signed| :: signed[k]
    ensures MissingKeys(keys, signed, n) == [] && (n > 0 ==> SignerSum(add, keys, signed, n).Some?)
  {
    if n > 0 {
      Unanimous(add, keys, signed, n - 1);
    }
  }
}
