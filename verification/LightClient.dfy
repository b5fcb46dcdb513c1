/** The beacon light client contract: update verification, the head and the best candidate. */
module LightClient {
  import opened Bytes
  import opened Words
  import opened Merkleization
  import opened Branches
  import opened MultiProofs
  import opened SyncCommittee

  const SLOTS_PER_SYNC_COMMITTEE_PERIOD: nat := 8192
  const SECONDS_PER_SLOT: nat := 3
  const MIN_SYNC_COMMITTEE_PARTICIPANTS: nat := 10
  const FINALIZED_ROOT_INDEX: nat := 105
  const CURRENT_SYNC_COMMITTEE_INDEX: nat := 54
  const NEXT_SYNC_COMMITTEE_INDEX: nat := 55
  const TWO_64: nat := 0x1_0000_0000_0000_0000

  type Uint64 = n: nat | n < TWO_64

  /** Points and signatures of the BLS scheme are opaque. */
  type Point = nat
  type Signature = nat

  /** SHA-256, key addition, the hashes of compressed keys and of the aggregate key, signing domains, verification. */
  datatype Crypto = Crypto(h: PairHash, add: (Point, Point) -> Point, keyHash: Point -> Bytes32,
                           pointHash: Point -> Bytes32, domain: nat -> Bytes32,
                           verify: (Bytes32, Point, Signature) -> bool)

  // ---------------------------------------------------------------- headers

  datatype Header = Header(slot: Uint64, proposerIndex: Uint64, parentRoot: Bytes32, stateRoot: Bytes32,
                           bodyRoot: Bytes32)

  function HeaderRoot(h: PairHash, b: Header): Bytes32 {
    h(h(h(UintToHash(b.slot), UintToHash(b.proposerIndex)), h(b.parentRoot, b.stateRoot)),
      h(h(b.bodyRoot, 0), h(0, 0)))
  }

  /** The contract's header root is the SSZ root of the header container. */
  lemma HeaderRootIsTreeRoot(h: PairHash, b: Header)
    ensures var fields := [UintToHash(b.slot), UintToHash(b.proposerIndex), b.parentRoot, b.stateRoot, b.bodyRoot];
            var t := MerkleTree(false, 0, 8, fields);
            WellFormed(t) && HeaderRoot(h, b) == Hash(h, t)
  {
    hide UintToHash;
    var s := [UintToHash(b.slot), UintToHash(b.proposerIndex), b.parentRoot, b.stateRoot, b.bodyRoot];
    assert IsPow2(1) && IsPow2(2) && IsPow2(4) && IsPow2(8);
    FourLeaves(h, s[..4]);
    assert Merkle(h, s[4..], 1) == b.bodyRoot;
    assert Merkle(h, s[4..], 2) == h(b.bodyRoot, 0);
    assert Merkle(h, s[4..], 4) == h(h(b.bodyRoot, 0), h(0, 0));
  }

  lemma FourLeaves(h: PairHash, s: seq<Bytes32>)
    requires |s| == 4
    ensures IsPow2(4) && Merkle(h, s, 4) == h(h(s[0], s[1]), h(s[2], s[3]))
  {
    assert IsPow2(1) && IsPow2(2);
    assert Merkle(h, s[..2], 2) == h(s[0], s[1]) by {
      assert s[..2][..1] == [s[0]] && s[..2][1..] == [s[1]];
    }
    assert Merkle(h, s[2..], 2) == h(s[2], s[3]) by {
      assert s[2..][..1] == [s[2]] && s[2..][1..] == [s[3]];
    }
  }

  /** Bytes from the last to the first. */
  function Backwards(bs: seq<Byte>): seq<Byte> {
    if bs == [] then [] else [bs[|bs| - 1]] + Backwards(bs[..|bs| - 1])
  }

  lemma BackwardsStep(x: nat, n: nat)
    requires n > 0
    ensures Backwards(Fixed(x, n)) == [x % 256] + Backwards(Fixed(x / 256, n - 1))
  {
    assert Fixed(x, n)[..n - 1] == Fixed(x / 256, n - 1);
  }

  lemma NoBytes(x: nat, bs: seq<Byte>)
    ensures bs + Backwards(Fixed(x, 0)) == bs
  {
  }

  lemma OneMoreByte(bs: seq<Byte>, d: Byte)
    ensures BigEndian(bs + [d]) == BigEndian(bs) * 256 + d
  {
    hide Pow2;
    assert (bs + [d])[..|bs|] == bs;
  }

  lemma {:induction false} ReversedIsBackwards(x: nat, n: nat, bs: seq<Byte>)
    ensures Reversed(x, n, BigEndian(bs)) == BigEndian(bs + Backwards(Fixed(x, n)))
    decreases n
  {
    hide BigEndian, Backwards, Fixed;
    if n == 0 {
      NoBytes(x, bs);
    } else {
      var more, rest := bs + [x % 256], Backwards(Fixed(x / 256, n - 1));
      OneMoreByte(bs, x % 256);
      ReversedIsBackwards(x / 256, n - 1, more);
      BackwardsStep(x, n);
      assert more + rest == bs + ([x % 256] + rest);
    }
  }

  lemma NumberBackwards(x: nat, n: nat)
    ensures Reversed(x, n, 0) == BigEndian(Backwards(Fixed(x, n)))
  {
    hide Backwards, Fixed;
    ReversedIsBackwards(x, n, []);
    assert [] + Backwards(Fixed(x, n)) == Backwards(Fixed(x, n));
  }

  /** Reverses the 32 bytes of a word; for 64-bit numbers this is the prover's little-endian encoding. */
  method EncodeLittleEndian(x: Bytes32) returns (res: Bytes32)
    ensures res == Reversed(x, 32, 0) == BigEndian(Backwards(Fixed(x, 32)))
    ensures x < TWO_64 ==> res == UintToHash(x)
  {
    hide Backwards, Fixed, BigEndian;
    res := 0;
    var rest: nat := x;
    for i := 0 to 32
      invariant res < Pow2(8 * i)
      invariant Reversed(rest, 32 - i, res) == Reversed(x, 32, 0)
    {
      Pow2Step(i + 1);
      FitsWord(i + 1);
      res := res * 256 + rest % 256;
      rest := rest / 256;
    }
    NumberBackwards(x, 32);
    if x < TWO_64 {
      Pow2Of64();
      ReversedPadded(x, 8, 24, 0);
      Pow2Of192();
    }
  }

  lemma FitsWord(i: nat)
    requires i <= 32
    ensures Pow2(8 * i) <= TWO_256
  {
    Pow2Of256();
    Pow2Add(8 * i, 256 - 8 * i);
    MulMono(1, Pow2(256 - 8 * i), Pow2(8 * i));
  }

  lemma Pow2Of192()
    ensures Pow2(192) == 0x1_0000_0000_0000_0000_0000_0000_0000_0000_0000_0000_0000_0000
  {
    Pow2Of64();
    Pow2Add(64, 64);
    Pow2Add(128, 64);
  }

  lemma {:induction false} ReversedPadded(x: nat, n: nat, k: nat, acc: nat)
    requires x < Pow2(8 * n)
    ensures Reversed(x, n + k, acc) == Reversed(x, n, acc) * Pow2(8 * k)
    decreases n
  {
    if n == 0 {
      ReversedZero(k, acc);
    } else {
      Pow2Step(n);
      ReversedPadded(x / 256, n - 1, k, acc * 256 + x % 256);
    }
  }

  lemma {:induction false} ReversedZero(k: nat, acc: nat)
    ensures Reversed(0, k, acc) == acc * Pow2(8 * k)
    decreases k
  {
    if k > 0 {
      ReversedZero(k - 1, acc * 256);
      Pow2Step(k);
      assert (acc * 256) * Pow2(8 * (k - 1)) == acc * (256 * Pow2(8 * (k - 1)));
    }
  }

  lemma {:induction false} ReversedInjective(x: nat, y: nat, n: nat, a: nat, b: nat)
    requires x < Pow2(8 * n) && y < Pow2(8 * n) && Reversed(x, n, a) == Reversed(y, n, b)
    ensures x == y && a == b
    decreases n
  {
    if n > 0 {
      Pow2Step(n);
      ReversedInjective(x / 256, y / 256, n - 1, a * 256 + x % 256, b * 256 + y % 256);
    }
  }

  /** The six pairs hashed for a header root. */
  ghost function HeaderPairs(h: PairHash, b: Header): seq<(Bytes32, Bytes32)> {
    var numbers, roots := (UintToHash(b.slot), UintToHash(b.proposerIndex)), (b.parentRoot, b.stateRoot);
    var left, right := (h(numbers.0, numbers.1), h(roots.0, roots.1)), (h(b.bodyRoot, 0), h(0, 0));
    [(h(left.0, left.1), h(right.0, right.1)), left, right, numbers, roots, (b.bodyRoot, 0)]
  }

  /** Headers with the same root are the same, short of a collision. */
  lemma HeaderRootBinds(h: PairHash, a: Header, b: Header)
    requires HeaderRoot(h, a) == HeaderRoot(h, b) && NoCollision(h, HeaderPairs(h, a), HeaderPairs(h, b))
    ensures a == b
  {
    hide UintToHash;
    var s, t := HeaderPairs(h, a), HeaderPairs(h, b);
    assert s[0] in s && s[1] in s && s[2] in s && s[3] in s && s[4] in s && s[5] in s;
    assert t[0] in t && t[1] in t && t[2] in t && t[3] in t && t[4] in t && t[5] in t;
    assert s[0] == t[0];
    assert s[1] == t[1] && s[2] == t[2];
    assert s[3] == t[3] && s[4] == t[4] && s[5] == t[5];
    SameNumber(a.slot, b.slot);
    SameNumber(a.proposerIndex, b.proposerIndex);
  }

  lemma SameNumber(x: Uint64, y: Uint64)
    requires UintToHash(x) == UintToHash(y)
    ensures x == y
  {
    Pow2Of64();
    ReversedInjective(x, y, 8, 0, 0);
  }

  // ---------------------------------------------------------------- updates

  datatype Update = Update(forkVersion: nat, signatureSlot: Uint64, attested: Header, finalized: Header,
                           finalityBranch: seq<Bytes32>, signature: Signature, bitList: seq<Bytes32>, aggregate: Point,
                           missed: seq<Point>,
                           decommitments: seq<Bytes32>, committeeBranch: seq<Bytes32>)

  predicate HasFinality(u: Update) {
    |u.finalityBranch| > 0
  }

  /** The header an update is about. */
  function Active(u: Update): Header {
    if HasFinality(u) then u.finalized else u.attested
  }

  function Signatures(u: Update): int {
    SYNC_COMMITTEE_SIZE - |u.missed|
  }

  function Period(slot: nat): nat {
    slot / SLOTS_PER_SYNC_COMMITTEE_PERIOD
  }

  /** Index of the committee that signs in a slot, seen from the state of the head. */
  function CommitteeIndex(head: nat, signatureSlot: nat): Option<nat> {
    if Period(signatureSlot) == Period(head) then Some(CURRENT_SYNC_COMMITTEE_INDEX)
    else if Period(signatureSlot) == Period(head) + 1 then Some(NEXT_SYNC_COMMITTEE_INDEX)
    else None
  }

  /** A finalized header is proved by the state of the attested one. */
  predicate FinalityProved(c: Crypto, u: Update) {
    if HasFinality(u) then
      RestoreRoot(c.h, HeaderRoot(c.h, u.finalized), FINALIZED_ROOT_INDEX, u.finalityBranch)
        == Some(u.attested.stateRoot)
    else u.finalized.slot == 0
  }

  /** The root of the sync committee container, restored from the keys that did not sign. */
  function CommitteeRoot(c: Crypto, u: Update): Option<Bytes32>
    requires |u.bitList| == BIT_LIST_WORDS
  {
    var indices := AllMissingDown(SignedWords(u.bitList));
    if |u.missed| != |indices| then None
    else
      var keysRoot :- Root(Reconstruct(c.h, indices, HashAll(c.keyHash, u.missed), u.decommitments));
      Some(c.h(keysRoot, c.pointHash(AddAll(c.add, u.aggregate, u.missed))))
  }

  predicate CommitteeProved(c: Crypto, stateRoot: Bytes32, index: nat, u: Update)
    requires |u.bitList| == BIT_LIST_WORDS
  {
    var root := CommitteeRoot(c, u);
    root.Some? && RestoreRoot(c.h, root.value, index, u.committeeBranch) == Some(stateRoot)
  }

  function SignRoot(c: Crypto, u: Update): Bytes32 {
    c.h(HeaderRoot(c.h, u.attested), c.domain(u.forkVersion))
  }

  /** What is signed is the SSZ root of the container of object root and domain. */
  lemma SignRootIsTreeRoot(c: Crypto, u: Update)
    ensures var t := MerkleTree(false, 0, 2, [HeaderRoot(c.h, u.attested), c.domain(u.forkVersion)]);
            WellFormed(t) && SignRoot(c, u) == Hash(c.h, t)
  {
    hide HeaderRoot;
    TwoLeaves(c.h, HeaderRoot(c.h, u.attested), c.domain(u.forkVersion));
  }

  lemma TwoLeaves(h: PairHash, x: Bytes32, y: Bytes32)
    ensures IsPow2(2) && Merkle(h, [x, y], 2) == h(x, y)
  {
    assert IsPow2(1) && [x, y][..1] == [x] && [x, y][1..] == [y];
  }

  /** Everything about an update that does not depend on the clock: it is proved against a header and signed. */
  predicate Verified(c: Crypto, slot: nat, stateRoot: Bytes32, u: Update) {
    && |u.bitList| == BIT_LIST_WORDS
    && Active(u).slot > slot
    && CommitteeIndex(slot, u.signatureSlot).Some?
    && FinalityProved(c, u)
    && Signatures(u) >= MIN_SYNC_COMMITTEE_PARTICIPANTS
    && CommitteeProved(c, stateRoot, CommitteeIndex(slot, u.signatureSlot).value, u)
    && c.verify(SignRoot(c, u), u.aggregate, u.signature)
  }

  // ---------------------------------------------------------------- the state machine

  datatype StoredHeader = StoredHeader(root: Bytes32, stateRoot: Bytes32)

  datatype BestUpdate = BestUpdate(slot: Uint64, signatures: Uint64, timeout: Uint64, root: Bytes32, stateRoot: Bytes32)

  datatype Config = Config(crypto: Crypto, genesisTime: nat, updateTimeout: nat)

  datatype State = State(head: nat, headers: map<nat, StoredHeader>, best: BestUpdate)

  function StateRootAt(s: State, slot: nat): Bytes32 {
    if slot in s.headers then s.headers[slot].stateRoot else 0
  }

  /** None before genesis, where the subtraction underflows. */
  function CurSlot(g: Config, now: nat): Option<nat> {
    if now < g.genesisTime then None else Some((now - g.genesisTime) / SECONDS_PER_SLOT)
  }

  function Compact(c: Crypto, u: Update): StoredHeader {
    StoredHeader(HeaderRoot(c.h, Active(u)), Active(u).stateRoot)
  }

  function SetHead(s: State, slot: nat, header: StoredHeader): State {
    s.(head := slot, headers := s.headers[slot := header])
  }

  function SetCandidate(g: Config, s: State, now: nat, slot: Uint64, header: StoredHeader, signatures: Uint64): State {
    s.(best := BestUpdate(slot, signatures, (now + g.updateTimeout) % TWO_64, header.root, header.stateRoot))
  }

  /** Two thirds of the committee and a finality proof move the head at once. */
  predicate MovesHead(u: Update) {
    3 * Signatures(u) >= 2 * SYNC_COMMITTEE_SIZE && HasFinality(u)
  }

  /** step: None is a revert. */
  function StepSpec(g: Config, s: State, now: nat, u: Update): Option<State> {
    var cur :- CurSlot(g, now);
    if !Verified(g.crypto, s.head, StateRootAt(s, s.head), u) || Active(u).slot > cur then None
    else if MovesHead(u) then Some(SetHead(s, Active(u).slot, Compact(g.crypto, u)))
    else if s.best.slot > s.head && Signatures(u) <= s.best.signatures then None
    else Some(SetCandidate(g, s, now, Active(u).slot, Compact(g.crypto, u), Signatures(u)))
  }

  /** applyCandidate: None is a revert. */
  function ApplySpec(g: Config, s: State, now: nat): Option<State> {
    var cur :- CurSlot(g, now);
    if || s.best.slot <= s.head || s.best.root == 0
       || cur <= s.best.slot + SLOTS_PER_SYNC_COMMITTEE_PERIOD || s.best.timeout >= now then None
    else Some(SetHead(s, s.best.slot, StoredHeader(s.best.root, s.best.stateRoot)))
  }

  class BeaconLightClient {
    const g: Config
    var head: nat
    var headers: map<nat, StoredHeader>
    var bestValidUpdate: BestUpdate

    function Contents(): State
      reads this
    {
      State(head, headers, bestValidUpdate)
    }

    constructor (config: Config, start: Header)
      ensures g == config && Contents() == Initial(config, start)
    {
      g := config;
      head := start.slot;
      headers := map[start.slot := StoredHeader(HeaderRoot(config.crypto.h, start), start.stateRoot)];
      bestValidUpdate := BestUpdate(0, 0, 0, 0, 0);
    }

    method Step(u: Update, now: nat) returns (ok: bool)
      requires |u.bitList| == BIT_LIST_WORDS
      modifies this
      ensures ok <==> StepSpec(g, old(Contents()), now, u).Some?
      ensures Contents() == if ok then StepSpec(g, old(Contents()), now, u).value else old(Contents())
    {
      hide Verified, HeaderRoot;
      var active := Active(u);
      if now < g.genesisTime || active.slot > (now - g.genesisTime) / SECONDS_PER_SLOT {
        return false;
      }
      ok := VerifyUpdate(g.crypto, head, if head in headers then headers[head].stateRoot else 0, u);
      if !ok {
        return;
      }
      var count, root := SYNC_COMMITTEE_SIZE - |u.missed|, HeaderRoot(g.crypto.h, active);
      VerifiedCount(g.crypto, head, StateRootAt(Contents(), head), u);
      if 3 * count >= 2 * SYNC_COMMITTEE_SIZE && HasFinality(u) {
        head := active.slot;
        headers := headers[active.slot := StoredHeader(root, active.stateRoot)];
      } else {
        if bestValidUpdate.slot > head && count <= bestValidUpdate.signatures {
          return false;
        }
        bestValidUpdate := BestUpdate(active.slot, count, (now + g.updateTimeout) % TWO_64, root, active.stateRoot);
      }
    }

    method ApplyCandidate(now: nat) returns (ok: bool)
      modifies this
      ensures ok <==> ApplySpec(g, old(Contents()), now).Some?
      ensures Contents() == if ok then ApplySpec(g, old(Contents()), now).value else old(Contents())
    {
      var slot := bestValidUpdate.slot;
      var header := StoredHeader(bestValidUpdate.root, bestValidUpdate.stateRoot);
      if slot <= head || header.root == 0 || now < g.genesisTime {
        return false;
      }
      if (now - g.genesisTime) / SECONDS_PER_SLOT <= slot + SLOTS_PER_SYNC_COMMITTEE_PERIOD
        || bestValidUpdate.timeout >= now {
        return false;
      }
      head := slot;
      headers := headers[slot := header];
      return true;
    }
  }

  lemma VerifiedCount(c: Crypto, slot: nat, stateRoot: Bytes32, u: Update)
    requires Verified(c, slot, stateRoot, u)
    ensures MIN_SYNC_COMMITTEE_PARTICIPANTS <= Signatures(u) <= SYNC_COMMITTEE_SIZE && Active(u).slot > slot
  {
  }

  /** The checks of step that do not look at the clock; each failing one is a revert. */
  method VerifyUpdate(c: Crypto, slot: nat, stateRoot: Bytes32, u: Update) returns (ok: bool)
    requires |u.bitList| == BIT_LIST_WORDS
    ensures ok == Verified(c, slot, stateRoot, u)
  {
    hide CommitteeProved;
    if !HasFinality(u) && u.finalized.slot != 0 {
      return false;
    }
    var active := if HasFinality(u) then u.finalized else u.attested;
    var index := CommitteeIndex(slot, u.signatureSlot);
    if active.slot <= slot || index == None {
      return false;
    }
    if HasFinality(u) {
      var restored := RestoreMerkleRoot(c.h, HeaderRoot(c.h, u.finalized), FINALIZED_ROOT_INDEX, u.finalityBranch);
      if restored != Some(u.attested.stateRoot) {
        return false;
      }
    }
    if SYNC_COMMITTEE_SIZE - |u.missed| < MIN_SYNC_COMMITTEE_PARTICIPANTS {
      return false;
    }
    ok := VerifyCommittee(c, u, index.value, stateRoot);
    ok := ok && c.verify(c.h(HeaderRoot(c.h, u.attested), c.domain(u.forkVersion)), u.aggregate, u.signature);
  }

  /** Restores the committee's root and compares it with the one in the head's state. */
  method VerifyCommittee(c: Crypto, u: Update, index: nat, stateRoot: Bytes32) returns (ok: bool)
    requires |u.bitList| == BIT_LIST_WORDS
    ensures ok == CommitteeProved(c, stateRoot, index, u)
  {
    var aggregated, indices, leaves, sum := AggregateMissingPubkeys(c.add, c.keyHash, u.missed, u.aggregate, u.bitList);
    if !aggregated {
      return false;
    }
    var keysRoot := RestoreMerkleMultiRoot(c.h, indices, leaves, u.decommitments);
    if keysRoot == None {
      return false;
    }
    var root := RestoreMerkleRoot(c.h, c.h(keysRoot.value, c.pointHash(sum)), index, u.committeeBranch);
    return root == Some(stateRoot);
  }

  function Initial(g: Config, start: Header): State {
    State(start.slot, map[start.slot := StoredHeader(HeaderRoot(g.crypto.h, start), start.stateRoot)],
          BestUpdate(0, 0, 0, 0, 0))
  }

  // ---------------------------------------------------------------- runs

  datatype Call = DoStep(update: Update, now: nat) | DoApply(now: nat)

  /**
   * A state; since the candidate was last stale: the signature counts of the candidates accepted and of all updates
   * offered; and when the candidate was set.
   */
  datatype History = History(s: State, counts: seq<nat>, offered: seq<nat>, since: nat)

  function Outcome(g: Config, s: State, call: Call): Option<State> {
    match call
    case DoStep(u, now) => StepSpec(g, s, now, u)
    case DoApply(now) => ApplySpec(g, s, now)
  }

  /** An update that is verified and in time. */
  predicate Timely(g: Config, s: State, now: nat, u: Update) {
    && Verified(g.crypto, s.head, StateRootAt(s, s.head), u)
    && now >= g.genesisTime && Active(u).slot <= (now - g.genesisTime) / SECONDS_PER_SLOT
  }

  /** A call with such an update that does not move the head, whether the contract accepts it or not. */
  predicate Offers(g: Config, s: State, call: Call) {
    call.DoStep? && Timely(g, s, call.now, call.update) && !MovesHead(call.update)
  }

  /** A candidate is pending while it is ahead of the head. */
  predicate Pending(s: State) {
    s.best.slot > s.head
  }

  function Noted(s: State, counts: seq<nat>, n: nat): seq<nat> {
    if Pending(s) then counts + [n] else [n]
  }

  /** One call; a reverted one changes nothing. */
  function Advance(g: Config, y: History, call: Call): History {
    var t := Outcome(g, y.s, call);
    if !Offers(g, y.s, call) then y.(s := if t.Some? then t.value else y.s)
    else
      var n := Count(g, y.s, call);
      if t == None then y.(offered := Noted(y.s, y.offered, n))
      else History(t.value, Noted(y.s, y.counts, n), Noted(y.s, y.offered, n), call.now)
  }

  function Count(g: Config, s: State, call: Call): nat
    requires Offers(g, s, call)
  {
    VerifiedCount(g.crypto, s.head, StateRootAt(s, s.head), call.update);
    Signatures(call.update)
  }

  function Play(g: Config, y: History, calls: seq<Call>): History
    decreases |calls|
  {
    if calls == [] then y else Play(g, Advance(g, y, calls[0]), calls[1..])
  }

  function Beginning(g: Config, start: Header): History {
    History(Initial(g, start), [], [], 0)
  }

  // ---------------------------------------------------------------- the chain of trust

  /** Update u, verified against the stored header of slot p, is where (slot, header) comes from. */
  ghost predicate ComesFrom(g: Config, s: State, slot: nat, header: StoredHeader, p: nat, u: Update) {
    && p in s.headers && p < slot && Verified(g.crypto, p, s.headers[p].stateRoot, u)
    && Active(u).slot == slot && header == Compact(g.crypto, u)
  }

  ghost predicate Justified(g: Config, s: State, slot: nat, header: StoredHeader) {
    exists p, u :: ComesFrom(g, s, slot, header, p, u)
  }

  ghost predicate Trusted(g: Config, start: Header, s: State) {
    && s.head in s.headers && start.slot in s.headers && s.headers[start.slot] == Initial(g, start).headers[start.slot]
    && (forall slot | slot in s.headers :: start.slot <= slot <= s.head)
    && (forall slot | slot in s.headers && slot != start.slot :: Justified(g, s, slot, s.headers[slot]))
    && (s.best.slot != 0 ==> Justified(g, s, s.best.slot, StoredHeader(s.best.root, s.best.stateRoot)))
  }

  /** The head only grows and no stored header changes. */
  ghost predicate Extends(s: State, t: State) {
    s.head <= t.head && forall slot | slot in s.headers :: slot in t.headers && t.headers[slot] == s.headers[slot]
  }

  lemma JustifiedStays(g: Config, s: State, t: State, slot: nat, header: StoredHeader)
    requires Justified(g, s, slot, header) && Extends(s, t)
    ensures Justified(g, t, slot, header)
  {
    var p: nat, u: Update :| ComesFrom(g, s, slot, header, p, u);
    assert ComesFrom(g, t, slot, header, p, u);
  }

  /** A new head, justified before, keeps all trust. */
  lemma NewHeadTrusted(g: Config, start: Header, s: State, slot: nat, header: StoredHeader)
    requires Trusted(g, start, s) && slot > s.head && Justified(g, s, slot, header)
    ensures Trusted(g, start, SetHead(s, slot, header)) && Extends(s, SetHead(s, slot, header))
  {
    hide ComesFrom, Justified;
    var t := SetHead(s, slot, header);
    assert Extends(s, t);
    JustifiedStays(g, s, t, slot, header);
    forall k | k in t.headers && k != start.slot ensures Justified(g, t, k, t.headers[k]) {
      JustifiedStays(g, s, t, k, t.headers[k]);
    }
    if t.best.slot != 0 {
      JustifiedStays(g, s, t, t.best.slot, StoredHeader(t.best.root, t.best.stateRoot));
    }
  }

  lemma NewCandidateTrusted(g: Config, start: Header, s: State, best: BestUpdate)
    requires Trusted(g, start, s) && Justified(g, s, best.slot, StoredHeader(best.root, best.stateRoot))
    ensures Trusted(g, start, s.(best := best)) && Extends(s, s.(best := best))
  {
    var t := s.(best := best);
    forall k | k in t.headers && k != start.slot ensures Justified(g, t, k, t.headers[k]) {
      JustifiedStays(g, s, t, k, t.headers[k]);
    }
    JustifiedStays(g, s, t, best.slot, StoredHeader(best.root, best.stateRoot));
  }

  lemma CallKeepsTrust(g: Config, start: Header, s: State, call: Call)
    requires Trusted(g, start, s) && Outcome(g, s, call).Some?
    ensures Trusted(g, start, Outcome(g, s, call).value) && Extends(s, Outcome(g, s, call).value)
  {
    hide Verified, Justified;
    match call {
      case DoStep(u, now) =>
        var slot, header := Active(u).slot, Compact(g.crypto, u);
        VerifiedCount(g.crypto, s.head, StateRootAt(s, s.head), u);
        assert Justified(g, s, slot, header) by { UpdateJustifies(g, s, u); }
        if MovesHead(u) {
          NewHeadTrusted(g, start, s, slot, header);
        } else {
          NewCandidateTrusted(g, start, s, Outcome(g, s, call).value.best);
        }
      case DoApply(now) =>
        NewHeadTrusted(g, start, s, s.best.slot, StoredHeader(s.best.root, s.best.stateRoot));
    }
  }

  lemma UpdateJustifies(g: Config, s: State, u: Update)
    requires s.head in s.headers && Verified(g.crypto, s.head, StateRootAt(s, s.head), u)
    ensures Justified(g, s, Active(u).slot, Compact(g.crypto, u))
  {
    assert ComesFrom(g, s, Active(u).slot, Compact(g.crypto, u), s.head, u);
  }

  lemma {:induction false} RunKeepsTrust(g: Config, start: Header, y: History, calls: seq<Call>)
    requires Trusted(g, start, y.s)
    ensures Trusted(g, start, Play(g, y, calls).s) && Extends(y.s, Play(g, y, calls).s)
    decreases |calls|
  {
    hide Trusted, Outcome;
    if calls != [] {
      var z := Advance(g, y, calls[0]);
      if Outcome(g, y.s, calls[0]).Some? {
        CallKeepsTrust(g, start, y.s, calls[0]);
      }
      RunKeepsTrust(g, start, z, calls[1..]);
    }
  }

  /** The header of slot q was verified against that of slot p. */
  ghost predicate ProvedBy(g: Config, s: State, p: nat, q: nat) {
    q in s.headers && exists u :: ComesFrom(g, s, q, s.headers[q], p, u)
  }

  /** A chain of stored headers, each but the first verified against the one before. */
  ghost predicate TrustPath(g: Config, s: State, path: seq<nat>) {
    var n := |path|;
    n > 0 && path[n - 1] in s.headers
    && (n > 1 ==> ProvedBy(g, s, path[n - 2], path[n - 1]) && TrustPath(g, s, path[..n - 1]))
  }

  lemma {:induction false} TrustedPath(g: Config, start: Header, s: State, slot: nat) returns (path: seq<nat>)
    requires Trusted(g, start, s) && slot in s.headers
    ensures TrustPath(g, s, path) && path[0] == start.slot && path[|path| - 1] == slot
    decreases slot
  {
    hide ComesFrom;
    if slot == start.slot {
      path := [slot];
    } else {
      assert Justified(g, s, slot, s.headers[slot]);
      var p: nat, u: Update :| ComesFrom(g, s, slot, s.headers[slot], p, u);
      assert p in s.headers && p < slot by { Parent(g, s, slot, s.headers[slot], p, u); }
      var init := TrustedPath(g, start, s, p);
      path := init + [slot];
      assert path[..|path| - 1] == init;
      assert ProvedBy(g, s, p, slot);
    }
  }

  lemma Parent(g: Config, s: State, slot: nat, header: StoredHeader, p: nat, u: Update)
    requires ComesFrom(g, s, slot, header, p, u)
    ensures p in s.headers && p < slot
  {
  }

  /**
   * Chain of trust: in every run the head only grows, no stored header is ever rewritten, every stored slot lies
   * between the start and the head, and every stored header is reached from the start header by verified updates.
   */
  lemma ChainOfTrust(g: Config, start: Header, calls: seq<Call>, more: seq<Call>)
    ensures var s := Play(g, Beginning(g, start), calls).s;
            && Extends(s, Play(g, Play(g, Beginning(g, start), calls), more).s)
            && forall slot | slot in s.headers ::
                 start.slot <= slot <= s.head
                 && exists path :: TrustPath(g, s, path) && path[0] == start.slot && path[|path| - 1] == slot
  {
    hide Play, Justified, ProvedBy, HeaderRoot;
    var y := Play(g, Beginning(g, start), calls);
    RunKeepsTrust(g, start, Beginning(g, start), calls);
    RunKeepsTrust(g, start, y, more);
    forall slot | slot in y.s.headers
      ensures exists path :: TrustPath(g, y.s, path) && path[0] == start.slot && path[|path| - 1] == slot
    {
      var path := TrustedPath(g, start, y.s, slot);
    }
  }

  // ---------------------------------------------------------------- the best candidate

  ghost predicate Rising(counts: seq<nat>, lo: nat, hi: nat) {
    && (forall k | 0 <= k < |counts| :: lo <= counts[k] <= hi)
    && (forall j, k | 0 <= j < k < |counts| :: counts[j] < counts[k])
  }

  /** A list of strictly rising numbers is no longer than their range. */
  lemma {:induction false} RisingIsShort(counts: seq<nat>, lo: nat, hi: nat)
    requires Rising(counts, lo, hi)
    ensures |counts| > 0 ==> |counts| <= counts[|counts| - 1] - lo + 1
  {
    if |counts| > 1 {
      RisingIsShort(counts[..|counts| - 1], lo, hi);
    }
  }

  /** While a candidate is pending it is the last and best of those accepted, and no offered update was better. */
  ghost predicate BestSoFar(g: Config, y: History) {
    Pending(y.s) ==>
      && |y.counts| > 0 && Rising(y.counts, MIN_SYNC_COMMITTEE_PARTICIPANTS, SYNC_COMMITTEE_SIZE)
      && y.s.best.signatures == y.counts[|y.counts| - 1]
      && y.s.best.timeout == (y.since + g.updateTimeout) % TWO_64
      && y.s.best.signatures in y.offered && forall n | n in y.offered :: n <= y.s.best.signatures
  }

  lemma CallKeepsBest(g: Config, y: History, call: Call)
    requires BestSoFar(g, y)
    ensures BestSoFar(g, Advance(g, y, call))
  {
    hide Verified, Compact, HeaderRoot, Active;
    if call.DoStep? && Outcome(g, y.s, call).Some? {
      VerifiedCount(g.crypto, y.s.head, StateRootAt(y.s, y.s.head), call.update);
    }
  }

  lemma {:induction false} RunKeepsBest(g: Config, y: History, calls: seq<Call>)
    requires BestSoFar(g, y)
    ensures BestSoFar(g, Play(g, y, calls))
    decreases |calls|
  {
    hide BestSoFar, Advance;
    if calls != [] {
      CallKeepsBest(g, y, calls[0]);
      RunKeepsBest(g, Advance(g, y, calls[0]), calls[1..]);
    }
  }

  /**
   * In every run the signature count of a pending candidate is the maximum of all verified updates in time that were
   * submitted since the candidate was last stale and did not move the head, accepted or not. Each accepted one improved
   * on the one before, so there were at most 503 of them.
   */
  lemma BestCandidate(g: Config, start: Header, calls: seq<Call>)
    ensures var y := Play(g, Beginning(g, start), calls);
            Pending(y.s) ==>
              && y.s.best.signatures in y.offered && (forall n | n in y.offered :: n <= y.s.best.signatures)
              && 0 < |y.counts| <= SYNC_COMMITTEE_SIZE - MIN_SYNC_COMMITTEE_PARTICIPANTS + 1
              && Rising(y.counts, MIN_SYNC_COMMITTEE_PARTICIPANTS, SYNC_COMMITTEE_SIZE)
              && forall k | 0 <= k < |y.counts| :: y.counts[k] <= y.s.best.signatures
  {
    hide Play, Beginning, Rising;
    var y := Play(g, Beginning(g, start), calls);
    assert BestSoFar(g, y) by {
      assert BestSoFar(g, Beginning(g, start)) by { NoCandidateYet(g, start); }
      RunKeepsBest(g, Beginning(g, start), calls);
    }
    if Pending(y.s) {
      RisingIsShort(y.counts, MIN_SYNC_COMMITTEE_PARTICIPANTS, SYNC_COMMITTEE_SIZE);
      LastIsMax(y.counts, MIN_SYNC_COMMITTEE_PARTICIPANTS, SYNC_COMMITTEE_SIZE);
    }
  }

  lemma NoCandidateYet(g: Config, start: Header)
    ensures BestSoFar(g, Beginning(g, start))
  {
  }

  lemma LastIsMax(counts: seq<nat>, lo: nat, hi: nat)
    requires Rising(counts, lo, hi) && |counts| > 0
    ensures counts[|counts| - 1] <= hi && forall k | 0 <= k < |counts| :: counts[k] <= counts[|counts| - 1]
  {
    var last := |counts| - 1;
    assert counts[last] <= hi;
  }

  /**
   * What a call of step does. It goes through exactly if the update is verified, in time, and either moves the head or
   * meets no pending candidate with as many signatures. With two thirds of the committee and a finality proof the
   * finalized header becomes the head and the candidate stays; otherwise the header becomes the candidate and head and
   * headers stay.
   */
  lemma StepCases(g: Config, s: State, now: nat, u: Update)
    ensures var r := StepSpec(g, s, now, u);
            var moves := HasFinality(u) && 3 * |u.missed| <= SYNC_COMMITTEE_SIZE;
            && (r.Some? <==> Timely(g, s, now, u) && (moves || !Pending(s) || Signatures(u) > s.best.signatures))
            && (r.Some? && moves ==>
                  && r.value.head == u.finalized.slot && r.value.best == s.best
                  && r.value.headers == s.headers[u.finalized.slot := StoredHeader(HeaderRoot(g.crypto.h, u.finalized),
                                                                                   u.finalized.stateRoot)])
            && (r.Some? && !moves ==>
                  && r.value.head == s.head && r.value.headers == s.headers && Pending(r.value)
                  && r.value.best.signatures == SYNC_COMMITTEE_SIZE - |u.missed|
                  && var b := if u.finalityBranch == [] then u.attested else u.finalized;
                     r.value.best == BestUpdate(b.slot, r.value.best.signatures, (now + g.updateTimeout) % TWO_64,
                                                HeaderRoot(g.crypto.h, b), b.stateRoot))
  {
    hide Verified, HeaderRoot;
    if Verified(g.crypto, s.head, StateRootAt(s, s.head), u) {
      VerifiedCount(g.crypto, s.head, StateRootAt(s, s.head), u);
    }
  }

  /**
   * The 64-bit timeout enforces the waiting time exactly when it does not wrap around: then, and only then, every
   * time at which it has passed lies more than UPDATE_TIMEOUT after the candidate was set.
   */
  lemma TimeoutWaits(g: Config, since: nat)
    ensures (forall now :: WaitedOut(g, since, now)) <==> since + g.updateTimeout < TWO_64
  {
    if since + g.updateTimeout >= TWO_64 {
      assert !WaitedOut(g, since, if since > TWO_64 then since else TWO_64);
    }
  }

  /** If the stored timeout of a candidate set at `since` has passed, UPDATE_TIMEOUT has passed. */
  ghost predicate WaitedOut(g: Config, since: nat, now: nat) {
    since <= now && (since + g.updateTimeout) % TWO_64 < now ==> now - since > g.updateTimeout
  }

  /** With a waiting time close to 2^64 seconds, a candidate for slot 1 is applied in the second it is set in. */
  lemma WrappedTimeoutPasses(c: Crypto)
    ensures var g, header := Config(c, 0, TWO_64 - 30_000), StoredHeader(5, 6);
            var s := SetCandidate(g, State(0, map[], BestUpdate(0, 0, 0, 0, 0)), 30_000, 1, header, 10);
            ApplySpec(g, s, 30_000) == Some(SetHead(s, 1, header))
  {
    assert (30_000 + (TWO_64 - 30_000)) % TWO_64 == 0;
  }

  /**
   * When a pending candidate can be applied, in every run: after it has stood for more than UPDATE_TIMEOUT since it was
   * set, unreplaced, and more than a sync committee period after its slot. It then becomes the head.
   */
  lemma CandidateApplies(g: Config, start: Header, calls: seq<Call>, now: nat)
    requires var y := Play(g, Beginning(g, start), calls);
             Pending(y.s) && y.since + g.updateTimeout < TWO_64
    ensures var y := Play(g, Beginning(g, start), calls);
            var r := ApplySpec(g, y.s, now);
            && (r.Some? <==>
                  && y.s.best.root != 0 && now > y.since + g.updateTimeout
                  && now >= g.genesisTime + SECONDS_PER_SLOT * (y.s.best.slot + SLOTS_PER_SYNC_COMMITTEE_PERIOD + 1))
            && (r.Some? ==>
                  && r.value.head == y.s.best.slot && r.value.best == y.s.best && !Pending(r.value)
                  && r.value.headers
                     == y.s.headers[y.s.best.slot := StoredHeader(y.s.best.root, y.s.best.stateRoot)])
  {
    hide Play;
    RunKeepsBest(g, Beginning(g, start), calls);
    assert BestSoFar(g, Play(g, Beginning(g, start), calls));
  }

  // ---------------------------------------------------------------- what a verified update means

  /** The sync committee container in a beacon state: the tree of key hashes and the hash of the aggregate key. */
  function CommitteeContainer(c: Crypto, keys: seq<Point>): Bytes32
    requires |keys| == SYNC_COMMITTEE_SIZE
  {
    c.h(KeysRoot(c.h, c.keyHash, keys), c.pointHash(KeySum(c.add, keys, |keys|)))
  }

  /** It is the SSZ root of a container of the two. */
  lemma ContainerIsTreeRoot(c: Crypto, keys: seq<Point>)
    requires |keys| == SYNC_COMMITTEE_SIZE
    ensures var keysRoot, aggregate := KeysRoot(c.h, c.keyHash, keys), c.pointHash(KeySum(c.add, keys, |keys|));
            var t := MerkleTree(false, 0, 2, [keysRoot, aggregate]);
            WellFormed(t) && CommitteeContainer(c, keys) == Hash(c.h, t)
  {
    hide KeysRoot, KeySum;
    TwoLeaves(c.h, KeysRoot(c.h, c.keyHash, keys), c.pointHash(KeySum(c.add, keys, |keys|)));
  }

  /** The committee of which a state root commits to the keys, under the generalized index of its container. */
  ghost predicate Commits(c: Crypto, stateRoot: Bytes32, index: nat, keys: seq<Point>, branch: seq<Bytes32>)
    requires |keys| == SYNC_COMMITTEE_SIZE
  {
    RestoreRoot(c.h, CommitteeContainer(c, keys), index, branch) == Some(stateRoot)
  }

  /** The hashes computed for the update collide neither with those of the committee's commitment nor with its keys. */
  ghost predicate NoCollisions(c: Crypto, index: nat, keys: seq<Point>, branch: seq<Bytes32>, u: Update)
    requires |keys| == SYNC_COMMITTEE_SIZE && |u.bitList| == BIT_LIST_WORDS && CommitteeRoot(c, u).Some?
  {
    var indices := AllMissingDown(SignedWords(u.bitList));
    var sum, keySum := AddAll(c.add, u.aggregate, u.missed), KeySum(c.add, keys, |keys|);
    var keysRoot := KeysRoot(c.h, c.keyHash, keys);
    var restored := Root(Reconstruct(c.h, indices, HashAll(c.keyHash, u.missed), u.decommitments)).value;
    && NoCollision(c.h, Hashed(c.h, CommitteeRoot(c, u).value, index, u.committeeBranch),
                        Hashed(c.h, CommitteeContainer(c, keys), index, branch))
    && NoCollision(c.h, [(restored, c.pointHash(sum))], [(keysRoot, c.pointHash(keySum))])
    && (c.pointHash(sum) == c.pointHash(keySum) ==> sum == keySum)
    && NoKeyClash(c.keyHash, keys, u.missed)
    && (u.missed != [] ==>
          NoClash(c.h, HashAll(c.keyHash, keys), SYNC_COMMITTEE_SIZE,
                  WalkHashed(c.h, indices, HashAll(c.keyHash, u.missed), u.decommitments)))
  }

  /**
   * A verified update was signed: if the state root it was checked against commits to a committee's keys, the
   * aggregate key is the sum of exactly those members' keys whose bits are set, at least ten of them, and the
   * signature over the attested header verifies under it.
   */
  lemma VerifiedUpdateIsSigned(c: Crypto, slot: nat, stateRoot: Bytes32, u: Update, keys: seq<Point>,
                               branch: seq<Bytes32>)
    requires Verified(c, slot, stateRoot, u) && |keys| == SYNC_COMMITTEE_SIZE
    requires CommutativeSemigroup(c.add) && Cancels(c.add)
    requires Commits(c, stateRoot, CommitteeIndex(slot, u.signatureSlot).value, keys, branch)
    requires NoCollisions(c, CommitteeIndex(slot, u.signatureSlot).value, keys, branch, u)
    ensures AllSignersSum(c.add, keys, SignedWords(u.bitList)) == Some(u.aggregate)
    ensures c.verify(SignRoot(c, u), u.aggregate, u.signature)
    ensures |AllMissingDown(SignedWords(u.bitList))| <= SYNC_COMMITTEE_SIZE - MIN_SYNC_COMMITTEE_PARTICIPANTS
  {
    var index := CommitteeIndex(slot, u.signatureSlot).value;
    var indices := AllMissingDown(SignedWords(u.bitList));
    SizeIsPow2();
    BranchBinds(c.h, CommitteeRoot(c, u).value, CommitteeContainer(c, keys), index, u.committeeBranch, branch);
    var restored := Root(Reconstruct(c.h, indices, HashAll(c.keyHash, u.missed), u.decommitments)).value;
    var keysRoot := KeysRoot(c.h, c.keyHash, keys);
    var a, b := c.pointHash(AddAll(c.add, u.aggregate, u.missed)), c.pointHash(KeySum(c.add, keys, |keys|));
    assert (restored, a) in [(restored, a)] && (keysRoot, b) in [(keysRoot, b)];
    AggregateIsSignersSum(c.h, c.add, c.keyHash, keys, SignedWords(u.bitList), u.aggregate, u.missed, u.decommitments);
  }
}
