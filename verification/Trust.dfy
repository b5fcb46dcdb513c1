/** What the light client is for: as long as committees sign headers of the real chain only, it stores no others. */
module Trust {
  import opened Words
  import opened Branches
  import opened SyncCommittee
  import opened LightClient
  import opened Updates
  import B = BeaconProofs

  /**
   * The chain that is followed: which headers belong to it, and of each its state, the committees of the current and
   * the next period and, once there is one, the finalized header.
   */
  datatype Truth = Truth(canonical: Header -> bool, state: Header -> B.BeaconState, current: Header -> seq<Point>,
                         next: Header -> seq<Point>, epoch: Header -> Bytes32, finalized: Header -> Option<Header>)

  function Members(t: Truth, b: Header, index: nat): seq<Point> {
    if index == CURRENT_SYNC_COMMITTEE_INDEX then t.current(b) else t.next(b)
  }

  function CheckpointRoot(h: PairHash, f: Option<Header>): Bytes32 {
    if f.Some? then HeaderRoot(h, f.value) else 0
  }

  /** The state of a real header is what its state root says, and the finalized header is a real one. */
  ghost predicate Described(c: Crypto, p: B.Spec, t: Truth, b: Header) {
    var s := t.state(b);
    && B.ValidState(p, s) && b.stateRoot == B.StateRoot(c.h, p, s)
    && |t.current(b)| == SYNC_COMMITTEE_SIZE && |t.next(b)| == SYNC_COMMITTEE_SIZE
    && s.fields[CURRENT_SYNC_COMMITTEE_FIELD] == CommitteeContainer(c, t.current(b))
    && s.fields[NEXT_SYNC_COMMITTEE_FIELD] == CommitteeContainer(c, t.next(b))
    && s.fields[FINALIZED_CHECKPOINT_FIELD] == c.h(t.epoch(b), CheckpointRoot(c.h, t.finalized(b)))
    && (t.finalized(b).Some? ==> t.canonical(t.finalized(b).value))
  }

  /** A good signature of ten or more members of a real header's committee is on a real header. */
  ghost predicate HonestlySigned(c: Crypto, t: Truth) {
    forall b: Header, index: nat, u: Update |
      && t.canonical(b) && |Members(t, b, index)| == SYNC_COMMITTEE_SIZE && |u.bitList| == BIT_LIST_WORDS
      && AllSignersSum(c.add, Members(t, b, index), SignedWords(u.bitList)) == Some(u.aggregate)
      && |AllMissingDown(SignedWords(u.bitList))| <= SYNC_COMMITTEE_SIZE - MIN_SYNC_COMMITTEE_PARTICIPANTS
      && c.verify(SignRoot(c, u), u.aggregate, u.signature) ::
      t.canonical(u.attested)
  }

  ghost predicate Followed(c: Crypto, p: B.Spec, t: Truth) {
    && CommutativeSemigroup(c.add) && Cancels(c.add) && HonestlySigned(c, t)
    && forall b | t.canonical(b) :: Described(c, p, t, b)
  }

  /** The hashes of an update collide neither with those of the committees nor of its checkpoint. */
  ghost predicate Clear(c: Crypto, p: B.Spec, t: Truth, u: Update) {
    && (forall b | t.canonical(b) :: ClearCommittee(c, p, t, b, CURRENT_SYNC_COMMITTEE_INDEX, u)
                                && ClearCommittee(c, p, t, b, NEXT_SYNC_COMMITTEE_INDEX, u))
    && (t.canonical(u.attested) ==> ClearCheckpoint(c, p, t, u))
  }

  ghost predicate ClearCommittee(c: Crypto, p: B.Spec, t: Truth, b: Header, index: nat, u: Update)
    requires 32 <= index < 57
  {
    B.ValidState(p, t.state(b)) && |u.bitList| == BIT_LIST_WORDS && CommitteeRoot(c, u).Some?
    && |Members(t, b, index)| == SYNC_COMMITTEE_SIZE ==>
      NoCollisions(c, index, Members(t, b, index), B.FieldPath(c.h, p, t.state(b), index - 32), u)
  }

  ghost predicate ClearCheckpoint(c: Crypto, p: B.Spec, t: Truth, u: Update) {
    var s, f := t.state(u.attested), t.finalized(u.attested);
    B.ValidState(p, s) ==>
      && NoFinalityCollision(c, p, s, t.epoch(u.attested), CheckpointRoot(c.h, f), u)
      && if f == None then HeaderRoot(c.h, u.finalized) != 0
         else NoCollision(c.h, HeaderPairs(c.h, u.finalized), HeaderPairs(c.h, f.value))
  }

  // ---------------------------------------------------------------- one update

  /** The committee that an update is checked against is in the state of the head's header. */
  lemma CommitteeIsCommitted(c: Crypto, p: B.Spec, t: Truth, b: Header, index: nat)
    requires Described(c, p, t, b)
    requires index == CURRENT_SYNC_COMMITTEE_INDEX || index == NEXT_SYNC_COMMITTEE_INDEX
    ensures Commits(c, b.stateRoot, index, Members(t, b, index), B.FieldPath(c.h, p, t.state(b), index - 32))
  {
    hide B.StateRoot, B.FieldPath, CommitteeContainer, RestoreRoot, HeaderRoot;
    B.FieldProved(c.h, p, t.state(b), index - 32);
  }

  /** What was verified against a real header was signed by its committee, so the attested header is real. */
  lemma AttestedIsReal(c: Crypto, p: B.Spec, t: Truth, b: Header, slot: nat, u: Update)
    requires Followed(c, p, t) && Clear(c, p, t, u) && t.canonical(b) && Verified(c, slot, b.stateRoot, u)
    ensures t.canonical(u.attested)
  {
    hide Described, B.StateRoot, B.FieldPath, NoCollisions, RestoreRoot, HeaderRoot, CommitteeRoot, Commits, SignerSum,
         SignRoot, FinalityProved, AllMissingDown, ClearCheckpoint;
    var index := CommitteeIndex(slot, u.signatureSlot).value;
    MembersOf(c, p, t, b, index);
    CommitteeIsCommitted(c, p, t, b, index);
    assert ClearCommittee(c, p, t, b, index, u);
    VerifiedUpdateIsSigned(c, slot, b.stateRoot, u, Members(t, b, index),
                           B.FieldPath(c.h, p, t.state(b), index - 32));
  }

  lemma MembersOf(c: Crypto, p: B.Spec, t: Truth, b: Header, index: nat)
    requires Described(c, p, t, b)
    ensures |Members(t, b, index)| == SYNC_COMMITTEE_SIZE && B.ValidState(p, t.state(b))
  {
    hide B.StateRoot, B.ValidState;
  }

  /** So the header that the update is about is real, too. */
  lemma ActiveIsReal(c: Crypto, p: B.Spec, t: Truth, b: Header, slot: nat, u: Update)
    requires Followed(c, p, t) && Clear(c, p, t, u) && t.canonical(b) && Verified(c, slot, b.stateRoot, u)
    ensures t.canonical(Active(u))
  {
    hide B.StateRoot, HeaderRoot, HeaderPairs, NoFinalityCollision, Verified, ClearCommittee, HonestlySigned,
         CommitteeContainer, B.ValidState;
    AttestedIsReal(c, p, t, b, slot, u);
    if HasFinality(u) {
      var a := u.attested;
      assert Described(c, p, t, a) && ClearCheckpoint(c, p, t, u);
      FinalityBinds(c, p, slot, b.stateRoot, u, t.state(a), t.epoch(a), CheckpointRoot(c.h, t.finalized(a)));
      if t.finalized(a).Some? {
        HeaderRootBinds(c.h, u.finalized, t.finalized(a).value);
      }
    }
  }

  // ---------------------------------------------------------------- every run

  /** What is stored for a slot is the root and the state root of a real header of that slot. */
  ghost predicate Known(c: Crypto, t: Truth, slot: nat, header: StoredHeader) {
    exists b: Header :: t.canonical(b) && b.slot == slot && header == StoredHeader(HeaderRoot(c.h, b), b.stateRoot)
  }

  ghost predicate AllKnown(c: Crypto, t: Truth, s: State) {
    && s.head in s.headers && (forall slot | slot in s.headers :: Known(c, t, slot, s.headers[slot]))
    && (s.best.slot != 0 ==> Known(c, t, s.best.slot, StoredHeader(s.best.root, s.best.stateRoot)))
  }

  ghost predicate ClearCall(c: Crypto, p: B.Spec, t: Truth, call: Call) {
    call.DoStep? ==> Clear(c, p, t, call.update)
  }

  lemma CallKeepsKnown(g: Config, p: B.Spec, t: Truth, s: State, call: Call)
    requires Followed(g.crypto, p, t) && ClearCall(g.crypto, p, t, call) && AllKnown(g.crypto, t, s)
    requires Outcome(g, s, call).Some?
    ensures AllKnown(g.crypto, t, Outcome(g, s, call).value)
  {
    hide Followed, Clear, Verified, HeaderRoot;
    match call {
      case DoStep(u, now) =>
        var b: Header :| t.canonical(b) && b.slot == s.head
                         && s.headers[s.head] == StoredHeader(HeaderRoot(g.crypto.h, b), b.stateRoot);
        ActiveIsReal(g.crypto, p, t, b, s.head, u);
        assert Known(g.crypto, t, Active(u).slot, Compact(g.crypto, u));
      case DoApply(now) =>
    }
  }

  lemma {:induction false} RunKeepsKnown(g: Config, p: B.Spec, t: Truth, y: History, calls: seq<Call>)
    requires Followed(g.crypto, p, t) && AllKnown(g.crypto, t, y.s)
    requires forall k | 0 <= k < |calls| :: ClearCall(g.crypto, p, t, calls[k])
    ensures AllKnown(g.crypto, t, Play(g, y, calls).s)
    decreases |calls|
  {
    hide Followed, ClearCall, AllKnown, Outcome;
    if calls != [] {
      if Outcome(g, y.s, calls[0]).Some? {
        CallKeepsKnown(g, p, t, y.s, calls[0]);
      }
      RunKeepsKnown(g, p, t, Advance(g, y, calls[0]), calls[1..]);
    }
  }

  /**
   * Safety of the light client. Started from a real header, it stores real headers only, as head or as candidate, in
   * every run of calls by anybody, provided that ten members of a committee never sign anything else together.
   */
  lemma OnlyRealHeaders(g: Config, p: B.Spec, t: Truth, start: Header, calls: seq<Call>)
    requires Followed(g.crypto, p, t) && t.canonical(start)
    requires forall k | 0 <= k < |calls| :: ClearCall(g.crypto, p, t, calls[k])
    ensures var s := Play(g, Beginning(g, start), calls).s;
            && (forall slot | slot in s.headers :: Known(g.crypto, t, slot, s.headers[slot]))
            && (Pending(s) ==> Known(g.crypto, t, s.best.slot, StoredHeader(s.best.root, s.best.stateRoot)))
  {
    hide Followed, ClearCall, Play, HeaderRoot;
    assert Known(g.crypto, t, start.slot, StoredHeader(HeaderRoot(g.crypto.h, start), start.stateRoot));
    RunKeepsKnown(g, p, t, Beginning(g, start), calls);
  }
}
