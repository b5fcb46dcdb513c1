/**
 * The storage route of executeMessage byte by byte: from a beacon state root down to one word of the other contract.
 */
module StorageProofs {
  import opened Bytes
  import opened Words
  import opened Branches
  import opened Rlp
  import opened Mpt
  import B = BeaconProofs
  import Bridge
  import Chain
  import Custody
  import L = LightClient

  /** Generalized index of the state root within the execution payload header of a beacon state. */
  const STATE_ROOT_INDEX: nat := (32 + 24) * 16 + 2

  // ---------------------------------------------------------------- the check

  /** Bytes that readProof returned, as an item in memory of their own. */
  function Whole(bs: seq<Byte>): Span {
    Span(|bs|, 0)
  }

  /** The storage root that the account proof shows; None is a revert. */
  function VerifiedStorageRoot(mem: Mem, h: PairHash, k: Keccak, stateRoot: Bytes32, image: Bytes32,
                               branch: seq<Bytes32>, proof: seq<Span>): Option<Bytes32> {
    if || stateRoot == 0 || proof == []
       || RestoreRoot(h, k(Content(mem, proof[0])), STATE_ROOT_INDEX, branch) != Some(stateRoot) then None
    else
      var account :- ReadFrom(mem, k, image, proof, 0, 0);
      var fields :- ListOf(account, Whole(account));
      if |fields| != 4 then None else UintOf(account, fields[2])
  }

  /** The word that the storage proof shows; None is a revert. */
  function StoredWord(mem: Mem, k: Keccak, storageRoot: Bytes32, slotKey: Bytes32, proof: seq<Span>): Option<Bytes32> {
    if proof == [] || k(Content(mem, proof[0])) != storageRoot then None
    else
      var value :- ReadFrom(mem, k, slotKey, proof, 0, 0);
      UintOf(value, Whole(value))
  }

  /** Key of sentMessages[nonce] in the storage trie; the mapping is in slot 0. */
  function SlotKey(k: Keccak, nonce: Bytes32): Bytes32 {
    k(Fixed(k(Fixed(nonce, 32) + Fixed(0, 32)), 32))
  }

  /** The two checks of executeMessage; a storage root that was cached before makes the first one superfluous. */
  method CheckMessage(mem: Mem, h: PairHash, k: Keccak, cached: Bytes32, stateRoot: Bytes32, image: Bytes32,
                      branch: seq<Bytes32>, accountProof: seq<Span>, nonce: Bytes32, storageProof: seq<Span>,
                      id: Bytes32)
    returns (storageRoot: Option<Bytes32>)
    ensures storageRoot ==
              var root := if cached != 0 then Some(cached)
                          else VerifiedStorageRoot(mem, h, k, stateRoot, image, branch, accountProof);
              if root.Some? && StoredWord(mem, k, root.value, SlotKey(k, nonce), storageProof) == Some(id) then root
              else None
  {
    hide ListOf, UintOf, ReadFrom, RestoreRoot, Content, SlotKey;
    var root := cached;
    if root == 0 {
      if stateRoot == 0 || accountProof == [] {
        return None;
      }
      var restored := RestoreMerkleRoot(h, k(Content(mem, accountProof[0])), STATE_ROOT_INDEX, branch);
      if restored != Some(stateRoot) {
        return None;
      }
      var account := ReadProof(mem, k, image, accountProof);
      if account == None {
        return None;
      }
      var fields := ToList(account.value, Whole(account.value));
      if fields == None || |fields.value| != 4 {
        return None;
      }
      var word := UintOf(account.value, fields.value[2]);
      if word == None {
        return None;
      }
      root := word.value;
    }
    if storageProof == [] || root != k(Content(mem, storageProof[0])) {
      return None;
    }
    var value := ReadProof(mem, k, SlotKey(k, nonce), storageProof);
    if value == None || UintOf(value.value, Whole(value.value)) != Some(id) {
      return None;
    }
    storageRoot := Some(root);
  }

  // ---------------------------------------------------------------- the other chain's state

  datatype Account = Account(nonce: seq<Byte>, balance: seq<Byte>, storageRoot: seq<Byte>, codeHash: seq<Byte>)

  predicate ValidAccount(a: Account) {
    |a.nonce| <= 32 && |a.balance| <= 32 && |a.storageRoot| == 32 && |a.codeHash| == 32
  }

  function AccountItem(a: Account): Item {
    List([Str(a.nonce), Str(a.balance), Str(a.storageRoot), Str(a.codeHash)])
  }

  /** The state trie holds the contract's account, whose storage root is that of the storage trie. */
  ghost predicate HasAccount(k: Keccak, world: Trie, image: Bytes32, a: Account, storage: Trie) {
    && WellFormedTrie(world) && WellFormedTrie(storage) && ValidAccount(a)
    && Lookup(world, Nibbles(image, 0)) == Some(Encode(AccountItem(a))) && a.storageRoot == HashOf(k, storage)
  }

  /** Solidity's layout: the slot of a mapping's entry is the hash of its key followed by the mapping's own slot. */
  function MappingSlot(k: Keccak, key: Bytes32, base: Bytes32): Bytes32 {
    k(Fixed(key, 32) + Fixed(base, 32))
  }

  /** A storage trie is secured: its keys are hashes of slots. */
  function TrieKey(k: Keccak, slot: Bytes32): Bytes32 {
    k(Fixed(slot, 32))
  }

  /** sentMessages, the mapping in slot 0, as the storage trie holds it. */
  ghost predicate StoresSent(k: Keccak, storage: Trie, sent: seq<Bytes32>)
    requires WellFormedTrie(storage)
  {
    |sent| < TWO_256
    && forall n: nat | n < |sent| ::
         Lookup(storage, Nibbles(TrieKey(k, MappingSlot(k, n, 0)), 0)) == Some(Encode(Str(Minimal(sent[n]))))
  }

  /** The contract computes the key under which the storage trie holds an entry of the mapping in slot 0. */
  lemma SlotKeyOfMapping(k: Keccak, nonce: Bytes32)
    ensures SlotKey(k, nonce) == TrieKey(k, MappingSlot(k, nonce, 0))
  {
  }

  /** No other word of the storage happens to be the hash of this message. */
  ghost predicate OnlySent(storage: Trie, sent: seq<Bytes32>, id: Bytes32)
    requires WellFormedTrie(storage)
  {
    forall key, v | Lookup(storage, key) == Some(v) && UintOf(v, Whole(v)) == Some(id) :: id in sent
  }

  // ---------------------------------------------------------------- accounts and words are read back

  lemma AccountEncodable(a: Account)
    requires ValidAccount(a)
    ensures Encodable(AccountItem(a)) && |Encode(AccountItem(a))| < TWO_256
  {
    var x := AccountItem(a);
    ShortBody(x, 0, 32);
    ShortLength(|Body(x, 0)|);
  }

  lemma AccountRead(a: Account)
    requires ValidAccount(a)
    ensures var bs := Encode(AccountItem(a));
            var fields := ListOf(bs, Whole(bs));
            fields.Some? && |fields.value| == 4 && UintOf(bs, fields.value[2]) == Some(BigEndian(a.storageRoot))
  {
    hide Placed, ListOf, Header, UintOf, Encodable, BigEndian;
    var x := AccountItem(a);
    var bs := Encode(x);
    AccountEncodable(a);
    WholeIsPlaced(bs);
    ListRoundTrip(bs, 0, x);
    PlacedParts(bs, 0, Header(0xc0, |Body(x, 0)|), Body(x, 0));
    ChildPlaced(bs, HeaderLength(x), x, 0, 2);
    UintRoundTrip(bs, ListOf(bs, Whole(bs)).value[2].ptr, a.storageRoot);
  }

  lemma WordRead(w: Bytes32)
    ensures var v := Encode(Str(Minimal(w))); UintOf(v, Whole(v)) == Some(w)
  {
    var v := Encode(Str(Minimal(w)));
    WholeIsPlaced(v);
    NumberRoundTrip(v, 0, w);
  }

  // ---------------------------------------------------------------- soundness

  /** A slot that the light client does not have proves nothing. */
  lemma UnknownSlotIsRefused(mem: Mem, h: PairHash, k: Keccak, client: L.State, slot: nat, image: Bytes32,
                             branch: seq<Bytes32>, proof: seq<Span>)
    requires slot !in client.headers
    ensures VerifiedStorageRoot(mem, h, k, L.StateRootAt(client, slot), image, branch, proof) == None
  {
    hide ReadFrom, RestoreRoot;
  }

  /** The path of the payload's state root in a beacon state. */
  ghost function StateRootPath(h: PairHash, p: B.Spec, s: B.BeaconState): seq<Bytes32>
    requires B.ValidState(p, s)
  {
    HonestProof(h, B.PayloadTree(s), B.STATE_ROOT).path + (B.FieldPath(h, p, s, B.PAYLOAD_FIELD) + [])
  }

  lemma StateRootProved(h: PairHash, p: B.Spec, s: B.BeaconState)
    requires B.ValidState(p, s)
    ensures RestoreRoot(h, s.payload[B.STATE_ROOT], STATE_ROOT_INDEX, StateRootPath(h, p, s))
            == Some(B.StateRoot(h, p, s))
  {
    hide B.StateRoot, B.FieldPath, HonestProof;
    B.Itself(h, B.StateRoot(h, p, s));
    B.LowerProved(h, p, s, B.STATE_ROOT, 1, [], B.StateRoot(h, p, s));
  }

  /** An accepted account proof shows the root of the contract's storage, whatever branch and nodes it consists of. */
  lemma StorageRootIsTrue(mem: Mem, h: PairHash, k: Keccak, p: B.Spec, s: B.BeaconState, world: Trie, image: Bytes32,
                          a: Account, storage: Trie, branch: seq<Bytes32>, proof: seq<Span>)
    requires B.ValidState(p, s) && s.payload[B.STATE_ROOT] == k(NodeBytes(k, world))
    requires HasAccount(k, world, image, a, storage)
    requires VerifiedStorageRoot(mem, h, k, B.StateRoot(h, p, s), image, branch, proof).Some?
    requires InMemory(proof) && NoClashes(mem, k, proof, world)
    requires NoCollision(h, Hashed(h, k(Content(mem, proof[0])), STATE_ROOT_INDEX, branch),
                         Hashed(h, s.payload[B.STATE_ROOT], STATE_ROOT_INDEX, StateRootPath(h, p, s)))
    ensures VerifiedStorageRoot(mem, h, k, B.StateRoot(h, p, s), image, branch, proof) == Some(k(NodeBytes(k, storage)))
  {
    hide B.StateRoot, StateRootPath, RestoreRoot, Hashed, NoCollision, Content, NoClashes, ReadFrom, Lookup, Nibbles,
         LeafKey, ListOf, UintOf, AccountItem, NodeBytes;
    StateRootProved(h, p, s);
    BranchBinds(h, k(Content(mem, proof[0])), s.payload[B.STATE_ROOT], STATE_ROOT_INDEX, branch,
                StateRootPath(h, p, s));
    AcceptedProofIsSound(mem, k, image, proof, world);
    AccountRead(a);
    HashValue(k, storage);
  }

  /** A word that an accepted storage proof shows under the true root is in the storage. */
  lemma StoredWordIsSent(mem: Mem, k: Keccak, storage: Trie, slotKey: Bytes32, proof: seq<Span>, sent: seq<Bytes32>,
                         id: Bytes32)
    requires WellFormedTrie(storage) && OnlySent(storage, sent, id)
    requires StoredWord(mem, k, k(NodeBytes(k, storage)), slotKey, proof) == Some(id)
    requires InMemory(proof) && NoClashes(mem, k, proof, storage)
    ensures id in sent
  {
    hide Content, NoClashes, ReadFrom, Lookup, Nibbles, LeafKey, UintOf, NodeBytes;
    AcceptedProofIsSound(mem, k, slotKey, proof, storage);
  }

  /** For a nonce in use there is nothing to suppose: only the hash that the array holds there is accepted. */
  lemma StoredWordAtNonce(mem: Mem, k: Keccak, storage: Trie, nonce: nat, proof: seq<Span>, sent: seq<Bytes32>,
                          w: Bytes32)
    requires WellFormedTrie(storage) && StoresSent(k, storage, sent) && nonce < |sent|
    requires StoredWord(mem, k, k(NodeBytes(k, storage)), SlotKey(k, nonce), proof) == Some(w)
    requires InMemory(proof) && NoClashes(mem, k, proof, storage)
    ensures w == sent[nonce]
  {
    hide Content, NoClashes, ReadFrom, Lookup, Nibbles, LeafKey, UintOf, NodeBytes, SlotKey, Encode,
         TrieKey, MappingSlot;
    SlotKeyOfMapping(k, nonce);
    AcceptedProofIsSound(mem, k, SlotKey(k, nonce), proof, storage);
    WordRead(sent[nonce]);
  }

  /** What has to be supposed for a nonce that is not in use: no other word and no other message has this hash. */
  ghost predicate Unmistakable(storage: Trie, c: Chain.Config, sent: seq<Chain.Message>, root: seq<Bytes32>,
                               m: Chain.Message, id: Bytes32)
    requires WellFormedTrie(storage)
  {
    && OnlySent(storage, root, id) && Custody.Prefix(c, root, sent) && Custody.Numbered(sent)
    && forall j | 0 <= j < |sent| && c.keccak(sent[j]) == id :: sent[j] == m
  }

  /**
   * Soundness. If the checks let a message through, its hash stands at its nonce in sentMessages as of the state that
   * the proofs were checked against: the lookup that the bridge depends on succeeds.
   */
  lemma CheckedMessageWasSent(mem: Mem, k: Keccak, storage: Trie, proof: seq<Span>, c: Chain.Config,
                              sent: seq<Chain.Message>, root: seq<Bytes32>, m: Chain.Message, id: Bytes32)
    requires WellFormedTrie(storage) && StoresSent(k, storage, root)
    requires InMemory(proof) && NoClashes(mem, k, proof, storage)
    requires m.nonce < TWO_256 && id == c.keccak(m)
    requires StoredWord(mem, k, k(NodeBytes(k, storage)), SlotKey(k, m.nonce), proof) == Some(id)
    requires m.nonce < |root| || Unmistakable(storage, c, sent, root, m, id)
    ensures Bridge.Holds(root, m.nonce, id)
    ensures forall s: Chain.State, slot |
              slot in s.amb.roots && s.amb.roots[slot] == root
              && (slot in s.amb.storageRoot ==> s.amb.storageRoot[slot] == root) ::
              Bridge.LookUp(c, s, m, Chain.Storage(slot)).Some?
  {
    hide StoredWord, OnlySent, NoClashes, NodeBytes, StoresSent, SlotKey;
    if m.nonce >= |root| {
      StoredWordIsSent(mem, k, storage, SlotKey(k, m.nonce), proof, root, id);
      hide Unmistakable;
      NonceInUse(storage, c, sent, root, m, id);
    }
    StoredWordAtNonce(mem, k, storage, m.nonce, proof, root, id);
  }

  lemma NonceInUse(storage: Trie, c: Chain.Config, sent: seq<Chain.Message>, root: seq<Bytes32>, m: Chain.Message,
                   id: Bytes32)
    requires WellFormedTrie(storage) && Unmistakable(storage, c, sent, root, m, id) && id in root
    ensures m.nonce < |root|
  {
    hide OnlySent;
    var j :| 0 <= j < |root| && root[j] == id;
    assert sent[j] == m;
  }

  // ---------------------------------------------------------------- completeness

  /** Completeness: with the prover's branch and the nodes of the tries, every sent message passes the checks. */
  lemma SentMessagePasses(mem: Mem, h: PairHash, k: Keccak, p: B.Spec, s: B.BeaconState, world: Trie, image: Bytes32,
                          a: Account, storage: Trie, accountProof: seq<Span>, storageProof: seq<Span>,
                          sent: seq<Bytes32>, nonce: nat)
    requires B.ValidState(p, s) && s.payload[B.STATE_ROOT] == k(NodeBytes(k, world)) && B.StateRoot(h, p, s) != 0
    requires HasAccount(k, world, image, a, storage) && StoresSent(k, storage, sent) && nonce < |sent|
    requires Stored(mem, k, accountProof, 0, Nodes(world, Nibbles(image, 0)))
    requires Stored(mem, k, storageProof, 0, Nodes(storage, Nibbles(SlotKey(k, nonce), 0)))
    ensures var root := VerifiedStorageRoot(mem, h, k, B.StateRoot(h, p, s), image, StateRootPath(h, p, s),
                                            accountProof);
            root.Some? && StoredWord(mem, k, root.value, SlotKey(k, nonce), storageProof) == Some(sent[nonce])
  {
    hide B.StateRoot, StateRootPath, RestoreRoot, Content, Stored, ReadFrom, Lookup, Nibbles, Nodes, ListOf, UintOf,
         AccountItem, NodeBytes, SlotKey, Encode, TrieKey, MappingSlot;
    SlotKeyOfMapping(k, nonce);
    StateRootProved(h, p, s);
    ChildContent(mem, k, accountProof, 0, world, Nibbles(image, 0));
    HonestProofReads(mem, k, image, accountProof, world);
    AccountRead(a);
    HashValue(k, storage);
    ChildContent(mem, k, storageProof, 0, storage, Nibbles(SlotKey(k, nonce), 0));
    HonestProofReads(mem, k, SlotKey(k, nonce), storageProof, storage);
    WordRead(sent[nonce]);
  }
}
