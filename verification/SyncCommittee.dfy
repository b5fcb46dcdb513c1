/** Sync committee aggregation: what the prover emits for a participation bitmap and what the contract makes of it. */
module SyncCommittee {
  import opened Bytes
  import opened Words
  import opened Merkleization
  import opened MultiProofs
  import opened MultiProver

  const BIT_LIST_WORDS: nat := 2

  /** 512, one flag per bit; a product with a length is no literal, on which the verifier would unroll recursion. */
  const SYNC_COMMITTEE_SIZE: nat := 256 * |BIT_LIST_POSITIONS|
  const BIT_LIST_POSITIONS: seq<nat> := [0, 1]

  // ---------------------------------------------------------------- bits, bytes, words

  /** Bit k of a bit vector stored lowest bit first. */
  function BitAt(bits: seq<Byte>, k: nat): nat
    requires k < 8 * |bits|
  {
    Bit(bits[k / 8], k % 8)
  }

  /** The lower bits of a concatenation are those of its lower part. */
  lemma {:induction false} LowBit(a: nat, n: nat, b: nat, m: nat)
    requires m < n
    ensures Bit(Concat(a, n, b), m) == Bit(b, m)
    decreases m
  {
    HalveSum(a, n - 1, b);
    if m > 0 {
      LowBit(a, n - 1, b / 2, m - 1);
    }
  }

  /** Bit m of a big-endian word is a bit of the byte that stands m / 8 places before the last. */
  lemma {:induction false} BigEndianBit(bs: seq<Byte>, m: nat)
    requires m < 8 * |bs|
    ensures Bit(BigEndian(bs), m) == Bit(bs[|bs| - 1 - m / 8], m % 8)
  {
    var n := |bs| - 1;
    var high, low := BigEndian(bs[..n]), bs[n];
    Pow2Of8();
    assert BigEndian(bs) == Concat(high, 8, low);
    if m < 8 {
      LowBit(high, 8, low, m);
    } else {
      ShrAdd(Concat(high, 8, low), 8, m - 8);
      ShrConcat(high, 8, low);
      BigEndianBit(bs[..n], m - 8);
    }
  }

  // ---------------------------------------------------------------- the prover

  /** Turns the 32-byte group from lo on end for end. */
  method SwapGroup(bits: array<Byte>, lo: nat)
    requires lo + 32 <= bits.Length
    modifies bits
    ensures forall i | lo <= i < lo + 32 :: bits[i] == old(bits[2 * lo + 31 - i])
    ensures forall i | 0 <= i < bits.Length && !(lo <= i < lo + 32) :: bits[i] == old(bits[i])
  {
    for k := 0 to 16
      invariant forall i | lo <= i < lo + k || lo + 32 - k <= i < lo + 32 :: bits[i] == old(bits[2 * lo + 31 - i])
      invariant forall i | lo + k <= i < lo + 32 - k :: bits[i] == old(bits[i])
      invariant forall i | 0 <= i < bits.Length && !(lo <= i < lo + 32) :: bits[i] == old(bits[i])
    {
      bits[lo + k], bits[lo + 31 - k] := bits[lo + 31 - k], bits[lo + k];
    }
  }

  /** The words of the update agree with the bit vector bit by bit. */
  ghost predicate SameBits(words: seq<Bytes32>, bits: seq<Byte>) {
    |words| == BIT_LIST_WORDS && |bits| == 32 * BIT_LIST_WORDS
    && forall k | 0 <= k < SYNC_COMMITTEE_SIZE :: WordBit(words, k) == BitAt(bits, k)
  }

  /** Bit k of a bit list stored as 256-bit words. */
  function WordBit(words: seq<Bytes32>, k: nat): nat
    requires k < 256 * |words|
  {
    Bit(words[k / 256], k % 256)
  }

  /** Position of a byte after its group was turned. */
  function Mirror(i: nat): nat {
    64 * (i / 32) + 31 - i
  }

  method SwapGroups(bits: array<Byte>)
    requires bits.Length == 32 * BIT_LIST_WORDS
    modifies bits
    ensures forall i | 0 <= i < bits.Length :: Mirror(i) < bits.Length && bits[i] == old(bits[Mirror(i)])
  {
    for w := 0 to BIT_LIST_WORDS
      invariant forall i | 0 <= i < 32 * w :: Mirror(i) < bits.Length && bits[i] == old(bits[Mirror(i)])
      invariant forall i | 32 * w <= i < bits.Length :: bits[i] == old(bits[i])
    {
      assert forall i | 32 * w <= i < 32 * w + 32 :: Mirror(i) == 64 * w + 31 - i;
      SwapGroup(bits, w * 32);
    }
  }

  method ReadWords(bits: array<Byte>) returns (words: seq<Bytes32>)
    requires bits.Length == 32 * BIT_LIST_WORDS
    ensures words == WordsOf(bits[..])
  {
    words := [];
    for k := 0 to BIT_LIST_WORDS
      invariant |words| == k
      invariant k > 0 ==> words[0] == ToWord(bits[..][0..32])
      invariant k > 1 ==> words[1] == ToWord(bits[..][32..64])
    {
      assert bits[..][k * 32..k * 32 + 32] == bits[k * 32..k * 32 + 32];
      words := words + [ToWord(bits[k * 32..k * 32 + 32])];
    }
  }

  function WordsOf(bytes: seq<Byte>): seq<Bytes32>
    requires |bytes| == 32 * BIT_LIST_WORDS
  {
    [ToWord(bytes[0..32]), ToWord(bytes[32..64])]
  }

  /** Swaps the bytes of every group, then reads each group as a big-endian word. */
  method PackBits(bits: array<Byte>) returns (words: seq<Bytes32>)
    requires bits.Length == 32 * BIT_LIST_WORDS
    modifies bits
    ensures SameBits(words, old(bits[..]))
  {
    ghost var before := bits[..];
    SwapGroups(bits);
    words := ReadWords(bits);
    SwappedWords(bits[..], before);
  }

  lemma SwappedWords(after: seq<Byte>, before: seq<Byte>)
    requires |after| == |before| == 32 * BIT_LIST_WORDS
    requires forall i | 0 <= i < |after| :: Mirror(i) < |before| && after[i] == before[Mirror(i)]
    ensures SameBits(WordsOf(after), before)
  {
    forall k | 0 <= k < SYNC_COMMITTEE_SIZE ensures WordBit(WordsOf(after), k) == BitAt(before, k) {
      var w := k / 256;
      var group := after[w * 32..w * 32 + 32];
      assert WordsOf(after)[w] == ToWord(group);
      forall j | 0 <= j < 32 ensures group[j] == before[32 * w + 31 - j] {
        assert Mirror(w * 32 + j) == 32 * w + 31 - j;
      }
      SwappedBit(group, before, w, k % 256);
    }
  }

  lemma SwappedBit(group: seq<Byte>, before: seq<Byte>, w: nat, m: nat)
    requires |group| == 32 && w < BIT_LIST_WORDS && m < 256 && |before| == 64
    requires forall j | 0 <= j < 32 :: group[j] == before[32 * w + 31 - j]
    ensures Bit(ToWord(group), m) == BitAt(before, 256 * w + m)
  {
    BigEndianBit(group, m);
    var k := 256 * w + m;
    assert k / 8 == 32 * w + m / 8 && k % 8 == m % 8;
  }

  // ---------------------------------------------------------------- who signed, who is missing

  /** Which committee members signed. */
  type Participation = s: seq<bool> | |s| == SYNC_COMMITTEE_SIZE witness seq(SYNC_COMMITTEE_SIZE, _ => false)

  function SignedBits(bits: seq<Byte>): Participation
    requires |bits| == 32 * BIT_LIST_WORDS
  {
    seq(SYNC_COMMITTEE_SIZE, k requires 0 <= k < SYNC_COMMITTEE_SIZE => BitAt(bits, k) == 1)
  }

  function SignedWords(words: seq<Bytes32>): Participation
    requires |words| == BIT_LIST_WORDS
  {
    seq(SYNC_COMMITTEE_SIZE, k requires 0 <= k < SYNC_COMMITTEE_SIZE => WordBit(words, k) == 1)
  }

  /** Positions below n of the members that did not sign, ascending. */
  function MissingUp(signed: seq<bool>, n: nat): (m: seq<int>)
    requires n <= |signed|
    ensures forall k | 0 <= k < |m| :: 0 <= m[k] < n
  {
    if n == 0 then []
    else if signed[n - 1] then MissingUp(signed, n - 1)
    else MissingUp(signed, n - 1) + [n - 1]
  }

  /** Their keys, in descending order of position. */
  function MissingKeys<G>(keys: seq<G>, signed: seq<bool>, n: nat): seq<G>
    requires n <= |signed| && n <= |keys|
  {
    if n == 0 then []
    else if signed[n - 1] then MissingKeys(keys, signed, n - 1)
    else [keys[n - 1]] + MissingKeys(keys, signed, n - 1)
  }

  /** The key sum of the members below n that signed. */
  function SignerSum<G>(add: (G, G) -> G, keys: seq<G>, signed: seq<bool>, n: nat): Option<G>
    requires n <= |signed| && n <= |keys|
  {
    if n == 0 then None
    else
      var sum := SignerSum(add, keys, signed, n - 1);
      if !signed[n - 1] then sum
      else if sum == None then Some(keys[n - 1])
      else Some(add(sum.value, keys[n - 1]))
  }

  /** Adds keys one by one. */
  function AddAll<G>(add: (G, G) -> G, sum: G, keys: seq<G>): G
    decreases |keys|
  {
    if keys == [] then sum else AddAll(add, add(sum, keys[0]), keys[1..])
  }

  function HashAll<G>(keyHash: G -> Bytes32, keys: seq<G>): (hs: seq<Bytes32>)
    ensures |hs| == |keys|
    ensures forall k | 0 <= k < |keys| :: hs[k] == keyHash(keys[k])
  {
    if keys == [] then [] else [keyHash(keys[0])] + HashAll(keyHash, keys[1..])
  }

  /** Generalized indices of the missing members below position n, in descending order. */
  function MissingDown(signed: seq<bool>, n: nat): seq<nat>
    requires n <= |signed|
  {
    if n == 0 then []
    else if signed[n - 1] then MissingDown(signed, n - 1)
    else [n - 1 + SYNC_COMMITTEE_SIZE] + MissingDown(signed, n - 1)
  }

  lemma {:induction false} MissingDownRange(signed: seq<bool>, n: nat)
    requires n <= |signed|
    ensures Within(MissingDown(signed, n), SYNC_COMMITTEE_SIZE, SYNC_COMMITTEE_SIZE + n)
  {
    if n > 0 {
      MissingDownRange(signed, n - 1);
    }
  }

  ghost predicate Within(gs: seq<nat>, lo: nat, hi: nat) {
    forall k | 0 <= k < |gs| :: lo <= gs[k] < hi
  }

  // The same, for all members.

  function AllMissingUp(signed: Participation): seq<int> {
    MissingUp(signed, |signed|)
  }

  function AllMissingDown(signed: Participation): seq<nat> {
    MissingDown(signed, |signed|)
  }

  function AllMissingKeys<G>(keys: seq<G>, signed: Participation): seq<G>
    requires |keys| == SYNC_COMMITTEE_SIZE
  {
    MissingKeys(keys, signed, |signed|)
  }

  function AllSignersSum<G>(add: (G, G) -> G, keys: seq<G>, signed: Participation): Option<G>
    requires |keys| == SYNC_COMMITTEE_SIZE
  {
    SignerSum(add, keys, signed, |signed|)
  }

  // ---------------------------------------------------------------- the prover's part of an update

  method CollectKeys<G>(add: (G, G) -> G, keyHash: G -> Bytes32, keys: seq<G>, bits: seq<Byte>)
    returns (pk: Option<G>, hashed: seq<Bytes32>, indices: seq<int>)
    requires |keys| == SYNC_COMMITTEE_SIZE && |bits| == 32 * BIT_LIST_WORDS
    ensures pk == AllSignersSum(add, keys, SignedBits(bits))
    ensures hashed == HashAll(keyHash, keys)
    ensures indices == AllMissingUp(SignedBits(bits))
  {
    pk, hashed, indices := None, [], [];
    for i := 0 to |keys|
      invariant pk == SignerSum(add, keys, SignedBits(bits), i)
      invariant indices == MissingUp(SignedBits(bits), i)
      invariant |hashed| == i && forall k | 0 <= k < i :: hashed[k] == keyHash(keys[k])
    {
      hashed := hashed + [keyHash(keys[i])];
      pk, indices := CountMember(add, keys, bits, i, pk, indices);
    }
  }

  /** One round of the prover's loop: member i either joins the aggregate or the list of the missing. */
  method CountMember<G>(add: (G, G) -> G, keys: seq<G>, bits: seq<Byte>, i: nat, pk0: Option<G>, indices0: seq<int>)
    returns (pk: Option<G>, indices: seq<int>)
    requires |keys| == SYNC_COMMITTEE_SIZE && |bits| == 32 * BIT_LIST_WORDS && i < SYNC_COMMITTEE_SIZE
    requires pk0 == SignerSum(add, keys, SignedBits(bits), i) && indices0 == MissingUp(SignedBits(bits), i)
    ensures pk == SignerSum(add, keys, SignedBits(bits), i + 1) && indices == MissingUp(SignedBits(bits), i + 1)
  {
    hide SignerSum, MissingUp;
    SignerStep(add, keys, SignedBits(bits), i);
    CollectStep(SignedBits(bits), i);
    pk, indices := pk0, indices0;
    if BitAt(bits, i) == 1 {
      pk := if pk == None then Some(keys[i]) else Some(add(pk.value, keys[i]));
    } else {
      indices := indices + [i];
    }
  }

  lemma SignerStep<G>(add: (G, G) -> G, keys: seq<G>, signed: seq<bool>, i: nat)
    requires i < |signed| && i < |keys|
    ensures var sum := SignerSum(add, keys, signed, i);
            SignerSum(add, keys, signed, i + 1) ==
              if !signed[i] then sum else if sum == None then Some(keys[i]) else Some(add(sum.value, keys[i]))
  {
  }

  lemma CollectStep(signed: seq<bool>, i: nat)
    requires i < |signed|
    ensures MissingUp(signed, i + 1) == if signed[i] then MissingUp(signed, i) else MissingUp(signed, i) + [i]
  {
  }

  method CollectMissing<G>(keys: seq<G>, indices: seq<int>, ghost signed: Participation) returns (missing: seq<G>)
    requires |keys| == SYNC_COMMITTEE_SIZE && indices == AllMissingUp(signed)
    ensures missing == AllMissingKeys(keys, signed)
  {
    missing := [];
    MissingKeysReversed(keys, signed, |signed|);
    ghost var rest := indices;
    for i := 0 to |indices|
      invariant rest == indices[..|indices| - i]
      invariant missing + LastFirst(keys, rest) == LastFirst(keys, indices)
    {
      TakeLast(keys, rest, missing);
      missing, rest := missing + [keys[indices[|indices| - 1 - i]]], rest[..|rest| - 1];
    }
    assert missing + [] == missing;
  }

  /** The keys at the positions m, last position first. */
  ghost function LastFirst<G>(keys: seq<G>, m: seq<int>): seq<G>
    requires forall k | 0 <= k < |m| :: 0 <= m[k] < |keys|
  {
    if m == [] then [] else [keys[m[|m| - 1]]] + LastFirst(keys, m[..|m| - 1])
  }

  lemma TakeLast<G>(keys: seq<G>, m: seq<int>, taken: seq<G>)
    requires m != [] && forall k | 0 <= k < |m| :: 0 <= m[k] < |keys|
    ensures taken + LastFirst(keys, m) == (taken + [keys[m[|m| - 1]]]) + LastFirst(keys, m[..|m| - 1])
  {
  }

  lemma {:induction false} MissingKeysReversed<G>(keys: seq<G>, signed: seq<bool>, n: nat)
    requires n <= |signed| && n <= |keys|
    ensures MissingKeys(keys, signed, n) == LastFirst(keys, MissingUp(signed, n))
  {
    if n > 0 {
      var m := MissingUp(signed, n - 1);
      MissingKeysReversed(keys, signed, n - 1);
      assert (m + [n - 1])[..|m|] == m;
    }
  }

  /** The committee part of a light client update. */
  datatype CommitteeUpdate<G> = CommitteeUpdate(aggregate: G, missing: seq<G>, bitList: seq<Bytes32>,
                                                decommitments: seq<Bytes32>)

  function KeyTree<G>(keyHash: G -> Bytes32, keys: seq<G>): MerkleTree {
    MerkleTree(false, 0, SYNC_COMMITTEE_SIZE, HashAll(keyHash, keys))
  }

  lemma SizeIsPow2()
    ensures IsPow2(SYNC_COMMITTEE_SIZE)
  {
    Pow2IsPow2(9);
    assert Pow2(9) == 512;
  }

  /** The root over the hashes of all keys. */
  function KeysRoot<G>(h: PairHash, keyHash: G -> Bytes32, keys: seq<G>): Bytes32
    requires |keys| == SYNC_COMMITTEE_SIZE
  {
    SizeIsPow2();
    Hash(h, KeyTree(keyHash, keys))
  }

  /** None is the panic on an aggregate that no signer contributed to. The bits are swapped in place last. */
  method MakeCommitteeUpdate<G>(h: PairHash, add: (G, G) -> G, keyHash: G -> Bytes32, keys: seq<G>, bits: array<Byte>)
    returns (u: Option<CommitteeUpdate<G>>)
    requires |keys| == SYNC_COMMITTEE_SIZE && bits.Length == 32 * BIT_LIST_WORDS
    modifies bits
    ensures u.Some? <==> AllSignersSum(add, keys, SignedBits(old(bits[..]))).Some?
    ensures u.Some? ==>
              var signed := SignedBits(old(bits[..]));
              && AllSignersSum(add, keys, signed) == Some(u.value.aggregate)
              && u.value.missing == AllMissingKeys(keys, signed)
              && SameBits(u.value.bitList, old(bits[..]))
              && InRange(KeyTree(keyHash, keys), AllMissingUp(signed)) && WellFormed(KeyTree(keyHash, keys))
              && u.value.decommitments
                == HonestMultiProof(h, KeyTree(keyHash, keys), AllMissingUp(signed)).decommitments
  {
    ghost var signed := SignedBits(bits[..]);
    var pk, hashed, indices := CollectKeys(add, keyHash, keys, bits[..]);
    var missing := CollectMissing(keys, indices, signed);
    var tree := NewVectorMerkleTree(hashed);
    SizeIsPow2();
    assert IsPow2(SYNC_COMMITTEE_SIZE) && |hashed| <= SYNC_COMMITTEE_SIZE;
    assert tree == KeyTree(keyHash, keys);
    var multiProof := MakeMultiProof(h, tree, indices);
    if pk == None {
      return None;
    }
    var words := PackBits(bits);
    u := Some(CommitteeUpdate(pk.value, missing, words, multiProof.value.decommitments));
  }


  // ---------------------------------------------------------------- the contract

  /** None is a revert: the number of supplied keys differs from the number of clear bits. */
  method AggregateMissingPubkeys<G>(add: (G, G) -> G, keyHash: G -> Bytes32, pks: seq<G>, aggregatedPK: G,
                                    bitList: seq<Bytes32>)
    returns (ok: bool, indices: array<nat>, leaves: array<Bytes32>, result: G)
    requires |bitList| == BIT_LIST_WORDS
    ensures fresh(indices) && fresh(leaves)
    ensures ok <==> |pks| == |AllMissingDown(SignedWords(bitList))|
    ensures ok ==> indices[..] == AllMissingDown(SignedWords(bitList))
    ensures ok ==> leaves[..] == HashAll(keyHash, pks) && result == AddAll(add, aggregatedPK, pks)
  {
    hide SignedWords, MissingDown, HashAll, AddAll, ToCome, NotVisited;
    result := aggregatedPK;
    var count: nat, word: Bytes32 := 0, 0;
    indices := new nat[|pks|];
    leaves := new Bytes32[|pks|];
    var i: nat := SYNC_COMMITTEE_SIZE * 2 - 1;
    ghost var all := Totals(AllMissingDown(SignedWords(bitList)), HashAll(keyHash, pks),
                            AddAll(add, aggregatedPK, pks));
    NothingDone(add, keyHash, pks, bitList, result);
    ok := true;
    while i >= SYNC_COMMITTEE_SIZE
      invariant SYNC_COMMITTEE_SIZE - 1 <= i < 2 * SYNC_COMMITTEE_SIZE && count <= |pks|
      invariant indices.Length == leaves.Length == |pks|
      invariant SYNC_COMMITTEE_SIZE <= i ==> HasWord(bitList, i, word) == true
      invariant ToCome(add, keyHash, pks, bitList, i, indices[..count], leaves[..count], count, result) == all
    {
      KeysLeft(add, keyHash, pks, bitList, i, indices[..count], leaves[..count], count, result);
      ok, word, count, result := VisitMember(add, keyHash, pks, bitList, i, indices, leaves, word, count, result);
      if !ok {
        return;
      }
      i := i - 1;
    }
    AllDone(add, keyHash, pks, bitList, indices[..count], leaves[..count], count, result);
    ok := count == |pks|;
  }

  lemma NothingDone<G>(add: (G, G) -> G, keyHash: G -> Bytes32, pks: seq<G>, bitList: seq<Bytes32>, sum: G)
    requires |bitList| == BIT_LIST_WORDS
    ensures ToCome(add, keyHash, pks, bitList, 2 * SYNC_COMMITTEE_SIZE - 1, [], [], 0, sum)
         == Totals(AllMissingDown(SignedWords(bitList)), HashAll(keyHash, pks), AddAll(add, sum, pks))
  {
    assert pks[0..] == pks;
  }

  /** Without keys left, there must be no missing member left. */
  lemma KeysLeft<G>(add: (G, G) -> G, keyHash: G -> Bytes32, pks: seq<G>, bitList: seq<Bytes32>, i: nat, gs: seq<nat>,
                    xs: seq<Bytes32>, count: nat, sum: G)
    requires |bitList| == BIT_LIST_WORDS && SYNC_COMMITTEE_SIZE - 1 <= i < 2 * SYNC_COMMITTEE_SIZE && count <= |pks|
    ensures |ToCome(add, keyHash, pks, bitList, i, gs, xs, count, sum).indices| == |gs| + |NotVisited(bitList, i)|
  {
  }

  lemma AllDone<G>(add: (G, G) -> G, keyHash: G -> Bytes32, pks: seq<G>, bitList: seq<Bytes32>, gs: seq<nat>,
                   xs: seq<Bytes32>, count: nat, sum: G)
    requires |bitList| == BIT_LIST_WORDS && count <= |pks|
    ensures var all := ToCome(add, keyHash, pks, bitList, SYNC_COMMITTEE_SIZE - 1, gs, xs, count, sum);
            all.indices == gs && (count == |pks| ==> all == Totals(gs, xs, sum))
  {
  }

  datatype Totals<G> = Totals(indices: seq<nat>, leaves: seq<Bytes32>, sum: G)

  /** The whole result, when the loop still has to visit the indices up to i and has used `count` keys. */
  ghost function ToCome<G>(add: (G, G) -> G, keyHash: G -> Bytes32, pks: seq<G>, bitList: seq<Bytes32>, i: nat,
                           gs: seq<nat>, xs: seq<Bytes32>, count: nat, sum: G): Totals<G>
    requires |bitList| == BIT_LIST_WORDS && SYNC_COMMITTEE_SIZE - 1 <= i < 2 * SYNC_COMMITTEE_SIZE && count <= |pks|
  {
    Totals(gs + NotVisited(bitList, i), xs + HashAll(keyHash, pks[count..]), AddAll(add, sum, pks[count..]))
  }

  /** One round of the contract's loop: the member with generalized index i. */
  method VisitMember<G>(add: (G, G) -> G, keyHash: G -> Bytes32, pks: seq<G>, bitList: seq<Bytes32>, i: nat,
                        indices: array<nat>, leaves: array<Bytes32>, word0: Bytes32, count0: nat, sum: G)
    returns (ok: bool, word: Bytes32, count: nat, result: G)
    requires |bitList| == BIT_LIST_WORDS && SYNC_COMMITTEE_SIZE <= i < 2 * SYNC_COMMITTEE_SIZE
    requires HasWord(bitList, i, word0) && indices.Length == leaves.Length == |pks| && count0 <= |pks|
    requires indices as object != leaves as object
    modifies indices, leaves
    ensures !ok ==> count0 == |pks| && |NotVisited(bitList, i)| > 0
    ensures ok ==> count <= |pks|
    ensures ok && SYNC_COMMITTEE_SIZE <= i - 1 ==> HasWord(bitList, i - 1, word) == true
    ensures ok ==> ToCome(add, keyHash, pks, bitList, i - 1, indices[..count], leaves[..count], count, result) ==
                   ToCome(add, keyHash, pks, bitList, i, old(indices[..count0]), old(leaves[..count0]), count0, sum)
  {
    ok, word, count, result := true, word0, count0, sum;
    var m := i % 256;
    if m == 255 {
      word := bitList[WordIndex(i)];
    }
    NextWord(bitList, i, word);
    MissingStep(bitList, i, word, indices[..count]);
    if Bit(word, m) == 0 {
      if count >= |pks| {
        ok := false;
        return;
      }
      AddStep(add, keyHash, result, pks, count, leaves[..count]);
      result := add(result, pks[count]);
      Store(indices, leaves, i, keyHash(pks[count]), count);
      count := count + 1;
    }
  }

  method Store(indices: array<nat>, leaves: array<Bytes32>, i: nat, leaf: Bytes32, count: nat)
    requires count < indices.Length == leaves.Length && indices as object != leaves as object
    modifies indices, leaves
    ensures indices[..count + 1] == old(indices[..count]) + [i]
    ensures leaves[..count + 1] == old(leaves[..count]) + [leaf]
  {
    indices[count] := i;
    leaves[count] := leaf;
  }

  /** The bit list word that holds the flag of generalized index i. */
  function WordIndex(i: nat): (w: nat)
    requires SYNC_COMMITTEE_SIZE <= i < 2 * SYNC_COMMITTEE_SIZE
    ensures w < BIT_LIST_WORDS
  {
    i / 256 - 2
  }

  /** The word for index i is loaded, unless i is the first index of its word. */
  ghost predicate HasWord(bitList: seq<Bytes32>, i: nat, word: Bytes32)
    requires |bitList| == BIT_LIST_WORDS && SYNC_COMMITTEE_SIZE <= i < 2 * SYNC_COMMITTEE_SIZE
  {
    i % 256 == 255 || word == bitList[WordIndex(i)]
  }

  lemma NextWord(bitList: seq<Bytes32>, i: nat, word: Bytes32)
    requires |bitList| == BIT_LIST_WORDS && SYNC_COMMITTEE_SIZE <= i < 2 * SYNC_COMMITTEE_SIZE
    requires word == bitList[WordIndex(i)]
    ensures SYNC_COMMITTEE_SIZE <= i - 1 ==> HasWord(bitList, i - 1, word)
  {
  }

  /** Missing members among the generalized indices up to i. */
  ghost function NotVisited(bitList: seq<Bytes32>, i: nat): seq<nat>
    requires |bitList| == BIT_LIST_WORDS && SYNC_COMMITTEE_SIZE - 1 <= i < 2 * SYNC_COMMITTEE_SIZE
  {
    MissingDown(SignedWords(bitList), i + 1 - SYNC_COMMITTEE_SIZE)
  }

  lemma MissingStep(bitList: seq<Bytes32>, i: nat, word: Bytes32, gs: seq<nat>)
    requires |bitList| == BIT_LIST_WORDS && SYNC_COMMITTEE_SIZE <= i < 2 * SYNC_COMMITTEE_SIZE
    requires word == bitList[WordIndex(i)]
    ensures (if Bit(word, i % 256) == 0 then gs + [i] else gs) + NotVisited(bitList, i - 1)
            == gs + NotVisited(bitList, i)
  {
    var n := i - SYNC_COMMITTEE_SIZE;
    FlagOf(bitList, i);
    var rest := NotVisited(bitList, i - 1);
    assert NotVisited(bitList, i) == (if SignedWords(bitList)[n] then [] else [i]) + rest;
  }

  lemma FlagOf(bitList: seq<Bytes32>, i: nat)
    requires |bitList| == BIT_LIST_WORDS && SYNC_COMMITTEE_SIZE <= i < 2 * SYNC_COMMITTEE_SIZE
    ensures SignedWords(bitList)[i - SYNC_COMMITTEE_SIZE] <==> Bit(bitList[WordIndex(i)], i % 256) == 1
  {
    var n := i - SYNC_COMMITTEE_SIZE;
    assert n / 256 == WordIndex(i) && n % 256 == i % 256;
  }

  lemma AddStep<G>(add: (G, G) -> G, keyHash: G -> Bytes32, sum: G, pks: seq<G>, count: nat, xs: seq<Bytes32>)
    requires count < |pks|
    ensures AddAll(add, sum, pks[count..]) == AddAll(add, add(sum, pks[count]), pks[count + 1..])
    ensures (xs + [keyHash(pks[count])]) + HashAll(keyHash, pks[count + 1..]) == xs + HashAll(keyHash, pks[count..])
  {
    assert pks[count..][1..] == pks[count + 1..];
  }

  // ---------------------------------------------------------------- prover and contract agree

  /** The laws of key addition. */
  ghost predicate CommutativeSemigroup<G(!new)>(add: (G, G) -> G) {
    && (forall a, b :: add(a, b) == add(b, a))
    && (forall a, b, c :: add(add(a, b), c) == add(a, add(b, c)))
  }

  lemma SwapLast<G(!new)>(add: (G, G) -> G, a: G, b: G, c: G)
    requires CommutativeSemigroup(add)
    ensures add(add(a, b), c) == add(add(a, c), b)
  {
    assert add(add(a, b), c) == add(a, add(b, c));
    assert add(add(a, c), b) == add(a, add(c, b));
  }

  lemma {:induction false} AddAllPlus<G(!new)>(add: (G, G) -> G, sum: G, x: G, ks: seq<G>)
    requires CommutativeSemigroup(add)
    ensures AddAll(add, add(sum, x), ks) == add(AddAll(add, sum, ks), x)
    decreases |ks|
  {
    if ks != [] {
      SwapLast(add, sum, x, ks[0]);
      AddAllPlus(add, add(sum, ks[0]), x, ks[1..]);
    }
  }

  /** The key sum of the first n members, as the beacon state stores it. */
  function KeySum<G>(add: (G, G) -> G, keys: seq<G>, n: nat): G
    requires 1 <= n <= |keys|
  {
    if n == 1 then keys[0] else add(KeySum(add, keys, n - 1), keys[n - 1])
  }

  lemma AddFirst<G>(add: (G, G) -> G, sum: Option<G>, key: G, ks: seq<G>)
    ensures [] + ks == ks
    ensures sum.Some? ==> AddAll(add, sum.value, [key] + ks) == AddAll(add, add(sum.value, key), ks)
  {
    assert ([key] + ks)[1..] == ks;
  }

  /** Adding the missing keys to the sum of the signers' keys gives the sum of all keys. */
  lemma {:induction false} SignersPlusMissing<G(!new)>(add: (G, G) -> G, keys: seq<G>, signed: seq<bool>, n: nat)
    requires CommutativeSemigroup(add) && 1 <= n <= |signed| && n <= |keys|
    requires SignerSum(add, keys, signed, n).Some?
    ensures AddAll(add, SignerSum(add, keys, signed, n).value, MissingKeys(keys, signed, n)) == KeySum(add, keys, n)
  {
    var sum, ks, key := SignerSum(add, keys, signed, n - 1), MissingKeys(keys, signed, n - 1), keys[n - 1];
    if sum == None {
      AllMissing(add, keys, signed, n - 1, key);
    } else {
      SignersPlusMissing(add, keys, signed, n - 1);
      AddAllPlus(add, sum.value, key, ks);
    }
    AddFirst(add, sum, key, ks);
  }

  lemma {:induction false} AllMissing<G(!new)>(add: (G, G) -> G, keys: seq<G>, signed: seq<bool>, n: nat, key: G)
    requires CommutativeSemigroup(add) && n <= |signed| && n < |keys| && keys[n] == key
    requires SignerSum(add, keys, signed, n) == None
    ensures AddAll(add, key, MissingKeys(keys, signed, n)) == KeySum(add, keys, n + 1)
  {
    if n > 0 {
      var ks, last := MissingKeys(keys, signed, n - 1), keys[n - 1];
      AddFirst(add, Some(key), last, ks);
      assert add(key, last) == add(last, key);
      AddAllPlus(add, last, key, ks);
      AllMissing(add, keys, signed, n - 1, last);
    }
  }

  lemma MissingDownStep(signed: seq<bool>, n: nat)
    requires n < |signed|
    ensures MissingDown(signed, n + 1)
         == if signed[n] then MissingDown(signed, n) else [n + SYNC_COMMITTEE_SIZE] + MissingDown(signed, n)
  {
  }

  lemma {:induction false} MissingDownIsGenIndices(signed: seq<bool>, n: nat)
    requires n <= |signed|
    ensures MissingDown(signed, n) == GenIndices(MissingUp(signed, n), SYNC_COMMITTEE_SIZE)
  {
    hide MissingDown, MissingUp, GenIndices;
    if n == 0 {
      NothingMissing(signed);
    } else {
      MissingDownIsGenIndices(signed, n - 1);
      GenIndicesStep(signed, n - 1);
    }
  }

  lemma NothingMissing(signed: seq<bool>)
    ensures MissingDown(signed, 0) == GenIndices(MissingUp(signed, 0), SYNC_COMMITTEE_SIZE)
  {
  }

  lemma GenIndicesStep(signed: seq<bool>, n: nat)
    requires n < |signed|
    requires MissingDown(signed, n) == GenIndices(MissingUp(signed, n), SYNC_COMMITTEE_SIZE)
    ensures MissingDown(signed, n + 1) == GenIndices(MissingUp(signed, n + 1), SYNC_COMMITTEE_SIZE)
  {
    hide MissingDown, MissingUp, GenIndices;
    MissingDownStep(signed, n);
    CollectStep(signed, n);
    if !signed[n] {
      GenIndicesSnoc(MissingUp(signed, n), n, SYNC_COMMITTEE_SIZE);
    }
  }

  lemma {:induction false} MissingUpAscends(signed: seq<bool>, n: nat)
    requires n <= |signed|
    ensures Ascending(MissingUp(signed, n))
  {
    if n > 0 {
      MissingUpAscends(signed, n - 1);
    }
  }

  lemma {:induction false} MissingKeysAt<G>(keys: seq<G>, signed: seq<bool>, n: nat)
    requires n <= |signed| && n <= |keys|
    ensures Within(MissingDown(signed, n), SYNC_COMMITTEE_SIZE, SYNC_COMMITTEE_SIZE + n)
    ensures KeysAt(keys, MissingDown(signed, n), MissingKeys(keys, signed, n))
  {
    MissingDownRange(signed, n);
    if n > 0 {
      hide KeysAt;
      MissingKeysAt(keys, signed, n - 1);
      KeysAtCons(keys, MissingDown(signed, n - 1), MissingKeys(keys, signed, n - 1), n - 1);
    }
  }

  lemma KeysAtCons<G>(keys: seq<G>, gs: seq<nat>, ks: seq<G>, p: nat)
    requires KeysAt(keys, gs, ks) && p < |keys|
    ensures KeysAt(keys, [p + SYNC_COMMITTEE_SIZE] + gs, [keys[p]] + ks)
  {
  }

  /** ks are the keys of the members with generalized indices gs. */
  ghost predicate KeysAt<G>(keys: seq<G>, gs: seq<nat>, ks: seq<G>) {
    |gs| == |ks|
    && forall k | 0 <= k < |gs| ::
        0 <= gs[k] - SYNC_COMMITTEE_SIZE < |keys| && ks[k] == keys[gs[k] - SYNC_COMMITTEE_SIZE]
  }

  /**
   * Prover and contract agree: for every committee and every bitmap with a signer, the keys, bit words and
   * decommitments of the update make the contract compute the missing indices in descending order, the key sum of
   * the whole committee, and from the hashes of those keys the root over all committee keys, using up every
   * decommitment.
   */
  lemma ProverAgreesWithContract<G(!new)>(h: PairHash, add: (G, G) -> G, keyHash: G -> Bytes32, keys: seq<G>,
                                          bits: seq<Byte>, words: seq<Bytes32>)
    requires CommutativeSemigroup(add) && |keys| == SYNC_COMMITTEE_SIZE && SameBits(words, bits)
    requires AllSignersSum(add, keys, SignedBits(bits)).Some?
    ensures var signed := SignedBits(bits);
            var missing, pk := AllMissingKeys(keys, signed), AllSignersSum(add, keys, signed).value;
            var t := KeyTree(keyHash, keys);
            var indices := AllMissingDown(SignedWords(words));
            && WellFormed(t) && InRange(t, AllMissingUp(signed))
            && |missing| == |indices|
            && AddAll(add, pk, missing) == KeySum(add, keys, |keys|)
            && Reconstruct(h, indices, HashAll(keyHash, missing),
                           HonestMultiProof(h, t, AllMissingUp(signed)).decommitments)
               == Restored(Hash(h, t), [])
  {
    var signed := SignedBits(bits);
    var t := KeyTree(keyHash, keys);
    var indices := AllMissingUp(signed);
    assert SignedWords(words) == signed;
    SizeIsPow2();
    SignersPlusMissing(add, keys, signed, |signed|);
    MissingUpAscends(signed, |signed|);
    MissingDownIsGenIndices(signed, |signed|);
    MissingKeysAt(keys, signed, |signed|);
    MultiRoundTrip(h, t, indices);
    TrueLeaves(h, keyHash, keys, signed);
  }

  lemma TrueLeaves<G>(h: PairHash, keyHash: G -> Bytes32, keys: seq<G>, signed: Participation)
    requires |keys| == SYNC_COMMITTEE_SIZE
    ensures NodesAt(h, KeyTree(keyHash, keys), AllMissingDown(signed)) == HashAll(keyHash, AllMissingKeys(keys, signed))
  {
    hide Node, HashAll, MissingDown, MissingKeys;
    var t, gs, ks := KeyTree(keyHash, keys), AllMissingDown(signed), AllMissingKeys(keys, signed);
    MissingKeysAt(keys, signed, |signed|);
    forall k | 0 <= k < |gs| ensures NodesAt(h, t, gs)[k] == HashAll(keyHash, ks)[k] {
      LeafIsKeyHash(h, keyHash, keys, gs[k]);
    }
  }

  lemma LeafIsKeyHash<G>(h: PairHash, keyHash: G -> Bytes32, keys: seq<G>, g: nat)
    requires |keys| == SYNC_COMMITTEE_SIZE <= g < 2 * SYNC_COMMITTEE_SIZE
    ensures Node(h, HashAll(keyHash, keys), SYNC_COMMITTEE_SIZE, g) == keyHash(keys[g - SYNC_COMMITTEE_SIZE])
  {
  }

  // ---------------------------------------------------------------- what an accepted update proves

  ghost predicate Cancels<G(!new)>(add: (G, G) -> G) {
    forall a, b, c :: add(a, c) == add(b, c) ==> a == b
  }

  lemma {:induction false} AddAllCancels<G(!new)>(add: (G, G) -> G, a: G, b: G, ks: seq<G>)
    requires Cancels(add) && AddAll(add, a, ks) == AddAll(add, b, ks)
    ensures a == b
    decreases |ks|
  {
    if ks != [] {
      AddAllCancels(add, add(a, ks[0]), add(b, ks[0]), ks[1..]);
    }
  }

  ghost predicate Descending(gs: seq<nat>) {
    forall j, k | 0 <= j < k < |gs| :: gs[j] > gs[k]
  }

  lemma {:induction false} MissingDescends(signed: seq<bool>, n: nat)
    requires n <= |signed|
    ensures Descending(MissingDown(signed, n))
  {
    hide MissingDown, Descending, Within;
    if n == 0 {
      NothingDescends(signed);
    } else {
      MissingDescends(signed, n - 1);
      MissingDownStep(signed, n - 1);
      MissingDownRange(signed, n - 1);
      DescendingCons(n - 1 + SYNC_COMMITTEE_SIZE, MissingDown(signed, n - 1));
    }
  }

  lemma NothingDescends(signed: seq<bool>)
    ensures Descending(MissingDown(signed, 0))
  {
  }

  lemma DescendingCons(x: nat, rest: seq<nat>)
    requires Descending(rest) && Within(rest, SYNC_COMMITTEE_SIZE, x)
    ensures Descending([x] + rest)
  {
  }

  /** The indices that the contract derives from a bit list always satisfy the order the walk depends on. */
  lemma MissingInLevelOrder(signed: Participation)
    requires AllMissingDown(signed) != []
    ensures LevelOrder(AllMissingDown(signed)) && AllMissingDown(signed)[0] < 2 * SYNC_COMMITTEE_SIZE
  {
    MissingDescends(signed, |signed|);
    MissingDownRange(signed, |signed|);
    var gs := AllMissingDown(signed);
    assert gs[|gs| - 1] >= SYNC_COMMITTEE_SIZE && gs[0] < 2 * SYNC_COMMITTEE_SIZE;
  }

  /** Two different committee keys never have the same hash as a supplied key. */
  ghost predicate NoKeyClash<G>(keyHash: G -> Bytes32, keys: seq<G>, pks: seq<G>) {
    forall k, pk | k in keys && pk in pks && keyHash(k) == keyHash(pk) :: k == pk
  }

  /** If the supplied keys restore the root of the committee's keys, they are exactly the missing members' keys. */
  lemma SuppliedKeysAreMissing<G>(h: PairHash, keyHash: G -> Bytes32, keys: seq<G>, signed: Participation,
                                  pks: seq<G>, dec: seq<Bytes32>)
    requires |keys| == SYNC_COMMITTEE_SIZE && |pks| == |AllMissingDown(signed)|
    requires Root(Reconstruct(h, AllMissingDown(signed), HashAll(keyHash, pks), dec))
            == Some(KeysRoot(h, keyHash, keys))
    requires pks != [] ==> NoClash(h, HashAll(keyHash, keys), SYNC_COMMITTEE_SIZE,
                                   WalkHashed(h, AllMissingDown(signed), HashAll(keyHash, pks), dec))
    requires NoKeyClash(keyHash, keys, pks)
    ensures pks == AllMissingKeys(keys, signed)
  {
    hide Node, HashAll, MissingDown, MissingKeys, Walk, WalkHashed, NoClash, Merkle;
    var gs, t := AllMissingDown(signed), KeyTree(keyHash, keys);
    MissingKeysAt(keys, signed, |signed|);
    if pks != [] {
      SizeIsPow2();
      MissingInLevelOrder(signed);
      SparseIsFull(h, t.leaves, t.limit);
      WalkSound(h, t.leaves, t.limit, gs, HashAll(keyHash, pks), dec);
      hide LevelOrder, AllTrue, KeysAt, NoKeyClash;
      forall k | 0 <= k < |pks| ensures pks[k] == AllMissingKeys(keys, signed)[k] {
        KeyOfHash(h, keyHash, keys, gs, pks, AllMissingKeys(keys, signed), k);
      }
    }
  }

  lemma KeyOfHash<G>(h: PairHash, keyHash: G -> Bytes32, keys: seq<G>, gs: seq<nat>, pks: seq<G>, ks: seq<G>, k: nat)
    requires |keys| == SYNC_COMMITTEE_SIZE && k < |gs| == |pks| == |ks| && KeysAt(keys, gs, ks)
    requires AllTrue(h, HashAll(keyHash, keys), SYNC_COMMITTEE_SIZE, gs, HashAll(keyHash, pks))
    requires NoKeyClash(keyHash, keys, pks)
    ensures pks[k] == ks[k]
  {
    hide Node, HashAll;
    LeafIsKeyHash(h, keyHash, keys, gs[k]);
    assert keys[gs[k] - SYNC_COMMITTEE_SIZE] in keys && pks[k] in pks;
  }

  /**
   * The aggregate key of an accepted update is the key sum of exactly the members whose bits are set: if the supplied
   * keys restore the root of the committee's keys and bring the aggregate to the committee's key sum.
   */
  lemma AggregateIsSignersSum<G(!new)>(h: PairHash, add: (G, G) -> G, keyHash: G -> Bytes32, keys: seq<G>,
                                       signed: Participation, aggregate: G, pks: seq<G>, dec: seq<Bytes32>)
    requires CommutativeSemigroup(add) && Cancels(add)
    requires |keys| == SYNC_COMMITTEE_SIZE && |pks| == |AllMissingDown(signed)| < SYNC_COMMITTEE_SIZE
    requires Root(Reconstruct(h, AllMissingDown(signed), HashAll(keyHash, pks), dec))
            == Some(KeysRoot(h, keyHash, keys))
    requires pks != [] ==> NoClash(h, HashAll(keyHash, keys), SYNC_COMMITTEE_SIZE,
                                   WalkHashed(h, AllMissingDown(signed), HashAll(keyHash, pks), dec))
    requires NoKeyClash(keyHash, keys, pks)
    requires AddAll(add, aggregate, pks) == KeySum(add, keys, |keys|)
    ensures AllSignersSum(add, keys, signed) == Some(aggregate)
  {
    SuppliedKeysAreMissing(h, keyHash, keys, signed, pks, dec);
    SomebodySigned(add, keys, signed, |signed|);
    SignersPlusMissing(add, keys, signed, |signed|);
    AddAllCancels(add, aggregate, AllSignersSum(add, keys, signed).value, pks);
  }

  lemma {:induction false} SomebodySigned<G>(add: (G, G) -> G, keys: seq<G>, signed: seq<bool>, n: nat)
    requires n <= |signed| && n <= |keys|
    ensures |MissingDown(signed, n)| <= n
    ensures SignerSum(add, keys, signed, n) == None <==> |MissingDown(signed, n)| == n
  {
    if n > 0 {
      SomebodySigned(add, keys, signed, n - 1);
    }
  }
}
