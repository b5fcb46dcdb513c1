/** The log route of executeMessageFromLog byte by byte: from a receipts root down to one log of the other contract. */
module ReceiptProofs {
  import opened Bytes
  import opened Words
  import opened Merkleization
  import opened Branches
  import opened Rlp
  import opened Mpt
  import B = BeaconProofs
  import Bridge
  import Chain
  import S = StorageProofs

  // ---------------------------------------------------------------- the check

  /** Emitter and first two topics of a log. */
  datatype Shown = Shown(emitter: Bytes32, event: Bytes32, id: Bytes32)

  const TWO_160: nat := 0x1_0000_0000_0000_0000_0000_0000_0000_0000_0000_0000

  /** toAddress */
  function AddressOf(mem: Mem, item: Span): Option<Bytes32> {
    if item.len != 21 then None
    else
      var word :- UintOf(mem, item);
      Some(word % TWO_160)
  }

  /** The receipt as a list; a typed one has one byte in front of it. None is a revert. */
  function Untyped(value: Mem): Option<Span> {
    if IsList(value, S.Whole(value)) then Some(S.Whole(value))
    else if value == [] then None
    else Some(Span(|value| - 1, 1))
  }

  /** Log number logIndex of a receipt, None where the contract reverts. */
  function LogAt(value: Mem, logIndex: nat): Option<Shown> {
    var receipt :- Untyped(value);
    var fields :- ListOf(value, receipt);
    if |fields| != 4 then None
    else
      var logs :- ListOf(value, fields[3]);
      if logIndex >= |logs| then None else ReadLog(value, logs[logIndex])
  }

  function ReadLog(value: Mem, item: Span): Option<Shown> {
    var log :- ListOf(value, item);
    if |log| != 3 then None
    else
      var emitter :- AddressOf(value, log[0]);
      var topics :- ListOf(value, log[1]);
      if |topics| != 3 then None
      else
        var event :- StrictUintOf(value, topics[0]);
        var id :- StrictUintOf(value, topics[1]);
        Some(Shown(emitter, event, id))
  }

  /** The log that a receipt proof shows; None is a revert. The key comes from the transaction index. */
  function ShownLog(mem: Mem, k: Keccak, key: Bytes32, proof: seq<Span>, logIndex: nat): Option<Shown> {
    if proof == [] then None
    else
      var value :- ReadFrom(mem, k, key, proof, 0, 0);
      LogAt(value, logIndex)
  }

  /** What the contract does with a receipt proof after it has checked the receipts root. */
  method FindLog(mem: Mem, k: Keccak, key: Bytes32, proof: seq<Span>, logIndex: nat) returns (r: Option<Shown>)
    ensures r == ShownLog(mem, k, key, proof, logIndex)
  {
    hide ListOf, ReadFrom, ReadLog;
    var value := ReadProof(mem, k, key, proof);
    if value == None || value.value == [] {
      return None;
    }
    var item := S.Whole(value.value);
    if !IsList(value.value, item) {
      item := Span(item.len - 1, item.ptr + 1);
    }
    var ls := ToList(value.value, item);
    if ls == None || |ls.value| != 4 {
      return None;
    }
    ls := ToList(value.value, ls.value[3]);
    if ls == None || logIndex >= |ls.value| {
      return None;
    }
    r := LogFields(value.value, ls.value[logIndex]);
  }

  method LogFields(value: Mem, item: Span) returns (r: Option<Shown>)
    ensures r == ReadLog(value, item)
  {
    hide ListOf, AddressOf, StrictUintOf;
    var ls := ToList(value, item);
    if ls == None || |ls.value| != 3 {
      return None;
    }
    var emitter := AddressOf(value, ls.value[0]);
    if emitter == None {
      return None;
    }
    var topics := ToList(value, ls.value[1]);
    if topics == None || |topics.value| != 3 {
      return None;
    }
    var event, id := StrictUintOf(value, topics.value[0]), StrictUintOf(value, topics.value[1]);
    if event == None || id == None {
      return None;
    }
    r := Some(Shown(emitter.value, event.value, id.value));
  }

  // ---------------------------------------------------------------- receipts of the other chain

  datatype LogEntry = LogEntry(emitter: seq<Byte>, topics: seq<seq<Byte>>, data: seq<Byte>)

  datatype Receipt = Receipt(kind: Option<Byte>, status: seq<Byte>, gasUsed: seq<Byte>, bloom: seq<Byte>,
                             logs: seq<LogEntry>)

  function TopicItems(topics: seq<seq<Byte>>): (items: seq<Item>)
    ensures |items| == |topics| && forall j | 0 <= j < |topics| :: items[j] == Str(topics[j])
  {
    if topics == [] then [] else [Str(topics[0])] + TopicItems(topics[1..])
  }

  function LogItem(l: LogEntry): Item {
    List([Str(l.emitter), List(TopicItems(l.topics)), Str(l.data)])
  }

  function LogItems(logs: seq<LogEntry>): (items: seq<Item>)
    ensures |items| == |logs| && forall j | 0 <= j < |logs| :: items[j] == LogItem(logs[j])
  {
    if logs == [] then [] else [LogItem(logs[0])] + LogItems(logs[1..])
  }

  function ReceiptItem(r: Receipt): Item {
    List([Str(r.status), Str(r.gasUsed), Str(r.bloom), List(LogItems(r.logs))])
  }

  /** The value under which a receipt is kept in the trie. */
  function ReceiptBytes(r: Receipt): seq<Byte> {
    (if r.kind.Some? then [r.kind.value] else []) + Encode(ReceiptItem(r))
  }

  ghost predicate ValidReceipt(r: Receipt) {
    && (r.kind.Some? ==> r.kind.value < 0xc0)
    && Encodable(ReceiptItem(r)) && |ReceiptBytes(r)| < TWO_256
    && forall l | l in r.logs :: |l.emitter| == 20 && forall t | t in l.topics :: |t| == 32
  }

  /** The log as the contract reads it. */
  ghost function Meaning(l: LogEntry): Option<Shown>
    requires |l.emitter| == 20 && forall t | t in l.topics :: |t| == 32
  {
    if |l.topics| != 3 then None
    else
      AddressFits(l.emitter);
      Some(Shown(BigEndian(l.emitter), ToWord(l.topics[0]), ToWord(l.topics[1])))
  }

  /** Log number logIndex of a receipt, if there is one, as the contract reads it. */
  ghost function LogOf(r: Receipt, logIndex: nat): Option<Shown>
    requires ValidReceipt(r)
  {
    if logIndex < |r.logs| then Meaning(r.logs[logIndex]) else None
  }

  lemma AddressFits(bs: seq<Byte>)
    requires |bs| == 20
    ensures BigEndian(bs) < TWO_160 < TWO_256
  {
    Pow2Of64();
    Pow2Of32();
    Pow2Add(64, 64);
    Pow2Add(128, 32);
  }

  lemma Pow2Of32()
    ensures Pow2(32) == 0x1_0000_0000
  {
    hide Pow2;
    Pow2Of8();
    Pow2Add(8, 8);
    Pow2Add(16, 16);
  }

  // ---------------------------------------------------------------- reading them

  /** An item stands in memory where the span says. */
  ghost predicate Stands(mem: Mem, item: Span, x: Item) {
    item.len == |Encode(x)| && Placed(mem, item.ptr, Encode(x)) && item.ptr + item.len < TWO_256
  }

  /** The elements of a list that stands in memory stand where the reader finds them. */
  lemma ElementsStand(mem: Mem, item: Span, x: Item) returns (ls: seq<Span>)
    requires x.List? && Encodable(x) && Stands(mem, item, x)
    ensures ListOf(mem, item) == Some(ls) && |ls| == |x.items|
    ensures forall j | 0 <= j < |ls| :: Stands(mem, ls[j], x.items[j])
  {
    hide Placed, ListOf, Header, Body, Children, Encodable;
    var q := item.ptr + HeaderLength(x);
    ListRoundTrip(mem, item.ptr, x);
    ls := Children(x, 0, q);
    PlacedParts(mem, item.ptr, Header(0xc0, |Body(x, 0)|), Body(x, 0));
    ChildrenCount(x, 0, q);
    forall j | 0 <= j < |ls| ensures Stands(mem, ls[j], x.items[j]) {
      ChildPlaced(mem, q, x, 0, j);
    }
  }

  lemma AddressRead(mem: Mem, item: Span, bs: seq<Byte>)
    requires |bs| == 20 && Stands(mem, item, Str(bs))
    ensures AddressOf(mem, item) == Some(BigEndian(bs))
  {
    hide UintOf, BigEndian;
    UintRoundTrip(mem, item.ptr, bs);
    AddressFits(bs);
  }

  lemma TopicRead(mem: Mem, item: Span, bs: seq<Byte>)
    requires |bs| == 32 && Stands(mem, item, Str(bs))
    ensures StrictUintOf(mem, item) == Some(ToWord(bs))
  {
    hide StrictUintOf;
    StrictUintRoundTrip(mem, item.ptr, bs);
  }

  lemma LogRead(mem: Mem, item: Span, l: LogEntry)
    requires Encodable(LogItem(l)) && Stands(mem, item, LogItem(l))
    requires |l.emitter| == 20 && forall t | t in l.topics :: |t| == 32
    ensures ReadLog(mem, item) == Meaning(l)
  {
    hide Stands, ListOf, AddressOf, StrictUintOf, BigEndian;
    var log := ElementsStand(mem, item, LogItem(l));
    AddressRead(mem, log[0], l.emitter);
    var topics := ElementsStand(mem, log[1], LogItem(l).items[1]);
    if |l.topics| == 3 {
      TopicRead(mem, topics[0], l.topics[0]);
      TopicRead(mem, topics[1], l.topics[1]);
    }
  }

  /** Typed or not, a receipt is found in its value. */
  lemma ReceiptStands(r: Receipt)
    requires ValidReceipt(r)
    ensures Untyped(ReceiptBytes(r)).Some?
    ensures Stands(ReceiptBytes(r), Untyped(ReceiptBytes(r)).value, ReceiptItem(r))
  {
    hide Encode, Encodable, ReceiptItem;
    var x, value := ReceiptItem(r), ReceiptBytes(r);
    WholeIsPlaced(value);
    if r.kind == None {
      assert value == Encode(x);
      ItemRead(value, 0, x);
      assert x.List? by { ReceiptIsList(r); }
    } else {
      PlacedParts(value, 0, [r.kind.value], Encode(x));
      assert value[0] == r.kind.value;
    }
  }

  lemma ReceiptIsList(r: Receipt)
    ensures ReceiptItem(r).List?
  {
  }

  /** Reading any log of any receipt gives that log; there is no other log to be read. */
  lemma ReceiptRead(r: Receipt, logIndex: nat)
    requires ValidReceipt(r)
    ensures LogAt(ReceiptBytes(r), logIndex) == LogOf(r, logIndex)
  {
    hide Stands, ListOf, ReadLog, Meaning, Untyped, ReceiptBytes;
    var value := ReceiptBytes(r);
    ReceiptStands(r);
    var x := ReceiptItem(r);
    var fields := ElementsStand(value, Untyped(value).value, x);
    var logs := ElementsStand(value, fields[3], x.items[3]);
    if logIndex < |r.logs| {
      assert x.items[3].items[logIndex] == LogItem(r.logs[logIndex]);
      LogRead(value, logs[logIndex], r.logs[logIndex]);
    }
  }

  // ---------------------------------------------------------------- soundness

  /** The receipts trie holds receipts, and the contract emits the event for hashes in sentMessages only. */
  ghost predicate EmitsSent(receipts: Trie, emitter: Bytes32, event: Bytes32, sent: seq<Bytes32>)
    requires WellFormedTrie(receipts)
  {
    forall key, value | Lookup(receipts, key) == Some(value) ::
      exists r :: value == ReceiptBytes(r) && Honest(r, emitter, event, sent)
  }

  ghost predicate Honest(r: Receipt, emitter: Bytes32, event: Bytes32, sent: seq<Bytes32>) {
    ValidReceipt(r) && forall l | l in r.logs && Meaning(l).Some? ::
      Meaning(l).value.emitter == emitter && Meaning(l).value.event == event ==> Meaning(l).value.id in sent
  }

  /**
   * Soundness. Under the true receipts root, whatever transaction index, log index and nodes are supplied, a log that
   * shows the contract, its event and a hash is a log that the contract emitted, so the hash was sent.
   */
  lemma ShownLogWasEmitted(mem: Mem, k: Keccak, receipts: Trie, key: Bytes32, proof: seq<Span>, logIndex: nat,
                           shown: Shown, sent: seq<Bytes32>)
    requires WellFormedTrie(receipts) && EmitsSent(receipts, shown.emitter, shown.event, sent)
    requires proof != [] && k(Content(mem, proof[0])) == k(NodeBytes(k, receipts))
    requires ShownLog(mem, k, key, proof, logIndex) == Some(shown)
    requires InMemory(proof) && NoClashes(mem, k, proof, receipts)
    ensures shown.id in sent
  {
    hide Content, NoClashes, ReadFrom, Lookup, Nibbles, LeafKey, NodeBytes, LogAt, ReceiptBytes, ValidReceipt, Meaning;
    AcceptedProofIsSound(mem, k, key, proof, receipts);
    var value := ReadFrom(mem, k, key, proof, 0, 0).value;
    var r: Receipt :| value == ReceiptBytes(r) && Honest(r, shown.emitter, shown.event, sent);
    ReceiptRead(r, logIndex);
    assert r.logs[logIndex] in r.logs;
  }

  /**
   * All checks of executeMessageFromLog together: the receipts root under the index for the target slot, the log, its
   * emitter, event and hash. A message that passes is in sentMessages as of the target's state, which is what the
   * bridge's lookup asks.
   */
  lemma LoggedMessageWasSent(mem: Mem, h: PairHash, k: Keccak, p: B.Spec, states: seq<B.BeaconState>, source: nat,
                             target: nat, path: seq<Bytes32>, receipts: Trie, key: Bytes32, proof: seq<Span>,
                             logIndex: nat, shown: Shown, c: Chain.Config, root: seq<Bytes32>, m: Chain.Message)
    requires B.History(h, p, states) && target <= source < |states|
    requires B.PathExists(h, p, states, source, target) && B.PayloadIndex(p, source, target, B.RECEIPTS_ROOT).Some?
    requires WellFormedTrie(receipts) && states[target].payload[B.RECEIPTS_ROOT] == k(NodeBytes(k, receipts))
    requires EmitsSent(receipts, shown.emitter, shown.event, root)
    requires proof != [] && InMemory(proof) && NoClashes(mem, k, proof, receipts)
    requires var g, claimed := B.PayloadIndex(p, source, target, B.RECEIPTS_ROOT).value, k(Content(mem, proof[0]));
             && RestoreRoot(h, claimed, g, path) == Some(B.StateRoot(h, p, states[source]))
             && NoCollision(h, Hashed(h, claimed, g, path),
                            Hashed(h, states[target].payload[B.RECEIPTS_ROOT], g,
                                   B.PayloadPath(h, p, states, source, target, B.RECEIPTS_ROOT)))
    requires ShownLog(mem, k, key, proof, logIndex) == Some(shown) && shown.id == c.keccak(m)
    ensures c.keccak(m) in root
    ensures forall s: Chain.State, slot | slot in s.amb.roots && s.amb.roots[slot] == root ::
              Bridge.LookUp(c, s, m, Chain.Log(slot)) == Some(s)
  {
    hide B.StateRoot, B.PayloadPath, B.PathExists, B.PayloadIndex, RestoreRoot, Hashed, NoCollision, Content, NoClashes,
         ShownLog, NodeBytes, EmitsSent, WellFormedTrie;
    B.PayloadProofBinds(h, p, states, source, target, B.RECEIPTS_ROOT, k(Content(mem, proof[0])), path);
    ShownLogWasEmitted(mem, k, receipts, key, proof, logIndex, shown, root);
  }

  // ---------------------------------------------------------------- the key of a receipt

  function Zeros(n: nat): (bs: seq<Byte>)
    ensures |bs| == n && forall k | 0 <= k < n :: bs[k] == 0
  {
    seq(n, _ => 0)
  }

  function Or(a: Byte, b: Byte): Byte {
    ((a as bv8) | (b as bv8)) as nat
  }

  /** The bytes of rlpIndex: shifts by 248, 240 and 232 bits, and what they shift together. */
  function IndexBytes(v: nat): (bs: seq<Byte>)
    ensures |bs| == 32
  {
    if v < 128 then [0x80] + Zeros(31)
    else if v < 256 then [0x81, v] + Zeros(30)
    else [Or(0x82, v / 65536 % 256), v / 256 % 256, v % 256] + Zeros(29)
  }

  /** rlpIndex */
  function RlpIndex(v: nat): Bytes32 {
    ToWord(IndexBytes(v))
  }

  /** The two nibbles of each byte. */
  function Split(bs: seq<Byte>): seq<Nibble> {
    if bs == [] then [] else [bs[0] / 16, bs[0] % 16] + Split(bs[1..])
  }

  /** The key under which the receipts trie keeps the receipt of a transaction: the encoding of its index. */
  function IndexKey(v: nat): seq<Nibble> {
    Split(Encode(Str(Minimal(v))))
  }

  lemma {:induction false} SplitPrefix(x: seq<Byte>, y: seq<Byte>)
    ensures Split(x) <= Split(y) <==> x <= y
    decreases |x|
  {
    if x != [] && y != [] {
      SplitPrefix(x[1..], y[1..]);
      assert Split(x)[2..] == Split(x[1..]) && Split(y)[2..] == Split(y[1..]);
      assert x == [x[0]] + x[1..] && y == [y[0]] + y[1..];
      if Split(x) <= Split(y) {
        assert Split(x)[0] == Split(y)[0] && Split(x)[1] == Split(y)[1];
      }
    }
  }

  /** The nibbles of a word are those of its bytes. */
  lemma {:induction false} WordNibbles(bs: seq<Byte>, j: nat)
    requires |bs| == 32 && j <= 32
    ensures Nibbles(ToWord(bs), 2 * j) == Split(bs[j..])
    decreases 32 - j
  {
    hide NibbleOf;
    if j < 32 {
      var w := ToWord(bs);
      WordNibbles(bs, j + 1);
      ByteNibbles(bs, j);
      assert bs[j..][1..] == bs[j + 1..];
      assert Nibbles(w, 2 * j) == [NibbleOf(w, 2 * j)] + ([NibbleOf(w, 2 * j + 1)] + Nibbles(w, 2 * (j + 1)));
    }
  }

  lemma ByteNibbles(bs: seq<Byte>, j: nat)
    requires |bs| == 32 && j < 32
    ensures NibbleOf(ToWord(bs), 2 * j) == bs[j] / 16 && NibbleOf(ToWord(bs), 2 * j + 1) == bs[j] % 16
  {
    hide Shr, BigEndian, Pow2;
    var w, x := BigEndian(bs), BigEndian(bs[..j + 1]);
    LeadingBytes(bs, j + 1);
    LastByte(bs, j);
    ShrAdd(w, 8 * (31 - j), 4);
    ShrNibble(x);
    LastNibbles(BigEndian(bs[..j]), bs[j]);
    assert 4 * (63 - 2 * j) == 8 * (31 - j) + 4 && 4 * (63 - (2 * j + 1)) == 8 * (31 - j);
  }

  lemma LastNibbles(a: nat, b: Byte)
    ensures (a * 256 + b) / 16 % 16 == b / 16 && (a * 256 + b) % 16 == b % 16
  {
    var high := a * 16 + b / 16;
    assert a * 256 + b == high * 16 + b % 16;
    assert (a * 256 + b) / 16 == high;
  }

  lemma LastByte(bs: seq<Byte>, j: nat)
    requires j < |bs|
    ensures BigEndian(bs[..j + 1]) == BigEndian(bs[..j]) * 256 + bs[j]
  {
    hide Pow2;
    assert bs[..j + 1][..j] == bs[..j];
  }

  lemma ShrNibble(x: nat)
    ensures Shr(x, 4) == x / 16
  {
    assert Shr(x, 4) == Shr(x / 2, 3) == Shr(x / 2 / 2, 2) == Shr(x / 2 / 2 / 2, 1) == x / 2 / 2 / 2 / 2;
  }

  /**
   * The contract's query starts with the key of transaction v if and only if v is 0 or lies between 128 and 65535. For
   * 1 to 127 it is the query for transaction 0.
   */
  lemma IndexExactly(v: nat)
    requires v < TWO_256
    ensures IndexKey(v) <= Nibbles(RlpIndex(v), 0) <==> v == 0 || 128 <= v < 65536
    ensures v < 128 ==> RlpIndex(v) == RlpIndex(0)
  {
    hide Nibbles, Split, BigEndian, Encode;
    WordNibbles(IndexBytes(v), 0);
    assert IndexBytes(v)[0..] == IndexBytes(v);
    SplitPrefix(Encode(Str(Minimal(v))), IndexBytes(v));
    EncodedIndex(v);
  }

  lemma EncodedIndex(v: nat)
    requires v < TWO_256
    ensures Encode(Str(Minimal(v))) <= IndexBytes(v) <==> v == 0 || 128 <= v < 65536
  {
    var bs := Encode(Str(Minimal(v)));
    if v < 128 {
      SmallIndex(v);
    } else if v < 256 {
      assert Minimal(v) == [v] by { assert Minimal(v / 256) == []; }
      assert bs == [0x81, v];
    } else if v < 65536 {
      TwoBytes(v);
      assert bs == [0x82, v / 256, v % 256];
      assert Or(0x82, 0) == 0x82;
    } else {
      LargeIndex(v);
    }
  }

  lemma SmallIndex(v: nat)
    requires v < 128
    ensures Encode(Str(Minimal(v))) == if v == 0 then [0x80] else [v]
  {
    if v > 0 {
      assert Minimal(v) == [v] by { assert Minimal(v / 256) == []; }
    }
  }

  lemma TwoBytes(v: nat)
    requires 256 <= v < 65536
    ensures Minimal(v) == [v / 256, v % 256]
  {
    assert Minimal(v / 256) == [v / 256] by { assert Minimal(v / 256 / 256) == []; }
  }

  /** Longer numbers do not fit: one of their first and last two bytes differs from what stands in the query. */
  lemma LargeIndex(v: nat)
    requires 65536 <= v < TWO_256
    ensures !(Encode(Str(Minimal(v))) <= IndexBytes(v))
  {
    hide Minimal, Or, Encode;
    var m, ix := Minimal(v), IndexBytes(v);
    LargeEncoded(v);
    LastBytes(v);
    var j := if v % 256 != 0 then |m| else if v / 256 % 256 != 0 then |m| - 1 else 1;
    assert Encode(Str(m))[j] == m[j - 1];
    if j < 32 {
      assert ix[j] == (if j == 1 then v / 256 % 256 else if j == 2 then v % 256 else 0);
    }
  }

  lemma LargeEncoded(v: nat)
    requires 65536 <= v < TWO_256
    ensures var m := Minimal(v); 3 <= |m| <= 32 && m[0] != 0 && Encode(Str(m)) == [0x80 + |m|] + m
  {
    hide Minimal;
    Pow2Of256();
    MinimalLength(v, 32);
    MinimalValue(v);
    LastBytes(v);
  }

  lemma LastBytes(v: nat)
    requires 65536 <= v
    ensures var m := Minimal(v); |m| >= 3 && m[|m| - 1] == v % 256 && m[|m| - 2] == v / 256 % 256
  {
    var a, b := v / 256, v / 256 / 256;
    assert Minimal(v) == Minimal(a) + [v % 256] && Minimal(a) == Minimal(b) + [a % 256];
    assert Minimal(b) == Minimal(b / 256) + [b % 256];
  }

  // ---------------------------------------------------------------- completeness

  /** The receipts trie keeps the receipt of transaction v, and the list has the nodes on the way to it. */
  ghost predicate Proves(mem: Mem, k: Keccak, receipts: Trie, v: nat, r: Receipt, proof: seq<Span>)
    requires WellFormedTrie(receipts)
  {
    && Lookup(receipts, IndexKey(v)) == Some(ReceiptBytes(r))
    && Stored(mem, k, proof, 0, Nodes(receipts, IndexKey(v)))
  }

  /** With the honest list of nodes every log of transaction 0 and of the transactions from 128 on is shown. */
  lemma LogIsShown(mem: Mem, k: Keccak, receipts: Trie, v: nat, r: Receipt, proof: seq<Span>, logIndex: nat)
    requires ValidReceipt(r) && (v == 0 || 128 <= v < 65536)
    requires WellFormedTrie(receipts) && Proves(mem, k, receipts, v, r, proof)
    ensures proof != [] && k(Content(mem, proof[0])) == k(NodeBytes(k, receipts))
    ensures ShownLog(mem, k, RlpIndex(v), proof, logIndex) == LogOf(r, logIndex)
  {
    hide Content, ReadFrom, Lookup, Nibbles, Nodes, Stored, NodeBytes, LogAt, ReceiptBytes, ValidReceipt, Meaning,
         RlpIndex, IndexKey;
    IndexExactly(v);
    ReadFinds(mem, k, RlpIndex(v), proof, 0, 0, receipts, IndexKey(v));
    ChildContent(mem, k, proof, 0, receipts, IndexKey(v));
    ReceiptRead(r, logIndex);
  }

  /** The prover's path leads from the first node of a list to the source's state root, under the contract's index. */
  ghost predicate RootProved(mem: Mem, h: PairHash, k: Keccak, p: B.Spec, states: seq<B.BeaconState>, source: nat,
                             target: nat, proof: seq<Span>) {
    proof != [] && B.PathExists(h, p, states, source, target) &&
    var g := B.PayloadIndex(p, source, target, B.RECEIPTS_ROOT);
    g.Some? && RestoreRoot(h, k(Content(mem, proof[0])), g.value,
                           B.PayloadPath(h, p, states, source, target, B.RECEIPTS_ROOT))
               == Some(B.StateRoot(h, p, states[source]))
  }

  /** All checks of executeMessageFromLog pass for it, with the prover's path and for every target up to the source. */
  lemma LoggedMessagePasses(mem: Mem, h: PairHash, k: Keccak, p: B.Spec, states: seq<B.BeaconState>, source: nat,
                            target: nat, receipts: Trie, v: nat, r: Receipt, proof: seq<Span>, logIndex: nat)
    requires B.History(h, p, states) && target <= source < |states| && B.ValidState(p, states[target])
    requires WellFormedTrie(receipts) && states[target].payload[B.RECEIPTS_ROOT] == k(NodeBytes(k, receipts))
    requires ValidReceipt(r) && Proves(mem, k, receipts, v, r, proof) && (v == 0 || 128 <= v < 65536)
    ensures RootProved(mem, h, k, p, states, source, target, proof)
    ensures ShownLog(mem, k, RlpIndex(v), proof, logIndex) == LogOf(r, logIndex)
  {
    hide B.StateRoot, B.PayloadPath, B.PathExists, B.PayloadIndex, B.History, RestoreRoot, Content, ShownLog, NodeBytes,
         Meaning, RlpIndex, WellFormedTrie, B.ValidState;
    LogIsShown(mem, k, receipts, v, r, proof, logIndex);
    B.PayloadProofVerifies(h, p, states, source, target, B.RECEIPTS_ROOT);
  }

  /**
   * No log of the transactions 1 to 127 can be shown: whatever nodes are accepted for their index, the log is one of
   * transaction 0.
   */
  lemma LowIndexShowsFirst(mem: Mem, k: Keccak, receipts: Trie, v: nat, first: Receipt, proof: seq<Span>, logIndex: nat)
    requires WellFormedTrie(receipts) && v < 128
    requires ValidReceipt(first) && Lookup(receipts, IndexKey(0)) == Some(ReceiptBytes(first))
    requires proof != [] && k(Content(mem, proof[0])) == k(NodeBytes(k, receipts))
    requires InMemory(proof) && NoClashes(mem, k, proof, receipts)
    requires ShownLog(mem, k, RlpIndex(v), proof, logIndex).Some?
    ensures logIndex < |first.logs| && ShownLog(mem, k, RlpIndex(v), proof, logIndex) == LogOf(first, logIndex)
  {
    hide Content, NoClashes, ReadFrom, Lookup, Nibbles, LeafKey, NodeBytes, LogAt, ReceiptBytes, ValidReceipt, Meaning,
         RlpIndex, IndexKey;
    IndexExactly(v);
    IndexExactly(0);
    AcceptedProofIsSound(mem, k, RlpIndex(v), proof, receipts);
    LookupFollowsLeafKey(receipts, RlpIndex(v), 0, IndexKey(0));
    ReceiptRead(first, logIndex);
  }
}
