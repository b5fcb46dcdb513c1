/** Reading Merkle-Patricia tries: nodes given one by one, each checked against the hash in the one before. */
module Mpt {
  import opened Bytes
  import opened Words
  import opened Merkleization
  import opened Rlp

  type Nibble = n: nat | n < 16

  /** keccak256; it is never interpreted. */
  type Keccak = seq<Byte> -> Bytes32

  // ---------------------------------------------------------------- tries

  /** All keys have the same length, so that no key ends at a branch. */
  datatype Trie =
    | Leaf(path: seq<Nibble>, value: seq<Byte>)
    | Ext(path: seq<Nibble>, child: Trie)
    | Branch(children: seq<Child>)

  datatype Child = Absent | Present(t: Trie)

  /** What fits into the encoding: branches have 16 children, paths at most 64 nibbles, values are not huge. */
  predicate WellFormedTrie(t: Trie) {
    match t
    case Leaf(path, value) => |path| <= 64 && |value| < 0x1_0000_0000
    case Ext(path, child) => |path| <= 64 && WellFormedTrie(child)
    case Branch(children) =>
      |children| == 16 && forall k | 0 <= k < 16 && children[k].Present? :: WellFormedTrie(children[k].t)
  }

  /** Pairs of nibbles as bytes. */
  function Pack(ns: seq<Nibble>): (bs: seq<Byte>)
    ensures |bs| == |ns| / 2
  {
    if |ns| < 2 then [] else [PackByte(ns[0], ns[1])] + Pack(ns[2..])
  }

  function PackByte(high: nat, low: nat): Byte
    requires high < 16 && low < 16
  {
    16 * high + low
  }

  /** The hex-prefix encoding of a path (Yellow Paper, appendix C). */
  function HexPrefix(path: seq<Nibble>, isLeaf: bool): (bs: seq<Byte>)
    ensures 0 < |bs| <= |path| / 2 + 1
  {
    var flag := if isLeaf then 2 else 0;
    if |path| % 2 == 1 then [PackByte(flag + 1, path[0])] + Pack(path[1..]) else [PackByte(flag, 0)] + Pack(path)
  }

  /** A node as it is stored; it refers to its children by hash, and to an absent child by the empty string. */
  function NodeItem(k: Keccak, t: Trie): (x: Item)
    ensures x.List? && |x.items| == if t.Branch? then |t.children| + 1 else 2
    decreases t, 2
  {
    match t
    case Leaf(path, value) => List([Str(HexPrefix(path, true)), Str(value)])
    case Ext(path, child) => List([Str(HexPrefix(path, false)), Str(HashOf(k, child))])
    case Branch(children) => List(ChildItems(k, t, 0) + [Str([])])
  }

  function ChildItems(k: Keccak, t: Trie, i: nat): (items: seq<Item>)
    requires t.Branch? && i <= |t.children|
    ensures |items| == |t.children| - i
    decreases t, 1, |t.children| - i
  {
    if i == |t.children| then [] else [Str(ReferenceTo(k, t, i))] + ChildItems(k, t, i + 1)
  }

  function ReferenceTo(k: Keccak, t: Trie, i: nat): (bs: seq<Byte>)
    requires t.Branch? && i < |t.children|
    ensures |bs| <= 32
    decreases t, 0
  {
    match t.children[i]
    case Absent => []
    case Present(c) => HashOf(k, c)
  }

  function NodeBytes(k: Keccak, t: Trie): seq<Byte>
    decreases t, 3
  {
    Encode(NodeItem(k, t))
  }

  function HashOf(k: Keccak, t: Trie): (bs: seq<Byte>)
    ensures |bs| == 32
    decreases t, 4
  {
    Fixed(k(NodeBytes(k, t)), 32)
  }

  /** The value that the trie holds for a key. */
  function Lookup(t: Trie, key: seq<Nibble>): Option<seq<Byte>>
    requires WellFormedTrie(t)
  {
    match t
    case Leaf(path, value) => if path == key then Some(value) else None
    case Ext(path, child) => if path <= key then Lookup(child, key[|path|..]) else None
    case Branch(children) =>
      if key == [] || children[key[0]].Absent? then None else Lookup(children[key[0]].t, key[1..])
  }

  // ---------------------------------------------------------------- the reader

  /** A nibble of the key, highest first; beyond the key the shift leaves nothing. */
  function NibbleOf(key: Bytes32, index: nat): Nibble {
    if index > 63 then 0 else Shr(key, 4 * (63 - index)) % 16
  }

  /** The nibbles of a key from one position on. */
  function Nibbles(key: Bytes32, pos: nat): (ns: seq<Nibble>)
    decreases 64 - pos
  {
    if pos >= 64 then [] else [NibbleOf(key, pos)] + Nibbles(key, pos + 1)
  }

  /** Length of a hex-prefixed path, and whether it belongs to a leaf. */
  function DecodePathLength(path: seq<Byte>): (nat, bool)
    requires path != []
  {
    var nibble := path[0] / 16;
    ((|path| - 1) * 2 + nibble % 2, nibble > 1)
  }

  /** A node either holds the value or names the hash of the next node and the position in the key there. */
  datatype Visit = Value(bytes: seq<Byte>) | Descend(root: Bytes32, pos: nat)

  function VisitNode(mem: Mem, key: Bytes32, node: Span, pos: nat): Option<Visit> {
    var ls :- ListOf(mem, node);
    if |ls| == 17 then
      var root :- UintOf(mem, ls[NibbleOf(key, pos)]);
      Some(Descend(root, pos + 1))
    else if |ls| == 2 then
      var path :- BytesOf(mem, ls[0]);
      if path == [] then None
      else
        var d := DecodePathLength(path);
        if d.1 then
          var value :- BytesOf(mem, ls[1]);
          Some(Value(value))
        else
          var root :- UintOf(mem, ls[1]);
          Some(Descend(root, pos + d.0))
    else None
  }

  function Content(mem: Mem, node: Span): seq<Byte> {
    Read(mem, node.ptr, node.len)
  }

  /** The reader from node i on, None where it reverts. */
  function ReadFrom(mem: Mem, k: Keccak, key: Bytes32, proof: seq<Span>, i: nat, pos: nat): Option<seq<Byte>>
    requires i < |proof|
    decreases |proof| - i
  {
    var visit :- VisitNode(mem, key, proof[i], pos);
    match visit
    case Value(bytes) => Some(bytes)
    case Descend(root, next) =>
      if i + 1 < |proof| && root == k(Content(mem, proof[i + 1])) then ReadFrom(mem, k, key, proof, i + 1, next)
      else None
  }

  method ReadProof(mem: Mem, k: Keccak, key: Bytes32, proof: seq<Span>) returns (r: Option<seq<Byte>>)
    ensures r == if proof == [] then None else ReadFrom(mem, k, key, proof, 0, 0)
  {
    if proof == [] {
      return None;
    }
    var node := proof[0];
    var currentPathLength: nat, i: nat := 0, 0;
    while true
      invariant i < |proof| && node == proof[i]
      invariant ReadFrom(mem, k, key, proof, i, currentPathLength) == ReadFrom(mem, k, key, proof, 0, 0)
      decreases |proof| - i
    {
      var visit := VisitNode(mem, key, node, currentPathLength);
      if visit == None {
        return None;
      }
      if visit.value.Value? {
        return Some(visit.value.bytes);
      }
      if i + 1 >= |proof| || visit.value.root != k(Content(mem, proof[i + 1])) {
        return None;
      }
      currentPathLength := visit.value.pos;
      i := i + 1;
      node := proof[i];
    }
  }

  // ---------------------------------------------------------------- honest nodes are read back

  ghost predicate Holds(mem: Mem, node: Span, bs: seq<Byte>) {
    node.len == |bs| && Placed(mem, node.ptr, bs) && node.ptr + node.len < TWO_256
  }

  lemma {:induction false} FixedValue(w: nat, n: nat)
    requires w < Pow2(8 * n)
    ensures BigEndian(Fixed(w, n)) == w
    decreases n
  {
    if n > 0 {
      Pow2Step(n);
      FixedValue(w / 256, n - 1);
      assert Fixed(w, n)[..n - 1] == Fixed(w / 256, n - 1);
    }
  }

  lemma HashValue(k: Keccak, t: Trie)
    ensures BigEndian(HashOf(k, t)) == k(NodeBytes(k, t))
  {
    Pow2Of256();
    FixedValue(k(NodeBytes(k, t)), 32);
  }

  lemma PathDecoded(path: seq<Nibble>, isLeaf: bool)
    ensures DecodePathLength(HexPrefix(path, isLeaf)) == (|path|, isLeaf)
  {
  }

  /** Short strings and lists of them have short encodings. */
  lemma {:induction false} ShortBody(x: Item, i: nat, limit: nat)
    requires x.List? && i <= |x.items| && limit < TWO_64
    requires forall j | 0 <= j < |x.items| :: x.items[j].Str? && |x.items[j].bytes| <= limit
    ensures |Body(x, i)| <= (|x.items| - i) * (limit + 9)
    decreases |x.items| - i
  {
    if i < |x.items| {
      ShortBody(x, i + 1, limit);
      ShortHeader(|x.items[i].bytes|);
      assert (|x.items| - i) * (limit + 9) == (|x.items| - (i + 1)) * (limit + 9) + (limit + 9);
    }
  }

  lemma ShortHeader(n: nat)
    requires n < TWO_64
    ensures |Header(0x80, n)| <= 9
  {
    ShortLength(n);
  }

  lemma {:induction false} ChildItemAt(k: Keccak, t: Trie, i: nat, j: nat)
    requires t.Branch? && i <= j < |t.children|
    ensures ChildItems(k, t, i)[j - i] == Str(ReferenceTo(k, t, j))
    decreases j - i
  {
    if i < j {
      ChildItemAt(k, t, i + 1, j);
    }
  }

  lemma NodeEncodable(k: Keccak, t: Trie)
    requires WellFormedTrie(t)
    ensures Encodable(NodeItem(k, t))
    ensures forall j | 0 <= j < |NodeItem(k, t).items| :: NodeItem(k, t).items[j].Str?
  {
    var x, limit := NodeItem(k, t), 0x1_0000_0000;
    forall j | 0 <= j < |x.items| ensures x.items[j].Str? && |x.items[j].bytes| <= limit {
      if t.Branch? && j < 16 {
        ChildItemAt(k, t, 0, j);
      }
    }
    ShortBody(x, 0, limit);
    Bounded(|x.items|, limit + 9);
  }

  lemma Bounded(n: nat, m: nat)
    requires n <= 17 && m <= 0x2_0000_0000
    ensures n * m < TWO_64
  {
    MulMono(n, 17, m);
  }

  /** Element j of a stored node is where the reader finds it. */
  lemma ElementPlaced(mem: Mem, k: Keccak, t: Trie, node: Span, j: nat) returns (ls: seq<Span>)
    requires WellFormedTrie(t) && Holds(mem, node, NodeBytes(k, t)) && j < |NodeItem(k, t).items|
    ensures ListOf(mem, node) == Some(ls) && |ls| == |NodeItem(k, t).items|
    ensures var e := Encode(NodeItem(k, t).items[j]); ls[j].len == |e| && Placed(mem, ls[j].ptr, e)
  {
    var x := NodeItem(k, t);
    hide NodeItem, Placed, ListOf, Header, Body, Children;
    NodeEncodable(k, t);
    ListRoundTrip(mem, node.ptr, x);
    var q := node.ptr + HeaderLength(x);
    ls := Children(x, 0, q);
    PlacedParts(mem, node.ptr, Header(0xc0, |Body(x, 0)|), Body(x, 0));
    ChildPlaced(mem, q, x, 0, j);
  }

  /** What the reader makes of a stored node. */
  ghost function Expected(k: Keccak, key: Bytes32, t: Trie, pos: nat): Visit
    requires WellFormedTrie(t)
  {
    match t
    case Leaf(path, value) => Value(value)
    case Ext(path, child) => Descend(k(NodeBytes(k, child)), pos + |path|)
    case Branch(children) =>
      match children[NibbleOf(key, pos)]
      case Absent => Descend(0, pos + 1)
      case Present(c) => Descend(k(NodeBytes(k, c)), pos + 1)
  }

  lemma NodeVisited(mem: Mem, k: Keccak, key: Bytes32, t: Trie, node: Span, pos: nat)
    requires WellFormedTrie(t) && Holds(mem, node, NodeBytes(k, t))
    ensures VisitNode(mem, key, node, pos) == Some(Expected(k, key, t, pos))
  {
    hide Placed, ListOf, BytesOf, UintOf, NodeBytes, Holds, DecodePathLength, HexPrefix, Encode;
    match t {
      case Branch(children) =>
        var n := NibbleOf(key, pos);
        var ls := ElementPlaced(mem, k, t, node, n);
        ChildItemAt(k, t, 0, n);
        UintRoundTrip(mem, ls[n].ptr, ReferenceTo(k, t, n));
        if children[n].Present? {
          HashValue(k, children[n].t);
        }
      case Leaf(path, value) =>
        var ls := ElementPlaced(mem, k, t, node, 0);
        var ls' := ElementPlaced(mem, k, t, node, 1);
        BytesRoundTrip(mem, ls[0].ptr, HexPrefix(path, true));
        PathDecoded(path, true);
        BytesRoundTrip(mem, ls[1].ptr, value);
      case Ext(path, child) =>
        var ls := ElementPlaced(mem, k, t, node, 0);
        var ls' := ElementPlaced(mem, k, t, node, 1);
        BytesRoundTrip(mem, ls[0].ptr, HexPrefix(path, false));
        PathDecoded(path, false);
        UintRoundTrip(mem, ls[1].ptr, HashOf(k, child));
        HashValue(k, child);
    }
  }

  // ---------------------------------------------------------------- completeness

  /** The nodes on the way of a key. */
  ghost function Nodes(t: Trie, key: seq<Nibble>): seq<Trie>
    requires WellFormedTrie(t)
  {
    match t
    case Leaf(path, value) => [t]
    case Ext(path, child) => if path <= key then [t] + Nodes(child, key[|path|..]) else [t]
    case Branch(children) =>
      if key == [] || children[key[0]].Absent? then [t] else [t] + Nodes(children[key[0]].t, key[1..])
  }

  /** The list of nodes, as far as it is honest from entry i on. */
  ghost predicate Stored(mem: Mem, k: Keccak, proof: seq<Span>, i: nat, nodes: seq<Trie>) {
    i + |nodes| <= |proof| && forall j | 0 <= j < |nodes| :: Holds(mem, proof[i + j], NodeBytes(k, nodes[j]))
  }

  lemma StoredTail(mem: Mem, k: Keccak, proof: seq<Span>, i: nat, t: Trie, rest: seq<Trie>)
    requires Stored(mem, k, proof, i, [t] + rest)
    ensures i < |proof| && Holds(mem, proof[i], NodeBytes(k, t)) && Stored(mem, k, proof, i + 1, rest)
  {
    var nodes := [t] + rest;
    assert nodes[0] == t && proof[i + 0] == proof[i];
    forall j | 0 <= j < |rest| ensures Holds(mem, proof[i + 1 + j], NodeBytes(k, rest[j])) {
      assert nodes[1 + j] == rest[j] && proof[i + (1 + j)] == proof[i + 1 + j];
    }
  }

  lemma HeldContent(mem: Mem, node: Span, bs: seq<Byte>)
    requires Holds(mem, node, bs)
    ensures Content(mem, node) == bs
  {
    PlacedRead(mem, node.ptr, bs);
  }

  lemma FirstNode(t: Trie, key: seq<Nibble>)
    requires WellFormedTrie(t)
    ensures Nodes(t, key) != [] && Nodes(t, key)[0] == t
  {
  }

  /** A key of the trie may be shorter than the query; what matters is that the query starts with it. */
  lemma {:induction false} ReadFinds(mem: Mem, k: Keccak, key: Bytes32, proof: seq<Span>, i: nat, pos: nat, t: Trie,
                                     ns: seq<Nibble>)
    requires WellFormedTrie(t) && ns <= Nibbles(key, pos) && Lookup(t, ns).Some?
    requires Stored(mem, k, proof, i, Nodes(t, ns))
    ensures i < |proof| && ReadFrom(mem, k, key, proof, i, pos) == Lookup(t, ns)
    decreases t
  {
    hide Holds, NodeBytes, VisitNode, Content, Stored, ReadFrom, Nibbles, NibbleOf;
    match t {
      case Leaf(path, value) =>
        assert [t] + [] == [t];
        StoredTail(mem, k, proof, i, t, []);
        NodeVisited(mem, k, key, t, proof[i], pos);
        ReadEnds(mem, k, key, proof, i, pos, value);
      case Ext(path, child) =>
        StoredTail(mem, k, proof, i, t, Nodes(child, ns[|path|..]));
        NodeVisited(mem, k, key, t, proof[i], pos);
        PrefixTail(key, pos, ns, |path|);
        ReadFinds(mem, k, key, proof, i + 1, pos + |path|, child, ns[|path|..]);
        ReadDescends(mem, k, key, proof, i, pos, child, pos + |path|, ns[|path|..]);
      case Branch(children) =>
        FirstNibble(key, pos);
        var c := children[ns[0]].t;
        StoredTail(mem, k, proof, i, t, Nodes(c, ns[1..]));
        NodeVisited(mem, k, key, t, proof[i], pos);
        PrefixTail(key, pos, ns, 1);
        ReadFinds(mem, k, key, proof, i + 1, pos + 1, c, ns[1..]);
        ReadDescends(mem, k, key, proof, i, pos, c, pos + 1, ns[1..]);
    }
  }

  lemma PrefixTail(key: Bytes32, pos: nat, ns: seq<Nibble>, n: nat)
    requires ns <= Nibbles(key, pos) && n <= |ns|
    ensures ns[n..] <= Nibbles(key, pos + n)
  {
    hide Nibbles;
    NibblesTail(key, pos, n);
  }

  lemma ReadEnds(mem: Mem, k: Keccak, key: Bytes32, proof: seq<Span>, i: nat, pos: nat, value: seq<Byte>)
    requires i < |proof| && VisitNode(mem, key, proof[i], pos) == Some(Value(value))
    ensures ReadFrom(mem, k, key, proof, i, pos) == Some(value)
  {
  }

  lemma ReadDescends(mem: Mem, k: Keccak, key: Bytes32, proof: seq<Span>, i: nat, pos: nat, child: Trie, next: nat,
                     ns: seq<Nibble>)
    requires WellFormedTrie(child) && Stored(mem, k, proof, i + 1, Nodes(child, ns))
    requires i < |proof| && VisitNode(mem, key, proof[i], pos) == Some(Descend(k(NodeBytes(k, child)), next))
    ensures i + 1 < |proof| && ReadFrom(mem, k, key, proof, i, pos) == ReadFrom(mem, k, key, proof, i + 1, next)
  {
    hide Holds, NodeBytes, VisitNode, Content, Stored, Nodes, WellFormedTrie;
    ChildContent(mem, k, proof, i + 1, child, ns);
  }

  lemma ChildContent(mem: Mem, k: Keccak, proof: seq<Span>, i: nat, t: Trie, key: seq<Nibble>)
    requires WellFormedTrie(t) && Stored(mem, k, proof, i, Nodes(t, key))
    ensures i < |proof| && Content(mem, proof[i]) == NodeBytes(k, t)
  {
    FirstNode(t, key);
    assert Holds(mem, proof[i + 0], NodeBytes(k, Nodes(t, key)[0]));
    HeldContent(mem, proof[i], NodeBytes(k, t));
  }

  lemma {:induction false} NibblesTail(key: Bytes32, pos: nat, n: nat)
    requires n <= |Nibbles(key, pos)|
    ensures Nibbles(key, pos)[n..] == Nibbles(key, pos + n)
    decreases n
  {
    if n > 0 {
      NibblesTail(key, pos + 1, n - 1);
    }
  }

  /** Completeness: from the honest list of nodes, every key that the trie holds is read with its value. */
  lemma HonestProofReads(mem: Mem, k: Keccak, key: Bytes32, proof: seq<Span>, t: Trie)
    requires WellFormedTrie(t) && Lookup(t, Nibbles(key, 0)).Some?
    requires Stored(mem, k, proof, 0, Nodes(t, Nibbles(key, 0)))
    ensures proof != [] && ReadFrom(mem, k, key, proof, 0, 0) == Lookup(t, Nibbles(key, 0))
  {
    ReadFinds(mem, k, key, proof, 0, 0, t, Nibbles(key, 0));
  }

  // ---------------------------------------------------------------- soundness

  /** The key of the leaf that the query leads to: its own path, with the query's nibbles at the branches. */
  ghost function LeafKey(t: Trie, key: Bytes32, pos: nat): seq<Nibble>
    requires WellFormedTrie(t)
  {
    match t
    case Leaf(path, value) => path
    case Ext(path, child) => path + LeafKey(child, key, pos + |path|)
    case Branch(children) =>
      var n := NibbleOf(key, pos);
      [n] + if children[n].Present? then LeafKey(children[n].t, key, pos + 1) else []
  }

  /** No given node collides with a node of the trie, and none has the hash 0. */
  ghost predicate NoClashes(mem: Mem, k: Keccak, proof: seq<Span>, t: Trie) {
    && (forall i | 0 <= i < |proof| ::
          k(Content(mem, proof[i])) != 0
          && (k(Content(mem, proof[i])) == k(NodeBytes(k, t)) ==> Content(mem, proof[i]) == NodeBytes(k, t)))
    && match t
       case Leaf(_, _) => true
       case Ext(_, child) => NoClashes(mem, k, proof, child)
       case Branch(children) =>
         forall j | 0 <= j < |children| && children[j].Present? :: NoClashes(mem, k, proof, children[j].t)
  }

  ghost predicate InMemory(proof: seq<Span>) {
    forall i | 0 <= i < |proof| :: proof[i].ptr + proof[i].len < TWO_256
  }

  /** A node with the right hash is the right node. */
  lemma ContentHolds(mem: Mem, k: Keccak, proof: seq<Span>, i: nat, t: Trie)
    requires i < |proof| && InMemory(proof) && NoClashes(mem, k, proof, t)
    requires k(Content(mem, proof[i])) == k(NodeBytes(k, t))
    ensures Holds(mem, proof[i], NodeBytes(k, t))
  {
    assert Content(mem, proof[i]) == NodeBytes(k, t);
  }

  lemma {:induction false} ReadSound(mem: Mem, k: Keccak, key: Bytes32, proof: seq<Span>, i: nat, pos: nat, t: Trie)
    requires WellFormedTrie(t) && i < |proof| && InMemory(proof) && NoClashes(mem, k, proof, t)
    requires k(Content(mem, proof[i])) == k(NodeBytes(k, t))
    requires ReadFrom(mem, k, key, proof, i, pos).Some?
    ensures Lookup(t, LeafKey(t, key, pos)) == ReadFrom(mem, k, key, proof, i, pos)
    decreases t
  {
    hide Holds, NodeBytes, VisitNode, Content, InMemory;
    ContentHolds(mem, k, proof, i, t);
    NodeVisited(mem, k, key, t, proof[i], pos);
    match t {
      case Leaf(path, value) =>
      case Ext(path, child) =>
        ReadSound(mem, k, key, proof, i + 1, pos + |path|, child);
        assert LeafKey(t, key, pos)[|path|..] == LeafKey(child, key, pos + |path|);
      case Branch(children) =>
        var n := NibbleOf(key, pos);
        assert children[n].Present?;
        ReadSound(mem, k, key, proof, i + 1, pos + 1, children[n].t);
        assert LeafKey(t, key, pos)[1..] == LeafKey(children[n].t, key, pos + 1);
    }
  }

  lemma LookupAtLeaf(t: Trie, ns: seq<Nibble>)
    requires WellFormedTrie(t) && t.Leaf? && Lookup(t, ns).Some?
    ensures ns == t.path
  {
  }

  lemma LookupBelowExt(t: Trie, ns: seq<Nibble>)
    requires WellFormedTrie(t) && t.Ext? && Lookup(t, ns).Some?
    ensures |t.path| <= |ns| && ns == t.path + ns[|t.path|..] && WellFormedTrie(t.child)
    ensures Lookup(t.child, ns[|t.path|..]).Some?
  {
  }

  lemma LookupBelowBranch(t: Trie, ns: seq<Nibble>)
    requires WellFormedTrie(t) && t.Branch? && Lookup(t, ns).Some?
    ensures |t.children| == 16 && ns != [] && t.children[ns[0]].Present? && WellFormedTrie(t.children[ns[0]].t)
    ensures Lookup(t.children[ns[0]].t, ns[1..]).Some?
  {
  }

  lemma FirstNibble(key: Bytes32, pos: nat)
    requires Nibbles(key, pos) != []
    ensures Nibbles(key, pos) == [NibbleOf(key, pos)] + Nibbles(key, pos + 1)
  {
  }

  /** A query that starts with a key of the trie leads to the leaf of that key. */
  lemma {:induction false} LookupFollowsLeafKey(t: Trie, key: Bytes32, pos: nat, ns: seq<Nibble>)
    requires WellFormedTrie(t) && ns <= Nibbles(key, pos) && Lookup(t, ns).Some?
    ensures LeafKey(t, key, pos) == ns
    decreases t
  {
    hide Nibbles, NibbleOf, Lookup, WellFormedTrie;
    match t {
      case Leaf(path, value) =>
        LookupAtLeaf(t, ns);
      case Ext(path, child) =>
        LookupBelowExt(t, ns);
        PrefixTail(key, pos, ns, |path|);
        LookupFollowsLeafKey(child, key, pos + |path|, ns[|path|..]);
      case Branch(children) =>
        LookupBelowBranch(t, ns);
        FirstNibble(key, pos);
        PrefixTail(key, pos, ns, 1);
        LookupFollowsLeafKey(children[ns[0]].t, key, pos + 1, ns[1..]);
    }
  }

  /**
   * Soundness. A value read from any list of nodes whose first node has the trie's root hash is held by a leaf of the
   * trie; the leaf's key agrees with the query at every branch. It is the value of the queried key if and only if
   * the two keys agree everywhere, that is, if and only if the trie holds the queried key at all. The reader checks
   * neither.
   */
  lemma AcceptedProofIsSound(mem: Mem, k: Keccak, key: Bytes32, proof: seq<Span>, t: Trie)
    requires WellFormedTrie(t) && proof != [] && InMemory(proof) && NoClashes(mem, k, proof, t)
    requires k(Content(mem, proof[0])) == k(NodeBytes(k, t)) && ReadFrom(mem, k, key, proof, 0, 0).Some?
    ensures Lookup(t, LeafKey(t, key, 0)) == ReadFrom(mem, k, key, proof, 0, 0)
    ensures Lookup(t, Nibbles(key, 0)) == ReadFrom(mem, k, key, proof, 0, 0) <==> LeafKey(t, key, 0) == Nibbles(key, 0)
    ensures Lookup(t, Nibbles(key, 0)) == ReadFrom(mem, k, key, proof, 0, 0) <==> Lookup(t, Nibbles(key, 0)).Some?
  {
    hide ReadFrom, NoClashes, Nibbles, LeafKey, Lookup, Content, NodeBytes;
    ReadSound(mem, k, key, proof, 0, 0, t);
    if Lookup(t, Nibbles(key, 0)).Some? {
      LookupFollowsLeafKey(t, key, 0, Nibbles(key, 0));
    }
  }

  /** A trie of one leaf, stored honestly, answers every query with that leaf's value. */
  lemma OneLeafAnswersAll(k: Keccak, key: Bytes32, path: seq<Nibble>, value: seq<Byte>)
    requires WellFormedTrie(Leaf(path, value))
    ensures var t := Leaf(path, value);
            var mem := NodeBytes(k, t);
            && ReadFrom(mem, k, key, [Span(|mem|, 0)], 0, 0) == Some(value)
            && (Lookup(t, Nibbles(key, 0)) == None <==> path != Nibbles(key, 0))
  {
    hide NodeItem, NodeBytes, Placed, VisitNode, Nibbles;
    var t := Leaf(path, value);
    var mem := NodeBytes(k, t);
    var node := Span(|mem|, 0);
    WholeIsPlaced(mem);
    NodeFits(k, t);
    NodeVisited(mem, k, key, t, node, 0);
    ReadEnds(mem, k, key, [node], 0, 0, value);
  }

  lemma WholeIsPlaced(mem: Mem)
    ensures Placed(mem, 0, mem)
  {
  }

  lemma NodeFits(k: Keccak, t: Trie)
    requires WellFormedTrie(t)
    ensures |NodeBytes(k, t)| < TWO_256
  {
    var x := NodeItem(k, t);
    NodeEncodable(k, t);
    ShortLength(|Body(x, 0)|);
  }

  /** So the trie that holds only the value 7 for the key 0 answers the query for the key 1 with 7 as well. */
  lemma UnheldKeyIsAnswered(k: Keccak)
    ensures var t := Leaf(Nibbles(0, 0), [7]);
            var mem := NodeBytes(k, t);
            && WellFormedTrie(t) && Lookup(t, Nibbles(0, 0)) == Some([7])
            && Lookup(t, Nibbles(1, 0)) == None && ReadFrom(mem, k, 1, [Span(|mem|, 0)], 0, 0) == Some([7])
  {
    hide Nibbles, NodeBytes, ReadFrom;
    NibblesCount(0, 0);
    LastNibble(0, 0);
    LastNibble(1, 0);
    assert NibbleOf(0, 63) == 0 && NibbleOf(1, 63) == 1;
    OneLeafAnswersAll(k, 1, Nibbles(0, 0), [7]);
  }

  lemma {:induction false} NibblesCount(key: Bytes32, pos: nat)
    requires pos <= 64
    ensures |Nibbles(key, pos)| == 64 - pos
    decreases 64 - pos
  {
    if pos < 64 {
      NibblesCount(key, pos + 1);
    }
  }

  lemma {:induction false} LastNibble(key: Bytes32, pos: nat)
    requires pos < 64
    ensures Nibbles(key, pos) != [] && Nibbles(key, pos)[|Nibbles(key, pos)| - 1] == NibbleOf(key, 63)
    decreases 64 - pos
  {
    if pos < 63 {
      LastNibble(key, pos + 1);
    }
  }
}
