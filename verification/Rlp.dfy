/** Recursive Length Prefix: the encoding of the Yellow Paper, appendix B, and the contract's reader over raw memory. */
module Rlp {
  import opened Bytes
  import opened Words
  import opened Merkleization

  const TWO_64: nat := 0x1_0000_0000_0000_0000

  // ---------------------------------------------------------------- the encoding

  datatype Item = Str(bytes: seq<Byte>) | List(items: seq<Item>)

  lemma ShortLength(n: nat)
    requires n < TWO_64
    ensures |Minimal(n)| <= 8
  {
    Pow2Of64();
    MinimalLength(n, 8);
  }

  /** The prefix of a payload of n bytes, base 0x80 for strings and 0xc0 for lists; 2^64 bytes have no encoding. */
  function Header(base: nat, n: nat): seq<Byte>
    requires base == 0x80 || base == 0xc0
  {
    if n < 56 then [base + n]
    else if n < TWO_64 then
      ShortLength(n);
      [base + 55 + |Minimal(n)|] + Minimal(n)
    else []
  }

  function Encode(x: Item): seq<Byte>
    decreases x, if x.List? then |x.items| + 1 else 0
  {
    match x
    case Str(bs) => if |bs| == 1 && bs[0] < 0x80 then bs else Header(0x80, |bs|) + bs
    case List(items) => Header(0xc0, |Body(x, 0)|) + Body(x, 0)
  }

  /** The encodings of the elements from k on, one after the other. */
  function Body(x: Item, k: nat): seq<Byte>
    requires x.List? && k <= |x.items|
    decreases x, |x.items| - k
  {
    if k == |x.items| then [] else Encode(x.items[k]) + Body(x, k + 1)
  }

  predicate Encodable(x: Item) {
    match x
    case Str(bs) => |bs| < TWO_64
    case List(items) => |Body(x, 0)| < TWO_64 && forall k | 0 <= k < |items| :: Encodable(items[k])
  }

  /** Length of the prefix in front of the payload. */
  function HeaderLength(x: Item): nat {
    match x
    case Str(bs) => if |bs| == 1 && bs[0] < 0x80 then 0 else |Header(0x80, |bs|)|
    case List(items) => |Header(0xc0, |Body(x, 0)|)|
  }

  // ---------------------------------------------------------------- the reader

  /** An RLPItem: length and position in memory. */
  datatype Span = Span(len: nat, ptr: nat)

  /** A long form: the length of the length is in the prefix; the sum wraps around like all assembly arithmetic. */
  function LongLength(mem: Mem, p: nat, byteLen: nat): nat
    requires byteLen <= 32
  {
    (Shr(Load(mem, p + 1), 8 * (32 - byteLen)) + byteLen + 1) % TWO_256
  }

  function ItemLength(mem: Mem, p: nat): nat {
    var byte0 := At(mem, p);
    if byte0 < 0x80 then 1
    else if byte0 < 0xb8 then byte0 - 0x80 + 1
    else if byte0 < 0xc0 then LongLength(mem, p, byte0 - 0xb7)
    else if byte0 < 0xf8 then byte0 - 0xc0 + 1
    else LongLength(mem, p, byte0 - 0xf7)
  }

  function PayloadOffset(mem: Mem, p: nat): nat {
    var byte0 := At(mem, p);
    if byte0 < 0x80 then 0
    else if byte0 < 0xb8 || (0xc0 <= byte0 < 0xf8) then 1
    else if byte0 < 0xc0 then byte0 - 0xb7 + 1
    else byte0 - 0xf7 + 1
  }

  predicate IsList(mem: Mem, item: Span) {
    item.len != 0 && At(mem, item.ptr) >= 0xc0
  }

  /**
   * The items from p up to end. None is a revert: an overflow, or an item of length 0, which loops until out of gas.
   */
  function Spans(mem: Mem, p: nat, end: nat): Option<seq<Span>>
    decreases if p < end then end - p else 0
  {
    if p >= end then Some([])
    else
      var n := ItemLength(mem, p);
      if n == 0 || p + n >= TWO_256 then None
      else
        var rest :- Spans(mem, p + n, end);
        Some([Span(n, p)] + rest)
  }

  function ListOf(mem: Mem, item: Span): Option<seq<Span>> {
    if !IsList(mem, item) || item.ptr + item.len >= TWO_256 then None
    else Spans(mem, item.ptr + PayloadOffset(mem, item.ptr), item.ptr + item.len)
  }

  /** Counts the items of a list. */
  method NumItems(mem: Mem, item: Span) returns (count: Option<nat>)
    requires item.len > 0
    ensures var spans := Spans(mem, item.ptr + PayloadOffset(mem, item.ptr), item.ptr + item.len);
            count.Some? == spans.Some? && (spans.Some? ==> count.value == |spans.value|)
  {
    var n: nat := 0;
    var currPtr, endPtr := item.ptr + PayloadOffset(mem, item.ptr), item.ptr + item.len;
    ghost var all := Spans(mem, currPtr, endPtr);
    while currPtr < endPtr
      invariant var rest := Spans(mem, currPtr, endPtr);
                all.Some? == rest.Some? && (all.Some? ==> |all.value| == n + |rest.value|)
      decreases endPtr - currPtr
    {
      var len := ItemLength(mem, currPtr);
      if len == 0 || currPtr + len >= TWO_256 {
        return None;
      }
      currPtr := currPtr + len;
      n := n + 1;
    }
    return Some(n);
  }

  method NextSpan(mem: Mem, p: nat, end: nat, ghost rest: seq<Span>) returns (span: Span)
    requires Spans(mem, p, end) == Some(rest) && rest != []
    ensures span == rest[0] && span.ptr == p && Spans(mem, p + span.len, end) == Some(rest[1..])
  {
    span := Span(ItemLength(mem, p), p);
  }

  /** Two passes: count the items, then enter each into the result. */
  method ToList(mem: Mem, item: Span) returns (r: Option<seq<Span>>)
    ensures r == ListOf(mem, item)
  {
    hide Spans, ItemLength, PayloadOffset, At;
    if !IsList(mem, item) || item.ptr + item.len >= TWO_256 {
      return None;
    }
    var items := NumItems(mem, item);
    if items == None {
      return None;
    }
    var result: seq<Span> := [];
    var memPtr: nat, endPtr: nat := item.ptr + PayloadOffset(mem, item.ptr), item.ptr + item.len;
    ghost var all := Spans(mem, memPtr, endPtr).value;
    ghost var rest := all;
    for i := 0 to items.value
      invariant |result| == i && Spans(mem, memPtr, endPtr) == Some(rest) && result + rest == all
    {
      var span := NextSpan(mem, memPtr, endPtr, rest);
      result, rest := result + [span], rest[1..];
      memPtr := memPtr + span.len;
    }
    assert rest == [] && result + rest == result;
    r := Some(result);
  }

  /** toBytes, as the payload it returns. */
  function BytesOf(mem: Mem, item: Span): Option<seq<Byte>> {
    var offset := PayloadOffset(mem, item.ptr);
    if item.len == 0 || offset > item.len then None else Some(Read(mem, item.ptr + offset, item.len - offset))
  }

  /** toUint. A payload of no bytes divides by 256 to the power 32, which is 0; division by 0 gives 0. */
  function UintOf(mem: Mem, item: Span): Option<Bytes32> {
    var offset := PayloadOffset(mem, item.ptr);
    if item.len == 0 || item.len > 33 || offset > item.len then None
    else
      var p, len := item.ptr + offset, item.len - offset;
      Some(if len >= 32 then Load(mem, p) else if len == 0 then 0 else Shifted(Load(mem, p), 8 * (32 - len)))
  }

  function Shifted(w: Bytes32, n: nat): Bytes32 {
    ShrSmaller(w, n);
    Shr(w, n)
  }

  lemma {:induction false} ShrSmaller(x: nat, n: nat)
    ensures Shr(x, n) <= x
    decreases n
  {
    if n > 0 {
      ShrSmaller(x / 2, n - 1);
    }
  }

  // ---------------------------------------------------------------- the reader inverts the encoding

  /** What the reader makes of the prefix of an item. */
  lemma PrefixRead(mem: Mem, p: nat, base: nat, n: nat)
    requires (base == 0x80 || base == 0xc0) && n < TWO_64 && Placed(mem, p, Header(base, n))
    ensures ItemLength(mem, p) == |Header(base, n)| + n && PayloadOffset(mem, p) == |Header(base, n)|
    ensures At(mem, p) >= base && (base == 0x80 ==> At(mem, p) < 0xc0)
  {
    var header := Header(base, n);
    assert At(mem, p + 0) == header[0];
    if n >= 56 {
      ShortLength(n);
      MinimalValue(n);
      forall k | 0 <= k < |Minimal(n)| ensures At(mem, p + 1 + k) == Minimal(n)[k] {
        assert At(mem, p + (1 + k)) == header[1 + k];
      }
      LongRead(mem, p, n);
    }
  }

  lemma LongRead(mem: Mem, p: nat, n: nat)
    requires n < TWO_64 && |Minimal(n)| <= 8 && forall k | 0 <= k < |Minimal(n)| :: At(mem, p + 1 + k) == Minimal(n)[k]
    ensures LongLength(mem, p, |Minimal(n)|) == n + |Minimal(n)| + 1
  {
    hide Load, Shr, Minimal, Read;
    var byteLen := |Minimal(n)|;
    LoadLeading(mem, p + 1, byteLen);
    PlacedRead(mem, p + 1, Minimal(n));
    MinimalValue(n);
    NoWrap(n + byteLen + 1);
  }

  lemma NoWrap(n: nat)
    requires n <= TWO_64 + 8
    ensures n % TWO_256 == n
  {
  }

  /** The reader finds the length and the payload of every encoded item. */
  lemma ItemRead(mem: Mem, p: nat, x: Item)
    requires Encodable(x) && Placed(mem, p, Encode(x))
    ensures ItemLength(mem, p) == |Encode(x)| > 0 && PayloadOffset(mem, p) == HeaderLength(x) <= |Encode(x)|
    ensures IsList(mem, Span(|Encode(x)|, p)) <==> x.List?
  {
    hide Minimal;
    if x.Str? && |x.bytes| == 1 && x.bytes[0] < 0x80 {
      assert At(mem, p + 0) == x.bytes[0];
    } else {
      var body := if x.Str? then x.bytes else Body(x, 0);
      var base := if x.Str? then 0x80 else 0xc0;
      PlacedParts(mem, p, Header(base, |body|), body);
      PrefixRead(mem, p, base, |body|);
    }
  }

  /** The spans of the elements from k on, when the first of them stands at p. */
  ghost function Children(x: Item, k: nat, p: nat): seq<Span>
    requires x.List? && k <= |x.items|
    decreases |x.items| - k
  {
    if k == |x.items| then [] else [Span(|Encode(x.items[k])|, p)] + Children(x, k + 1, p + |Encode(x.items[k])|)
  }

  lemma {:induction false} BodyRead(mem: Mem, p: nat, x: Item, k: nat)
    requires x.List? && k <= |x.items| && forall j | 0 <= j < |x.items| :: Encodable(x.items[j])
    requires Placed(mem, p, Body(x, k)) && p + |Body(x, k)| < TWO_256
    ensures Spans(mem, p, p + |Body(x, k)|) == Some(Children(x, k, p))
    decreases |x.items| - k
  {
    hide ItemLength, PayloadOffset, HeaderLength, Encode, IsList, Placed;
    if k < |x.items| {
      var first := Encode(x.items[k]);
      PlacedParts(mem, p, first, Body(x, k + 1));
      ItemRead(mem, p, x.items[k]);
      BodyRead(mem, p + |first|, x, k + 1);
    }
  }

  /** toList on the encoding of a list yields exactly the spans of its elements. */
  lemma ListRoundTrip(mem: Mem, p: nat, x: Item)
    requires x.List? && Encodable(x) && Placed(mem, p, Encode(x)) && p + |Encode(x)| < TWO_256
    ensures ListOf(mem, Span(|Encode(x)|, p)) == Some(Children(x, 0, p + HeaderLength(x)))
  {
    hide Placed, Spans, ItemLength, PayloadOffset, Minimal;
    ItemRead(mem, p, x);
    PlacedParts(mem, p, Header(0xc0, |Body(x, 0)|), Body(x, 0));
    BodyRead(mem, p + HeaderLength(x), x, 0);
  }

  /** Element j of the list stands at its span. */
  lemma {:induction false} ChildPlaced(mem: Mem, p: nat, x: Item, k: nat, j: nat)
    requires x.List? && k <= j < |x.items| && Placed(mem, p, Body(x, k))
    ensures |Children(x, k, p)| == |x.items| - k
    ensures var c := Children(x, k, p)[j - k]; c.len == |Encode(x.items[j])| && Placed(mem, c.ptr, Encode(x.items[j]))
    ensures Children(x, k, p)[j - k].ptr + |Encode(x.items[j])| <= p + |Body(x, k)|
    decreases |x.items| - k
  {
    ChildrenCount(x, k, p);
    PlacedParts(mem, p, Encode(x.items[k]), Body(x, k + 1));
    if j > k {
      ChildPlaced(mem, p + |Encode(x.items[k])|, x, k + 1, j);
    }
  }

  lemma {:induction false} ChildrenCount(x: Item, k: nat, p: nat)
    requires x.List? && k <= |x.items|
    ensures |Children(x, k, p)| == |x.items| - k
    decreases |x.items| - k
  {
    if k < |x.items| {
      ChildrenCount(x, k + 1, p + |Encode(x.items[k])|);
    }
  }

  /** toBytes on the encoding of a string returns the string. */
  lemma BytesRoundTrip(mem: Mem, p: nat, bs: seq<Byte>)
    requires |bs| < TWO_64 && Placed(mem, p, Encode(Str(bs)))
    ensures BytesOf(mem, Span(|Encode(Str(bs))|, p)) == Some(bs)
  {
    StringPlaced(mem, p, bs);
    PlacedRead(mem, p + HeaderLength(Str(bs)), bs);
  }

  lemma StringPlaced(mem: Mem, p: nat, bs: seq<Byte>)
    requires |bs| < TWO_64 && Placed(mem, p, Encode(Str(bs)))
    ensures PayloadOffset(mem, p) == HeaderLength(Str(bs)) && |Encode(Str(bs))| == HeaderLength(Str(bs)) + |bs| > 0
    ensures Placed(mem, p + HeaderLength(Str(bs)), bs)
  {
    ItemRead(mem, p, Str(bs));
    if !(|bs| == 1 && bs[0] < 0x80) {
      PlacedParts(mem, p, Header(0x80, |bs|), bs);
    }
  }

  /** toUint on the encoding of up to 32 bytes returns the number they stand for, 0 for none. */
  lemma UintRoundTrip(mem: Mem, p: nat, bs: seq<Byte>)
    requires |bs| <= 32 && Placed(mem, p, Encode(Str(bs)))
    ensures UintOf(mem, Span(|Encode(Str(bs))|, p)) == Some(BigEndian(bs))
  {
    hide Load, Shr, BigEndian, Encode, Read, Placed, PayloadOffset;
    StringPlaced(mem, p, bs);
    var q := p + HeaderLength(Str(bs));
    PlacedRead(mem, q, bs);
    LoadLeading(mem, q, |bs|);
    assert |bs| == 32 ==> Load(mem, q) == BigEndian(bs) by { WholeWord(mem, q); }
  }

  lemma WholeWord(mem: Mem, p: nat)
    ensures Load(mem, p) == BigEndian(Read(mem, p, 32))
  {
  }

  /** Every number below 2^256 survives its canonical encoding. */
  lemma NumberRoundTrip(mem: Mem, p: nat, v: Bytes32)
    requires Placed(mem, p, Encode(Str(Minimal(v))))
    ensures UintOf(mem, Span(|Encode(Str(Minimal(v)))|, p)) == Some(v)
  {
    Pow2Of256();
    MinimalLength(v, 32);
    MinimalValue(v);
    UintRoundTrip(mem, p, Minimal(v));
  }

  /** Reading a span all the way down gives item x. */
  ghost predicate Denotes(mem: Mem, item: Span, x: Item)
    decreases x
  {
    match x
    case Str(bs) => !IsList(mem, item) && BytesOf(mem, item) == Some(bs)
    case List(xs) =>
      var r := ListOf(mem, item);
      r.Some? && |r.value| == |xs| && forall k | 0 <= k < |xs| :: Denotes(mem, r.value[k], xs[k])
  }

  /** Every nested item is read back from its encoding, wherever that stands in memory. */
  lemma {:induction false} NestedRoundTrip(mem: Mem, p: nat, x: Item)
    requires Encodable(x) && Placed(mem, p, Encode(x)) && p + |Encode(x)| < TWO_256
    ensures Denotes(mem, Span(|Encode(x)|, p), x)
    decreases x
  {
    hide Placed, Spans, ItemLength, PayloadOffset, Header, ListOf, BytesOf, IsList;
    ItemRead(mem, p, x);
    match x {
      case Str(bs) =>
        BytesRoundTrip(mem, p, bs);
      case List(xs) =>
        ListRoundTrip(mem, p, x);
        var q := p + HeaderLength(x);
        PlacedParts(mem, p, Header(0xc0, |Body(x, 0)|), Body(x, 0));
        ChildrenCount(x, 0, q);
        forall k | 0 <= k < |xs| ensures Denotes(mem, Children(x, 0, q)[k], xs[k]) {
          ChildPlaced(mem, q, x, 0, k);
          NestedRoundTrip(mem, Children(x, 0, q)[k].ptr, xs[k]);
        }
    }
  }

  /** toUintStrict: the word after a one-byte prefix. */
  function StrictUintOf(mem: Mem, item: Span): Option<Bytes32> {
    if item.len == 33 then Some(Load(mem, item.ptr + 1)) else None
  }

  /** A 32-byte string is read alike by both. */
  lemma StrictUintRoundTrip(mem: Mem, p: nat, bs: seq<Byte>)
    requires |bs| == 32 && Placed(mem, p, Encode(Str(bs)))
    ensures |Encode(Str(bs))| == 33
    ensures StrictUintOf(mem, Span(33, p)) == UintOf(mem, Span(33, p)) == Some(ToWord(bs))
  {
    UintRoundTrip(mem, p, bs);
    StringPlaced(mem, p, bs);
  }

  /** Which strings are read as numbers: toUint takes up to 32 bytes, toUintStrict exactly 32; neither is a list. */
  lemma NumbersExactly(mem: Mem, p: nat, bs: seq<Byte>)
    requires |bs| < TWO_64 && Placed(mem, p, Encode(Str(bs)))
    ensures var item := Span(|Encode(Str(bs))|, p);
            && (UintOf(mem, item).Some? <==> |bs| <= 32) && (StrictUintOf(mem, item).Some? <==> |bs| == 32)
            && ListOf(mem, item) == None
  {
    hide Placed, Load, Shr, Minimal, PayloadOffset;
    ItemRead(mem, p, Str(bs));
    if |bs| <= 32 {
      UintRoundTrip(mem, p, bs);
    }
    EncodedLength(bs);
  }

  lemma EncodedLength(bs: seq<Byte>)
    requires |bs| < TWO_64
    ensures |bs| > 32 ==> |Encode(Str(bs))| > 33
    ensures |bs| < 32 ==> |Encode(Str(bs))| < 33
    ensures |bs| == 32 ==> |Encode(Str(bs))| == 33
  {
    hide Minimal;
  }

  // ---------------------------------------------------------------- any bytes at all

  /** Where the spans before number i end, if they start at p. */
  function EndOf(p: nat, ls: seq<Span>, i: nat): nat
    requires i <= |ls|
  {
    if i == 0 then p else ls[i - 1].ptr + ls[i - 1].len
  }

  /** Spans that lie one behind the other from p on, each as long as its prefix says, until end is reached or passed. */
  ghost predicate Tiles(mem: Mem, p: nat, end: nat, ls: seq<Span>) {
    (forall i | 0 <= i < |ls| :: IsTile(mem, EndOf(p, ls, i), end, ls[i])) && EndOf(p, ls, |ls|) >= end
  }

  predicate IsTile(mem: Mem, p: nat, end: nat, item: Span) {
    item.ptr == p < end && item.len == ItemLength(mem, p) > 0 && p + item.len < TWO_256
  }

  lemma TilesTail(mem: Mem, p: nat, end: nat, ls: seq<Span>)
    requires ls != []
    ensures Tiles(mem, p, end, ls) <==> IsTile(mem, p, end, ls[0]) && Tiles(mem, ls[0].ptr + ls[0].len, end, ls[1..])
  {
    hide IsTile;
    var q, rest := ls[0].ptr + ls[0].len, ls[1..];
    assert EndOf(p, ls, 0) == p;
    assert forall i | 0 <= i <= |rest| :: EndOf(q, rest, i) == EndOf(p, ls, i + 1);
    assert forall i | 0 <= i < |rest| :: rest[i] == ls[i + 1];
    if Tiles(mem, p, end, ls) {
      forall i | 0 <= i < |rest| ensures IsTile(mem, EndOf(q, rest, i), end, rest[i]) {
        assert IsTile(mem, EndOf(p, ls, i + 1), end, ls[i + 1]);
      }
    }
    if IsTile(mem, p, end, ls[0]) && Tiles(mem, q, end, rest) {
      forall i | 0 <= i < |ls| ensures IsTile(mem, EndOf(p, ls, i), end, ls[i]) {
        if i > 0 {
          assert IsTile(mem, EndOf(q, rest, i - 1), end, rest[i - 1]);
        }
      }
    }
  }

  /** Of whatever is in memory the reader takes exactly the spans that tile the payload, if there are any. */
  lemma {:induction false} SpansTile(mem: Mem, p: nat, end: nat, ls: seq<Span>)
    ensures Spans(mem, p, end) == Some(ls) <==> Tiles(mem, p, end, ls)
    decreases |ls|
  {
    hide ItemLength, Tiles;
    if ls == [] {
      NoTiles(mem, p, end);
    } else {
      TilesTail(mem, p, end, ls);
      SpansTile(mem, ls[0].ptr + ls[0].len, end, ls[1..]);
      assert ls == [ls[0]] + ls[1..];
    }
  }

  lemma NoTiles(mem: Mem, p: nat, end: nat)
    ensures Tiles(mem, p, end, []) <==> p >= end
  {
  }

  // ---------------------------------------------------------------- copying memory

  /** Memory grown to at least n bytes. */
  function Padded(mem: Mem, n: nat): (m: Mem)
    ensures |m| >= n && forall a: nat :: At(m, a) == At(mem, a)
    decreases if |mem| < n then n - |mem| else 0
  {
    if |mem| >= n then mem else Padded(mem + [0], n)
  }

  function Written(mem: Mem, p: nat, bs: seq<Byte>): (m: Mem)
    ensures forall a: nat | p <= a < p + |bs| :: At(m, a) == bs[a - p]
    ensures forall a: nat | !(p <= a < p + |bs|) :: At(m, a) == At(mem, a)
  {
    var m := Padded(mem, p + |bs|);
    m[..p] + bs + m[p + |bs|..]
  }

  /** A part of a word from each of two words: the masks of the copy loop's tail. */
  function Merged(src: Bytes32, dest: Bytes32, len: nat): nat
    requires 0 < len < 32
  {
    var mask := Pow2(8 * (32 - len));
    src - LowPart(src, mask) + LowPart(dest, mask)
  }

  function LowPart(x: nat, m: nat): (r: nat)
    requires m > 0
    ensures r <= x
  {
    x % m
  }

  lemma MergedBytes(mem: Mem, src: nat, dest: nat, len: nat)
    requires 0 < len < 32
    ensures Fixed(Merged(Load(mem, src), Load(mem, dest), len), 32)
            == Read(mem, src, len) + Read(mem, dest + len, 32 - len)
  {
    hide Merged, BigEndian, Fixed;
    var a, b := Read(mem, src, 32), Read(mem, dest, 32);
    MergedValue(a, b, len);
    FixedOfBytes(a[..len] + b[len..]);
    assert a[..len] == Read(mem, src, len) && b[len..] == Read(mem, dest + len, 32 - len);
  }

  lemma MergedValue(a: seq<Byte>, b: seq<Byte>, len: nat)
    requires |a| == |b| == 32 && 0 < len < 32
    ensures Merged(ToWord(a), ToWord(b), len) == BigEndian(a[..len] + b[len..])
  {
    hide BigEndian, Pow2, LowPart, Concat;
    var mixed, n := a[..len] + b[len..], 8 * (32 - len);
    BigEndianSplit(a, len);
    BigEndianSplit(b, len);
    BigEndianSplit(mixed, len);
    assert mixed[..len] == a[..len] && mixed[len..] == b[len..];
    LowOfConcat(BigEndian(a[..len]), n, BigEndian(a[len..]), BigEndian(b[len..]));
    LowOfConcat(BigEndian(b[..len]), n, BigEndian(b[len..]), 0);
  }

  /** The low part of a concatenation, and what it becomes when that is replaced. */
  lemma LowOfConcat(a: nat, n: nat, r: nat, t: nat)
    requires r < Pow2(n)
    ensures LowPart(Concat(a, n, r), Pow2(n)) == r
    ensures Concat(a, n, r) - r + t == Concat(a, n, t)
  {
    Remainder(a, Pow2(n), r);
  }

  lemma {:induction false} Remainder(q: nat, m: nat, r: nat)
    requires r < m
    ensures (q * m + r) % m == r
    decreases q
  {
    if q > 0 {
      Remainder(q - 1, m, r);
      assert q * m + r == ((q - 1) * m + r) + m;
      AddModulus((q - 1) * m + r, m);
    }
  }

  lemma AddModulus(x: nat, m: nat)
    requires m > 0
    ensures (x + m) % m == x % m
  {
    var d := (x + m) / m - x / m;
    assert m * d == m + x % m - (x + m) % m by {
      assert x == m * (x / m) + x % m && x + m == m * ((x + m) / m) + (x + m) % m;
      assert m * ((x + m) / m) - m * (x / m) == m * d;
    }
    if d > 1 { MulMono(2, d, m); }
  }

  /** The len bytes at dest are those that stood at src; nothing else changed. */
  ghost predicate Copied(before: Mem, after: Mem, src: nat, dest: nat, len: nat) {
    && (forall a: nat | dest <= a < dest + len :: At(after, a) == At(before, src + (a - dest)))
    && (forall a: nat | !(dest <= a < dest + len) :: At(after, a) == At(before, a))
  }

  lemma CopiedMore(before: Mem, mid: Mem, after: Mem, src: nat, dest: nat, n: nat, k: nat)
    requires src + n + k <= dest || dest + n + k <= src
    requires Copied(before, mid, src, dest, n) && Copied(mid, after, src + n, dest + n, k)
    ensures Copied(before, after, src, dest, n + k)
  {
    forall a: nat | dest <= a < dest + (n + k) ensures At(after, a) == At(before, src + (a - dest)) {
      if a >= dest + n {
        assert src + n + (a - (dest + n)) == src + (a - dest);
        assert At(mid, src + (a - dest)) == At(before, src + (a - dest));
      }
    }
  }

  class Memory {
    var cell: Mem

    /** Copies word by word; the rest of the last word is kept by masking. Exactly the len bytes at dest change. */
    method Copy(src: nat, dest: nat, len: nat)
      requires src + len <= dest || dest + len <= src
      modifies this
      ensures Copied(old(cell), cell, src, dest, len)
    {
      var s: nat, d: nat, rest: nat := src, dest, len;
      while rest >= 32
        invariant rest <= len && s == src + (len - rest) && d == dest + (len - rest)
        invariant Copied(old(cell), cell, src, dest, len - rest)
      {
        CopyWord(s, d, src, dest, len - rest, old(cell));
        s, d, rest := s + 32, d + 32, rest - 32;
      }
      if rest > 0 {
        ghost var before := cell;
        CopyTail(s, d, rest);
        CopiedMore(old(cell), before, cell, src, dest, len - rest, rest);
      }
    }

    method CopyWord(s: nat, d: nat, ghost src: nat, ghost dest: nat, ghost n: nat, ghost start: Mem)
      requires s == src + n && d == dest + n && (src + n + 32 <= dest || dest + n + 32 <= src)
      requires Copied(start, cell, src, dest, n)
      modifies this
      ensures Copied(start, cell, src, dest, n + 32)
    {
      ghost var before := cell;
      cell := Written(cell, d, Read(cell, s, 32));
      CopiedMore(start, before, cell, src, dest, n, 32);
    }

    method CopyTail(src: nat, dest: nat, len: nat)
      requires 0 < len < 32
      modifies this
      ensures Copied(old(cell), cell, src, dest, len)
    {
      MergedBytes(cell, src, dest, len);
      cell := Written(cell, dest, Fixed(Merged(Load(cell, src), Load(cell, dest), len), 32));
    }

    /** toBytes into fresh memory behind everything in use; None is a revert. */
    method ToBytes(item: Span, free: nat) returns (r: Option<Span>)
      requires item.ptr + PayloadOffset(cell, item.ptr) <= free && item.ptr + item.len <= free
      modifies this
      ensures r.Some? <==> BytesOf(old(cell), item).Some?
      ensures r.Some? ==> Read(cell, r.value.ptr, r.value.len) == BytesOf(old(cell), item).value
      ensures forall a: nat | a < free :: At(cell, a) == At(old(cell), a)
    {
      var offset := PayloadOffset(cell, item.ptr);
      if item.len == 0 || offset > item.len {
        return None;
      }
      var len := item.len - offset;
      Copy(item.ptr + offset, free, len);
      r := Some(Span(len, free));
    }
  }
}
