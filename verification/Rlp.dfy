/** Recursive Length Prefix (Appendix B of the Ethereum Yellow Paper): the encoder of
    transaction.go as imperative methods, the item encoding they are proved against, and a strict
    decoder that the repository does not have and that inverts the encoder. */
module Rlp {
  import opened Wrappers
  import opened Bytes

  /** What the encoding is about: byte strings and lists of items. */
  datatype Item = Bytes(b: seq<byte>) | List(items: seq<Item>)

  const STRING_OFFSET: byte := 0x80
  const LIST_OFFSET: byte := 0xc0

  /** One past the largest length a Go slice can have. */
  const MAX_LENGTH: nat := 0x8000_0000_0000_0000

  /* ---------- The item encoding ---------- */

  /** The tag, and for long payloads the length, written before a payload. A Go byte wraps. */
  function LengthPrefix(length: nat, offset: byte): seq<byte> {
    if length < 56 then [(offset + length) % 256]
    else var lenBytes := MinBytes(length); [(offset + 55 + |lenBytes|) % 256] + lenBytes
  }

  function Enc(x: Item): seq<byte>
    decreases x, 1
  {
    match x
    case Bytes(b) => if |b| == 1 && b[0] < 0x80 then b else LengthPrefix(|b|, STRING_OFFSET) + b
    case List(items) => var payload := EncAll(items); LengthPrefix(|payload|, LIST_OFFSET) + payload
  }

  function EncAll(items: seq<Item>): seq<byte>
    decreases items, 0
  {
    if items == [] then [] else Enc(items[0]) + EncAll(items[1..])
  }

  lemma {:induction false} EncAllAppend(a: seq<Item>, b: seq<Item>)
    ensures EncAll(a + b) == EncAll(a) + EncAll(b)
  {
    if a == [] {
      assert a + b == b;
    } else {
      assert (a + b)[1..] == a[1..] + b;
      EncAllAppend(a[1..], b);
      assert EncAll(a + b) == Enc(a[0]) + (EncAll(a[1..]) + EncAll(b));
    }
  }

  lemma EncAllNext(items: seq<Item>, i: nat)
    requires i < |items|
    ensures EncAll(items[..i + 1]) == EncAll(items[..i]) + Enc(items[i])
  {
    hide Enc;
    EncAllAppend(items[..i], [items[i]]);
    assert items[..i + 1] == items[..i] + [items[i]];
  }

  /* ---------- The strict decoder ---------- */

  /** Where the payload of the first item starts (offset 0 for a byte that is its own encoding),
      how long it is, and whether it is a list. */
  datatype Header = Header(isList: bool, offset: nat, length: nat)

  function ReadHeader(bs: seq<byte>): (h: Option<Header>)
    ensures h.Some? ==> 0 < h.value.offset + h.value.length <= |bs|
    ensures h.Some? && h.value.isList ==> h.value.offset > 0
  {
    if bs == [] then None
    else if bs[0] < STRING_OFFSET then Some(Header(false, 0, 1))
    else
      var isList := bs[0] >= LIST_OFFSET;
      var k := bs[0] - (if isList then LIST_OFFSET else STRING_OFFSET);
      if k < 56 then
        if 1 + k <= |bs| then Some(Header(isList, 1, k)) else None
      else
        var lengthOfLength := k - 55;
        if 1 + lengthOfLength > |bs| || bs[1] == 0 then None
        else
          var n := BE(bs[1..1 + lengthOfLength]);
          if n < 56 || 1 + lengthOfLength + n > |bs| then None
          else Some(Header(isList, 1 + lengthOfLength, n))
  }

  /** The first item of bs and what follows it; None for anything the encoding never produces. */
  function Decode(bs: seq<byte>): (r: Option<(Item, seq<byte>)>)
    ensures r.Some? ==> |r.value.1| < |bs|
    decreases |bs|, 0
  {
    var h := ReadHeader(bs);
    if h.None? then None
    else
      var Header(isList, offset, length) := h.value;
      var payload, rest := bs[offset..offset + length], bs[offset + length..];
      if isList then
        var items := DecodeAll(payload);
        if items.None? then None else Some((List(items.value), rest))
      else if offset > 0 && length == 1 && payload[0] < STRING_OFFSET then None
      else Some((Bytes(payload), rest))
  }

  function DecodeAll(bs: seq<byte>): Option<seq<Item>>
    decreases |bs|, 1
  {
    if bs == [] then Some([])
    else
      var first := Decode(bs);
      if first.None? then None
      else
        var others := DecodeAll(first.value.1);
        if others.None? then None else Some([first.value.0] + others.value)
  }

  /* ---------- The decoder inverts the encoder ---------- */

  /** No tag overflows: a payload that fits a slice needs at most eight length bytes. */
  lemma LengthBytes(length: nat)
    requires 0 < length < MAX_LENGTH
    ensures var lenBytes := MinBytes(length);
            1 <= |lenBytes| <= 8 && lenBytes[0] != 0 && BE(lenBytes) == length
  {
    MinBytesValue(length);
    assert Pow256(8) == 0x1_0000_0000_0000_0000;
    MinBytesLength(length, 8);
  }

  lemma PrefixRead(length: nat, offset: byte, tail: seq<byte>)
    requires offset == STRING_OFFSET || offset == LIST_OFFSET
    requires length < MAX_LENGTH && length <= |tail|
    ensures var prefix := LengthPrefix(length, offset);
            ReadHeader(prefix + tail) == Some(Header(offset == LIST_OFFSET, |prefix|, length))
  {
    if length < 56 {
      ShortPrefixRead(length, offset, tail);
    } else {
      LengthBytes(length);
      var lenBytes := MinBytes(length);
      var tag := offset + 55 + |lenBytes|;
      assert tag % 256 == tag;
      LongPrefixRead(length, offset, lenBytes, tail);
      assert LengthPrefix(length, offset) == [tag] + lenBytes;
    }
  }

  lemma ShortPrefixRead(length: nat, offset: byte, tail: seq<byte>)
    requires offset == STRING_OFFSET || offset == LIST_OFFSET
    requires length < 56 && length <= |tail|
    ensures LengthPrefix(length, offset) == [offset + length]
    ensures ReadHeader([offset + length] + tail) == Some(Header(offset == LIST_OFFSET, 1, length))
  {
  }

  lemma LongPrefixRead(length: nat, offset: byte, lenBytes: seq<byte>, tail: seq<byte>)
    requires offset == STRING_OFFSET || offset == LIST_OFFSET
    requires 56 <= length <= |tail|
    requires 1 <= |lenBytes| <= 8 && lenBytes[0] != 0 && BE(lenBytes) == length
    ensures ReadHeader([offset + 55 + |lenBytes|] + lenBytes + tail)
         == Some(Header(offset == LIST_OFFSET, 1 + |lenBytes|, length))
  {
    var bs := [offset + 55 + |lenBytes|] + lenBytes + tail;
    assert bs[1..1 + |lenBytes|] == lenBytes;
    assert bs[1] == lenBytes[0];
  }

  /** Decoding what was encoded gives the item back and leaves exactly the tail. */
  lemma {:induction false} DecodeEnc(x: Item, tail: seq<byte>)
    requires |Enc(x)| < MAX_LENGTH
    ensures Decode(Enc(x) + tail) == Some((x, tail))
    decreases x, 1
  {
    var bs := Enc(x) + tail;
    match x
    case Bytes(b) =>
      if |b| == 1 && b[0] < 0x80 {
        assert bs[0..1] == b && bs[1..] == tail;
      } else {
        PrefixPayload(|b|, STRING_OFFSET, b, tail);
      }
    case List(items) =>
      var payload := EncAll(items);
      PrefixPayload(|payload|, LIST_OFFSET, payload, tail);
      DecodeAllEnc(items);
  }

  lemma PrefixPayload(length: nat, offset: byte, payload: seq<byte>, tail: seq<byte>)
    requires offset == STRING_OFFSET || offset == LIST_OFFSET
    requires length == |payload| < MAX_LENGTH
    ensures var prefix, bs := LengthPrefix(length, offset), LengthPrefix(length, offset) + payload + tail;
            && ReadHeader(bs) == Some(Header(offset == LIST_OFFSET, |prefix|, length))
            && bs[|prefix|..|prefix| + length] == payload
            && bs[|prefix| + length..] == tail
            && |prefix| > 0
  {
    var prefix := LengthPrefix(length, offset);
    assert prefix + payload + tail == prefix + (payload + tail);
    PrefixRead(length, offset, payload + tail);
  }

  lemma {:induction false} DecodeAllEnc(items: seq<Item>)
    requires |EncAll(items)| < MAX_LENGTH
    ensures DecodeAll(EncAll(items)) == Some(items)
    decreases items, 0
  {
    if items != [] {
      DecodeEnc(items[0], EncAll(items[1..]));
      DecodeAllEnc(items[1..]);
      assert items == [items[0]] + items[1..];
    }
  }

  /** The other direction: whatever the decoder accepts is the encoding of what it returns. */
  lemma {:induction false} EncDecode(bs: seq<byte>)
    requires Decode(bs).Some?
    ensures var (x, rest) := Decode(bs).value; Enc(x) + rest == bs
    decreases |bs|, 0
  {
    var Header(isList, offset, length) := ReadHeader(bs).value;
    var payload, rest := bs[offset..offset + length], bs[offset + length..];
    assert bs == bs[..offset] + payload + rest;
    if offset > 0 {
      HeaderIsPrefix(bs);
    }
    if isList {
      EncDecodeAll(payload);
    }
  }

  lemma HeaderIsPrefix(bs: seq<byte>)
    requires ReadHeader(bs).Some? && ReadHeader(bs).value.offset > 0
    ensures var Header(isList, offset, length) := ReadHeader(bs).value;
            bs[..offset] == LengthPrefix(length, if isList then LIST_OFFSET else STRING_OFFSET)
  {
    var Header(isList, offset, length) := ReadHeader(bs).value;
    var base := if isList then LIST_OFFSET else STRING_OFFSET;
    var k := bs[0] - base;
    assert bs[..offset] == [bs[0]] + bs[1..offset];
    if k >= 56 {
      var lenBytes := bs[1..offset];
      assert |lenBytes| == k - 55 && BE(lenBytes) == length >= 56;
      MinBytesOfValue(lenBytes);
      assert (base + 55 + |lenBytes|) % 256 == bs[0];
    }
  }

  lemma {:induction false} EncDecodeAll(bs: seq<byte>)
    requires DecodeAll(bs).Some?
    ensures EncAll(DecodeAll(bs).value) == bs
    decreases |bs|, 1
  {
    if bs != [] {
      EncDecode(bs);
      var (x, rest) := Decode(bs).value;
      EncDecodeAll(rest);
      assert DecodeAll(bs).value[1..] == DecodeAll(rest).value;
    }
  }

  /** Unique decodability, hence prefix freedom: equal streams start with the same item. */
  lemma UniqueDecoding(x: Item, y: Item, s: seq<byte>, t: seq<byte>)
    requires |Enc(x)| < MAX_LENGTH && |Enc(y)| < MAX_LENGTH
    ensures Enc(x) + s == Enc(y) + t <==> x == y && s == t
  {
    DecodeEnc(x, s);
    DecodeEnc(y, t);
  }

  /** The tag ranges of the standard: up to 55 bytes the length is in the tag, above it follows. */
  ghost predicate Tagged(bs: seq<byte>, short: int, long: int, payload: seq<byte>) {
    if |payload| <= 55 then bs == [(short + |payload|) % 256] + payload
    else
      exists n: seq<byte> ::
        1 <= |n| <= 8 && n[0] != 0 && BE(n) == |payload| && bs == [(long + |n|) % 256] + n + payload
  }

  lemma PrefixIsTagged(offset: byte, payload: seq<byte>)
    requires offset == 0x80 || offset == 0xc0
    requires |payload| < MAX_LENGTH
    ensures Tagged(LengthPrefix(|payload|, offset) + payload, offset, offset + 55, payload)
  {
    if |payload| > 55 {
      LengthBytes(|payload|);
      hide MinBytes, BE;
      var n := MinBytes(|payload|);
      assert LengthPrefix(|payload|, offset) == [(offset + 55 + |n|) % 256] + n;
    }
  }

  /** Every encoding is the one that the standard defines. */
  lemma EncIsStandard(x: Item)
    requires |Enc(x)| < MAX_LENGTH
    ensures x.Bytes? && |x.b| == 1 && x.b[0] <= 0x7f ==> Enc(x) == x.b
    ensures x.Bytes? && !(|x.b| == 1 && x.b[0] <= 0x7f) ==> Tagged(Enc(x), 0x80, 0xb7, x.b)
    ensures x.List? ==> Tagged(Enc(x), 0xc0, 0xf7, EncAll(x.items))
    ensures EncAll([]) == [] && EncAll([x]) == Enc(x)
  {
    hide Tagged, LengthPrefix;
    assert [x][1..] == [];
    match x
    case Bytes(b) =>
      if !(|b| == 1 && b[0] <= 0x7f) { PrefixIsTagged(0x80, b); }
    case List(items) => PrefixIsTagged(0xc0, EncAll(items));
  }

  /* ---------- The Go encoder ---------- */

  /** The dynamic types that rlpEncodeItem switches on. A nil *big.Int is BigV(None). */
  datatype Value =
    | BytesV(bytes: seq<byte>)
    | StringV(chars: seq<byte>)
    | UintV(u: nat)
    | Uint64V(u64: nat)
    | IntV(i: int)
    | BigV(big: Option<int>)
    | ListV(values: seq<Value>)
    | OtherV

  function Abs(i: int): nat {
    if i < 0 then -i else i
  }

  /** The magnitude that an optional big integer is encoded by; nil counts as zero. */
  function Magnitude(big: Option<int>): nat {
    if big.None? then 0 else Abs(big.value)
  }

  /** The item a dynamic value stands for. */
  function Norm(v: Value): Item
    decreases v, 1
  {
    match v
    case BytesV(b) => Bytes(b)
    case StringV(c) => Bytes(c)
    case UintV(u) => Bytes(MinBytes(u))
    case Uint64V(u) => Bytes(MinBytes(u))
    case IntV(i) => Bytes(if i < 0 then [] else MinBytes(i))
    case BigV(big) => Bytes(MinBytes(Magnitude(big)))
    case ListV(values) => List(NormAll(values))
    case OtherV => Bytes([])
  }

  function NormAll(values: seq<Value>): (items: seq<Item>)
    ensures |items| == |values|
    ensures forall k :: 0 <= k < |values| ==> items[k] == Norm(values[k])
    decreases values, 0
  {
    if values == [] then [] else [Norm(values[0])] + NormAll(values[1..])
  }

  /** The item is n, without leading zero. */
  predicate Spells(x: Item, n: nat) { x.Bytes? && NoLeadingZero(x.b) && BE(x.b) == n }

  /** The same for a big integer of either sign; nil counts as zero. */
  predicate SpellsBig(x: Item, big: Option<int>) {
    x.Bytes? && NoLeadingZero(x.b) && (if big.None? then x.b == [] else BE(x.b) == big.value || BE(x.b) == -big.value)
  }

  /** What a value of each dynamic type reads as. */
  predicate ReadsAs(v: Value, x: Item)
    decreases v
  {
    match v
    case BytesV(b) => x == Bytes(b)
    case StringV(c) => x == Bytes(c)
    case UintV(u) => Spells(x, u)
    case Uint64V(u) => Spells(x, u)
    case IntV(i) => if i < 0 then x == Bytes([]) else Spells(x, i)
    case BigV(big) => SpellsBig(x, big)
    case ListV(values) =>
      x.List? && |x.items| == |values| && forall k :: 0 <= k < |values| ==> ReadsAs(values[k], x.items[k])
    case OtherV => x == Bytes([])
  }

  lemma {:induction false} NormReadsAs(v: Value)
    ensures ReadsAs(v, Norm(v))
    decreases v
  {
    match v {
      case UintV(u) => MinBytesValue(u);
      case Uint64V(u) => MinBytesValue(u);
      case IntV(i) => if i >= 0 { MinBytesValue(i); }
      case BigV(big) => MinBytesValue(Magnitude(big));
      case ListV(values) =>
        forall k | 0 <= k < |values| ensures ReadsAs(values[k], NormAll(values)[k]) {
          NormReadsAs(values[k]);
        }
      case _ =>
    }
  }

  /** The encoding of a value of any dynamic type reads back as that value. */
  lemma ValueReadsBack(v: Value)
    requires |Enc(Norm(v))| < MAX_LENGTH
    ensures var d := Decode(Enc(Norm(v))); d.Some? && d.value.1 == [] && ReadsAs(v, d.value.0)
  {
    NormReadsAs(v);
    DecodeEnc(Norm(v), []);
    assert Enc(Norm(v)) + [] == Enc(Norm(v));
  }

  method BigIntToMinBytes(v: int) returns (b: seq<byte>)
    ensures b == MinBytes(Abs(v))
  {
    if v == 0 {
      return [];
    }
    b := MinBytes(Abs(v));
    MinBytesValue(Abs(v));
    while |b| > 0 && b[0] == 0
      invariant BE(b) == Abs(v)
      decreases |b|
    {
      BEZeros(1, b[1..]);
      assert b == Zeros(1) + b[1..];
      b := b[1..];
    }
    MinBytesOfValue(b);
  }

  method RlpEncodeLength(length: nat, offset: byte) returns (r: seq<byte>)
    ensures r == LengthPrefix(length, offset)
  {
    if length < 56 {
      return [(offset + length) % 256];
    }
    var lenBytes := BigIntToMinBytes(length);
    r := [(offset + 55 + |lenBytes|) % 256] + lenBytes;
  }

  method RlpEncodeBytes(b: seq<byte>) returns (r: seq<byte>)
    ensures r == Enc(Bytes(b))
  {
    if |b| == 1 && b[0] < 0x80 {
      return b;
    }
    var prefix := RlpEncodeLength(|b|, STRING_OFFSET);
    r := prefix + b;
  }

  method RlpEncodeUint(v: nat) returns (r: seq<byte>)
    ensures r == Enc(Bytes(MinBytes(v)))
  {
    if v == 0 {
      return [0x80];
    }
    var b := BigIntToMinBytes(v);
    r := RlpEncodeBytes(b);
  }

  method RlpEncodeBigInt(v: Option<int>) returns (r: seq<byte>)
    ensures r == Enc(Bytes(MinBytes(Magnitude(v))))
  {
    if v.None? || v.value == 0 {
      return [0x80];
    }
    var b := BigIntToMinBytes(v.value);
    r := RlpEncodeBytes(b);
  }

  method RlpEncodeItem(v: Value) returns (r: seq<byte>)
    ensures r == Enc(Norm(v))
    decreases v, 1
  {
    match v
    case BytesV(b) => r := RlpEncodeBytes(b);
    case StringV(c) => r := RlpEncodeBytes(c);
    case UintV(u) => r := RlpEncodeUint(u);
    case Uint64V(u) => r := RlpEncodeUint(u);
    case IntV(i) =>
      if i < 0 {
        r := RlpEncodeBytes([]);
      } else {
        r := RlpEncodeUint(i);
      }
    case BigV(big) => r := RlpEncodeBigInt(big);
    case ListV(values) => r := RlpEncodeList(values);
    case OtherV => r := RlpEncodeBytes([]);
  }

  method RlpEncodeList(values: seq<Value>) returns (r: seq<byte>)
    ensures r == Enc(List(NormAll(values)))
    decreases values, 0
  {
    var buf := [];
    ghost var items := NormAll(values);
    for i := 0 to |values|
      invariant buf == EncAll(items[..i])
    {
      var encoded := RlpEncodeItem(values[i]);
      EncAllNext(items, i);
      buf := buf + encoded;
    }
    assert items[..|values|] == items;
    var prefix := RlpEncodeLength(|buf|, LIST_OFFSET);
    r := prefix + buf;
  }
}
