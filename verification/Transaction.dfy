/** Ethereum transactions: what is hashed for signing and what is broadcast.

    Fields is the information a transaction carries; a nil or negative big integer counts by its
    magnitude, which is all that is ever encoded. Two decoders, which the repository does not have,
    read Fields back from a signing preimage and from a broadcast transaction. */
module Transaction {
  import opened Wrappers
  import opened Bytes
  import opened Rlp
  import opened Words
  import Signatures

  type uint64 = x: int | 0 <= x < 0x1_0000_0000_0000_0000
  type Address = b: seq<byte> | |b| == 20 witness Zeros(20)
  type Hash = b: seq<byte> | |b| == 32 witness Zeros(32)

  const EIP1559_TX_TYPE: byte := 2

  datatype AccessTuple = AccessTuple(address: Address, storageKeys: seq<Hash>)

  datatype UnsignedTransaction = UnsignedTransaction(
    txType: byte, chainID: Option<int>, nonce: uint64, gasPrice: Option<int>,
    maxPriorityFeePerGas: Option<int>, maxFeePerGas: Option<int>, gasLimit: uint64,
    to: Option<Address>, value: Option<int>, data: seq<byte>, accessList: seq<AccessTuple>)
  {
    method WithSignature(v: Option<int>, r: Option<int>, s: Option<int>) returns (signed: SignedTransaction)
      ensures signed == SignedTransaction(this, v, r, s)
    {
      signed := SignedTransaction(this, v, r, s);
    }
  }

  datatype SignedTransaction = SignedTransaction(
    tx: UnsignedTransaction, v: Option<int>, r: Option<int>, s: Option<int>)

  /* ---------- What a transaction says ---------- */

  datatype Fields =
    | Legacy(nonce: nat, gasPrice: nat, gasLimit: nat, to: Option<Address>, value: nat, data: seq<byte>)
    | Dynamic(chainID: nat, nonce: nat, tip: nat, feeCap: nat, gasLimit: nat, to: Option<Address>,
              value: nat, data: seq<byte>, accessList: seq<AccessTuple>)

  function FieldsOf(tx: UnsignedTransaction): (f: Fields)
    ensures f.Dynamic? <==> tx.txType == EIP1559_TX_TYPE
  {
    if tx.txType == EIP1559_TX_TYPE then
      Dynamic(Magnitude(tx.chainID), tx.nonce, Magnitude(tx.maxPriorityFeePerGas), Magnitude(tx.maxFeePerGas),
              tx.gasLimit, tx.to, Magnitude(tx.value), tx.data, tx.accessList)
    else
      Legacy(tx.nonce, Magnitude(tx.gasPrice), tx.gasLimit, tx.to, Magnitude(tx.value), tx.data)
  }

  /** The chain a legacy signature is bound to (EIP-155); only a positive id binds. */
  function ReplayChain(tx: UnsignedTransaction, chainID: Option<int>): (c: Option<nat>)
    ensures c.Some? ==> c.value > 0 && tx.txType != EIP1559_TX_TYPE
  {
    if tx.txType != EIP1559_TX_TYPE && chainID.Some? && chainID.value > 0 then Some(chainID.value) else None
  }

  /* ---------- As items ---------- */

  function IntItem(n: nat): Item { Bytes(MinBytes(n)) }

  function ToItem(to: Option<Address>): Item {
    Bytes(if to.Some? then to.value else [])
  }

  function KeyItems(keys: seq<Hash>): seq<Item> {
    seq(|keys|, i requires 0 <= i < |keys| => Bytes(keys[i]))
  }

  function AccessItems(accessList: seq<AccessTuple>): seq<Item> {
    seq(|accessList|, i requires 0 <= i < |accessList| =>
      List([Bytes(accessList[i].address), List(KeyItems(accessList[i].storageKeys))]))
  }

  function FieldItems(f: Fields): seq<Item> {
    match f
    case Legacy(nonce, gasPrice, gasLimit, to, value, data) =>
      [IntItem(nonce), IntItem(gasPrice), IntItem(gasLimit), ToItem(to), IntItem(value), Bytes(data)]
    case Dynamic(chainID, nonce, tip, feeCap, gasLimit, to, value, data, accessList) =>
      [IntItem(chainID), IntItem(nonce), IntItem(tip), IntItem(feeCap), IntItem(gasLimit), ToItem(to),
       IntItem(value), Bytes(data), List(AccessItems(accessList))]
  }

  /** The typed envelope of EIP-2718: a dynamic-fee list is preceded by its type byte. */
  function Envelope(f: Fields, items: seq<Item>): seq<byte> {
    (if f.Dynamic? then [EIP1559_TX_TYPE] else []) + Enc(List(items))
  }

  /** What is hashed. */
  function Preimage(f: Fields, chain: Option<nat>): seq<byte> {
    Envelope(f, FieldItems(f) + if chain.Some? then [IntItem(chain.value), IntItem(0), IntItem(0)] else [])
  }

  /** What is broadcast. */
  function Broadcast(f: Fields, v: nat, r: nat, s: nat): seq<byte> {
    Envelope(f, FieldItems(f) + [IntItem(v), IntItem(r), IntItem(s)])
  }

  /* ---------- Reading items back ---------- */

  predicate IsInt(x: Item) { x.Bytes? && NoLeadingZero(x.b) }

  predicate IsTo(x: Item) { x.Bytes? && (x.b == [] || |x.b| == 20) }

  function ReadTo(x: Item): Option<Address>
    requires IsTo(x)
  {
    if x.b == [] then None else Some(x.b)
  }

  function ReadKeys(items: seq<Item>): Option<seq<Hash>> {
    if forall x | x in items :: x.Bytes? && |x.b| == 32 then
      Some(seq(|items|, i requires 0 <= i < |items| => items[i].b))
    else None
  }

  function ReadAccess(items: seq<Item>): Option<seq<AccessTuple>> {
    if items == [] then Some([])
    else
      var x, others := items[0], ReadAccess(items[1..]);
      if x.List? && |x.items| == 2 && x.items[0].Bytes? && |x.items[0].b| == 20
         && x.items[1].List? && ReadKeys(x.items[1].items).Some? && others.Some? then
        Some([AccessTuple(x.items[0].b, ReadKeys(x.items[1].items).value)] + others.value)
      else None
  }

  function ReadFields(dynamic: bool, x: seq<Item>): Option<Fields> {
    if dynamic then
      if |x| == 9 && IsInt(x[0]) && IsInt(x[1]) && IsInt(x[2]) && IsInt(x[3]) && IsInt(x[4]) && IsTo(x[5])
         && IsInt(x[6]) && x[7].Bytes? && x[8].List? && ReadAccess(x[8].items).Some? then
        Some(Dynamic(BE(x[0].b), BE(x[1].b), BE(x[2].b), BE(x[3].b), BE(x[4].b), ReadTo(x[5]), BE(x[6].b),
                     x[7].b, ReadAccess(x[8].items).value))
      else None
    else if |x| == 6 && IsInt(x[0]) && IsInt(x[1]) && IsInt(x[2]) && IsTo(x[3]) && IsInt(x[4]) && x[5].Bytes? then
      Some(Legacy(BE(x[0].b), BE(x[1].b), BE(x[2].b), ReadTo(x[3]), BE(x[4].b), x[5].b))
    else None
  }

  /** Opens an envelope: whether it is typed, and the items of its one list. */
  function Open(bs: seq<byte>): Option<(bool, seq<Item>)> {
    var dynamic := bs != [] && bs[0] == EIP1559_TX_TYPE;
    var d := Decode(if dynamic then bs[1..] else bs);
    if d.Some? && d.value.0.List? && d.value.1 == [] then Some((dynamic, d.value.0.items)) else None
  }

  /** The fields and the three trailing integers of a signed envelope. */
  function ReadBroadcast(bs: seq<byte>): Option<(Fields, nat, nat, nat)> {
    var content := Open(bs);
    if content.None? || |content.value.1| < 3 then None
    else
      var (dynamic, x) := content.value;
      var n := |x| - 3;
      var f := ReadFields(dynamic, x[..n]);
      if f.Some? && IsInt(x[n]) && IsInt(x[n + 1]) && IsInt(x[n + 2]) then
        Some((f.value, BE(x[n].b), BE(x[n + 1].b), BE(x[n + 2].b)))
      else None
  }

  /** The fields of a signing preimage and the chain it is bound to. */
  function ReadPreimage(bs: seq<byte>): Option<(Fields, Option<nat>)> {
    var content := Open(bs);
    if content.None? then None
    else
      var (dynamic, x) := content.value;
      if !dynamic && |x| == 9 then
        var f := ReadFields(false, x[..6]);
        if f.Some? && IsInt(x[6]) then Some((f.value, Some(BE(x[6].b)))) else None
      else
        var f := ReadFields(dynamic, x);
        if f.Some? then Some((f.value, None)) else None
  }

  /* ---------- The readers invert the encodings ---------- */

  lemma {:induction false} ReadAccessItems(accessList: seq<AccessTuple>)
    ensures ReadAccess(AccessItems(accessList)) == Some(accessList)
  {
    var items := AccessItems(accessList);
    if accessList != [] {
      var first := accessList[0];
      assert items[1..] == AccessItems(accessList[1..]);
      ReadAccessItems(accessList[1..]);
      var keyItems := KeyItems(first.storageKeys);
      assert ReadKeys(keyItems).value == first.storageKeys;
      assert items[0] == List([Bytes(first.address), List(keyItems)]);
      assert accessList == [first] + accessList[1..];
    }
  }

  lemma ReadInt(n: nat)
    ensures IsInt(IntItem(n)) && BE(IntItem(n).b) == n
  {
    MinBytesValue(n);
  }

  lemma ReadDynamicItems(f: Fields)
    requires f.Dynamic?
    ensures ReadFields(true, FieldItems(f)) == Some(f)
  {
    ReadInt(f.chainID); ReadInt(f.nonce); ReadInt(f.tip); ReadInt(f.feeCap); ReadInt(f.gasLimit); ReadInt(f.value);
    ReadAccessItems(f.accessList);
    var x := FieldItems(f);
    assert x[0] == IntItem(f.chainID) && x[1] == IntItem(f.nonce) && x[2] == IntItem(f.tip);
    assert x[3] == IntItem(f.feeCap) && x[4] == IntItem(f.gasLimit) && x[6] == IntItem(f.value);
    assert IsTo(x[5]) && ReadTo(x[5]) == f.to;
    assert x[7] == Bytes(f.data) && x[8] == List(AccessItems(f.accessList));
  }

  lemma ReadFieldItems(f: Fields)
    ensures ReadFields(f.Dynamic?, FieldItems(f)) == Some(f)
  {
    if f.Dynamic? {
      ReadDynamicItems(f);
    } else {
      ReadInt(f.nonce); ReadInt(f.gasPrice); ReadInt(f.gasLimit); ReadInt(f.value);
      assert IsTo(ToItem(f.to)) && ReadTo(ToItem(f.to)) == f.to;
    }
  }

  /** A list tag is at least 0xc0, so an untyped envelope is never taken for a typed one. */
  lemma OpenEnvelope(f: Fields, items: seq<Item>)
    requires |Envelope(f, items)| < MAX_LENGTH
    ensures Open(Envelope(f, items)) == Some((f.Dynamic?, items))
  {
    var encoded := Enc(List(items));
    DecodeEnc(List(items), []);
    assert encoded + [] == encoded;
    if f.Dynamic? {
      assert Envelope(f, items)[1..] == encoded;
    } else {
      assert Envelope(f, items) == encoded;
      assert ReadHeader(encoded).value.isList;
    }
  }

  lemma ReadPreimageOf(f: Fields, chain: Option<nat>)
    requires f.Dynamic? ==> chain.None?
    requires |Preimage(f, chain)| < MAX_LENGTH
    ensures ReadPreimage(Preimage(f, chain)) == Some((f, chain))
  {
    var items := FieldItems(f) + if chain.Some? then [IntItem(chain.value), IntItem(0), IntItem(0)] else [];
    OpenEnvelope(f, items);
    ReadFieldItems(f);
    if chain.Some? {
      MinBytesValue(chain.value);
      assert items[..6] == FieldItems(f);
    } else {
      assert items == FieldItems(f);
    }
  }

  /** What is broadcast carries exactly the fields and the signature. */
  lemma ReadBroadcastOf(f: Fields, v: nat, r: nat, s: nat)
    requires |Broadcast(f, v, r, s)| < MAX_LENGTH
    ensures ReadBroadcast(Broadcast(f, v, r, s)) == Some((f, v, r, s))
  {
    var items := FieldItems(f) + [IntItem(v), IntItem(r), IntItem(s)];
    OpenEnvelope(f, items);
    ReadFieldItems(f);
    ReadInt(v); ReadInt(r); ReadInt(s);
    var n := |FieldItems(f)|;
    assert items[..n] == FieldItems(f);
    assert items[n] == IntItem(v) && items[n + 1] == IntItem(r) && items[n + 2] == IntItem(s);
  }

  /* ---------- What the bytes say, member by member ---------- */

  /** The receiver's address, or nothing for a contract creation. */
  predicate SpellsTo(x: Item, to: Option<Address>) { x == Bytes(if to.Some? then to.value else []) }

  predicate SpellsTuple(x: Item, t: AccessTuple) {
    && x.List? && |x.items| == 2 && x.items[0] == Bytes(t.address)
    && x.items[1].List? && |x.items[1].items| == |t.storageKeys|
    && forall k :: 0 <= k < |t.storageKeys| ==> x.items[1].items[k] == Bytes(t.storageKeys[k])
  }

  predicate SpellsAccess(x: Item, accessList: seq<AccessTuple>) {
    x.List? && |x.items| == |accessList| && forall k :: 0 <= k < |accessList| ==> SpellsTuple(x.items[k], accessList[k])
  }

  predicate LegacySays(x: seq<Item>, tx: UnsignedTransaction) {
    && |x| >= 6 && Spells(x[0], tx.nonce) && SpellsBig(x[1], tx.gasPrice) && Spells(x[2], tx.gasLimit)
    && SpellsTo(x[3], tx.to) && SpellsBig(x[4], tx.value) && x[5] == Bytes(tx.data)
  }

  predicate DynamicSays(x: seq<Item>, tx: UnsignedTransaction) {
    && |x| >= 9 && SpellsBig(x[0], tx.chainID) && Spells(x[1], tx.nonce) && SpellsBig(x[2], tx.maxPriorityFeePerGas)
    && SpellsBig(x[3], tx.maxFeePerGas) && Spells(x[4], tx.gasLimit) && SpellsTo(x[5], tx.to)
    && SpellsBig(x[6], tx.value) && x[7] == Bytes(tx.data) && SpellsAccess(x[8], tx.accessList)
  }

  /** The items of the one list that some bytes are. */
  function Items(bs: seq<byte>): Option<seq<Item>> {
    var d := Decode(bs);
    if d.Some? && d.value.0.List? && d.value.1 == [] then Some(d.value.0.items) else None
  }

  /** What a strict reader finds in the bytes that are hashed (EIP-155 and EIP-1559). */
  predicate SigningSays(bs: seq<byte>, tx: UnsignedTransaction, chainID: Option<int>) {
    if tx.txType == 0x02 then
      && bs != [] && bs[0] == 0x02 && Items(bs[1..]).Some?
      && |Items(bs[1..]).value| == 9 && DynamicSays(Items(bs[1..]).value, tx)
    else
      && Items(bs).Some? && LegacySays(Items(bs).value, tx)
      && var x := Items(bs).value;
         if chainID.Some? && chainID.value > 0
         then |x| == 9 && Spells(x[6], chainID.value) && Spells(x[7], 0) && Spells(x[8], 0)
         else |x| == 6
  }

  predicate SignatureSays(x: seq<Item>, n: nat, signed: SignedTransaction) {
    |x| == n + 3 && SpellsBig(x[n], signed.v) && SpellsBig(x[n + 1], signed.r) && SpellsBig(x[n + 2], signed.s)
  }

  /** What a strict reader finds in the bytes that are broadcast. */
  predicate BroadcastSays(bs: seq<byte>, signed: SignedTransaction) {
    if signed.tx.txType == 0x02 then
      && bs != [] && bs[0] == 0x02 && Items(bs[1..]).Some?
      && DynamicSays(Items(bs[1..]).value, signed.tx) && SignatureSays(Items(bs[1..]).value, 9, signed)
    else
      Items(bs).Some? && LegacySays(Items(bs).value, signed.tx) && SignatureSays(Items(bs).value, 6, signed)
  }

  /** The bytes that are hashed for a transaction. */
  function SigningBytes(tx: UnsignedTransaction, chainID: Option<int>): seq<byte> {
    Preimage(FieldsOf(tx), ReplayChain(tx, chainID))
  }

  /** The bytes that are broadcast for a signed transaction. */
  function SignedBytes(signed: SignedTransaction): seq<byte> {
    Broadcast(FieldsOf(signed.tx), Magnitude(signed.v), Magnitude(signed.r), Magnitude(signed.s))
  }

  lemma IntItemSpells(n: nat)
    ensures Spells(IntItem(n), n)
  {
    MinBytesValue(n);
  }

  lemma BigItemSpells(big: Option<int>)
    ensures SpellsBig(IntItem(Magnitude(big)), big)
  {
    MinBytesValue(Magnitude(big));
  }

  lemma AccessItemsSpell(accessList: seq<AccessTuple>)
    ensures SpellsAccess(List(AccessItems(accessList)), accessList)
  {
  }

  lemma LegacyItemsSay(tx: UnsignedTransaction, more: seq<Item>)
    requires tx.txType != 0x02
    ensures LegacySays(FieldItems(FieldsOf(tx)) + more, tx)
  {
    hide IntItem, Magnitude, Spells, SpellsBig;
    IntItemSpells(tx.nonce);
    BigItemSpells(tx.gasPrice);
    IntItemSpells(tx.gasLimit);
    BigItemSpells(tx.value);
  }

  lemma DynamicItemsSay(tx: UnsignedTransaction, more: seq<Item>)
    requires tx.txType == 0x02
    ensures DynamicSays(FieldItems(FieldsOf(tx)) + more, tx)
  {
    hide IntItem, Magnitude, Spells, SpellsBig, SpellsAccess;
    BigItemSpells(tx.chainID);
    IntItemSpells(tx.nonce);
    BigItemSpells(tx.maxPriorityFeePerGas);
    BigItemSpells(tx.maxFeePerGas);
    IntItemSpells(tx.gasLimit);
    BigItemSpells(tx.value);
    AccessItemsSpell(tx.accessList);
  }

  lemma EnvelopeItems(f: Fields, items: seq<Item>)
    requires |Envelope(f, items)| < MAX_LENGTH
    ensures var bs := Envelope(f, items);
            if f.Dynamic? then bs != [] && bs[0] == 0x02 && Items(bs[1..]) == Some(items) else Items(bs) == Some(items)
  {
    OpenEnvelope(f, items);
  }

  /** The hashed bytes say every member of the transaction and the chain, item by item. */
  lemma SigningBytesSay(tx: UnsignedTransaction, chainID: Option<int>)
    requires |SigningBytes(tx, chainID)| < MAX_LENGTH
    ensures SigningSays(SigningBytes(tx, chainID), tx, chainID)
  {
    hide FieldsOf, FieldItems, LegacySays, DynamicSays, Envelope, Items, IntItem, Spells;
    var chain := ReplayChain(tx, chainID);
    var more := if chain.Some? then [IntItem(chain.value), IntItem(0), IntItem(0)] else [];
    var f := FieldsOf(tx);
    EnvelopeItems(f, FieldItems(f) + more);
    FieldCount(tx);
    if tx.txType == 0x02 {
      DynamicItemsSay(tx, more);
    } else {
      LegacyItemsSay(tx, more);
      IntItemSpells(0);
      if chain.Some? {
        IntItemSpells(chain.value);
      }
    }
  }

  lemma FieldCount(tx: UnsignedTransaction)
    ensures |FieldItems(FieldsOf(tx))| == if tx.txType == 0x02 then 9 else 6
    ensures FieldsOf(tx).Dynamic? <==> tx.txType == 0x02
  {
  }

  /** The broadcast bytes say every member of the transaction and v, r, s. */
  lemma SignedBytesSay(signed: SignedTransaction)
    requires |SignedBytes(signed)| < MAX_LENGTH
    ensures BroadcastSays(SignedBytes(signed), signed)
  {
    hide FieldsOf, FieldItems, LegacySays, DynamicSays, Envelope, Items, IntItem, SpellsBig, Magnitude;
    var more := [IntItem(Magnitude(signed.v)), IntItem(Magnitude(signed.r)), IntItem(Magnitude(signed.s))];
    var f := FieldsOf(signed.tx);
    EnvelopeItems(f, FieldItems(f) + more);
    FieldCount(signed.tx);
    BigItemSpells(signed.v);
    BigItemSpells(signed.r);
    BigItemSpells(signed.s);
    if signed.tx.txType == 0x02 {
      DynamicItemsSay(signed.tx, more);
    } else {
      LegacyItemsSay(signed.tx, more);
    }
  }

  /* ---------- Main results ---------- */

  ghost predicate CollisionFree(hash: seq<byte> -> seq<byte>) {
    forall a: seq<byte>, b: seq<byte> :: hash(a) == hash(b) ==> a == b
  }

  /** Equal up to sign, nil being zero: all that an encoding keeps of a big integer. */
  predicate SameBig(a: Option<int>, b: Option<int>) {
    var x, y := if a.Some? then a.value else 0, if b.Some? then b.value else 0;
    x == y || x == -y
  }

  /** The same chain, where only a positive id binds. */
  predicate SameChain(a: Option<int>, b: Option<int>) {
    var x, y := if a.Some? then a.value else 0, if b.Some? then b.value else 0;
    x == y || (x <= 0 && y <= 0)
  }

  /** The same transaction for the same chain, as far as its kind has the member. */
  predicate SameRequest(t1: UnsignedTransaction, c1: Option<int>, t2: UnsignedTransaction, c2: Option<int>) {
    && (t1.txType == 0x02 <==> t2.txType == 0x02)
    && t1.nonce == t2.nonce && t1.gasLimit == t2.gasLimit && t1.to == t2.to
    && SameBig(t1.value, t2.value) && t1.data == t2.data
    && if t1.txType == 0x02 then
         && SameBig(t1.chainID, t2.chainID) && SameBig(t1.maxPriorityFeePerGas, t2.maxPriorityFeePerGas)
         && SameBig(t1.maxFeePerGas, t2.maxFeePerGas) && t1.accessList == t2.accessList
       else SameBig(t1.gasPrice, t2.gasPrice) && SameChain(c1, c2)
  }

  /** The preimage covers the kind, the bound chain and every member, and nothing else. */
  lemma PreimageInjective(t1: UnsignedTransaction, c1: Option<int>, t2: UnsignedTransaction, c2: Option<int>)
    requires |SigningBytes(t1, c1)| < MAX_LENGTH && |SigningBytes(t2, c2)| < MAX_LENGTH
    ensures SigningBytes(t1, c1) == SigningBytes(t2, c2) <==> SameRequest(t1, c1, t2, c2)
  {
    hide Preimage, ReadPreimage;
    ReadPreimageOf(FieldsOf(t1), ReplayChain(t1, c1));
    ReadPreimageOf(FieldsOf(t2), ReplayChain(t2, c2));
    assert SameRequest(t1, c1, t2, c2) <==> FieldsOf(t1) == FieldsOf(t2) && ReplayChain(t1, c1) == ReplayChain(t2, c2);
  }

  /** With a collision-free hash, one signature covers one transaction on one chain. */
  lemma OneHashOneTransaction(keccak: seq<byte> -> seq<byte>,
                              t1: UnsignedTransaction, c1: Option<int>, t2: UnsignedTransaction, c2: Option<int>)
    requires CollisionFree(keccak)
    requires |SigningBytes(t1, c1)| < MAX_LENGTH && |SigningBytes(t2, c2)| < MAX_LENGTH
    ensures keccak(SigningBytes(t1, c1)) == keccak(SigningBytes(t2, c2)) <==> SameRequest(t1, c1, t2, c2)
  {
    hide SigningBytes, SameRequest;
    PreimageInjective(t1, c1, t2, c2);
  }

  /* ---------- The signing handler ---------- */

  /** The chain id that the handler sends to the plugin: 64 bits of the request's, and 0 for a
      dynamic-fee transaction. */
  function SentChain(dynamic: bool, chainID: int): int {
    if dynamic then 0 else Int64(chainID)
  }

  /** The v_int of the plugin's answer. */
  function PluginV(sentChain: int, recovery: nat): int {
    Int64(Signatures.EthereumV(if sentChain > 0 then Some(sentChain) else None, recovery))
  }

  /** The v that the handler attaches. */
  function HandlerV(dynamic: bool, chainID: int, recovery: nat): int {
    var v := PluginV(SentChain(dynamic, chainID), recovery);
    if dynamic && v >= 27 then v - 27 else v
  }

  /** The chain that a broadcast v names, read back. */
  function ChainOfV(v: nat): (c: Option<nat>) {
    if v >= 35 then Some((v - 35) / 2) else None
  }

  /** Which chain ids pass through the two 64-bit integers on the way to v. A positive one must leave
      2c + 35 within 63 bits. One that is not positive binds no chain, and none is named as long as
      its low 64 bits are not positive either, or v wraps to almost nothing. */
  predicate ChainCarried(chainID: int, recovery: nat) {
    if chainID > 0 then chainID <= TWO_63 / 2 - 18
    else Int64(chainID) <= 0 || 2 * Int64(chainID) + recovery > TWO_64 - 70
  }

  /** For a legacy transaction the broadcast v names the chain that was hashed exactly when the chain
      id is carried. */
  lemma ChainOfLegacyV(tx: UnsignedTransaction, chainID: int, recovery: nat)
    requires recovery <= 1 && tx.txType != EIP1559_TX_TYPE
    ensures ChainOfV(Abs(HandlerV(false, chainID, recovery))) == ReplayChain(tx, Some(chainID)) <==>
            ChainCarried(chainID, recovery)
  {
    hide Int64;
    var k := Int64(chainID);
    Int64Laws(chainID, chainID);
    if k > 0 {
      var full := 2 * k + 35 + recovery;
      Int64Laws(full, if full < TWO_63 then full else full - TWO_64);
    } else {
      Int64Laws(27 + recovery, 27 + recovery);
    }
  }

  /** The v that EIP-155 and EIP-1559 ask for: chain and recovery bit, or the bare bit. */
  function SignatureV(dynamic: bool, chain: Option<nat>, recovery: nat): nat {
    if dynamic then recovery else if chain.Some? then 35 + 2 * chain.value + recovery else 27 + recovery
  }

  /** A dynamic-fee transaction always gets the bare recovery bit. */
  lemma DynamicV(chainID: int, recovery: nat)
    requires recovery <= 1
    ensures HandlerV(true, chainID, recovery) == recovery
  {
  }

  /** The preimage that a receiver recomputes from nothing but the broadcast bytes. */
  function HashedBy(bs: seq<byte>): Option<seq<byte>> {
    var signed := ReadBroadcast(bs);
    if signed.None? then None
    else
      var (f, v, _, _) := signed.value;
      Some(Preimage(f, if f.Legacy? then ChainOfV(v) else None))
  }

  /** What the handler broadcasts for a transaction and the signature it received. */
  function Emitted(tx: UnsignedTransaction, chainID: int, recovery: nat, r: nat, s: nat): seq<byte> {
    Broadcast(FieldsOf(tx), Abs(HandlerV(tx.txType == EIP1559_TX_TYPE, chainID, recovery)), r, s)
  }

  /** What is broadcast is what was hashed: the preimage recomputed from the emitted bytes is the
      hashed one exactly for dynamic-fee transactions and carried chain ids. */
  lemma BroadcastIsHashed(tx: UnsignedTransaction, chainID: int, recovery: nat, r: nat, s: nat)
    requires recovery <= 1
    requires |Emitted(tx, chainID, recovery, r, s)| < MAX_LENGTH
    requires |SigningBytes(tx, Some(chainID))| < MAX_LENGTH
    ensures HashedBy(Emitted(tx, chainID, recovery, r, s)) == Some(SigningBytes(tx, Some(chainID)))
            <==> tx.txType == EIP1559_TX_TYPE || ChainCarried(chainID, recovery)
  {
    hide Preimage, Broadcast, HandlerV, ChainCarried, ReadBroadcast, ReadPreimage;
    var f, c := FieldsOf(tx), ReplayChain(tx, Some(chainID));
    var v := Abs(HandlerV(f.Dynamic?, chainID, recovery));
    ReadBroadcastOf(f, v, r, s);
    if f.Legacy? {
      ChainOfLegacyV(tx, chainID, recovery);
      if Preimage(f, ChainOfV(v)) == Preimage(f, c) {
        ReadPreimageOf(f, ChainOfV(v));
        ReadPreimageOf(f, c);
      }
    }
  }

  /** Which chain ids give a legacy transaction its own v: the carried positive ones, and of the others
      those whose low 64 bits are not positive either, or wrap round to 27 plus the recovery bit. */
  predicate VCarried(chainID: int, recovery: nat) {
    if chainID > 0 then ChainCarried(chainID, recovery)
    else
      var k := Int64(chainID);
      k <= 0 || k == TWO_63 - 4 || k == TWO_63 - 31 - recovery
  }

  lemma LegacyV(chainID: int, recovery: nat)
    requires recovery <= 1
    ensures Abs(HandlerV(false, chainID, recovery))
            == SignatureV(false, if chainID > 0 then Some(chainID) else None, recovery)
            <==> VCarried(chainID, recovery)
  {
    hide Int64;
    var k := Int64(chainID);
    Int64Laws(chainID, chainID);
    if k > 0 {
      var full := 2 * k + 35 + recovery;
      Int64Laws(full, if full < TWO_63 then full else full - TWO_64);
    } else {
      Int64Laws(27 + recovery, 27 + recovery);
    }
  }

  /** What a receiver reads from the emitted bytes: the fields, r and s always, and the v that names chain
      and recovery bit exactly for dynamic-fee transactions and such chain ids. */
  lemma EmittedReadsBack(tx: UnsignedTransaction, chainID: int, recovery: nat, r: nat, s: nat)
    requires recovery <= 1 && |Emitted(tx, chainID, recovery, r, s)| < MAX_LENGTH
    ensures var v := HandlerV(tx.txType == 0x02, chainID, recovery);
            BroadcastSays(Emitted(tx, chainID, recovery, r, s), SignedTransaction(tx, Some(v), Some(r), Some(s)))
    ensures Abs(HandlerV(tx.txType == 0x02, chainID, recovery))
            == SignatureV(tx.txType == 0x02, if chainID > 0 then Some(chainID) else None, recovery)
            <==> tx.txType == 0x02 || VCarried(chainID, recovery)
  {
    hide Broadcast, BroadcastSays, HandlerV, VCarried;
    SignedBytesSay(SignedTransaction(tx, Some(HandlerV(tx.txType == 0x02, chainID, recovery)), Some(r), Some(s)));
    if tx.txType == 0x02 {
      DynamicV(chainID, recovery);
    } else {
      LegacyV(chainID, recovery);
    }
  }

  /** A request for chain 2 to the 64 plus 1 is hashed for that chain and broadcast for chain 1. */
  lemma LargeChainIsMisbound(tx: UnsignedTransaction, recovery: nat, r: nat, s: nat)
    requires recovery <= 1 && tx.txType != EIP1559_TX_TYPE
    requires |Emitted(tx, TWO_64 + 1, recovery, r, s)| < MAX_LENGTH
    ensures ReplayChain(tx, Some(TWO_64 + 1)) == Some(TWO_64 + 1)
    ensures HandlerV(false, TWO_64 + 1, recovery) == 37 + recovery
    ensures HashedBy(Emitted(tx, TWO_64 + 1, recovery, r, s)) == Some(Preimage(FieldsOf(tx), Some(1)))
  {
    hide Preimage, Broadcast, ReadBroadcast, ReadPreimage;
    ReadBroadcastOf(FieldsOf(tx), 37 + recovery, r, s);
  }

  /* ---------- The Go field-list builders ---------- */

  method EncodeAccessList(accessList: seq<AccessTuple>) returns (values: seq<Value>)
    ensures NormAll(values) == AccessItems(accessList)
  {
    if |accessList| == 0 {
      return [];
    }
    values := [];
    for i := 0 to |accessList|
      invariant |values| == i
      invariant forall k :: 0 <= k < i ==> Norm(values[k]) == AccessItems(accessList)[k]
    {
      var storageKeys := accessList[i].storageKeys;
      var keys: seq<Value> := [];
      for j := 0 to |storageKeys|
        invariant |keys| == j
        invariant forall k :: 0 <= k < j ==> keys[k] == BytesV(storageKeys[k])
      {
        keys := keys + [BytesV(storageKeys[j])];
      }
      assert NormAll(keys) == KeyItems(storageKeys);
      var tuple := [BytesV(accessList[i].address), ListV(keys)];
      assert NormAll(tuple) == [Bytes(accessList[i].address), List(KeyItems(storageKeys))];
      values := values + [ListV(tuple)];
    }
  }

  /** The six values that every legacy list starts with. */
  function LegacyValues(tx: UnsignedTransaction): seq<Value> {
    [Uint64V(tx.nonce), BigV(tx.gasPrice), Uint64V(tx.gasLimit),
     BytesV(if tx.to.Some? then tx.to.value else []), BigV(tx.value), BytesV(tx.data)]
  }

  /** The nine values that every dynamic-fee list starts with. */
  function DynamicValues(tx: UnsignedTransaction, accessList: seq<Value>): seq<Value> {
    [BigV(tx.chainID), Uint64V(tx.nonce), BigV(tx.maxPriorityFeePerGas), BigV(tx.maxFeePerGas),
     Uint64V(tx.gasLimit), BytesV(if tx.to.Some? then tx.to.value else []), BigV(tx.value), BytesV(tx.data),
     ListV(accessList)]
  }

  lemma NormLegacyValues(tx: UnsignedTransaction)
    requires tx.txType != EIP1559_TX_TYPE
    ensures NormAll(LegacyValues(tx)) == FieldItems(FieldsOf(tx))
  {
  }

  lemma NormDynamicValues(tx: UnsignedTransaction, accessList: seq<Value>)
    requires tx.txType == EIP1559_TX_TYPE
    requires NormAll(accessList) == AccessItems(tx.accessList)
    ensures NormAll(DynamicValues(tx, accessList)) == FieldItems(FieldsOf(tx))
  {
  }

  lemma NormThree(values: seq<Value>, a: Value, b: Value, c: Value)
    ensures NormAll(values + [a, b, c]) == NormAll(values) + [Norm(a), Norm(b), Norm(c)]
  {
    hide NormAll, Norm;
    var all := values + [a, b, c];
    assert all[|values|] == a && all[|values| + 1] == b && all[|values| + 2] == c;
    assert forall k :: 0 <= k < |values| ==> all[k] == values[k];
  }

  method RlpEncodeLegacyForSigning(tx: UnsignedTransaction, chainID: Option<int>) returns (r: seq<byte>)
    requires tx.txType != EIP1559_TX_TYPE
    ensures r == SigningBytes(tx, chainID)
    ensures |r| < MAX_LENGTH ==> SigningSays(r, tx, chainID)
  {
    hide SigningSays;
    var values := LegacyValues(tx);
    NormLegacyValues(tx);
    if chainID.Some? && chainID.value > 0 {
      NormThree(values, BigV(chainID), UintV(0), UintV(0));
      values := values + [BigV(chainID), UintV(0), UintV(0)];
    } else {
      assert FieldItems(FieldsOf(tx)) + [] == FieldItems(FieldsOf(tx));
    }
    r := RlpEncodeList(values);
    if |r| < MAX_LENGTH {
      SigningBytesSay(tx, chainID);
    }
  }

  method RlpEncodeEIP1559ForSigning(tx: UnsignedTransaction) returns (r: seq<byte>)
    requires tx.txType == EIP1559_TX_TYPE
    ensures [0x02] + r == SigningBytes(tx, None)
    ensures |[0x02] + r| < MAX_LENGTH ==> SigningSays([0x02] + r, tx, None)
  {
    hide SigningSays;
    var accessList := EncodeAccessList(tx.accessList);
    var values := DynamicValues(tx, accessList);
    NormDynamicValues(tx, accessList);
    assert FieldItems(FieldsOf(tx)) + [] == FieldItems(FieldsOf(tx));
    r := RlpEncodeList(values);
    if |[0x02] + r| < MAX_LENGTH {
      SigningBytesSay(tx, None);
    }
  }

  method RlpEncodeLegacySigned(signed: SignedTransaction) returns (r: seq<byte>)
    requires signed.tx.txType != EIP1559_TX_TYPE
    ensures r == SignedBytes(signed)
    ensures |r| < MAX_LENGTH ==> BroadcastSays(r, signed)
  {
    hide BroadcastSays;
    var values := LegacyValues(signed.tx);
    NormLegacyValues(signed.tx);
    NormThree(values, BigV(signed.v), BigV(signed.r), BigV(signed.s));
    values := values + [BigV(signed.v), BigV(signed.r), BigV(signed.s)];
    r := RlpEncodeList(values);
    if |r| < MAX_LENGTH {
      SignedBytesSay(signed);
    }
  }

  method RlpEncodeEIP1559Signed(signed: SignedTransaction) returns (r: seq<byte>)
    requires signed.tx.txType == EIP1559_TX_TYPE
    ensures r == SignedBytes(signed)
    ensures |r| < MAX_LENGTH ==> BroadcastSays(r, signed)
  {
    hide BroadcastSays;
    var accessList := EncodeAccessList(signed.tx.accessList);
    var values := DynamicValues(signed.tx, accessList);
    NormDynamicValues(signed.tx, accessList);
    NormThree(values, BigV(signed.v), BigV(signed.r), BigV(signed.s));
    values := values + [BigV(signed.v), BigV(signed.r), BigV(signed.s)];
    var payload := RlpEncodeList(values);
    r := [EIP1559_TX_TYPE] + payload;
    if |r| < MAX_LENGTH {
      SignedBytesSay(signed);
    }
  }

  /** The hash is a parameter: Keccak-256 itself is library code. */
  method SigningHash(tx: UnsignedTransaction, chainID: Option<int>, keccak: seq<byte> -> seq<byte>)
    returns (hash: seq<byte>)
    ensures hash == keccak(SigningBytes(tx, chainID))
    ensures |SigningBytes(tx, chainID)| < MAX_LENGTH ==> SigningSays(SigningBytes(tx, chainID), tx, chainID)
  {
    hide SigningSays, Preimage, FieldsOf;
    var encoded: seq<byte>;
    if tx.txType == EIP1559_TX_TYPE {
      var payload := RlpEncodeEIP1559ForSigning(tx);
      encoded := [EIP1559_TX_TYPE] + payload;
    } else {
      encoded := RlpEncodeLegacyForSigning(tx, chainID);
    }
    hash := keccak(encoded);
    if |SigningBytes(tx, chainID)| < MAX_LENGTH {
      SigningBytesSay(tx, chainID);
    }
  }

  method EncodeRLP(signed: SignedTransaction) returns (r: seq<byte>)
    ensures r == SignedBytes(signed)
    ensures |r| < MAX_LENGTH ==> BroadcastSays(r, signed)
  {
    hide BroadcastSays, SignedBytes;
    if signed.tx.txType == EIP1559_TX_TYPE {
      r := RlpEncodeEIP1559Signed(signed);
    } else {
      r := RlpEncodeLegacySigned(signed);
    }
  }

  /** The handler's pipeline: the hash sent for signing, the sent chain id, the plugin's v, the attached
      signature, the bytes. The chain id is what a validated request has, of any size and sign. */
  method SignAndEncode(tx: UnsignedTransaction, chainID: int, keccak: seq<byte> -> seq<byte>,
                       recovery: nat, r: nat, s: nat)
    returns (txHash: seq<byte>, bs: seq<byte>)
    requires recovery <= 1
    ensures txHash == keccak(SigningBytes(tx, Some(chainID)))
    ensures bs == Emitted(tx, chainID, recovery, r, s)
    ensures |bs| < MAX_LENGTH ==>
              BroadcastSays(bs, SignedTransaction(tx, Some(HandlerV(tx.txType == 0x02, chainID, recovery)), Some(r), Some(s)))
    ensures |bs| < MAX_LENGTH && |SigningBytes(tx, Some(chainID))| < MAX_LENGTH ==>
              (HashedBy(bs) == Some(SigningBytes(tx, Some(chainID))) <==>
               tx.txType == EIP1559_TX_TYPE || ChainCarried(chainID, recovery))
  {
    hide Preimage, Broadcast, HashedBy, ChainCarried, Int64, BroadcastSays, SigningSays;
    txHash := SigningHash(tx, Some(chainID), keccak);
    var signChainID := Int64(chainID);
    if tx.txType == EIP1559_TX_TYPE {
      signChainID := 0;
    }
    var v := PluginV(signChainID, recovery);
    if tx.txType == EIP1559_TX_TYPE && v >= 27 {
      v := v - 27;
    }
    var signed := tx.WithSignature(Some(v), Some(r), Some(s));
    bs := EncodeRLP(signed);
    if |bs| < MAX_LENGTH && |SigningBytes(tx, Some(chainID))| < MAX_LENGTH {
      BroadcastIsHashed(tx, chainID, recovery, r, s);
    }
  }
}
