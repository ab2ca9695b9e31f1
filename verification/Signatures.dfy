/** Signature formats of the secp256k1 plugin: DER (sections 8.3 and 10.1 of X.690), the 64-byte
    R||S form with low S, and the length dispatch of the verify handler. Scalars are integers
    modulo the group order; curve arithmetic is not part of this model. */
module Signatures {
  import opened Wrappers
  import opened Bytes

  /** The order of the secp256k1 group. */
  const N: nat := 0xFFFFFFFF_FFFFFFFF_FFFFFFFF_FFFFFFFE_BAAEDCE6_AF48A03B_BFD25E8C_D0364141
  const HALF_ORDER: nat := N / 2

  predicate Scalar(v: nat) { 0 < v < N }

  /* ---------- Formats ---------- */

  /** The content octets of a non-negative INTEGER: minimal, with a zero octet before a set top bit. */
  function Content(v: nat): (c: seq<byte>)
    ensures c != []
  {
    var b := MinBytes(v);
    if b == [] || b[0] >= 0x80 then [0] + b else b
  }

  function DerInteger(v: nat): seq<byte>
    requires v < N
  {
    ContentValue(v);
    [2, |Content(v)|] + Content(v)
  }

  /** What ecdsa.Signature.Serialize writes for the pair. */
  function DerSignature(r: nat, s: nat): seq<byte>
    requires r < N && s < N
  {
    ContentValue(r);
    ContentValue(s);
    [0x30, 4 + |Content(r)| + |Content(s)|] + DerInteger(r) + DerInteger(s)
  }

  /** PutBytesUnchecked: 32 bytes, big-endian. */
  function Put32(v: nat): (b: seq<byte>)
    requires v < N
    ensures |b| == 32
  {
    ScalarBytes(v);
    Zeros(32 - |MinBytes(v)|) + MinBytes(v)
  }

  /** The smaller of s and its negation (BIP-62). */
  function LowS(s: nat): nat {
    if HALF_ORDER < s < N then N - s else s
  }

  function CosmosSignature(r: nat, s: nat): seq<byte>
    requires Scalar(r) && Scalar(s)
  {
    Put32(r) + Put32(LowS(s))
  }

  /* ---------- Lengths and values ---------- */

  lemma Pow256Large()
    ensures Pow256(32) == 0x1_00000000_00000000_00000000_00000000_00000000_00000000_00000000_00000000
  {
    assert Pow256(8) == 0x1_00000000_00000000;
    assert Pow256(16) == 0x1_00000000_00000000_00000000_00000000;
    assert Pow256(24) == 0x1_00000000_00000000_00000000_00000000_00000000_00000000;
  }

  /** The order is 2 to the 256 less 432420386565659656852420866394968145599 (SEC 2, section 2.4.1). */
  lemma OrderIs()
    ensures N + 432420386565659656852420866394968145599 == Pow256(32)
  {
    Pow256Large();
  }

  lemma ScalarBytes(v: nat)
    requires v < N
    ensures |MinBytes(v)| <= 32
    ensures BE(MinBytes(v)) == v && NoLeadingZero(MinBytes(v))
  {
    Pow256Large();
    MinBytesLength(v, 32);
    MinBytesValue(v);
  }

  lemma ContentValue(v: nat)
    requires v < N
    ensures 1 <= |Content(v)| <= 33 && BE(Content(v)) == v
    ensures |Content(v)| == 33 ==> Content(v)[0] == 0
    ensures Content(v)[0] < 0x80
  {
    ScalarBytes(v);
    var b := MinBytes(v);
    BEZeros(1, b);
    assert Zeros(1) + b == [0] + b;
  }

  lemma Put32Value(v: nat)
    requires v < N
    ensures BE(Put32(v)) == v
  {
    ScalarBytes(v);
    BEZeros(32 - |MinBytes(v)|, MinBytes(v));
  }

  lemma JoinDer(head: seq<byte>, r: seq<byte>, s: seq<byte>)
    requires |head| == 2 && |r| < 256 && |s| < 256
    ensures [head[0], head[1], 2, |r|] + r + [2, |s|] + s == head + ([2, |r|] + r) + ([2, |s|] + s)
  {
  }

  lemma PartsOfDer(head: seq<byte>, r: seq<byte>, s: seq<byte>)
    requires |head| == 2 && |r| < 256 && |s| < 256
    ensures var der := [head[0], head[1], 2, |r|] + r + [2, |s|] + s;
            && |der| == 6 + |r| + |s| && der[0] == head[0] && der[1] == head[1]
            && der[2] == 2 && der[3] == |r| && der[4..4 + |r|] == r
            && der[4 + |r|] == 2 && der[5 + |r|] == |s| && der[6 + |r|..] == s
  {
  }

  /** Where everything is in a serialized signature. */
  lemma DerShape(r: nat, s: nat)
    requires r < N && s < N
    ensures var der, rc, sc := DerSignature(r, s), Content(r), Content(s);
            && |der| == 6 + |rc| + |sc| && 1 <= |rc| <= 33 && 1 <= |sc| <= 33
            && der[0] == 0x30 && der[1] == |der| - 2
            && der[2] == 2 && der[3] == |rc| && der[4..4 + |rc|] == rc
            && der[4 + |rc|] == 2 && der[5 + |rc|] == |sc| && der[6 + |rc|..] == sc
  {
    hide Content, BE;
    ContentValue(r);
    ContentValue(s);
    var head := [0x30, 4 + |Content(r)| + |Content(s)|];
    JoinDer(head, Content(r), Content(s));
    PartsOfDer(head, Content(r), Content(s));
  }

  /* ---------- The Go readers ---------- */

  /** The part of extractRSFromDER that runs once per integer: strip a 33rd zero byte, pad to 32
      bytes, and SetByteSlice, which reduces modulo the order. */
  method ReadScalar(bytes: seq<byte>) returns (v: nat)
    requires |bytes| <= 32 || (|bytes| == 33 && bytes[0] == 0)
    ensures v == BE(bytes) % N
  {
    var b := bytes;
    if |b| == 33 && b[0] == 0 {
      BEZeros(1, b[1..]);
      assert b == Zeros(1) + b[1..];
      b := b[1..];
    }
    var padded := new byte[32](_ => 0);
    var at := 32 - |b|;
    for i := 0 to |b|
      invariant padded[..at] == Zeros(at)
      invariant forall k :: 0 <= k < i ==> padded[at + k] == b[k]
    {
      padded[at + i] := b[i];
    }
    assert padded[..] == Zeros(at) + b;
    BEZeros(at, b);
    v := BE(padded[..]) % N;
  }

  /** On every serialized signature the reader stays in bounds and recovers both scalars. */
  method ExtractRSFromDER(der: seq<byte>, ghost r0: nat, ghost s0: nat) returns (r: nat, s: nat)
    requires Scalar(r0) && Scalar(s0) && der == DerSignature(r0, s0)
    ensures r == r0 && s == s0
  {
    hide DerSignature, Content;
    DerShape(r0, s0);
    ContentValue(r0);
    ContentValue(s0);
    var offset := 2;
    offset := offset + 1;
    var rLen: int := der[offset];
    offset := offset + 1;
    var rBytes := der[offset..offset + rLen];
    assert rBytes == Content(r0);
    offset := offset + rLen;
    offset := offset + 1;
    var sLen: int := der[offset];
    offset := offset + 1;
    var sBytes := der[offset..offset + sLen];
    assert sBytes == der[6 + |Content(r0)|..] == Content(s0);
    r := ReadScalar(rBytes);
    s := ReadScalar(sBytes);
  }

  method FormatCosmosSignature(r0: nat, s0: nat) returns (sig: seq<byte>)
    requires Scalar(r0) && Scalar(s0)
    ensures sig == CosmosSignature(r0, s0)
  {
    var r, s := ExtractRSFromDER(DerSignature(r0, s0), r0, s0);
    if s > HALF_ORDER {
      s := N - s;
    }
    var result := new byte[64](_ => 0);
    forall i | 0 <= i < 32 {
      result[i] := Put32(r)[i];
    }
    forall i | 0 <= i < 32 {
      result[32 + i] := Put32(s)[i];
    }
    sig := result[..];
    assert sig[..32] == Put32(r) && sig[32..] == Put32(s);
  }

  datatype SignatureError = BadLength | ROverflows | SOverflows | ZeroScalar | BadDer

  /** parseCosmosSignature. */
  function ParseCosmosSignature(sig: seq<byte>): Result<(nat, nat), SignatureError> {
    if |sig| != 64 then Err(BadLength)
    else
      var r, s := BE(sig[..32]), BE(sig[32..]);
      if r >= N then Err(ROverflows)
      else if s >= N then Err(SOverflows)
      else if r == 0 || s == 0 then Err(ZeroScalar)
      else Ok((r, s))
  }

  /** The strict DER parser that the verify handler calls in the library: shortest lengths and
      contents, scalars between zero and the order. */
  function ParseDerSignature(der: seq<byte>): Result<(nat, nat), SignatureError> {
    if |der| < 8 || der[0] != 0x30 || der[1] != |der| - 2 || der[2] != 2 then Err(BadDer)
    else
      var rLen: int := der[3];
      if rLen == 0 || |der| < 6 + rLen || der[4 + rLen] != 2 then Err(BadDer)
      else
        var sLen: int := der[5 + rLen];
        if sLen == 0 || |der| != 6 + rLen + sLen then Err(BadDer)
        else
          var rBytes, sBytes := der[4..4 + rLen], der[6 + rLen..];
          var r, s := BE(rBytes), BE(sBytes);
          if !Minimal(rBytes) || !Minimal(sBytes) || !Scalar(r) || !Scalar(s) then Err(BadDer) else Ok((r, s))
  }

  /** Non-negative, and no zero octet that the sign does not need. */
  predicate Minimal(b: seq<byte>)
  {
    b != [] && b[0] < 0x80 && (b[0] == 0 && |b| > 1 ==> b[1] >= 0x80)
  }

  /** How the verify handler reads a signature of either format. */
  function ReadSignature(sig: seq<byte>): Result<(nat, nat), SignatureError> {
    if |sig| == 64 then ParseCosmosSignature(sig) else ParseDerSignature(sig)
  }

  /** cosmosSignatureToDER, the "der" output format. */
  function CosmosSignatureToDER(sig: seq<byte>): Result<seq<byte>, SignatureError> {
    if |sig| != 64 then Err(BadLength)
    else
      var parsed := ParseCosmosSignature(sig);
      if parsed.Err? then Err(parsed.error) else Ok(DerSignature(parsed.value.0, LowS(parsed.value.1)))
  }

  /* ---------- Main results ---------- */

  /** The 64-byte form parses back to r and the low s. */
  lemma CosmosRoundTrip(r: nat, s: nat)
    requires Scalar(r) && Scalar(s)
    ensures ParseCosmosSignature(CosmosSignature(r, s)) == Ok((r, LowS(s)))
    ensures 0 < 2 * LowS(s) < N && (LowS(s) == s || LowS(s) + s == N)
    ensures var sig := CosmosSignature(r, s); |sig| == 64 && BE(sig[..32]) == r && BE(sig[32..]) == LowS(s)
  {
    Put32Value(r);
    Put32Value(LowS(s));
    var sig := CosmosSignature(r, s);
    assert sig[..32] == Put32(r) && sig[32..] == Put32(LowS(s));
  }

  /** Normalising again changes nothing, and both halves of a conjugate pair normalise alike. */
  lemma NormalisingIsIdempotent(r: nat, s: nat)
    requires Scalar(r) && Scalar(s)
    ensures CosmosSignature(r, LowS(s)) == CosmosSignature(r, s) == CosmosSignature(r, N - s)
  {
  }

  lemma {:induction false} MinimalIsContent(b: seq<byte>)
    requires Minimal(b)
    ensures Content(BE(b)) == b
  {
    if b[0] == 0 {
      var tail := b[1..];
      assert b == Zeros(1) + tail;
      BEZeros(1, tail);
      MinBytesOfValue(tail);
    } else {
      MinBytesOfValue(b);
    }
  }

  lemma ContentIsMinimal(v: nat)
    requires v < N
    ensures Minimal(Content(v))
  {
    ScalarBytes(v);
  }

  /** Strict DER is exactly the serialized form: nothing else is read, and what was serialized is
      read back. */
  lemma DerParsesExactly(der: seq<byte>, r: nat, s: nat)
    ensures ParseDerSignature(der) == Ok((r, s)) <==> Scalar(r) && Scalar(s) && der == DerSignature(r, s)
  {
    if ParseDerSignature(der) == Ok((r, s)) {
      ParsedDer(der, r, s);
    }
    if Scalar(r) && Scalar(s) && der == DerSignature(r, s) {
      hide DerSignature, Content;
      DerShape(r, s);
      ContentValue(r);
      ContentValue(s);
      ContentIsMinimal(r);
      ContentIsMinimal(s);
    }
  }

  lemma ParsedDer(der: seq<byte>, r: nat, s: nat)
    requires ParseDerSignature(der) == Ok((r, s))
    ensures Scalar(r) && Scalar(s) && der == DerSignature(r, s)
  {
    hide Content;
    var rLen: int := der[3];
    var rBytes, sBytes := der[4..4 + rLen], der[6 + rLen..];
    MinimalIsContent(rBytes);
    MinimalIsContent(sBytes);
    CutDer(der, rLen);
    assert DerInteger(r) == [2, |rBytes|] + rBytes && DerInteger(s) == [2, |sBytes|] + sBytes;
    JoinDer([der[0], der[1]], rBytes, sBytes);
  }

  lemma CutDer(der: seq<byte>, rLen: nat)
    requires 6 + rLen <= |der|
    ensures der == [der[0], der[1], der[2], der[3]] + der[4..4 + rLen] + [der[4 + rLen], der[5 + rLen]] + der[6 + rLen..]
  {
  }

  /** A 64-byte DER signature read as R||S: its first byte 0x30 would have to repeat through r and
      reach the top of s, so it never spells the pair it encodes. */
  lemma DerNeverReadsAsItself(r: nat, s: nat, der: seq<byte>)
    requires Scalar(r) && Scalar(s) && der == DerSignature(r, s) && |der| == 64
    ensures ParseCosmosSignature(der) != Ok((r, s))
  {
    if ParseCosmosSignature(der) == Ok((r, s)) {
      hide DerSignature, Content;
      DerShape(r, s);
      var rb, sb := Content(r), Content(s);
      FirstByteNonzero(der[..32], r, rb);
      assert rb == der[..32] == der[4..36];
      forall i | 0 <= i < 32 ensures der[i] == der[i + 4] {
        assert der[..32][i] == der[4..36][i];
      }
      assert der[32] == der[28] == der[24] == der[20] == der[16] == der[12] == der[8] == der[4] == der[0];
      assert der[32..][0] == 0x30;
      FirstByteNonzero(der[32..], s, sb);
    }
  }

  /** If 32 bytes and DER content spell the same number and the 32 bytes start below 0x80 but not
      with zero, they are the same bytes. */
  lemma FirstByteNonzero(bytes: seq<byte>, v: nat, content: seq<byte>)
    requires |bytes| == 32 && BE(bytes) == v < N && content == Content(v)
    ensures 0 < bytes[0] < 0x80 ==> content == bytes
    ensures bytes[0] >= 0x80 ==> content == [0] + bytes
  {
    if bytes[0] != 0 {
      MinBytesOfValue(bytes);
    }
  }

  /** The verify dispatch reads back every R||S signature, and a DER signature exactly when it is
      not itself 64 bytes long. */
  lemma DispatchReadsBack(r: nat, s: nat, der: seq<byte>)
    requires Scalar(r) && Scalar(s) && der == DerSignature(r, s)
    ensures ReadSignature(CosmosSignature(r, s)) == Ok((r, LowS(s)))
    ensures ReadSignature(der) == Ok((r, s)) <==> |der| != 64
  {
    CosmosRoundTrip(r, s);
    DerParsesExactly(der, r, s);
    if |der| == 64 {
      DerNeverReadsAsItself(r, s, der);
    }
  }

  /** The signing handler's two outputs, read by the verify handler. */
  lemma SignThenVerify(r: nat, s: nat)
    requires Scalar(r) && Scalar(s)
    ensures var cosmos := CosmosSignature(r, s);
            && ReadSignature(cosmos) == Ok((r, LowS(s)))
            && CosmosSignatureToDER(cosmos) == Ok(DerSignature(r, LowS(s)))
            && (ReadSignature(DerSignature(r, LowS(s))) == ReadSignature(cosmos) <==>
                |Content(r)| + |Content(LowS(s))| != 58)
  {
    CosmosRoundTrip(r, s);
    DerShape(r, LowS(s));
    DispatchReadsBack(r, LowS(s), DerSignature(r, LowS(s)));
  }

  /** Such signatures exist: r and s of 29 bytes each are serialized to 64 bytes and misread. */
  lemma MisreadExample()
    ensures var v := BE([1] + Zeros(28));
            && Scalar(v) && v <= HALF_ORDER
            && |DerSignature(v, v)| == 64
            && ReadSignature(DerSignature(v, v)) != ReadSignature(CosmosSignature(v, v))
  {
    var b: seq<byte> := [1] + Zeros(28);
    var v := BE(b);
    BEBound(b);
    Pow256Large();
    Pow256Monotone(29, 31);
    MinBytesOfValue(b);
    assert v != 0;
    DerShape(v, v);
    SignThenVerify(v, v);
  }

  lemma {:induction false} Pow256Monotone(a: nat, b: nat)
    requires a <= b
    ensures Pow256(a) <= Pow256(b)
    decreases b
  {
    if a < b {
      Pow256Monotone(a, b - 1);
    }
  }

  /* ---------- Recovery ids ---------- */

  /** The v that SignEIP155 and SignLegacy return. */
  function EthereumV(chainID: Option<nat>, recovery: nat): nat {
    if chainID.Some? then 2 * chainID.value + 35 + recovery else 27 + recovery
  }

  /** RecoverPubKeyFromSignature's recovery id, from the one byte that its signature has for v. */
  function RecoveryID(v: byte, chainID: Option<int>): byte {
    if chainID.Some? && chainID.value > 0 then (v - (35 + 2 * chainID.value)) % 256
    else if v >= 27 then v - 27
    else v
  }

  lemma CutAndSubtract(x: int, r: nat)
    requires r < 256
    ensures ((x + r) % 256 - x) % 256 == r
  {
    var q := (x + r) / 256;
    assert (x + r) % 256 - x == r - 256 * q;
  }

  /** The recovery id survives although v is cut to one byte, for every chain id. */
  lemma RecoveryRoundTrip(chainID: Option<nat>, recovery: nat)
    requires recovery <= 1 && (chainID.Some? ==> chainID.value > 0)
    ensures RecoveryID(EthereumV(chainID, recovery) % 256, chainID) == recovery
  {
    if chainID.Some? {
      CutAndSubtract(2 * chainID.value + 35, recovery);
    }
  }
}
