/** The two bech32 encoders of the repository, loop by loop: Go with a 64-bit signed accumulator
    that is never masked, Rust with a 32-bit one; the accumulators may wrap because only their low bits
    are ever read. For ASCII prefixes both are proved to compute Bech32.Encode, so there they agree on all
    data; on other prefixes their checksums cover different expansions. */
module Bech32Encoders {
  import opened Bytes
  import opened Regroup
  import opened Polymod
  import opened Bech32
  import opened Words

  lemma WrapKeepsLowBits(x: int, n: nat)
    requires n <= 32
    ensures BitsOf(Int64(x), n) == BitsOf(x, n)
    ensures BitsOf(UInt32(x), n) == BitsOf(x, n)
  {
    hide BitsOf, Pow2;
    Pow2Large();
    var k := (x + TWO_63) / TWO_64;
    assert Int64(x) == x + (-k) * TWO_64;
    BitsOfWrapped(x, -k, 64, n);
    var j := x / TWO_32;
    assert UInt32(x) == x + (-j) * TWO_32;
    BitsOfWrapped(x, -j, 32, n);
  }

  lemma Pow2Large()
    ensures Pow2(64) == TWO_64 && Pow2(32) == TWO_32
  {
    assert Pow2(8) == 0x100;
    assert Pow2(16) == 0x1_0000;
    assert Pow2(24) == 0x100_0000;
    assert Pow2(32) == TWO_32;
    assert Pow2(40) == 0x100_0000_0000;
    assert Pow2(48) == 0x1_0000_0000_0000;
    assert Pow2(56) == 0x100_0000_0000_0000;
  }

  lemma UnpackSnoc(xs: seq<int>, x: int, w: nat)
    ensures Unpack(xs + [x], w) == Unpack(xs, w) + BitsOf(x, w)
  {
    assert (xs + [x])[..|xs|] == xs;
  }

  /** What the loops keep: emitted symbols followed by the pending bits are the bits read so far. */
  ghost predicate Regrouped(read: seq<byte>, converted: seq<int>, acc: int, bits: nat) {
    Below32(converted) && Unpack(converted, 5) + BitsOf(acc, bits) == Unpack(read, 8)
  }

  lemma ByteIn(read: seq<byte>, converted: seq<int>, acc: int, bits: nat, b: byte)
    requires Regrouped(read, converted, acc, bits) && bits + 8 <= 32
    ensures Regrouped(read + [b], converted, Int64(acc * 256 + b), bits + 8)
    ensures Regrouped(read + [b], converted, UInt32(acc * 256 + b), bits + 8)
  {
    hide BitsOf;
    ShiftByteIn(acc, b, bits);
    WrapKeepsLowBits(acc * 256 + b, bits + 8);
    UnpackSnoc(read, b, 8);
  }

  lemma SymbolOut(read: seq<byte>, converted: seq<int>, acc: int, bits: nat)
    requires Regrouped(read, converted, acc, bits + 5)
    ensures Regrouped(read, converted + [(acc / Pow2(bits)) % 32], acc, bits)
  {
    hide BitsOf, Unpack, Regrouped;
    TakeFive(acc, bits);
    AppendSymbol(read, converted, acc, bits, (acc / Pow2(bits)) % 32);
  }

  lemma AppendSymbol(read: seq<byte>, converted: seq<int>, acc: int, bits: nat, symbol: Symbol)
    requires Regrouped(read, converted, acc, bits + 5)
    requires BitsOf(acc, bits + 5) == BitsOf(symbol, 5) + BitsOf(acc, bits)
    ensures Regrouped(read, converted + [symbol], acc, bits)
  {
    hide BitsOf, Unpack;
    UnpackSnoc(converted, symbol, 5);
  }

  /** At the end the last symbol is completed with zero bits, or there is nothing to complete. */
  lemma Finish(data: seq<byte>, converted: seq<int>, acc: int, bits: nat)
    requires Regrouped(data, converted, acc, bits) && bits < 5
    ensures bits == 0 ==> converted == ToSymbols(data)
    ensures bits > 0 ==> converted + [(acc * Pow2(5 - bits)) % 32] == ToSymbols(data)
  {
    hide BitsOf, Unpack, ToSymbols;
    UnpackLength(converted, 5);
    UnpackLength(data, 8);
    if bits == 0 {
      ToSymbolsBits(data, converted);
    } else {
      var last := (acc * Pow2(5 - bits)) % 32;
      assert Padding(|data|) == 5 - bits;
      PadRight(acc, bits, 5 - bits);
      UnpackSnoc(converted, last, 5);
      ToSymbolsBits(data, converted + [last]);
    }
  }

  lemma StartRegrouped()
    ensures Regrouped([], [], 0, 0)
  {
  }

  /* ---------- Go ---------- */

  /** The regrouping loops of the Go bech32Encode. `acc >> bits` on a signed integer rounds down,
      and `acc << 8` has eight zero bits, so `| b` adds. */
  method RegroupGo(data: seq<byte>) returns (converted: seq<int>)
    ensures converted == ToSymbols(data)
  {
    hide Regrouped, Unpack, ToSymbols, BitsOf, Int64, Pow2;
    converted := [];
    var acc := 0;
    var bits := 0;
    StartRegrouped();
    for i := 0 to |data|
      invariant 0 <= bits < 5 && Regrouped(data[..i], converted, acc, bits)
    {
      ByteIn(data[..i], converted, acc, bits, data[i]);
      assert data[..i + 1] == data[..i] + [data[i]];
      acc := Int64(acc * 256 + data[i]);
      bits := bits + 8;
      while bits >= 5
        invariant 0 <= bits <= 12 && Regrouped(data[..i + 1], converted, acc, bits)
      {
        bits := bits - 5;
        SymbolOut(data[..i + 1], converted, acc, bits);
        converted := converted + [(acc / Pow2(bits)) % 32];
      }
    }
    assert data[..|data|] == data;
    Finish(data, converted, acc, bits);
    if bits > 0 {
      ShiftedOut(acc * Pow2(5 - bits));
      converted := converted + [Int64(acc * Pow2(5 - bits)) % 32];
    }
  }

  lemma ShiftedOut(x: int)
    ensures Int64(x) % 32 == x % 32
    ensures UInt32(x) % 256 % 32 == x % 32
  {
    SubtractMultiple(x, (x + TWO_63) / TWO_64 * (TWO_64 / 32));
    SubtractMultiple(x, x / TWO_32 * (TWO_32 / 32));
    CutToByte(UInt32(x));
  }

  lemma SubtractMultiple(x: int, j: int)
    ensures (x - 32 * j) % 32 == x % 32
  {
  }

  lemma CutToByte(x: int)
    ensures x % 256 % 32 == x % 32
  {
  }

  /** Bit i of a word, as the inner loop tests it. */
  predicate BitSet64(b: bv64, i: nat)
    requires i < 64
  {
    (b >> i) & 1 == 1
  }

  lemma TestBit64(b: State, i: nat)
    requires i < 5
    ensures BitSet64(Wide(b), i) <==> Bit(b, i)
  {
    if i == 0 {
    } else if i == 1 {
    } else if i == 2 {
    } else if i == 3 {
    } else {
    }
  }

  /** A register value in a Go int. */
  function Wide(c: State): bv64 { c as bv64 }

  function Xor64(a: bv64, b: bv64): bv64 { a ^ b }

  /** `((chk & 0x1ffffff) << 5) ^ int(v)` */
  function Shifted64(chk: bv64, v: bv8): bv64 { ((chk & 0x1ff_ffff) << 5) ^ (v as bv64) }

  /** `chk >> 25` */
  function Top64(chk: bv64): bv64 { chk >> 25 }

  function Gen64(): (gen: seq<bv64>)
    ensures |gen| == 5
  {
    [0x3b6a57b2, 0x26508e6d, 0x1ea119fa, 0x3d4233dd, 0x2a1462b3]
  }

  lemma WideXor(a: State, b: State)
    ensures Wide(Xor(a, b)) == Xor64(Wide(a), Wide(b))
  {
  }

  lemma WideShifted(c: State, v: bv8)
    ensures Shifted64(Wide(c), v) == Wide(Shifted(c, v))
  {
  }

  lemma WideTop(c: State)
    ensures Top64(Wide(c)) == Wide(Top(c))
  {
  }

  lemma WideGen(i: nat)
    requires i < 5
    ensures Gen64()[i] == Wide(Gen(i))
  {
  }

  /** The inner loop of the Go bech32Polymod: folds in the generators of the bits shifted out. */
  method FoldGo(chk0: bv64, b: bv64, ghost shifted: State, ghost top: State) returns (chk: bv64)
    requires chk0 == Wide(shifted) && b == Wide(top)
    ensures chk == Wide(Xor(shifted, Feedback(top, 5)))
  {
    hide BitSet64, Feedback, Xor, Xor64, Bit, Wide, Gen, Gen64;
    chk := chk0;
    NoFeedback(shifted, top);
    for i := 0 to 5
      invariant chk == Wide(Xor(shifted, Feedback(top, i)))
    {
      TestBit64(top, i);
      FeedbackNext(shifted, top, i);
      WideXor(Xor(shifted, Feedback(top, i)), Gen(i));
      WideGen(i);
      if BitSet64(b, i) {
        chk := Xor64(chk, Gen64()[i]);
      }
    }
  }

  method PolymodGo(values: seq<bv8>) returns (chk: bv64)
    ensures chk == Wide(Run(1, values))
  {
    hide Run, Feedback, Shifted, Top, Xor, Shifted64, Top64;
    chk := 1;
    ghost var state: State := 1;
    RunAll(values);
    for k := 0 to |values|
      invariant chk == Wide(state) && state == Run(1, values[..k])
    {
      hide Wide;
      var v := values[k];
      WideTop(state);
      WideShifted(state, v);
      RunSnoc(1, values, k);
      var b := Top64(chk);
      chk := Shifted64(chk, v);
      chk := FoldGo(chk, b, Shifted(state, v), Top(state));
      state := Step(state, v);
    }
  }

  lemma RunAll(values: seq<bv8>)
    ensures Run(1, values[..0]) == 1
    ensures values[..|values|] == values
  {
  }

  lemma RunSnoc(c: State, values: seq<bv8>, k: nat)
    requires k < |values|
    ensures Run(c, values[..k + 1]) == Step(Run(c, values[..k]), values[k])
  {
    hide Step;
    assert values[..k + 1] == values[..k] + [values[k]];
    RunAppend(c, values[..k], [values[k]]);
    RunEmpty(Step(Run(c, values[..k]), values[k]), [values[k]][1..]);
  }

  lemma NoFeedback(shifted: State, top: State)
    ensures Xor(shifted, Feedback(top, 0)) == shifted
  {
    XorLaws(shifted, 0);
  }

  /** Feeding back bit i: the generator is folded in exactly when the bit is set. */
  lemma FeedbackNext(shifted: State, top: State, i: nat)
    ensures Xor(shifted, Feedback(top, i + 1)) ==
            if Bit(top, i) then Xor(Xor(shifted, Feedback(top, i)), Gen(i)) else Xor(shifted, Feedback(top, i))
  {
    hide Bit, Gen, Xor;
    XorAssociative(shifted, Feedback(top, i), Select(Bit(top, i), Gen(i)));
    XorLaws(Feedback(top, i), 0);
  }

  /** How many bytes a character of a Go string takes (UTF-8). */
  function Width8(c: char): (n: nat)
    ensures n >= 1
  {
    if c as int < 0x80 then 1 else if c as int < 0x800 then 2 else if c as int < 0x1_0000 then 3 else 4
  }

  /** The byte offset of the end of a string. */
  function Bytes8(hrp: string): (n: nat)
    ensures n >= |hrp|
  {
    if hrp == [] then 0 else Bytes8(hrp[..|hrp| - 1]) + Width8(hrp[|hrp| - 1])
  }

  /** byte(c >> 5), or byte(c & 0x1f). */
  function GoPart(c: char, high: bool): bv8 {
    if high then (c as int / 32 % 256) as bv8 else Low(c)
  }

  /** One half of the array that the Go expandHRP fills: it is indexed by bytes and written once per
      character, at the character's first byte. */
  function Spread(hrp: string, high: bool): (values: seq<bv8>)
    ensures |values| == Bytes8(hrp)
  {
    if hrp == [] then []
    else
      var c := hrp[|hrp| - 1];
      Spread(hrp[..|hrp| - 1], high) + [GoPart(c, high)] + ZeroSymbols(Width8(c) - 1)
  }

  function GoExpansion(hrp: string): seq<bv8> {
    Spread(hrp, true) + [0] + Spread(hrp, false)
  }

  /** The Rust expand_hrp pushes two values per character, of its low eight bits. */
  function RustExpansion(hrp: string): (values: seq<bv8>)
    ensures |values| == 2 * |hrp| + 1
  {
    seq(|hrp|, i requires 0 <= i < |hrp| => RustHigh(hrp[i])) + [0] + seq(|hrp|, i requires 0 <= i < |hrp| => Low(hrp[i]))
  }

  function RustHigh(c: char): bv8 { (c as int % 256 / 32) as bv8 }

  lemma {:induction false} SpreadAscii(hrp: string, high: bool)
    requires Ascii(hrp)
    ensures |Spread(hrp, high)| == |hrp|
    ensures forall i :: 0 <= i < |hrp| ==> Spread(hrp, high)[i] == if high then High(hrp[i]) else Low(hrp[i])
  {
    if hrp != [] {
      SpreadAscii(hrp[..|hrp| - 1], high);
    }
  }

  lemma {:induction false} BytesOfAscii(hrp: string)
    ensures Bytes8(hrp) == |hrp| <==> Ascii(hrp)
  {
    if hrp != [] {
      BytesOfAscii(hrp[..|hrp| - 1]);
    }
  }

  lemma AsciiExpansion(hrp: string)
    requires Ascii(hrp)
    ensures GoExpansion(hrp) == ExpandHRP(hrp)
  {
    hide Spread, High, Low;
    SpreadAscii(hrp, true);
    SpreadAscii(hrp, false);
  }

  lemma AsciiHigh(c: char)
    requires c as int < 128
    ensures RustHigh(c) == High(c)
  {
  }

  /** The two expansions are the same, and that of BIP-173, exactly for ASCII prefixes. */
  lemma ExpansionsAgree(hrp: string)
    ensures GoExpansion(hrp) == RustExpansion(hrp) <==> Ascii(hrp)
    ensures Ascii(hrp) ==> GoExpansion(hrp) == ExpandHRP(hrp) == RustExpansion(hrp)
  {
    hide Spread, High, RustHigh, Low;
    BytesOfAscii(hrp);
    if Ascii(hrp) {
      forall i | 0 <= i < |hrp| ensures RustHigh(hrp[i]) == High(hrp[i]) {
        AsciiHigh(hrp[i]);
      }
      AsciiExpansion(hrp);
    }
  }

  /** The UTF-8 form of a character (section 3 of RFC 3629). */
  function Utf8(c: char): seq<int> {
    var n := c as int;
    if n < 0x80 then [n]
    else if n < 0x800 then [0xc0 + n / 0x40, 0x80 + n % 0x40]
    else if n < 0x1_0000 then [0xe0 + n / 0x1000, 0x80 + n / 0x40 % 0x40, 0x80 + n % 0x40]
    else [0xf0 + n / 0x4_0000, 0x80 + n / 0x1000 % 0x40, 0x80 + n / 0x40 % 0x40, 0x80 + n % 0x40]
  }

  /** What a UTF-8 form stands for: the lead byte says how many follow. */
  function FromUtf8(b: seq<int>): int {
    if |b| == 1 && 0 <= b[0] <= 0x7f then b[0]
    else if |b| == 2 && 0xc2 <= b[0] <= 0xdf then 0x40 * (b[0] - 0xc0) + (b[1] - 0x80)
    else if |b| == 3 && 0xe0 <= b[0] <= 0xef then 0x1000 * (b[0] - 0xe0) + 0x40 * (b[1] - 0x80) + (b[2] - 0x80)
    else if |b| == 4 && 0xf0 <= b[0] <= 0xf4 then
      0x4_0000 * (b[0] - 0xf0) + 0x1000 * (b[1] - 0x80) + 0x40 * (b[2] - 0x80) + (b[3] - 0x80)
    else -1
  }

  /** A character takes as many bytes as its UTF-8 form, which stands for it. */
  lemma WidthIsUtf8(c: char)
    ensures Width8(c) == |Utf8(c)| && FromUtf8(Utf8(c)) == c as int
    ensures forall i :: 1 <= i < |Utf8(c)| ==> 0x80 <= Utf8(c)[i] <= 0xbf
  {
    var n := c as int;
    assert n / 0x40 / 0x40 == n / 0x1000 && n / 0x1000 / 0x40 == n / 0x4_0000;
  }

  /** The first byte offset of a character gets its part, the offsets of its other bytes get zero. */
  lemma {:induction false} SpreadAt(hrp: string, high: bool, k: nat)
    requires k < |hrp|
    ensures var start := Bytes8(hrp[..k]);
            && start + Width8(hrp[k]) <= |Spread(hrp, high)|
            && Spread(hrp, high)[start] == (if high then (hrp[k] as int / 32 % 256) as bv8 else (hrp[k] as int % 32) as bv8)
            && forall i :: start < i < start + Width8(hrp[k]) ==> Spread(hrp, high)[i] == 0
    decreases |hrp|
  {
    hide Width8, Bytes8;
    var front := hrp[..|hrp| - 1];
    if k < |hrp| - 1 {
      SpreadAt(front, high, k);
      assert front[..k] == hrp[..k];
    }
  }

  /** The Rust expansion, character by character. */
  lemma RustAt(hrp: string, k: nat)
    requires k < |hrp|
    ensures RustExpansion(hrp)[k] == (hrp[k] as int % 256 / 32) as bv8
    ensures RustExpansion(hrp)[|hrp|] == 0 && RustExpansion(hrp)[|hrp| + 1 + k] == (hrp[k] as int % 32) as bv8
  {
  }

  /** The array after the first k characters, for a string of n bytes. */
  ghost function Layout(hrp: string, k: nat, n: nat): (values: seq<bv8>)
    requires k <= |hrp| && Bytes8(hrp[..k]) <= n
    ensures |values| == 2 * n + 1
  {
    var left := ZeroSymbols(n - Bytes8(hrp[..k]));
    Spread(hrp[..k], true) + left + [0] + Spread(hrp[..k], false) + left
  }

  method ExpandHRPGo(hrp: string) returns (values: seq<bv8>)
    ensures values == GoExpansion(hrp)
  {
    hide GoPart, Width8, Spread, Bytes8, Layout;
    var n := Bytes8(hrp);
    LayoutStarts(hrp);
    LayoutEnds(hrp);
    var result := new bv8[2 * n + 1](_ => 0);
    assert result[..] == ZeroSymbols(2 * n + 1);
    var i := 0;
    for k := 0 to |hrp|
      invariant i == Bytes8(hrp[..k]) <= n
      invariant result[..] == Layout(hrp, k, n)
    {
      var c := hrp[k];
      BytesGrow(hrp, k);
      WrittenOnce(hrp, k, n, result[..]);
      result[i] := GoPart(c, true);
      result[i + n + 1] := GoPart(c, false);
      i := i + Width8(c);
    }
    assert result[n] == result[..][n];
    result[n] := 0;
    values := result[..];
  }

  lemma LayoutStarts(hrp: string)
    ensures var n := Bytes8(hrp);
            Bytes8(hrp[..0]) == 0 && Layout(hrp, 0, n) == ZeroSymbols(2 * n + 1)
  {
    hide Spread, Bytes8, ZeroSymbols;
    var n := Bytes8(hrp);
    StartSpread(hrp[..0]);
    ZerosJoin(n);
    Empties(Spread(hrp[..0], true), Spread(hrp[..0], false), ZeroSymbols(n));
  }

  lemma Empties(a: seq<bv8>, b: seq<bv8>, z: seq<bv8>)
    requires a == [] && b == []
    ensures a + z + [0] + b + z == z + [0] + z
  {
  }

  lemma ZerosJoin(n: nat)
    ensures ZeroSymbols(n) + [0] + ZeroSymbols(n) == ZeroSymbols(2 * n + 1)
  {
  }

  lemma LayoutEnds(hrp: string)
    ensures var n := Bytes8(hrp);
            hrp[..|hrp|] == hrp && Layout(hrp, |hrp|, n) == GoExpansion(hrp) && GoExpansion(hrp)[n] == 0
  {
    hide Spread, Bytes8;
    assert hrp[..|hrp|] == hrp;
    assert ZeroSymbols(0) == [];
  }

  lemma StartSpread(s: string)
    requires s == []
    ensures Bytes8(s) == 0 && Spread(s, true) == [] && Spread(s, false) == []
  {
  }

  lemma {:induction false} BytesGrow(hrp: string, k: nat)
    requires k < |hrp|
    ensures Bytes8(hrp[..k + 1]) == Bytes8(hrp[..k]) + Width8(hrp[k]) <= Bytes8(hrp)
    decreases |hrp|
  {
    assert hrp[..k + 1][..k] == hrp[..k];
    if k + 1 < |hrp| {
      var front := hrp[..|hrp| - 1];
      BytesGrow(front, k);
      assert front[..k + 1] == hrp[..k + 1] && front[..k] == hrp[..k];
    } else {
      assert hrp[..k + 1] == hrp;
    }
  }

  lemma WrittenOnce(hrp: string, k: nat, n: nat, before: seq<bv8>)
    requires k < |hrp| && Bytes8(hrp[..k]) + Width8(hrp[k]) == Bytes8(hrp[..k + 1]) <= n
    requires before == Layout(hrp, k, n)
    ensures var i := Bytes8(hrp[..k]);
            before[i := GoPart(hrp[k], true)][i + n + 1 := GoPart(hrp[k], false)] == Layout(hrp, k + 1, n)
  {
    hide GoPart, Width8, Spread;
    SpreadNext(hrp, k, true);
    SpreadNext(hrp, k, false);
  }

  lemma SpreadNext(hrp: string, k: nat, high: bool)
    requires k < |hrp|
    ensures Spread(hrp[..k + 1], high) == Spread(hrp[..k], high) + [GoPart(hrp[k], high)] + ZeroSymbols(Width8(hrp[k]) - 1)
  {
    assert hrp[..k + 1][..k] == hrp[..k];
  }

  lemma SixZeros()
    ensures [0, 0, 0, 0, 0, 0] == ZeroSymbols(6)
  {
  }

  lemma EncodeParts(hrp: string, expanded: seq<bv8>, data: seq<byte>)
    ensures var values := DataValues(data);
            EncodeWith(hrp, expanded, data) == hrp + "1" + Chars(values)
              + Chars(Digits(Xor(Run(1, expanded + values + ZeroSymbols(6)), 1)))
  {
    hide Run, Xor, Digits, Chars, DataValues;
    var values := DataValues(data);
    CharsAppend(values, Checksum(expanded + values));
  }

  lemma CharsAppend(a: seq<bv8>, b: seq<bv8>)
    requires Symbols(a) && Symbols(b)
    ensures Chars(a + b) == Chars(a) + Chars(b)
  {
  }

  method EncodeGo(hrp: string, data: seq<byte>) returns (result: string)
    ensures result == EncodeWith(hrp, GoExpansion(hrp), data)
    ensures Ascii(hrp) ==> result == Encode(hrp, data)
  {
    ExpansionsAgree(hrp);
    hide Run, Xor, Digits, Wide, Xor64, ExpandHRP, GoExpansion, RustExpansion, EncodeWith, ToSymbols, ZeroSymbols, Chars;
    var converted := RegroupGo(data);
    ToSymbolsBits(data, []);
    var symbols := AsValues(converted);
    var expanded := ExpandHRPGo(hrp);
    var values := expanded + symbols;
    values := values + [0, 0, 0, 0, 0, 0];
    SixZeros();
    EncodeParts(hrp, GoExpansion(hrp), data);
    var polymod := PolymodGo(values);
    ghost var state := Run(1, values);
    WideXor(state, 1);
    WideOne();
    polymod := Xor64(polymod, 1);
    var checksum := ChecksumGo(polymod, Xor(state, 1));
    result := hrp + "1";
    result := WriteChars(result, symbols);
    result := WriteChars(result, checksum);
  }

  lemma WideOne()
    ensures Wide(1) == 1
  {
  }

  method ChecksumGo(polymod: bv64, ghost x: State) returns (checksum: seq<bv8>)
    requires polymod == Wide(x)
    ensures checksum == Digits(x)
  {
    hide Digit64, Digit, Wide;
    checksum := [];
    for i := 0 to 6
      invariant |checksum| == i && forall k :: 0 <= k < i ==> checksum[k] == Digit(x, k)
    {
      WideDigit(x, i);
      checksum := checksum + [Digit64(polymod, i)];
    }
  }

  /** The loop that appends the characters of symbols, the same in both languages. */
  method WriteChars(start: string, symbols: seq<bv8>) returns (result: string)
    requires Symbols(symbols)
    ensures result == start + Chars(symbols)
  {
    result := start;
    for i := 0 to |symbols|
      invariant result == start + Chars(symbols)[..i]
    {
      result := result + [CHARSET[symbols[i] as int]];
    }
    assert Chars(symbols)[..|symbols|] == Chars(symbols);
  }

  /** Polymod.Digit on a Go int. */
  function Digit64(polymod: bv64, i: nat): bv8 {
    var shifted :=
      if i == 0 then polymod >> 25 else if i == 1 then polymod >> 20 else if i == 2 then polymod >> 15
      else if i == 3 then polymod >> 10 else if i == 4 then polymod >> 5 else polymod;
    (shifted & 0x1f) as bv8
  }

  lemma WideDigit(x: State, i: nat)
    ensures Digit64(Wide(x), i) == Digit(x, i)
  {
    if i == 0 {
    } else if i == 1 {
    } else if i == 2 {
    } else if i == 3 {
    } else if i == 4 {
    } else {
    }
  }

  /* ---------- Rust ---------- */

  /** The regrouping loops of the Rust bech32_encode: u32 accumulator, symbols cut to u8 first. */
  method RegroupRust(data: seq<byte>) returns (converted: seq<int>)
    ensures converted == ToSymbols(data)
  {
    hide Regrouped, Unpack, ToSymbols, BitsOf, UInt32, Pow2;
    converted := [];
    var acc := 0;
    var bits := 0;
    StartRegrouped();
    for i := 0 to |data|
      invariant 0 <= bits < 5 && Regrouped(data[..i], converted, acc, bits)
    {
      ByteIn(data[..i], converted, acc, bits, data[i]);
      assert data[..i + 1] == data[..i] + [data[i]];
      acc := UInt32(acc * 256 + data[i]);
      bits := bits + 8;
      while bits >= 5
        invariant 0 <= bits <= 12 && Regrouped(data[..i + 1], converted, acc, bits)
      {
        bits := bits - 5;
        SymbolOut(data[..i + 1], converted, acc, bits);
        CutToByte(acc / Pow2(bits));
        converted := converted + [acc / Pow2(bits) % 256 % 32];
      }
    }
    assert data[..|data|] == data;
    Finish(data, converted, acc, bits);
    if bits > 0 {
      ShiftedOut(acc * Pow2(5 - bits));
      converted := converted + [UInt32(acc * Pow2(5 - bits)) % 256 % 32];
    }
  }

  predicate BitSet32(b: bv32, i: nat)
    requires i < 32
  {
    (b >> i) & 1 == 1
  }

  lemma TestBit32(b: State, i: nat)
    requires i < 5
    ensures BitSet32(b, i) <==> Bit(b, i)
  {
    if i == 0 {
    } else if i == 1 {
    } else if i == 2 {
    } else if i == 3 {
    } else {
    }
  }

  function Gen32(): (gen: seq<bv32>)
    ensures |gen| == 5
  {
    [0x3b6a57b2, 0x26508e6d, 0x1ea119fa, 0x3d4233dd, 0x2a1462b3]
  }

  lemma RustGen(i: nat)
    requires i < 5
    ensures Gen32()[i] == Gen(i)
  {
  }

  method FoldRust(chk0: bv32, b: bv32) returns (chk: bv32)
    ensures chk == Xor(chk0, Feedback(b, 5))
  {
    hide BitSet32, Feedback, Xor, Bit, Gen, Gen32;
    chk := chk0;
    NoFeedback(chk, b);
    for i := 0 to 5
      invariant chk == Xor(chk0, Feedback(b, i))
    {
      TestBit32(b, i);
      FeedbackNext(chk0, b, i);
      RustGen(i);
      if BitSet32(b, i) {
        chk := Xor(chk, Gen32()[i]);
      }
    }
  }

  method PolymodRust(values: seq<bv8>) returns (chk: bv32)
    ensures chk == Run(1, values)
  {
    hide Run, Feedback, Shifted, Top, Xor;
    chk := 1;
    RunAll(values);
    for k := 0 to |values|
      invariant chk == Run(1, values[..k])
    {
      var v := values[k];
      RunSnoc(1, values, k);
      var b := Top(chk);
      chk := Shifted(chk, v);
      chk := FoldRust(chk, b);
    }
  }

  method ExpandHRPRust(hrp: string) returns (result: seq<bv8>)
    ensures result == RustExpansion(hrp)
  {
    hide RustHigh;
    result := [];
    for i := 0 to |hrp|
      invariant |result| == i && forall k :: 0 <= k < i ==> result[k] == RustHigh(hrp[k])
    {
      result := result + [RustHigh(hrp[i])];
    }
    result := result + [0];
    for i := 0 to |hrp|
      invariant |result| == |hrp| + 1 + i
      invariant result[..|hrp| + 1] == RustExpansion(hrp)[..|hrp| + 1]
      invariant forall k :: 0 <= k < i ==> result[|hrp| + 1 + k] == Low(hrp[k])
    {
      result := result + [Low(hrp[i])];
    }
  }

  method EncodeRust(hrp: string, data: seq<byte>) returns (result: string)
    ensures result == EncodeWith(hrp, RustExpansion(hrp), data)
    ensures Ascii(hrp) ==> result == Encode(hrp, data)
  {
    ExpansionsAgree(hrp);
    hide Run, Xor, Digits, ExpandHRP, GoExpansion, RustExpansion, EncodeWith, ToSymbols, ZeroSymbols, Chars;
    var converted := RegroupRust(data);
    ToSymbolsBits(data, []);
    var symbols := AsValues(converted);
    var values := ExpandHRPRust(hrp);
    values := values + symbols;
    values := values + [0, 0, 0, 0, 0, 0];
    SixZeros();
    EncodeParts(hrp, RustExpansion(hrp), data);
    var polymod := PolymodRust(values);
    polymod := Xor(polymod, 1);
    var checksum := ChecksumRust(polymod);
    result := hrp + "1";
    result := WriteChars(result, symbols);
    result := WriteChars(result, checksum);
  }

  method ChecksumRust(polymod: bv32) returns (checksum: seq<bv8>)
    ensures checksum == Digits(polymod)
  {
    hide Digit;
    checksum := [];
    for i := 0 to 6
      invariant |checksum| == i && forall k :: 0 <= k < i ==> checksum[k] == Digit(polymod, k)
    {
      checksum := checksum + [Digit(polymod, i)];
    }
  }
}
