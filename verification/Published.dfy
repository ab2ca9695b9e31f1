/** A published test string of BIP-173, computed: it fixes the character set, the prefix expansion, the
    grouping of bits, the generator and both constants of the checksum. */
module Published {
  import opened Bytes
  import opened Regroup
  import opened Polymod
  import opened Bech32

  /** The symbols 0, 1, 2, up to 31. */
  const SYMBOLS: seq<int> := seq(32, i => i)

  const VALUES: seq<bv8> := AsValues(SYMBOLS)

  const CHECK: seq<bv8> := [27, 0, 0, 0, 6, 14]

  /* ---------- The register along the published word ---------- */

  lemma RunOne(c: State, v: bv8)
    ensures Run(c, [v]) == Step(c, v)
  {
    hide Step;
    assert [v][1..] == [];
    RunEmpty(Step(c, v), [v][1..]);
  }

  /** A step written out, for computing with constants. */
  function Flat(c: State, v: bv8): State {
    Xor(((c & 0x1ff_ffff) << 5) ^ (v as State),
        Xor(Xor(Xor(Xor(if c & 0x200_0000 != 0 then 0x3b6a57b2 else 0, if c & 0x400_0000 != 0 then 0x26508e6d else 0),
                    if c & 0x800_0000 != 0 then 0x1ea119fa else 0), if c & 0x1000_0000 != 0 then 0x3d4233dd else 0),
            if c & 0x2000_0000 != 0 then 0x2a1462b3 else 0))
  }

  lemma ShiftedIs(c: State, v: bv8)
    ensures Shifted(c, v) == ((c & 0x1ff_ffff) << 5) ^ (v as State)
  {
  }

  lemma Selected(i: nat, bit: bool)
    requires i < 5
    ensures Select(bit, Gen(i)) == if !bit then 0 else if i == 0 then 0x3b6a57b2 else if i == 1 then 0x26508e6d
                                   else if i == 2 then 0x1ea119fa else if i == 3 then 0x3d4233dd else 0x2a1462b3
  {
  }

  lemma TopBit0(c: State)
    ensures Bit(Top(c), 0) <==> c & 0x200_0000 != 0
  {
  }

  lemma TopBit1(c: State)
    ensures Bit(Top(c), 1) <==> c & 0x400_0000 != 0
  {
  }

  lemma TopBit2(c: State)
    ensures Bit(Top(c), 2) <==> c & 0x800_0000 != 0
  {
  }

  lemma TopBit3(c: State)
    ensures Bit(Top(c), 3) <==> c & 0x1000_0000 != 0
  {
  }

  lemma TopBit4(c: State)
    ensures Bit(Top(c), 4) <==> c & 0x2000_0000 != 0
  {
  }

  lemma FlatIs(c: State, v: bv8)
    ensures Step(c, v) == Flat(c, v)
  {
    hide Shifted, Top, Bit, Select, Gen, Xor, Feedback;
    FeedbackUnrolled(Top(c));
    TopBit0(c);
    TopBit1(c);
    TopBit2(c);
    TopBit3(c);
    TopBit4(c);
    ShiftedIs(c, v);
    Selected(0, Bit(Top(c), 0));
    Selected(1, Bit(Top(c), 1));
    Selected(2, Bit(Top(c), 2));
    Selected(3, Bit(Top(c), 3));
    Selected(4, Bit(Top(c), 4));
  }

  lemma Moves(c: State, v: bv8, next: State)
    requires Flat(c, v) == next
    ensures Step(c, v) == next
  {
    hide Step, Flat;
    FlatIs(c, v);
  }

  lemma RunPrefix0()
    ensures Run(0x1, [3, 3, 3, 3, 3, 3]) == 0x3d5bdbd1
  {
    hide Step, Run;
    Moves(0x1, 3, 0x23);
    Moves(0x23, 3, 0x463);
    Moves(0x463, 3, 0x8c63);
    Moves(0x8c63, 3, 0x118c63);
    Moves(0x118c63, 3, 0x2318c63);
    Moves(0x2318c63, 3, 0x3d5bdbd1);
    RunSix(0x1, [3, 3, 3, 3, 3, 3]);
  }

  lemma RunPrefix1()
    ensures Run(0x3d5bdbd1, [0, 1, 2, 3, 4, 5]) == 0x266635a8
  {
    hide Step, Run;
    Moves(0x3d5bdbd1, 0, 0x4dcbcd9);
    Moves(0x4dcbcd9, 1, 0x3dc7154c);
    Moves(0x3dc7154c, 2, 0x17456f7b);
    Moves(0x17456f7b, 3, 0x8d50561);
    Moves(0x8d50561, 4, 0x401b5de);
    Moves(0x401b5de, 5, 0x266635a8);
    RunSix(0x3d5bdbd1, [0, 1, 2, 3, 4, 5]);
  }

  lemma RunPrefix2()
    ensures Run(0x266635a8, [6]) == 0x3be80e6a
  {
    hide Step, Run;
    Moves(0x266635a8, 6, 0x3be80e6a);
    RunOne(0x266635a8, 6);
  }

  lemma RunSymbols0()
    ensures Run(0x3be80e6a, [0, 1, 2, 3, 4, 5]) == 0x2fd98d2c
  {
    hide Step, Run;
    Moves(0x3be80e6a, 0, 0xf9cd266);
    Moves(0xf9cd266, 1, 0x30018ce4);
    Moves(0x30018ce4, 2, 0x1767cdec);
    Moves(0x1767cdec, 3, 0xc815781);
    Moves(0xc815781, 4, 0x28db67b3);
    Moves(0x28db67b3, 5, 0x2fd98d2c);
    RunSix(0x3be80e6a, [0, 1, 2, 3, 4, 5]);
  }

  lemma RunSymbols6()
    ensures Run(0x2fd98d2c, [6, 7, 8, 9, 10, 11]) == 0x2f8ccedd
  {
    hide Step, Run;
    Moves(0x2fd98d2c, 6, 0x12be0710);
    Moves(0x12be0710, 7, 0x11e88668);
    Moves(0x11e88668, 8, 0x52fed5);
    Moves(0x52fed5, 9, 0xa5fdaa9);
    Moves(0xa5fdaa9, 10, 0x2e301b62);
    Moves(0x2e301b62, 11, 0x2f8ccedd);
    RunSix(0x2fd98d2c, [6, 7, 8, 9, 10, 11]);
  }

  lemma RunSymbols12()
    ensures Run(0x2f8ccedd, [12, 13, 14, 15, 16, 17]) == 0xe08010d
  {
    hide Step, Run;
    Moves(0x2f8ccedd, 12, 0x1816793a);
    Moves(0x1816793a, 13, 0x212c0d6a);
    Moves(0x212c0d6a, 14, 0xf95cffd);
    Moves(0xf95cffd, 15, 0x31223f8a);
    Moves(0x31223f8a, 16, 0x3311a03e);
    Moves(0x3311a03e, 17, 0xe08010d);
    RunSix(0x2f8ccedd, [12, 13, 14, 15, 16, 17]);
  }

  lemma RunSymbols18()
    ensures Run(0xe08010d, [18, 19, 20, 21, 22, 23]) == 0x297c48e0
  {
    hide Step, Run;
    Moves(0xe08010d, 18, 0x29be197);
    Moves(0x29be197, 19, 0x28166541);
    Moves(0x28166541, 20, 0x3679d37d);
    Moves(0x3679d37d, 21, 0x556e704);
    Moves(0x556e704, 22, 0xc8c6efb);
    Moves(0xc8c6efb, 23, 0x297c48e0);
    RunSix(0xe08010d, [18, 19, 20, 21, 22, 23]);
  }

  lemma RunSymbols24()
    ensures Run(0x297c48e0, [24, 25, 26, 27, 28, 29]) == 0x2e07d307
  {
    hide Step, Run;
    Moves(0x297c48e0, 24, 0x1b3c6751);
    Moves(0x1b3c6751, 25, 0x3f0597ac);
    Moves(0x3f0597ac, 26, 0x347f64d1);
    Moves(0x347f64d1, 27, 0x3eea4538);
    Moves(0x3eea4538, 28, 0x9853657);
    Moves(0x9853657, 29, 0x2e07d307);
    RunSix(0x297c48e0, [24, 25, 26, 27, 28, 29]);
  }

  lemma RunSymbols30()
    ensures Run(0x2e07d307, [30]) == 0x2975c268 && Run(0x2975c268, [31]) == 0x1a0d3656
  {
    hide Step, Run;
    Moves(0x2e07d307, 30, 0x2975c268);
    Moves(0x2975c268, 31, 0x1a0d3656);
    RunOne(0x2e07d307, 30);
    RunOne(0x2975c268, 31);
  }

  lemma RunCheck()
    ensures Run(0x1a0d3656, [27, 0, 0, 0, 6, 14]) == 0x1
  {
    hide Step, Run;
    Moves(0x1a0d3656, 27, 0x192fb74e);
    Moves(0x192fb74e, 0, 0x615c3e7);
    Moves(0x615c3e7, 0, 0x1f82a53f);
    Moves(0x1f82a53f, 0, 0xe8d5418);
    Moves(0xe8d5418, 6, 0x12314323);
    Moves(0x12314323, 14, 0x1);
    RunSix(0x1a0d3656, [27, 0, 0, 0, 6, 14]);
  }

  lemma Expanded()
    ensures ExpandHRP("abcdef") == [3, 3, 3, 3, 3, 3] + [0, 1, 2, 3, 4, 5] + [6]
  {
  }

  lemma Values0()
    ensures VALUES[0..6] == [0, 1, 2, 3, 4, 5]
  {
  }

  lemma Values6()
    ensures VALUES[6..12] == [6, 7, 8, 9, 10, 11]
  {
  }

  lemma Values12()
    ensures VALUES[12..18] == [12, 13, 14, 15, 16, 17]
  {
  }

  lemma Values18()
    ensures VALUES[18..24] == [18, 19, 20, 21, 22, 23]
  {
  }

  lemma Values24()
    ensures VALUES[24..30] == [24, 25, 26, 27, 28, 29]
  {
  }

  lemma Values30()
    ensures VALUES[30..] == [30] + [31]
  {
  }

  lemma ValuesInParts()
    ensures VALUES == [0, 1, 2, 3, 4, 5] + [6, 7, 8, 9, 10, 11] + [12, 13, 14, 15, 16, 17] + [18, 19, 20, 21, 22, 23] + [24, 25, 26, 27, 28, 29] + [30] + [31]
  {
    hide AsValues;
    Values0();
    Values6();
    Values12();
    Values18();
    Values24();
    Values30();
    assert VALUES == VALUES[..6] + VALUES[6..12] + VALUES[12..18] + VALUES[18..24] + VALUES[24..30] + VALUES[30..];
  }

  lemma WordVerifies()
    ensures Verifies(ExpandHRP("abcdef") + VALUES + CHECK)
  {
    hide Run, Step, ExpandHRP, AsValues;
    RunPrefix0();
    RunPrefix1();
    RunPrefix2();
    RunSymbols0();
    RunSymbols6();
    RunSymbols12();
    RunSymbols18();
    RunSymbols24();
    RunSymbols30();
    RunCheck();
    Expanded();
    ValuesInParts();
    var w0: seq<bv8> := [3, 3, 3, 3, 3, 3];
    var w1 := w0 + [0, 1, 2, 3, 4, 5];
    RunAppend(1, w0, [0, 1, 2, 3, 4, 5]);
    var w2 := w1 + [6];
    RunAppend(1, w1, [6]);
    var w3 := w2 + [0, 1, 2, 3, 4, 5];
    RunAppend(1, w2, [0, 1, 2, 3, 4, 5]);
    var w4 := w3 + [6, 7, 8, 9, 10, 11];
    RunAppend(1, w3, [6, 7, 8, 9, 10, 11]);
    var w5 := w4 + [12, 13, 14, 15, 16, 17];
    RunAppend(1, w4, [12, 13, 14, 15, 16, 17]);
    var w6 := w5 + [18, 19, 20, 21, 22, 23];
    RunAppend(1, w5, [18, 19, 20, 21, 22, 23]);
    var w7 := w6 + [24, 25, 26, 27, 28, 29];
    RunAppend(1, w6, [24, 25, 26, 27, 28, 29]);
    var w8 := w7 + [30];
    RunAppend(1, w7, [30]);
    var w9 := w8 + [31];
    RunAppend(1, w8, [31]);
    RunAppend(1, w9, CHECK);
    assert ExpandHRP("abcdef") + VALUES == w9;
  }

  /* ---------- The bytes and their symbols ---------- */

  lemma {:induction false} UnpackAppend(a: seq<int>, b: seq<int>, w: nat)
    ensures Unpack(a + b, w) == Unpack(a, w) + Unpack(b, w)
    decreases |b|
  {
    hide BitsOf;
    if b == [] {
      assert a + b == a;
    } else {
      var front := b[..|b| - 1];
      UnpackAppend(a, front, w);
      assert (a + b)[..|a + b| - 1] == a + front;
    }
  }

  lemma FiveBytes(b: seq<int>)
    requires |b| == 5
    ensures InBase(b, 256) == 256 * (256 * (256 * (256 * b[0] + b[1]) + b[2]) + b[3]) + b[4]
  {
    assert b[..4][..3] == b[..3] && b[..3][..2] == b[..2] && b[..2][..1] == b[..1] && b[..1][..0] == [];
    assert InBase(b[..1], 256) == b[0];
    assert InBase(b[..2], 256) == 256 * b[0] + b[1];
    assert InBase(b[..3], 256) == 256 * (256 * b[0] + b[1]) + b[2];
  }

  lemma EightSymbols(x: seq<int>)
    requires |x| == 8
    ensures InBase(x, 32)
         == 32 * (32 * (32 * (32 * (32 * (32 * (32 * x[0] + x[1]) + x[2]) + x[3]) + x[4]) + x[5]) + x[6]) + x[7]
  {
    assert x[..7][..6] == x[..6] && x[..6][..5] == x[..5] && x[..5][..4] == x[..4] && x[..4][..3] == x[..3];
    assert x[..3][..2] == x[..2] && x[..2][..1] == x[..1] && x[..1][..0] == [];
    assert InBase(x[..1], 32) == x[0];
    assert InBase(x[..2], 32) == 32 * x[0] + x[1];
    assert InBase(x[..3], 32) == 32 * InBase(x[..2], 32) + x[2];
    assert InBase(x[..4], 32) == 32 * InBase(x[..3], 32) + x[3];
    assert InBase(x[..5], 32) == 32 * InBase(x[..4], 32) + x[4];
    assert InBase(x[..6], 32) == 32 * InBase(x[..5], 32) + x[5];
    assert InBase(x[..7], 32) == 32 * InBase(x[..6], 32) + x[6];
  }

  /** Five bytes and the eight symbols from s on have the same bits if they spell the same number. */
  lemma Group(b: seq<byte>, s: int)
    requires |b| == 5 && 0 <= s <= 24 && InBase(b, 256) == InBase(SYMBOLS[s..s + 8], 32)
    ensures Unpack(b, 8) == Unpack(SYMBOLS[s..s + 8], 5)
  {
    hide InBase, Unpack, Number;
    SymbolsNumber(SYMBOLS[s..s + 8]);
    Pow2Eight();
    NumberOfUnpack(b, 8);
    UnpackLength(b, 8);
    SameBits(Unpack(b, 8), Unpack(SYMBOLS[s..s + 8], 5));
  }

  const BYTES0: seq<byte> := [0x00, 0x44, 0x32, 0x14, 0xc7]

  lemma Group0()
    ensures Unpack(BYTES0, 8) == Unpack(SYMBOLS[0..8], 5)
  {
    hide InBase, Unpack;
    FiveBytes(BYTES0);
    EightSymbols(SYMBOLS[0..8]);
    Group(BYTES0, 0);
  }

  const BYTES8: seq<byte> := [0x42, 0x54, 0xb6, 0x35, 0xcf]

  lemma Group8()
    ensures Unpack(BYTES8, 8) == Unpack(SYMBOLS[8..16], 5)
  {
    hide InBase, Unpack;
    FiveBytes(BYTES8);
    EightSymbols(SYMBOLS[8..16]);
    Group(BYTES8, 8);
  }

  const BYTES16: seq<byte> := [0x84, 0x65, 0x3a, 0x56, 0xd7]

  lemma Group16()
    ensures Unpack(BYTES16, 8) == Unpack(SYMBOLS[16..24], 5)
  {
    hide InBase, Unpack;
    FiveBytes(BYTES16);
    EightSymbols(SYMBOLS[16..24]);
    Group(BYTES16, 16);
  }

  const BYTES24: seq<byte> := [0xc6, 0x75, 0xbe, 0x77, 0xdf]

  lemma Group24()
    ensures Unpack(BYTES24, 8) == Unpack(SYMBOLS[24..32], 5)
  {
    hide InBase, Unpack;
    FiveBytes(BYTES24);
    EightSymbols(SYMBOLS[24..32]);
    Group(BYTES24, 24);
  }

  /** The bytes whose symbols are 0, 1, 2, up to 31. */
  const DATA: seq<byte> := BYTES0 + BYTES8 + BYTES16 + BYTES24

  lemma SymbolsOfData()
    ensures ToSymbols(DATA) == SYMBOLS
  {
    hide Unpack, ToSymbols;
    Group0();
    Group8();
    Group16();
    Group24();
    UnpackAppend(BYTES0, BYTES8, 8);
    UnpackAppend(BYTES0 + BYTES8, BYTES16, 8);
    UnpackAppend(BYTES0 + BYTES8 + BYTES16, BYTES24, 8);
    UnpackAppend(SYMBOLS[0..8], SYMBOLS[8..16], 5);
    UnpackAppend(SYMBOLS[0..16], SYMBOLS[16..24], 5);
    UnpackAppend(SYMBOLS[0..24], SYMBOLS[24..32], 5);
    assert SYMBOLS[0..16] == SYMBOLS[0..8] + SYMBOLS[8..16] && SYMBOLS[0..24] == SYMBOLS[0..16] + SYMBOLS[16..24];
    assert SYMBOLS == SYMBOLS[0..24] + SYMBOLS[24..32];
    assert Unpack(DATA, 8) + Falses(0) == Unpack(SYMBOLS, 5);
    ToSymbolsBits(DATA, SYMBOLS);
  }

  /* ---------- The string ---------- */

  lemma SpelledValues()
    ensures Chars(VALUES) == "qpzry9x8gf2tvdw0s3jn54khce6mua7l"
  {
    var s := Chars(VALUES);
    forall i | 0 <= i < 32 ensures s[i] == CHARSET[i] {
      assert VALUES[i] as int == i;
    }
  }

  lemma SpelledCheck()
    ensures Symbols(CHECK) && Chars(CHECK) == "mqqqxw"
  {
  }

  lemma CharsJoin(a: seq<bv8>, b: seq<bv8>)
    requires Symbols(a) && Symbols(b)
    ensures Symbols(a + b) && Chars(a + b) == Chars(a) + Chars(b)
  {
  }

  /** The string of BIP-173's list whose data part is the whole character set. */
  lemma PublishedString()
    ensures Encode("abcdef", DATA) == "abcdef" + "1" + "qpzry9x8gf2tvdw0s3jn54khce6mua7l" + "mqqqxw"
  {
    hide Verifies, Chars, ExpandHRP, ToSymbols, Checksum, AsValues;
    SymbolsOfData();
    SpelledValues();
    SpelledCheck();
    WordVerifies();
    CharsJoin(VALUES, CHECK);
    ChecksumVerifies(ExpandHRP("abcdef") + VALUES, CHECK);
  }
}
