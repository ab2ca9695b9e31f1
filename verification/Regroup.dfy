/** Regrouping bits: numbers of w bits each as one bit string, most significant bit first, and
    back. Used with w = 8 for bytes and w = 5 for bech32 symbols. */
module Regroup {
  import opened Wrappers
  import opened Bytes

  type Symbol = x: int | 0 <= x < 32

  /** The low n bits of v, also of a negative v in two's complement. */
  function BitsOf(v: int, n: nat): (bits: seq<bool>)
    ensures |bits| == n
    decreases n
  {
    if n == 0 then [] else BitsOf(v / 2, n - 1) + [v % 2 == 1]
  }

  function Number(bits: seq<bool>): nat {
    if bits == [] then 0 else 2 * Number(bits[..|bits| - 1]) + if bits[|bits| - 1] then 1 else 0
  }

  function Pow2(n: nat): (p: nat)
    ensures p > 0
  {
    if n == 0 then 1 else 2 * Pow2(n - 1)
  }

  function Falses(n: nat): (f: seq<bool>)
    ensures |f| == n
    ensures forall i :: 0 <= i < n ==> !f[i]
  {
    seq(n, i => false)
  }

  function Unpack(xs: seq<int>, w: nat): seq<bool> {
    if xs == [] then [] else Unpack(xs[..|xs| - 1], w) + BitsOf(xs[|xs| - 1], w)
  }

  predicate Width(w: nat) { w == 5 || w == 8 }

  function Pack(bits: seq<bool>, w: nat): seq<nat>
    requires Width(w) && |bits| % w == 0
    decreases |bits|
  {
    if bits == [] then []
    else
      CutOne(|bits|, w);
      Pack(bits[..|bits| - w], w) + [Number(bits[|bits| - w..])]
  }

  /* ---------- Arithmetic of bit strings ---------- */

  lemma {:induction false} BitsOfNumber(bits: seq<bool>)
    ensures Number(bits) < Pow2(|bits|)
    ensures BitsOf(Number(bits), |bits|) == bits
  {
    if bits != [] {
      BitsOfNumber(bits[..|bits| - 1]);
      assert Number(bits) / 2 == Number(bits[..|bits| - 1]);
    }
  }

  lemma {:induction false} NumberOfBits(v: int, n: nat)
    requires 0 <= v < Pow2(n)
    ensures Number(BitsOf(v, n)) == v
  {
    if n != 0 {
      NumberOfBits(v / 2, n - 1);
      assert BitsOf(v, n)[..n - 1] == BitsOf(v / 2, n - 1);
    }
  }

  /** Adding a multiple of 2 to the W changes none of the low W bits: wrap-around is harmless. */
  lemma {:induction false} BitsOfWrapped(v: int, t: int, W: nat, n: nat)
    requires n <= W
    ensures BitsOf(v + t * Pow2(W), n) == BitsOf(v, n)
    decreases n
  {
    if n != 0 {
      var half := t * Pow2(W - 1);
      assert t * Pow2(W) == 2 * half;
      assert (v + 2 * half) / 2 == v / 2 + half && (v + 2 * half) % 2 == v % 2;
      BitsOfWrapped(v / 2, t, W - 1, n - 1);
    }
  }

  lemma {:induction false} BitsOfSplit(v: int, m: nat, n: nat)
    ensures BitsOf(v, m + n) == BitsOf(v / Pow2(n), m) + BitsOf(v, n)
    decreases n
  {
    if n == 0 {
      assert v / Pow2(0) == v;
    } else {
      BitsOfSplit(v / 2, m, n - 1);
      HalfThenShift(v, n - 1);
      assert BitsOf(v, m + n) == BitsOf(v / 2, m + n - 1) + [v % 2 == 1];
    }
  }

  lemma HalfThenShift(v: int, n: nat)
    ensures (v / 2) / Pow2(n) == v / Pow2(n + 1)
  {
    var p := Pow2(n);
    var q, r := (v / 2) / p, (v / 2) % p;
    assert v == 2 * (q * p + r) + v % 2;
    assert 0 <= 2 * r + v % 2 < 2 * p;
    assert v == q * (2 * p) + (2 * r + v % 2);
    DivUnique(v, 2 * p, q, 2 * r + v % 2);
  }

  lemma DivUnique(v: int, d: int, q: int, r: int)
    requires d > 0 && 0 <= r < d && v == q * d + r
    ensures v / d == q
  {
    var q', r' := v / d, v % d;
    assert q' * d + r' == q * d + r && 0 <= r' < d;
    if q > q' {
      MulAtLeast(q - q', d);
    } else if q < q' {
      MulAtLeast(q' - q, d);
    }
  }

  lemma MulAtLeast(k: int, d: int)
    requires k >= 1 && d > 0
    ensures k * d >= d
  {
  }

  /** Shifting a byte in: what `(acc << 8) | b` does to the pending bits. */
  lemma ShiftByteIn(acc: int, b: byte, bits: nat)
    ensures BitsOf(acc * 256 + b, bits + 8) == BitsOf(acc, bits) + BitsOf(b, 8)
  {
    var n := 8;
    var p := Pow2(n);
    assert p == 256 by {
      assert Pow2(4) == 16;
    }
    BitsOfSplit(acc * p + b, bits, n);
    BitsOfWrapped(b, acc, n, n);
    assert (acc * p + b) / p == acc;
  }

  /** Taking the top five pending bits out: what `(acc >> bits) & 0x1f` reads. */
  lemma TakeFive(acc: int, bits: nat)
    ensures BitsOf(acc, bits + 5) == BitsOf((acc / Pow2(bits)) % 32, 5) + BitsOf(acc, bits)
  {
    BitsOfSplit(acc, 5, bits);
    LowFive(acc / Pow2(bits));
  }

  lemma LowFive(v: int)
    ensures BitsOf(v % 32, 5) == BitsOf(v, 5)
  {
    assert Pow2(5) == 32;
    BitsOfWrapped(v % 32, v / 32, 5, 5);
  }

  /** Padding the last symbol: what `(acc << n) & 0x1f` reads. */
  lemma PadRight(acc: int, bits: nat, n: nat)
    requires bits + n == 5
    ensures BitsOf((acc * Pow2(n)) % 32, 5) == BitsOf(acc, bits) + Falses(n)
  {
    LowFive(acc * Pow2(n));
    BitsOfSplit(acc * Pow2(n), bits, n);
    DivUnique(acc * Pow2(n), Pow2(n), acc, 0);
    BitsOfWrapped(0, acc, n, n);
    BitsOfZero(n);
  }

  lemma {:induction false} BitsOfZero(n: nat)
    ensures BitsOf(0, n) == Falses(n)
  {
    if n != 0 {
      BitsOfZero(n - 1);
    }
  }

  /* ---------- Packing and unpacking are inverse ---------- */

  lemma {:induction false} UnpackLength(xs: seq<int>, w: nat)
    requires Width(w)
    ensures |Unpack(xs, w)| == |xs| * w
  {
    if xs != [] {
      UnpackLength(xs[..|xs| - 1], w);
    }
  }

  lemma {:induction false} UnpackPack(bits: seq<bool>, w: nat)
    requires Width(w) && |bits| % w == 0
    ensures Unpack(Pack(bits, w), w) == bits
    ensures forall i :: 0 <= i < |Pack(bits, w)| ==> Pack(bits, w)[i] < Pow2(w)
    decreases |bits|
  {
    hide Number, Pow2, BitsOf;
    if bits != [] {
      CutOne(|bits|, w);
      var front, last := bits[..|bits| - w], bits[|bits| - w..];
      UnpackPack(front, w);
      BitsOfNumber(last);
      var xs := Pack(bits, w);
      assert xs == Pack(front, w) + [Number(last)];
      assert xs[..|xs| - 1] == Pack(front, w);
      assert bits == front + last;
    }
  }

  lemma CutOne(n: nat, w: nat)
    requires Width(w) && n % w == 0 && n > 0
    ensures n >= w && (n - w) % w == 0
  {
    if w == 5 {
    } else {
    }
  }

  lemma AddOne(n: nat, w: nat)
    requires Width(w) && n % w == 0
    ensures (n + w) % w == 0
  {
    if w == 5 {
    } else {
    }
  }

  lemma {:induction false} PackUnpack(xs: seq<int>, w: nat)
    requires Width(w) && forall i :: 0 <= i < |xs| ==> 0 <= xs[i] < Pow2(w)
    ensures |Unpack(xs, w)| % w == 0
    ensures Pack(Unpack(xs, w), w) == xs
  {
    hide Number, Pow2, BitsOf;
    if xs != [] {
      var front, last := xs[..|xs| - 1], xs[|xs| - 1];
      PackUnpack(front, w);
      NumberOfBits(last, w);
      var bits := Unpack(xs, w);
      assert bits == Unpack(front, w) + BitsOf(last, w);
      AddOne(|Unpack(front, w)|, w);
      assert bits[..|bits| - w] == Unpack(front, w) && bits[|bits| - w..] == BitsOf(last, w);
      assert xs == front + [last];
    }
  }

  /* ---------- The 8-to-5 regrouping ---------- */

  /** The zero bits that complete the last symbol of n bytes. */
  function Padding(n: nat): (p: nat)
    ensures p < 5 && (8 * n + p) % 5 == 0
  {
    (5 - 8 * n % 5) % 5
  }

  function PaddedBits(data: seq<byte>): (bits: seq<bool>)
    ensures |bits| % 5 == 0
  {
    UnpackLength(data, 8);
    Unpack(data, 8) + Falses(Padding(|data|))
  }

  /** The specification: cut the padded bit string of the data into groups of five. */
  function ToSymbols(data: seq<byte>): seq<nat> {
    Pack(PaddedBits(data), 5)
  }

  /** Back to bytes; the leftover bits must be fewer than five and all zero. */
  function FromSymbols(symbols: seq<int>): Option<seq<nat>> {
    var bits := Unpack(symbols, 5);
    var n := |bits| / 8 * 8;
    if |bits| - n < 5 && bits[n..] == Falses(|bits| - n) then Some(Pack(bits[..n], 8)) else None
  }

  /** ceil(8n/5) symbols, all below 32, whose bits are those of the data followed by fewer than
      five zeros; no other symbols have these bits. */
  lemma ToSymbolsBits(data: seq<byte>, symbols: seq<int>)
    requires forall i :: 0 <= i < |symbols| ==> 0 <= symbols[i] < 32
    ensures |ToSymbols(data)| == (8 * |data| + 4) / 5
    ensures forall i :: 0 <= i < |ToSymbols(data)| ==> ToSymbols(data)[i] < 32
    ensures Unpack(symbols, 5) == PaddedBits(data) <==> symbols == ToSymbols(data)
  {
    hide Pow2, BitsOf, Number, Unpack, Pack;
    UnpackLength(data, 8);
    UnpackLength(ToSymbols(data), 5);
    Pow2Five();
    UnpackPack(PaddedBits(data), 5);
    PackUnpack(symbols, 5);
  }

  lemma Pow2Five()
    ensures Pow2(5) == 32
  {
  }

  /** The regrouping loses nothing. */
  lemma FromToSymbols(data: seq<byte>)
    ensures FromSymbols(ToSymbols(data)) == Some(data)
  {
    hide Number, Pow2, BitsOf, Unpack, Pack;
    ToSymbolsBits(data, []);
    ToSymbolsBits(data, ToSymbols(data));
    UnpackLength(data, 8);
    var bits := Unpack(ToSymbols(data), 5);
    var n := 8 * |data|;
    assert |bits| / 8 * 8 == n;
    assert bits[..n] == Unpack(data, 8);
    assert bits[n..] == Falses(Padding(|data|));
    assert forall i :: 0 <= i < |data| ==> 0 <= data[i] < Pow2(8) by {
      Pow2Eight();
    }
    PackUnpack(data, 8);
  }

  lemma Pow2Eight()
    ensures Pow2(8) == 256
  {
  }

  /* ---------- As numbers ---------- */

  /** The number that digits spell in a base, most significant first. */
  function InBase(digits: seq<int>, base: int): int {
    if digits == [] then 0 else base * InBase(digits[..|digits| - 1], base) + digits[|digits| - 1]
  }

  lemma {:induction false} BytesInBase(b: seq<byte>)
    ensures InBase(b, 256) == BE(b)
  {
    if b != [] {
      BytesInBase(b[..|b| - 1]);
    }
  }

  lemma {:induction false} NumberAppend(a: seq<bool>, b: seq<bool>)
    ensures Number(a + b) == Number(a) * Pow2(|b|) + Number(b)
  {
    if b == [] {
      assert a + b == a;
    } else {
      var front := b[..|b| - 1];
      NumberAppend(a, front);
      assert (a + b)[..|a + b| - 1] == a + front;
      assert Number(a) * Pow2(|b|) == 2 * (Number(a) * Pow2(|front|));
    }
  }

  lemma {:induction false} NumberOfZeros(n: nat)
    ensures Number(Falses(n)) == 0
  {
    if n != 0 {
      NumberOfZeros(n - 1);
      assert Falses(n)[..n - 1] == Falses(n - 1);
    }
  }

  lemma Splits(xs: seq<int>, w: nat, base: int)
    requires xs != []
    ensures var front, last := xs[..|xs| - 1], xs[|xs| - 1];
            Unpack(xs, w) == Unpack(front, w) + BitsOf(last, w) && InBase(xs, base) == base * InBase(front, base) + last
  {
  }

  lemma NumberSnoc(bits: seq<bool>, last: int, w: nat)
    requires 0 <= last < Pow2(w)
    ensures Number(bits + BitsOf(last, w)) == Pow2(w) * Number(bits) + last
  {
    hide Number, BitsOf, Pow2;
    NumberOfBits(last, w);
    NumberAppend(bits, BitsOf(last, w));
  }

  lemma {:induction false} NumberOfUnpack(xs: seq<int>, w: nat)
    requires Width(w) && forall i :: 0 <= i < |xs| ==> 0 <= xs[i] < Pow2(w)
    ensures Number(Unpack(xs, w)) == InBase(xs, Pow2(w))
  {
    if xs != [] {
      hide Width, Number, Unpack, InBase, BitsOf, Pow2;
      var front, last := xs[..|xs| - 1], xs[|xs| - 1];
      NumberOfUnpack(front, w);
      NumberSnoc(Unpack(front, w), last, w);
      Splits(xs, w, Pow2(w));
    } else {
      assert Unpack(xs, w) == [];
    }
  }

  lemma SameBits(a: seq<bool>, b: seq<bool>)
    ensures a == b <==> |a| == |b| && Number(a) == Number(b)
  {
    hide Number, BitsOf, Pow2;
    BitsOfNumber(a);
    BitsOfNumber(b);
  }

  lemma SymbolsNumber(symbols: seq<int>)
    requires forall i :: 0 <= i < |symbols| ==> 0 <= symbols[i] < 32
    ensures |Unpack(symbols, 5)| == 5 * |symbols| && Number(Unpack(symbols, 5)) == InBase(symbols, 32)
  {
    Pow2Five();
    hide Pow2, Number, Unpack, InBase;
    UnpackLength(symbols, 5);
    NumberOfUnpack(symbols, 5);
  }

  lemma PaddedNumber(data: seq<byte>)
    ensures var bits, p := PaddedBits(data), Padding(|data|);
            |bits| == 8 * |data| + p && Number(bits) == BE(data) * Pow2(p)
  {
    Pow2Eight();
    hide Pow2, Number, Unpack, InBase, BE, Padding;
    UnpackLength(data, 8);
    NumberOfUnpack(data, 8);
    BytesInBase(data);
    NumberAppend(Unpack(data, 8), Falses(Padding(|data|)));
    NumberOfZeros(Padding(|data|));
  }

  lemma SymbolCount(n: nat, m: nat)
    ensures 5 * m == 8 * n + Padding(n) <==> m == (8 * n + 4) / 5
  {
  }

  /** The regrouping keeps the number: the symbols are the only ceil(8n/5) that spell, in base 32, the
      bytes' big-endian value followed by the padding. */
  lemma ToSymbolsWhen(data: seq<byte>, symbols: seq<int>)
    requires forall i :: 0 <= i < |symbols| ==> 0 <= symbols[i] < 32
    ensures symbols == ToSymbols(data) <==>
            |symbols| == (8 * |data| + 4) / 5 && InBase(symbols, 32) == BE(data) * Pow2(Padding(|data|))
  {
    hide Pow2, Number, Unpack, InBase, BE, PaddedBits, ToSymbols, Padding;
    ToSymbolsBits(data, symbols);
    SymbolCount(|data|, |symbols|);
    SymbolsNumber(symbols);
    PaddedNumber(data);
    SameBits(Unpack(symbols, 5), PaddedBits(data));
  }
}
