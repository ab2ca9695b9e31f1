/** What the bech32 checksum computes (BIP-173): the register is the remainder of the word, read as a
    polynomial over GF(32), modulo the code's generator
    x^6 + {29}x^5 + {22}x^4 + {20}x^3 + {21}x^2 + {29}x + {18}. */
module Remainder {
  import opened Bytes
  import opened Polymod
  import opened Bech32

  /* ---------- The field with 32 elements ---------- */

  function Plus(a: bv8, b: bv8): bv8 { a ^ b }

  /** Multiplication by a, where a^5 = a^3 + 1. */
  function TimesA(y: bv8): bv8 {
    if y & 0x10 != 0 then ((y & 0x0f) << 1) ^ 0x09 else (y & 0x0f) << 1
  }

  /** y times a to the i. */
  function TimesPower(y: bv8, i: nat): bv8 {
    if i == 0 then y else TimesA(TimesPower(y, i - 1))
  }

  /** The coefficient of a to the i in x. */
  predicate Coefficient(x: bv8, i: nat) {
    if i == 0 then x & 1 == 1
    else if i == 1 then (x >> 1) & 1 == 1
    else if i == 2 then (x >> 2) & 1 == 1
    else if i == 3 then (x >> 3) & 1 == 1
    else (x >> 4) & 1 == 1
  }

  /** The product of y and the lowest n coefficients of x. */
  function MulLow(x: bv8, y: bv8, n: nat): bv8 {
    if n == 0 then 0 else Plus(MulLow(x, y, n - 1), Part(x, y, n - 1))
  }

  function Part(x: bv8, y: bv8, i: nat): bv8 { if Coefficient(x, i) then TimesPower(y, i) else 0 }

  function Mul(x: bv8, y: bv8): bv8 { MulLow(x, y, 5) }

  /** The generator's coefficients below the leading one. */
  const GENERATOR: seq<bv8> := [29, 22, 20, 21, 29, 18]

  /* ---------- One step ---------- */

  function Down20(x: State): State { x >> 20 }

  function Down15(x: State): State { x >> 15 }

  function Down10(x: State): State { x >> 10 }

  function Down5(x: State): State { x >> 5 }

  function Down(x: State, k: nat): State {
    if k == 0 then Top(x) else if k == 1 then Down20(x) else if k == 2 then Down15(x)
    else if k == 3 then Down10(x) else if k == 4 then Down5(x) else x
  }

  function LowFive(x: State): bv8 { (x & 0x1f) as bv8 }

  lemma DigitIs(x: State, k: nat)
    ensures Digit(x, k) == LowFive(Down(x, k))
  {
    if k == 0 {
    } else if k == 1 {
    } else if k == 2 {
    } else if k == 3 {
    } else if k == 4 {
    } else {
    }
  }

  lemma Down20Xor(a: State, b: State)
    ensures Down20(Xor(a, b)) == Xor(Down20(a), Down20(b))
  {
  }

  lemma Down15Xor(a: State, b: State)
    ensures Down15(Xor(a, b)) == Xor(Down15(a), Down15(b))
  {
  }

  lemma Down10Xor(a: State, b: State)
    ensures Down10(Xor(a, b)) == Xor(Down10(a), Down10(b))
  {
  }

  lemma Down5Xor(a: State, b: State)
    ensures Down5(Xor(a, b)) == Xor(Down5(a), Down5(b))
  {
  }

  lemma DownXor(a: State, b: State, k: nat)
    ensures Down(Xor(a, b), k) == Xor(Down(a, k), Down(b, k))
  {
    hide Xor, Top, Down20, Down15, Down10, Down5;
    TopXor(a, b);
    Down20Xor(a, b);
    Down15Xor(a, b);
    Down10Xor(a, b);
    Down5Xor(a, b);
  }

  lemma LowFiveXor(a: State, b: State)
    ensures LowFive(Xor(a, b)) == Plus(LowFive(a), LowFive(b))
  {
  }

  lemma DigitXor(a: State, b: State, k: nat)
    ensures Digit(Xor(a, b), k) == Plus(Digit(a, k), Digit(b, k))
  {
    hide Digit, Xor, Plus, Down, LowFive;
    DigitIs(Xor(a, b), k);
    DigitIs(a, k);
    DigitIs(b, k);
    DownXor(a, b, k);
    LowFiveXor(Down(a, k), Down(b, k));
  }

  lemma DigitOfZero(k: nat)
    ensures Digit(0, k) == 0
  {
  }

  /** The five constants are the generator times the powers of a. */
  lemma GenIsGenerator(i: nat, k: nat)
    requires i < 5 && k < 6
    ensures Digit(Gen(i), k) == TimesPower(GENERATOR[k], i)
  {
    var g := GENERATOR[k];
    var g1 := TimesA(g);
    var g2 := TimesA(g1);
    var g3 := TimesA(g2);
    var g4 := TimesA(g3);
    assert TimesPower(g, 0) == g && TimesPower(g, 1) == g1;
    assert TimesPower(g, 2) == g2 && TimesPower(g, 3) == g3 && TimesPower(g, 4) == g4;
  }

  lemma TopCoefficient(c: State, i: nat)
    requires c < STATE_LIMIT && i < 5
    ensures Bit(Top(c), i) <==> Coefficient(Digit(c, 0), i)
  {
  }

  lemma {:induction false} FeedbackDigit(c: State, k: nat, n: nat)
    requires c < STATE_LIMIT && k < 6 && n <= 5
    ensures Digit(Feedback(Top(c), n), k) == MulLow(Digit(c, 0), GENERATOR[k], n)
  {
    hide Digit, Gen, Bit, Coefficient, Xor, Plus, TimesPower, Top;
    DigitOfZero(k);
    if n != 0 {
      FeedbackDigit(c, k, n - 1);
      TopCoefficient(c, n - 1);
      GenIsGenerator(n - 1, k);
      DigitXor(Feedback(Top(c), n - 1), Select(Bit(Top(c), n - 1), Gen(n - 1)), k);
    }
  }

  lemma ShiftedDigit(c: State, v: bv8, k: nat)
    requires v < 32 && k < 6
    ensures Digit(Shifted(c, v), k) == if k < 5 then Digit(c, k + 1) else v
  {
    hide Digit, Shifted, Down, LowFive;
    DigitIs(Shifted(c, v), k);
    if k < 5 {
      DigitIs(c, k + 1);
      DownShifted(c, v, k);
    } else {
      LastDigit(c, v);
    }
  }

  lemma TopShifted(c: State, v: bv8)
    requires v < 32
    ensures LowFive(Top(Shifted(c, v))) == LowFive(Down20(c))
  {
  }

  lemma Down20Shifted(c: State, v: bv8)
    requires v < 32
    ensures LowFive(Down20(Shifted(c, v))) == LowFive(Down15(c))
  {
  }

  lemma Down15Shifted(c: State, v: bv8)
    requires v < 32
    ensures LowFive(Down15(Shifted(c, v))) == LowFive(Down10(c))
  {
  }

  lemma Down10Shifted(c: State, v: bv8)
    requires v < 32
    ensures LowFive(Down10(Shifted(c, v))) == LowFive(Down5(c))
  {
  }

  lemma Down5Shifted(c: State, v: bv8)
    requires v < 32
    ensures LowFive(Down5(Shifted(c, v))) == LowFive(c)
  {
  }

  lemma DownShifted(c: State, v: bv8, k: nat)
    requires v < 32 && k < 5
    ensures LowFive(Down(Shifted(c, v), k)) == LowFive(Down(c, k + 1))
  {
    hide LowFive, Shifted, Top, Down20, Down15, Down10, Down5;
    TopShifted(c, v);
    Down20Shifted(c, v);
    Down15Shifted(c, v);
    Down10Shifted(c, v);
    Down5Shifted(c, v);
  }

  lemma LastDigit(c: State, v: bv8)
    requires v < 32
    ensures LowFive(Down(Shifted(c, v), 5)) == v
  {
  }

  /** One step multiplies by x, adds the symbol and subtracts the multiple of the generator that cancels
      the leading digit. */
  lemma StepDigit(c: State, v: bv8, k: nat)
    requires c < STATE_LIMIT && v < 32 && k < 6
    ensures Digit(Step(c, v), k) == Plus(if k < 5 then Digit(c, k + 1) else v, Mul(Digit(c, 0), GENERATOR[k]))
  {
    hide Digit, Shifted, Feedback, Xor, Plus, Top;
    ShiftedDigit(c, v, k);
    FeedbackDigit(c, k, 5);
    DigitXor(Shifted(c, v), Feedback(Top(c), 5), k);
  }

  /* ---------- Polynomials ---------- */

  /** Coefficientwise sum of polynomials of one length, leading coefficient first. */
  function Sum(p: seq<bv8>, q: seq<bv8>): (r: seq<bv8>)
    requires |p| == |q|
    ensures |r| == |p|
    ensures forall i :: 0 <= i < |p| ==> r[i] == Plus(p[i], q[i])
  {
    seq(|p|, i requires 0 <= i < |p| => Plus(p[i], q[i]))
  }

  /** The generator times one coefficient. */
  function Scaled(x: bv8): (p: seq<bv8>)
    ensures |p| == 7 && p[0] == x
    ensures forall k :: 0 <= k < 6 ==> p[k + 1] == Mul(x, GENERATOR[k])
  {
    [x] + seq(6, k requires 0 <= k < 6 => Mul(x, GENERATOR[k]))
  }

  /** The generator times a quotient of |q| coefficients. */
  function Multiple(q: seq<bv8>): (p: seq<bv8>)
    ensures |p| == |q| + 6
    decreases |q|
  {
    if q == [] then ZeroSymbols(6)
    else Sum(Scaled(q[0]) + ZeroSymbols(|q| - 1), [0] + Multiple(q[1..]))
  }

  /** word is quotient times generator plus r. */
  predicate DividesInto(word: seq<bv8>, q: seq<bv8>, r: seq<bv8>) {
    |r| == 6 && |word| == |q| + 6 && word == Sum(Multiple(q), ZeroSymbols(|q|) + r)
  }

  lemma PlusLaws(a: bv8, b: bv8, c: bv8)
    ensures Plus(Plus(a, b), c) == Plus(a, Plus(b, c)) && Plus(a, 0) == a && Plus(0, a) == a
    ensures Plus(a, b) == Plus(b, a) && Plus(a, a) == 0
  {
  }

  /** Digits and next symbol, as the scaled generator plus the next digits. */
  lemma StepDivides(c: State, v: bv8, k: nat)
    requires c < STATE_LIMIT && v < 32 && k < 7
    ensures (Digits(c) + [v])[k] == Plus(Scaled(Digit(c, 0))[k], ([0] + Digits(Step(c, v)))[k])
  {
    hide Digit, Step, Plus, Mul;
    PlusLaws(Digit(c, 0), 0, 0);
    if k > 0 {
      var next, m := if k < 6 then Digit(c, k) else v, Mul(Digit(c, 0), GENERATOR[k - 1]);
      StepDigit(c, v, k - 1);
      PlusLaws(next, m, m);
      PlusLaws(m, Plus(next, m), 0);
    }
  }

  /** Feeding a word into a register leaves the remainder of both, the register's digits first. */
  lemma {:induction false} RunDivides(c: State, values: seq<bv8>) returns (q: seq<bv8>)
    requires c < STATE_LIMIT && Symbols(values)
    ensures |q| == |values| && DividesInto(Digits(c) + values, q, Digits(Run(c, values)))
    decreases |values|
  {
    hide Digit, Step, Plus, Mul, Digits, Scaled, Multiple;
    if values == [] {
      q := [];
      NothingToDivide(Digits(c));
      assert Digits(c) + values == Digits(c);
    } else {
      var next := Step(c, values[0]);
      StepBound(c, values[0]);
      var rest := RunDivides(next, values[1..]);
      q := [Digit(c, 0)] + rest;
      OneMoreStep(c, values, rest);
    }
  }

  lemma NothingToDivide(r: seq<bv8>)
    requires |r| == 6
    ensures DividesInto(r, [], r)
  {
    hide Plus;
    forall i | 0 <= i < 6 ensures Plus(0, r[i]) == r[i] {
      PlusLaws(r[i], 0, 0);
    }
    assert ZeroSymbols(0) + r == r;
  }

  lemma OneMoreStep(c: State, values: seq<bv8>, rest: seq<bv8>)
    requires c < STATE_LIMIT && Symbols(values) && values != []
    requires DividesInto(Digits(Step(c, values[0])) + values[1..], rest, Digits(Run(c, values)))
    ensures DividesInto(Digits(c) + values, [Digit(c, 0)] + rest, Digits(Run(c, values)))
  {
    hide Digit, Step, Plus, Mul, Digits, Scaled, Run;
    var n, d, r := |rest|, Digit(c, 0), Digits(Run(c, values));
    var q, word := [d] + rest, Digits(c) + values;
    assert q[1..] == rest;
    var lead, tail := Scaled(d) + ZeroSymbols(n), [0] + Multiple(rest);
    assert Multiple(q) == Sum(lead, tail);
    var next := Digits(Step(c, values[0])) + values[1..];
    forall i | 0 <= i < n + 7 ensures word[i] == Sum(Multiple(q), ZeroSymbols(n + 1) + r)[i] {
      var x := (ZeroSymbols(n + 1) + r)[i];
      PlusLaws(lead[i], tail[i], x);
      if i > 0 {
        assert next[i - 1] == Plus(Multiple(rest)[i - 1], (ZeroSymbols(n) + r)[i - 1]);
        assert x == (ZeroSymbols(n) + r)[i - 1];
      } else {
        PlusLaws(0, 0, 0);
      }
      if i < 7 {
        StepDivides(c, values[0], i);
      } else {
        PlusLaws(next[i - 1], 0, 0);
      }
    }
  }

  /* ---------- The remainder is unique ---------- */

  /** What is left of a word once the multiple of the generator that cancels its head is taken away. */
  function Peeled(word: seq<bv8>): (rest: seq<bv8>)
    requires |word| >= 7
    ensures |rest| == |word| - 1
  {
    Sum(word, Scaled(word[0]) + ZeroSymbols(|word| - 7))[1..]
  }

  lemma QuotientHead(word: seq<bv8>, q: seq<bv8>, r: seq<bv8>)
    requires DividesInto(word, q, r) && q != []
    ensures q[0] == word[0] && DividesInto(Peeled(word), q[1..], r)
  {
    hide Plus, Mul, Scaled;
    var n := |q| - 1;
    var lead, tail, end := Scaled(q[0]) + ZeroSymbols(n), [0] + Multiple(q[1..]), ZeroSymbols(n + 1) + r;
    assert Multiple(q) == Sum(lead, tail);
    PlusLaws(q[0], 0, 0);
    forall i | 0 <= i < n + 6 ensures Peeled(word)[i] == Sum(Multiple(q[1..]), ZeroSymbols(n) + r)[i] {
      var a, b, c := lead[i + 1], tail[i + 1], end[i + 1];
      assert b == Multiple(q[1..])[i] && c == (ZeroSymbols(n) + r)[i];
      CancelPlus(a, b, c);
    }
  }

  lemma CancelPlus(a: bv8, b: bv8, c: bv8)
    ensures Plus(Plus(Plus(a, b), c), a) == Plus(b, c)
  {
  }

  lemma {:induction false} RemainderUnique(word: seq<bv8>, q1: seq<bv8>, r1: seq<bv8>, q2: seq<bv8>, r2: seq<bv8>)
    requires DividesInto(word, q1, r1) && DividesInto(word, q2, r2)
    ensures q1 == q2 && r1 == r2
    decreases |q1|
  {
    hide Plus, Mul, Scaled, Peeled;
    if q1 == [] {
      RemainderOfShort(word, r1);
      RemainderOfShort(word, r2);
    } else {
      hide Multiple, DividesInto;
      QuotientHead(word, q1, r1);
      QuotientHead(word, q2, r2);
      RemainderUnique(Peeled(word), q1[1..], r1, q2[1..], r2);
      assert q1 == [q1[0]] + q1[1..] && q2 == [q2[0]] + q2[1..];
    }
  }

  lemma RemainderOfShort(word: seq<bv8>, r: seq<bv8>)
    requires DividesInto(word, [], r)
    ensures word == r
  {
    NothingToDivide(r);
  }

  /* ---------- Main results ---------- */

  /** The register after a word is the remainder of start and word modulo the generator, and nothing else
      is. */
  lemma RegisterIsRemainder(c: State, values: seq<bv8>, r: seq<bv8>)
    requires c < STATE_LIMIT && Symbols(values)
    ensures r == Digits(Run(c, values)) <==> exists q :: DividesInto(Digits(c) + values, q, r)
  {
    hide DividesInto, Run, Digits;
    var q := RunDivides(c, values);
    if q' :| DividesInto(Digits(c) + values, q', r) {
      RemainderUnique(Digits(c) + values, q, Digits(Run(c, values)), q', r);
    }
  }

  const ONE: seq<bv8> := [0, 0, 0, 0, 0, 1]

  lemma DigitsOfOne()
    ensures Digits(1) == ONE
  {
  }

  lemma DigitsDiffer(x: State, y: State)
    requires x < STATE_LIMIT && y < STATE_LIMIT && Digits(x) == Digits(y)
    ensures x == y
  {
    hide Digits;
    DigitsSpell(x);
    DigitsSpell(y);
  }

  /** A word verifies when, with a one in front, it leaves the remainder one. */
  lemma VerifiesWhen(values: seq<bv8>)
    requires Symbols(values)
    ensures Verifies(values) <==> exists q :: DividesInto(ONE + values, q, ONE)
  {
    hide DividesInto, Run, Digits;
    DigitsOfOne();
    RegisterIsRemainder(1, values, ONE);
    RunBound(1, values);
    if Digits(Run(1, values)) == ONE {
      DigitsDiffer(Run(1, values), 1);
    }
  }

  /** The checksum is the six symbols, and the only six, that give a word this remainder. */
  lemma ChecksumWhen(values: seq<bv8>, d: seq<bv8>)
    requires Symbols(values) && |d| == 6 && Symbols(d)
    ensures d == Checksum(values) <==> exists q :: DividesInto(ONE + (values + d), q, ONE)
  {
    hide DividesInto, Run, Checksum, Verifies;
    ChecksumVerifies(values, d);
    VerifiesWhen(values + d);
  }

  /** Every encoded string carries a codeword: with a one in front, prefix and symbols leave remainder one. */
  lemma EncodedIsCodeword(hrp: string, data: seq<byte>) returns (q: seq<bv8>)
    requires Ascii(hrp)
    ensures var word := DataValues(data) + Checksum(ExpandHRP(hrp) + DataValues(data));
            Encode(hrp, data) == hrp + "1" + Chars(word) && DividesInto(ONE + (ExpandHRP(hrp) + word), q, ONE)
  {
    hide DividesInto, Run, Checksum, Verifies, ExpandHRP, Chars, DataValues;
    EncodedSymbols(hrp);
    var word := DataValues(data) + Checksum(ExpandHRP(hrp) + DataValues(data));
    EmittedVerifies(ExpandHRP(hrp), DataValues(data));
    AppendSymbols(ExpandHRP(hrp), word);
    VerifiesWhen(ExpandHRP(hrp) + word);
    q :| DividesInto(ONE + (ExpandHRP(hrp) + word), q, ONE);
  }

  lemma EncodedSymbols(hrp: string)
    requires Ascii(hrp)
    ensures Symbols(ExpandHRP(hrp))
  {
    var x := ExpandHRP(hrp);
    forall i | 0 <= i < |hrp| ensures High(hrp[i]) < 32 && Low(hrp[i]) < 32 {
      SmallParts(hrp[i]);
    }
  }

  lemma SmallParts(c: char)
    requires c as int < 128
    ensures High(c) < 32 && Low(c) < 32
  {
    assert High(c) as int == c as int / 32 && Low(c) as int == c as int % 32;
  }

  lemma AppendSymbols(a: seq<bv8>, b: seq<bv8>)
    requires Symbols(a) && Symbols(b)
    ensures Symbols(a + b)
  {
  }

  /* ---------- The field ---------- */

  lemma Unrolled(x: bv8, y: bv8)
    ensures Mul(x, y) == Plus(Plus(Plus(Plus(Part(x, y, 0), Part(x, y, 1)), Part(x, y, 2)), Part(x, y, 3)), Part(x, y, 4))
  {
    hide Part, Plus;
    PlusLaws(Part(x, y, 0), 0, 0);
    assert MulLow(x, y, 1) == Part(x, y, 0);
    assert MulLow(x, y, 2) == Plus(MulLow(x, y, 1), Part(x, y, 1));
    assert MulLow(x, y, 3) == Plus(MulLow(x, y, 2), Part(x, y, 2));
    assert MulLow(x, y, 4) == Plus(MulLow(x, y, 3), Part(x, y, 3));
  }

  lemma Powers(y: bv8)
    ensures TimesPower(y, 0) == y && TimesPower(y, 1) == TimesA(y) && TimesPower(y, 2) == TimesA(TimesA(y))
    ensures TimesPower(y, 3) == TimesA(TimesA(TimesA(y))) && TimesPower(y, 4) == TimesA(TimesA(TimesA(TimesA(y))))
  {
    hide TimesA;
    assert TimesPower(y, 1) == TimesA(TimesPower(y, 0));
    assert TimesPower(y, 2) == TimesA(TimesPower(y, 1));
    assert TimesPower(y, 3) == TimesA(TimesPower(y, 2));
  }

  lemma MulUnit(x: bv8)
    requires x < 32
    ensures Mul(x, 1) == x == Mul(1, x)
  {
    hide Mul, TimesPower;
    Unrolled(x, 1);
    Unrolled(1, x);
    Powers(1);
    Powers(x);
  }

  lemma MulCommutes(x: bv8, y: bv8)
    requires x < 32 && y < 32
    ensures Mul(x, y) == Mul(y, x) && Mul(x, y) < 32
  {
    hide Mul, TimesPower;
    Unrolled(x, y);
    Unrolled(y, x);
    Powers(x);
    Powers(y);
  }
}
