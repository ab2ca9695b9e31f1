/** The checksum polynomial of bech32 (section "Bech32", part "Checksum", of BIP-173).

    The register is 30 bits wide and each step is linear over GF(2), which is what makes checksum
    validity and burst detection theorems for words of every length. Xor has a name of its own so
    that algebraic proofs can hide its bits. */
module Polymod {

  type State = bv32

  /** One past the largest register value. */
  const STATE_LIMIT: State := 0x4000_0000

  function Xor(a: State, b: State): State { a ^ b }

  /* ---------- One step ---------- */

  function Gen(i: nat): State {
    if i == 0 then 0x3b6a57b2
    else if i == 1 then 0x26508e6d
    else if i == 2 then 0x1ea119fa
    else if i == 3 then 0x3d4233dd
    else 0x2a1462b3
  }

  predicate Bit(b: State, i: nat) {
    if i == 0 then b & 1 == 1
    else if i == 1 then (b >> 1) & 1 == 1
    else if i == 2 then (b >> 2) & 1 == 1
    else if i == 3 then (b >> 3) & 1 == 1
    else (b >> 4) & 1 == 1
  }

  function Select(bit: bool, g: State): State { if bit then g else 0 }

  /** What the first n of the five shifted-out bits feed back into the register. */
  function Feedback(b: State, n: nat): State {
    if n == 0 then 0 else Xor(Feedback(b, n - 1), Select(Bit(b, n - 1), Gen(n - 1)))
  }

  function Shifted(c: State, v: bv8): State { ((c & 0x1ff_ffff) << 5) ^ (v as State) }

  function Top(c: State): State { c >> 25 }

  function Step(c: State, v: bv8): State { Xor(Shifted(c, v), Feedback(Top(c), 5)) }

  /** The register after a word, started from c. */
  function Run(c: State, values: seq<bv8>): State
    decreases |values|
  {
    if values == [] then c else Run(Step(c, values[0]), values[1..])
  }

  function ZeroSymbols(n: nat): (z: seq<bv8>)
    ensures |z| == n
    ensures forall i :: 0 <= i < n ==> z[i] == 0
  {
    seq(n, i => 0)
  }

  predicate Symbols(values: seq<bv8>) {
    forall i :: 0 <= i < |values| ==> values[i] < 32
  }

  /** Five bits of a register value, counted from the top: `(x >> (5 * (5 - i))) & 0x1f`. */
  function Digit(x: State, i: nat): (d: bv8)
    ensures d < 32
  {
    var shifted :=
      if i == 0 then x >> 25 else if i == 1 then x >> 20 else if i == 2 then x >> 15
      else if i == 3 then x >> 10 else if i == 4 then x >> 5 else x;
    (shifted & 0x1f) as bv8
  }

  /** The checksum symbols that spell a register value, most significant first. */
  function Digits(x: State): (d: seq<bv8>)
    ensures |d| == 6 && Symbols(d)
  {
    [Digit(x, 0), Digit(x, 1), Digit(x, 2), Digit(x, 3), Digit(x, 4), Digit(x, 5)]
  }

  /* ---------- Bit-level facts ---------- */

  lemma XorLaws(a: State, b: State)
    ensures Xor(a, a) == 0 && Xor(a, 0) == a && Xor(0, a) == a
    ensures Xor(a, b) == Xor(b, a)
    ensures Xor(a, b) == 0 <==> a == b
  {
  }

  lemma XorAssociative(a: State, b: State, c: State)
    ensures Xor(Xor(a, b), c) == Xor(a, Xor(b, c))
  {
  }

  lemma XorShuffle(a: State, b: State, x: State, y: State)
    ensures Xor(Xor(a, b), Xor(x, y)) == Xor(Xor(a, x), Xor(b, y))
  {
    hide Xor;
    XorAssociative(a, b, Xor(x, y));
    XorAssociative(b, x, y);
    XorAssociative(x, b, y);
    XorAssociative(a, x, Xor(b, y));
    XorLaws(b, x);
  }

  lemma BitXor(b: State, d: State, i: nat)
    ensures Bit(Xor(b, d), i) <==> (Bit(b, i) != Bit(d, i))
  {
  }

  lemma SelectXor(p: bool, q: bool, g: State)
    ensures Select(p != q, g) == Xor(Select(p, g), Select(q, g))
  {
    hide Xor;
    XorLaws(g, 0);
    XorLaws(0, 0);
  }

  lemma ShiftedXor(c: State, d: State, v: bv8, w: bv8)
    ensures Shifted(Xor(c, d), v ^ w) == Xor(Shifted(c, v), Shifted(d, w))
  {
  }

  lemma TopXor(c: State, d: State)
    ensures Top(Xor(c, d)) == Xor(Top(c), Top(d))
  {
  }

  lemma {:induction false} FeedbackXor(b: State, d: State, n: nat)
    ensures Feedback(Xor(b, d), n) == Xor(Feedback(b, n), Feedback(d, n))
  {
    hide Bit, Select, Gen, Xor;
    if n == 0 {
      XorLaws(0, 0);
    } else {
      FeedbackXor(b, d, n - 1);
      BitXor(b, d, n - 1);
      SelectXor(Bit(b, n - 1), Bit(d, n - 1), Gen(n - 1));
      XorShuffle(Feedback(b, n - 1), Feedback(d, n - 1), Select(Bit(b, n - 1), Gen(n - 1)), Select(Bit(d, n - 1), Gen(n - 1)));
    }
  }

  /** The step is linear over GF(2). */
  lemma StepLinear(c: State, d: State, v: bv8, w: bv8)
    ensures Step(Xor(c, d), v ^ w) == Xor(Step(c, v), Step(d, w))
  {
    hide Feedback, Shifted, Top, Xor;
    ShiftedXor(c, d, v, w);
    TopXor(c, d);
    FeedbackXor(Top(c), Top(d), 5);
    XorShuffle(Shifted(c, v), Shifted(d, w), Feedback(Top(c), 5), Feedback(Top(d), 5));
  }

  lemma FeedbackUnrolled(b: State)
    ensures Feedback(b, 5) == Xor(Xor(Xor(Xor(Select(Bit(b, 0), Gen(0)), Select(Bit(b, 1), Gen(1))),
                              Select(Bit(b, 2), Gen(2))), Select(Bit(b, 3), Gen(3))), Select(Bit(b, 4), Gen(4)))
  {
    hide Bit, Select, Gen, Xor;
    XorLaws(Select(Bit(b, 0), Gen(0)), 0);
    assert Feedback(b, 1) == Select(Bit(b, 0), Gen(0));
    assert Feedback(b, 2) == Xor(Feedback(b, 1), Select(Bit(b, 1), Gen(1)));
    assert Feedback(b, 3) == Xor(Feedback(b, 2), Select(Bit(b, 2), Gen(2)));
    assert Feedback(b, 4) == Xor(Feedback(b, 3), Select(Bit(b, 3), Gen(3)));
  }

  lemma StepBound(c: State, v: bv8)
    requires c < STATE_LIMIT
    ensures Step(c, v) < STATE_LIMIT
  {
    FeedbackUnrolled(Top(c));
  }

  /** Feeding a zero symbol loses nothing: only the zero register becomes zero. */
  lemma ZeroStepInjective(c: State)
    requires c < STATE_LIMIT
    ensures Step(c, 0) == 0 <==> c == 0
  {
    FeedbackUnrolled(Top(c));
  }

  lemma Pack(a: bv8, b: bv8, c: bv8, d: bv8, e: bv8, f: bv8)
    requires a < 32 && b < 32 && c < 32 && d < 32 && e < 32 && f < 32
    ensures Step(Step(Step(Step(Step(Step(0, a), b), c), d), e), f)
         == ((a as State) << 25) | ((b as State) << 20) | ((c as State) << 15) | ((d as State) << 10) | ((e as State) << 5) | (f as State)
  {
  }

  lemma DigitsSpell(x: State)
    requires x < STATE_LIMIT
    ensures var d := Digits(x);
            x == ((d[0] as State) << 25) | ((d[1] as State) << 20) | ((d[2] as State) << 15)
                 | ((d[3] as State) << 10) | ((d[4] as State) << 5) | (d[5] as State)
  {
  }

  lemma RunCons(c: State, v: bv8, rest: seq<bv8>)
    ensures Run(c, [v] + rest) == Run(Step(c, v), rest)
  {
    hide Step;
    assert ([v] + rest)[1..] == rest;
  }

  lemma RunSix(c: State, d: seq<bv8>)
    requires |d| == 6
    ensures Run(c, d) == Step(Step(Step(Step(Step(Step(c, d[0]), d[1]), d[2]), d[3]), d[4]), d[5])
  {
    hide Step, Run;
    var c1 := Step(c, d[0]);
    var c2 := Step(c1, d[1]);
    var c3 := Step(c2, d[2]);
    var c4 := Step(c3, d[3]);
    var c5 := Step(c4, d[4]);
    var t5: seq<bv8> := [d[5]] + [];
    var t4 := [d[4]] + t5;
    var t3 := [d[3]] + t4;
    var t2 := [d[2]] + t3;
    var t1 := [d[1]] + t2;
    assert d == [d[0]] + t1;
    RunCons(c, d[0], t1); RunCons(c1, d[1], t2); RunCons(c2, d[2], t3); RunCons(c3, d[3], t4); RunCons(c4, d[4], t5);
    RunCons(c5, d[5], []);
    RunEmpty(Step(c5, d[5]), []);
  }

  lemma RunEmpty(c: State, d: seq<bv8>)
    requires d == []
    ensures Run(c, d) == c
  {
  }

  /** Six symbols fed into the zero register are simply packed into it. */
  lemma RunDigits(x: State)
    requires x < STATE_LIMIT
    ensures Run(0, Digits(x)) == x
  {
    hide Step, Digits;
    var d := Digits(x);
    RunSix(0, d);
    Pack(d[0], d[1], d[2], d[3], d[4], d[5]);
    DigitsSpell(x);
  }

  /* ---------- Runs ---------- */

  function XorAll(a: seq<bv8>, b: seq<bv8>): (r: seq<bv8>)
    requires |a| == |b|
    ensures |r| == |a|
    ensures forall i :: 0 <= i < |a| ==> r[i] == a[i] ^ b[i]
  {
    seq(|a|, i requires 0 <= i < |a| => a[i] ^ b[i])
  }

  lemma {:induction false} RunBound(c: State, values: seq<bv8>)
    requires c < STATE_LIMIT
    ensures Run(c, values) < STATE_LIMIT
    decreases |values|
  {
    hide Step;
    if values != [] {
      StepBound(c, values[0]);
      RunBound(Step(c, values[0]), values[1..]);
    }
  }

  lemma {:induction false} RunAppend(c: State, a: seq<bv8>, b: seq<bv8>)
    ensures Run(c, a + b) == Run(Run(c, a), b)
    decreases |a|
  {
    hide Step;
    if a == [] {
      assert a + b == b;
    } else {
      assert (a + b)[1..] == a[1..] + b;
      RunAppend(Step(c, a[0]), a[1..], b);
    }
  }

  /** Linearity of whole runs. */
  lemma {:induction false} RunLinear(c: State, d: State, a: seq<bv8>, b: seq<bv8>)
    requires |a| == |b|
    ensures Run(Xor(c, d), XorAll(a, b)) == Xor(Run(c, a), Run(d, b))
    decreases |a|
  {
    hide Step, Xor;
    if a != [] {
      StepLinear(c, d, a[0], b[0]);
      RunLinear(Step(c, a[0]), Step(d, b[0]), a[1..], b[1..]);
      assert XorAll(a, b)[1..] == XorAll(a[1..], b[1..]);
    }
  }

  /** Zero symbols never bring a nonzero register to zero. */
  lemma {:induction false} ZerosInjective(c: State, n: nat)
    requires c < STATE_LIMIT
    ensures Run(c, ZeroSymbols(n)) == 0 <==> c == 0
    decreases n
  {
    hide Step;
    if n != 0 {
      assert ZeroSymbols(n)[1..] == ZeroSymbols(n - 1);
      StepBound(c, 0);
      ZeroStepInjective(c);
      ZerosInjective(Step(c, 0), n - 1);
    }
  }

  /** One past the largest register that k symbols can have filled. */
  function Filled(k: nat): State {
    if k == 0 then 1 else if k == 1 then 0x20 else if k == 2 then 0x400 else if k == 3 then 0x8000
    else if k == 4 then 0x10_0000 else if k == 5 then 0x200_0000 else 0x4000_0000
  }

  lemma FillStep(c: State, v: bv8, k: nat)
    requires k < 6 && c < Filled(k) && v < 32
    ensures Step(c, v) < Filled(k + 1)
    ensures Step(c, v) == 0 <==> c == 0 && v == 0
  {
    FeedbackUnrolled(Top(c));
  }

  /** Up to six symbols, not all zero, leave a nonzero register. */
  lemma {:induction false} ShortNonzero(c: State, e: seq<bv8>, k: nat)
    requires c < Filled(k) && k + |e| <= 6 && Symbols(e)
    requires c != 0 || exists i :: 0 <= i < |e| && e[i] != 0
    ensures 0 != Run(c, e) < STATE_LIMIT
    decreases |e|
  {
    hide Step;
    if e != [] {
      FillStep(c, e[0], k);
      if c == 0 && e[0] == 0 {
        var i :| 0 <= i < |e| && e[i] != 0;
        assert e[1..][i - 1] != 0;
      }
      ShortNonzero(Step(c, e[0]), e[1..], k + 1);
    }
  }

  lemma SymbolXor(a: bv8, b: bv8)
    requires a < 32 && b < 32
    ensures a ^ b < 32
    ensures a ^ b == 0 <==> a == b
  {
  }

  /* ---------- Main results ---------- */

  /** Any change confined to six consecutive symbols changes the register at the end of the word,
      wherever the change is and whatever comes before and after it. */
  lemma BurstChangesRun(c: State, before: seq<bv8>, a: seq<bv8>, b: seq<bv8>, after: seq<bv8>)
    requires c < STATE_LIMIT
    requires |a| == |b| <= 6 && Symbols(a) && Symbols(b) && a != b
    ensures Run(c, before + a + after) != Run(c, before + b + after)
  {
    hide Step, Xor, Run;
    var start := Run(c, before);
    RunBound(c, before);
    var e := XorAll(a, b);
    var i :| 0 <= i < |a| && a[i] != b[i];
    forall j | 0 <= j < |e| ensures e[j] < 32 && (e[j] == 0 <==> a[j] == b[j]) {
      SymbolXor(a[j], b[j]);
    }
    assert e[i] != 0;
    ShortNonzero(0, e, 0);
    RunLinear(start, start, a, b);
    XorLaws(start, start);
    var ra, rb := Run(start, a), Run(start, b);
    XorLaws(ra, rb);
    assert Xor(ra, rb) == Run(0, e);
    RunLinear(ra, rb, after, after);
    assert XorAll(after, after) == ZeroSymbols(|after|) by {
      forall j | 0 <= j < |after| ensures after[j] ^ after[j] == 0 {}
    }
    ZerosInjective(Xor(ra, rb), |after|);
    XorLaws(Run(ra, after), Run(rb, after));
    RunAppend(c, before, a); RunAppend(c, before + a, after);
    RunAppend(c, before, b); RunAppend(c, before + b, after);
  }

  /** The checksum of a word: what six zero symbols lead to, differing from one. */
  function Checksum(values: seq<bv8>): (d: seq<bv8>)
    ensures |d| == 6 && Symbols(d)
  {
    Digits(Xor(Run(1, values + ZeroSymbols(6)), 1))
  }

  /** A word verifies when its register ends at one. */
  predicate Verifies(values: seq<bv8>) {
    Run(1, values) == 1
  }

  /** Appending the checksum makes a word verify, and no other six symbols do. */
  lemma ChecksumVerifies(values: seq<bv8>, d: seq<bv8>)
    requires |d| == 6 && Symbols(d)
    ensures Verifies(values + d) <==> d == Checksum(values)
  {
    hide Step, Xor, Run, Digits;
    var start, right := Run(1, values), Checksum(values);
    RunBound(1, values);
    RunAppend(1, values, ZeroSymbols(6));
    RunAppend(1, values, right);
    RunAppend(1, values, d);
    var r := Run(start, ZeroSymbols(6));
    RunBound(start, ZeroSymbols(6));
    XorBound(r);
    RunDigits(Xor(r, 1));
    RunLinear(start, 0, ZeroSymbols(6), right);
    XorLaws(start, 0);
    assert XorAll(ZeroSymbols(6), right) == right;
    XorAssociative(r, r, 1);
    XorLaws(r, 1);
    XorLaws(1, 0);
    assert Verifies(values + right);
    if d != right {
      BurstChangesRun(1, values, d, right, []);
      assert values + d + [] == values + d && values + right + [] == values + right;
    }
  }

  lemma XorBound(c: State)
    requires c < STATE_LIMIT
    ensures Xor(c, 1) < STATE_LIMIT
  {
  }
}
