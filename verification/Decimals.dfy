/** Decimal digit strings and their values. */
module Decimals {

  predicate IsDigit(c: char) { '0' <= c <= '9' }

  predicate AllDigits(s: string) {
    forall i :: 0 <= i < |s| ==> IsDigit(s[i])
  }

  function Digit(d: nat): (c: char)
    requires d < 10
    ensures IsDigit(c) && DigitValue(c) == d
  {
    ('0' as int + d) as char
  }

  function DigitValue(c: char): (d: nat)
    requires IsDigit(c)
    ensures d < 10
  {
    c as int - '0' as int
  }

  function Pow10(n: nat): (p: nat)
    ensures p > 0
  {
    if n == 0 then 1 else 10 * Pow10(n - 1)
  }

  function Value(s: string): nat
    requires AllDigits(s)
  {
    if s == [] then 0 else 10 * Value(s[..|s| - 1]) + DigitValue(s[|s| - 1])
  }

  /** fmt %d */
  function Decimal(n: nat): (s: string)
    ensures s != [] && AllDigits(s)
  {
    if n < 10 then [Digit(n)] else Decimal(n / 10) + [Digit(n % 10)]
  }

  /** The last k digits of n, with leading zeros. */
  function Padded(n: nat, k: nat): (s: string)
    ensures |s| == k && AllDigits(s)
    decreases k
  {
    if k == 0 then [] else Padded(n / 10, k - 1) + [Digit(n % 10)]
  }

  /** What is left of n without its last k digits. */
  function Leading(n: nat, k: nat): nat {
    if k == 0 then n else Leading(n / 10, k - 1)
  }

  lemma {:induction false} DecimalValue(n: nat)
    ensures Value(Decimal(n)) == n
  {
    var s := Decimal(n);
    if n < 10 {
      assert s[..|s| - 1] == [];
    } else {
      DecimalValue(n / 10);
      assert s[..|s| - 1] == Decimal(n / 10);
    }
  }

  lemma DecimalInjective(m: nat, n: nat)
    requires Decimal(m) == Decimal(n)
    ensures m == n
  {
    DecimalValue(m);
    DecimalValue(n);
  }

  /** A number is its leading digits and its last k digits. */
  lemma {:induction false} LeadingAndPadded(n: nat, k: nat)
    ensures Leading(n, k) * Pow10(k) + Value(Padded(n, k)) == n
    decreases k
  {
    if k != 0 {
      LeadingAndPadded(n / 10, k - 1);
      assert Padded(n, k)[..k - 1] == Padded(n / 10, k - 1);
      TimesTen(Leading(n, k), Pow10(k - 1), Value(Padded(n / 10, k - 1)), n % 10);
    }
  }

  lemma {:induction false} ValueAppend(w: string, f: string)
    requires AllDigits(w) && AllDigits(f)
    ensures Value(w + f) == Value(w) * Pow10(|f|) + Value(f)
    decreases |f|
  {
    var s := w + f;
    if f == [] {
      assert s == w;
    } else {
      var init := f[..|f| - 1];
      ValueAppend(w, init);
      assert s[..|s| - 1] == w + init;
      assert Value(s) == 10 * Value(w + init) + DigitValue(f[|f| - 1]);
      TimesTen(Value(w), Pow10(|init|), Value(init), DigitValue(f[|f| - 1]));
      assert Pow10(|f|) == 10 * Pow10(|init|);
    }
  }

  lemma TimesTen(w: int, p: int, v: int, d: int)
    ensures 10 * (w * p + v) + d == w * (10 * p) + (10 * v + d)
  {
  }

  lemma {:induction false} Pow10Add(a: nat, b: nat)
    ensures Pow10(a + b) == Pow10(a) * Pow10(b)
  {
    if a != 0 {
      Pow10Add(a - 1, b);
      assert Pow10(a + b) == 10 * Pow10(a - 1 + b);
    }
  }
}
