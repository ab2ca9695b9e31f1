/** Byte strings and their big-endian value. Bytes are integers below 256, so that lengths, tags
    and big integers can be computed with without conversions. */
module Bytes {

  type byte = x: int | 0 <= x < 256

  function Pow256(n: nat): (p: nat)
    ensures p > 0
  {
    if n == 0 then 1 else 256 * Pow256(n - 1)
  }

  /** The unsigned big-endian value, what big.Int.SetBytes reads. */
  function BE(b: seq<byte>): nat {
    if b == [] then 0 else 256 * BE(b[..|b| - 1]) + b[|b| - 1]
  }

  /** The shortest big-endian form, what big.Int.Bytes writes: zero is the empty string. */
  function MinBytes(n: nat): seq<byte> {
    if n == 0 then [] else MinBytes(n / 256) + [n % 256]
  }

  predicate NoLeadingZero(b: seq<byte>) {
    b == [] || b[0] != 0
  }

  function Zeros(n: nat): (z: seq<byte>)
    ensures |z| == n
    ensures forall i :: 0 <= i < n ==> z[i] == 0
  {
    seq(n, i => 0)
  }

  lemma {:induction false} MinBytesValue(n: nat)
    ensures BE(MinBytes(n)) == n
    ensures NoLeadingZero(MinBytes(n))
    ensures MinBytes(n) == [] <==> n == 0
  {
    if n != 0 {
      MinBytesValue(n / 256);
      assert MinBytes(n)[..|MinBytes(n)| - 1] == MinBytes(n / 256);
    }
  }

  /** A byte string without a leading zero is the minimal form of its own value. */
  lemma {:induction false} MinBytesOfValue(b: seq<byte>)
    requires NoLeadingZero(b)
    ensures MinBytes(BE(b)) == b
  {
    if b != [] {
      var front, last := b[..|b| - 1], b[|b| - 1];
      assert front != [] ==> front[0] == b[0];
      MinBytesOfValue(front);
      MinBytesValue(BE(front));
      assert BE(b) / 256 == BE(front) && BE(b) % 256 == last;
      assert BE(b) != 0;
      assert b == front + [last];
    }
  }

  lemma {:induction false} BEBound(b: seq<byte>)
    ensures BE(b) < Pow256(|b|)
  {
    if b != [] {
      BEBound(b[..|b| - 1]);
    }
  }

  /** The minimal form takes at most k bytes exactly when the number is below 256 to the k. */
  lemma {:induction false} MinBytesLength(n: nat, k: nat)
    ensures |MinBytes(n)| <= k <==> n < Pow256(k)
  {
    if n != 0 && k != 0 {
      MinBytesLength(n / 256, k - 1);
    }
  }

  /** Leading zeros do not change the value. */
  lemma {:induction false} BEZeros(k: nat, b: seq<byte>)
    ensures BE(Zeros(k) + b) == BE(b)
  {
    var z := Zeros(k) + b;
    if |b| == 0 {
      assert z == Zeros(k);
      if k != 0 {
        assert z[..k - 1] == Zeros(k - 1) + b;
        BEZeros(k - 1, b);
      }
    } else {
      assert z[..|z| - 1] == Zeros(k) + b[..|b| - 1];
      BEZeros(k, b[..|b| - 1]);
    }
  }

  /** Big-endian: what comes first weighs more. */
  lemma {:induction false} BEAppend(a: seq<byte>, b: seq<byte>)
    ensures BE(a + b) == BE(a) * Pow256(|b|) + BE(b)
  {
    if b == [] {
      assert a + b == a;
    } else {
      var front := b[..|b| - 1];
      BEAppend(a, front);
      assert (a + b)[..|a + b| - 1] == a + front;
      assert BE(a) * Pow256(|b|) == 256 * (BE(a) * Pow256(|front|));
    }
  }

  /** Equal-length byte strings with the same value are equal. */
  lemma {:induction false} BEInjective(a: seq<byte>, b: seq<byte>)
    requires |a| == |b| && BE(a) == BE(b)
    ensures a == b
  {
    if a != [] {
      var fa, fb := a[..|a| - 1], b[..|b| - 1];
      BEInjective(fa, fb);
      assert a == fa + [a[|a| - 1]] && b == fb + [b[|b| - 1]];
    }
  }
}
