/**
 Bit strings as the DES code represents them: Python strings over '0' and '1',
 read big-endian as Python's `int(s, 2)` does.
 */
module Bits {

  predicate IsBit(c: char) {
    c == '0' || c == '1'
  }

  predicate IsBits(s: string) {
    forall i | 0 <= i < |s| :: IsBit(s[i])
  }

  /** A concatenation is a bit string exactly when both parts are. */
  lemma IsBitsConcat(a: string, b: string)
    ensures IsBits(a + b) <==> IsBits(a) && IsBits(b)
  {
    if IsBits(a + b) {
      assert forall i | 0 <= i < |a| :: a[i] == (a + b)[i];
      assert forall i | 0 <= i < |b| :: b[i] == (a + b)[|a| + i];
    }
    if IsBits(a) && IsBits(b) {
      forall i | 0 <= i < |a + b|
        ensures IsBit((a + b)[i])
      {
        if i < |a| {
          assert (a + b)[i] == a[i];
        } else {
          assert (a + b)[i] == b[i - |a|];
        }
      }
    }
  }

  function BitValue(c: char): nat {
    if c == '1' then 1 else 0
  }

  /** The big-endian value of a bit string; the empty string reads as 0. */
  function Value(s: string): nat
    decreases |s|
  {
    if |s| == 0 then 0 else 2 * Value(s[..|s| - 1]) + BitValue(s[|s| - 1])
  }

  function Pow2(k: nat): nat {
    if k == 0 then 1 else 2 * Pow2(k - 1)
  }

  /** A string of `k` '0' characters. */
  function Zeros(k: nat): (z: string)
    ensures |z| == k && IsBits(z)
    ensures forall i | 0 <= i < k :: z[i] == '0'
  {
    seq(k, _ => '0')
  }

  lemma ValueSnoc(s: string, c: char)
    ensures Value(s + [c]) == 2 * Value(s) + BitValue(c)
  {
    assert (s + [c])[..|s|] == s;
  }

  /** `k` bits hold values below 2^k. */
  lemma {:induction false} ValueBound(s: string)
    ensures Value(s) < Pow2(|s|)
    decreases |s|
  {
    if |s| > 0 {
      ValueBound(s[..|s| - 1]);
    }
  }

  lemma {:induction false} ValueOfZeros(k: nat)
    ensures Value(Zeros(k)) == 0
  {
    if k > 0 {
      assert Zeros(k)[..k - 1] == Zeros(k - 1);
      ValueOfZeros(k - 1);
    }
  }

  /** Leading zeros do not change the value of a bit string. */
  lemma {:induction false} ValueIgnoresLeadingZeros(k: nat, s: string)
    ensures Value(Zeros(k) + s) == Value(s)
    decreases |s|
  {
    if |s| == 0 {
      assert Zeros(k) + s == Zeros(k);
      ValueOfZeros(k);
    } else {
      var init := s[..|s| - 1];
      assert Zeros(k) + s == (Zeros(k) + init) + [s[|s| - 1]];
      ValueSnoc(Zeros(k) + init, s[|s| - 1]);
      ValueIgnoresLeadingZeros(k, init);
    }
  }

  /**
   Python's `bin(n)[2:]` for a non-negative n: the shortest binary numeral of n,
   "0" for zero and otherwise starting with '1'.
   */
  function NatBits(n: nat): (s: string)
    ensures 1 <= |s| && IsBits(s) && Value(s) == n
    ensures 1 < |s| ==> s[0] == '1' && Pow2(|s| - 1) <= n
    decreases n
  {
    if n < 2 then
      (if n == 1 then "1" else "0")
    else
      var high := NatBits(n / 2);
      var low := if n % 2 == 1 then '1' else '0';
      ValueSnoc(high, low);
      high + [low]
  }

  /** A value below 2^k has a numeral of at most k bits. */
  lemma {:induction false} NatBitsWidth(n: nat, k: nat)
    requires 1 <= k && n < Pow2(k)
    ensures |NatBits(n)| <= k
    decreases n
  {
    if n >= 2 {
      NatBitsWidth(n / 2, k - 1);
    }
  }
}
