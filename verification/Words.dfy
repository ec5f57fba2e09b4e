/**
 Machine words of any width, as sequences of bits with the least significant bit first.
 A word of an N-bit unsigned type is a Word of length N; a left shift drops the bits that
 leave the type, as the casts back to the type do in the source.
 */
module Words {
  import opened Arithmetic

  type Word = seq<bool>

  const CHAR_BIT: nat := 8

  const ZERO_BYTE: Word := [false, false, false, false, false, false, false, false]

  type Byte = b: Word | |b| == 8 witness ZERO_BYTE

  function Zero(n: nat): (r: Word)
    ensures |r| == n
    ensures forall i :: 0 <= i < n ==> !r[i]
  {
    seq(n, i => false)
  }

  function Xor(a: Word, b: Word): (r: Word)
    requires |a| == |b|
    ensures |r| == |a|
    ensures forall i {:trigger r[i]} :: 0 <= i < |a| ==> r[i] == (a[i] != b[i])
  {
    seq(|a|, i requires 0 <= i < |a| => a[i] != b[i])
  }

  function And(a: Word, b: Word): (r: Word)
    requires |a| == |b|
    ensures |r| == |a|
    ensures forall i {:trigger r[i]} :: 0 <= i < |a| ==> r[i] == (a[i] && b[i])
  {
    seq(|a|, i requires 0 <= i < |a| => a[i] && b[i])
  }

  function Shl(a: Word, k: nat): (r: Word)
    ensures |r| == |a|
    ensures forall i {:trigger r[i]} :: 0 <= i < |a| ==> r[i] == (i >= k && a[i - k])
  {
    seq(|a|, i requires 0 <= i < |a| => i >= k && a[i - k])
  }

  function Shr(a: Word, k: nat): (r: Word)
    ensures |r| == |a|
    ensures forall i {:trigger r[i]} :: 0 <= i < |a| ==> r[i] == (i + k < |a| && a[i + k])
  {
    seq(|a|, i requires 0 <= i < |a| => i + k < |a| && a[i + k])
  }

  /** Conversion to an n-bit unsigned type: zero extension or truncation. */
  function Cast(a: Word, n: nat): (r: Word)
    ensures |r| == n
    ensures forall i {:trigger r[i]} :: 0 <= i < n ==> r[i] == (i < |a| && a[i])
  {
    seq(n, i requires 0 <= i < n => i < |a| && a[i])
  }

  /** The word whose low n bits are ones: the value 2^n - 1. */
  function LowMask(size: nat, n: nat): (r: Word)
    ensures |r| == size
    ensures forall i {:trigger r[i]} :: 0 <= i < size ==> r[i] == (i < n)
  {
    seq(size, i => i < n)
  }

  /** The value fits in n bits. */
  predicate Fits(a: Word, n: nat) {
    forall i :: n <= i < |a| ==> !a[i]
  }

  /** The low n bits of a in reverse order, in a word of n bits. */
  function Mirror(a: Word, n: nat): (r: Word)
    requires n <= |a|
    ensures |r| == n
    ensures forall i {:trigger r[i]} :: 0 <= i < n ==> r[i] == a[n - 1 - i]
  {
    seq(n, i requires 0 <= i < n => a[n - 1 - i])
  }

  lemma MirrorInjective(a: Word, b: Word)
    requires |a| == |b|
    requires Mirror(a, |a|) == Mirror(b, |b|)
    ensures a == b
  {
    forall i | 0 <= i < |a| ensures a[i] == b[i] {
      assert Mirror(a, |a|)[|a| - 1 - i] == a[i];
      assert Mirror(b, |a|)[|a| - 1 - i] == b[i];
    }
  }

  function Or(a: Word, b: Word): (r: Word)
    requires |a| == |b|
    ensures |r| == |a|
    ensures forall i {:trigger r[i]} :: 0 <= i < |a| ==> r[i] == (a[i] || b[i])
  {
    seq(|a|, i requires 0 <= i < |a| => a[i] || b[i])
  }

  // ---------- Words as numbers ----------

  function Value(a: Word): nat {
    if a == [] then 0 else (if a[0] then 1 else 0) + 2 * Value(a[1..])
  }

  function FromValue(v: nat, n: nat): (a: Word)
    ensures |a| == n
  {
    if n == 0 then [] else [v % 2 == 1] + FromValue(v / 2, n - 1)
  }

  lemma {:induction false} ValueInverse(a: Word)
    ensures FromValue(Value(a), |a|) == a
  {
    if a != [] {
      ValueInverse(a[1..]);
    }
  }

  lemma {:induction false} ValueBound(a: Word)
    ensures Value(a) < Power(2, |a|)
  {
    if a != [] {
      ValueBound(a[1..]);
    }
  }

  function ByteValue(b: Byte): (v: nat)
    ensures v < 256
    ensures FromValue(v, 8) == b
  {
    ValueBound(b);
    ValueInverse(b);
    assert Power(2, 8) == 2 * 2 * Power(2, 6) == 16 * Power(2, 4) == 64 * Power(2, 2) == 256;
    Value(b)
  }
}
