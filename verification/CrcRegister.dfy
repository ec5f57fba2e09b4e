/**
 The shift register at the heart of the CRC engine, free of CRCType: a register of W >= 8 bits
 with its generator's low coefficients. All three branches of the engine reduce to it.
 */
module CrcRegister {
  import opened Words
  import opened Gf2Polynomials

  /** One left shift, reduced when the bit that leaves is set. */
  function Step(poly: Word, r: Word): (s: Word)
    requires |poly| == |r| > 0
    ensures |s| == |r|
  {
    if r[|r| - 1] then Xor(Shl(r, 1), poly) else Shl(r, 1)
  }

  function Steps(poly: Word, r: Word, n: nat): (s: Word)
    requires |poly| == |r| > 0
    ensures |s| == |r|
  {
    if n == 0 then r else Step(poly, Steps(poly, r, n - 1))
  }

  /** A byte at the top of a register of the given size. */
  function Place(b: Byte, size: nat): (s: Word)
    requires size >= 8
    ensures |s| == size
    ensures forall i {:trigger s[i]} :: 0 <= i < size ==> s[i] == (i >= size - 8 && b[i - (size - 8)])
  {
    Shl(Cast(b, size), size - 8)
  }

  function Absorb(poly: Word, r: Word, b: Byte): (s: Word)
    requires |poly| == |r| >= 8
    ensures |s| == |r|
  {
    Steps(poly, Xor(r, Place(b, |r|)), CHAR_BIT)
  }

  function Run(poly: Word, data: seq<Byte>, r: Word): (s: Word)
    requires |poly| == |r| >= 8
    ensures |s| == |r|
  {
    if data == [] then r
    else Absorb(poly, Run(poly, data[..|data| - 1], r), data[|data| - 1])
  }

  // ---------- Linearity ----------

  lemma {:induction false} StepsLinear(poly: Word, a: Word, b: Word, n: nat)
    requires |poly| == |a| == |b| > 0
    ensures Steps(poly, Xor(a, b), n) == Xor(Steps(poly, a, n), Steps(poly, b, n))
  {
    if n > 0 {
      StepsLinear(poly, a, b, n - 1);
      var x, y := Steps(poly, a, n - 1), Steps(poly, b, n - 1);
      assert Step(poly, Xor(x, y)) == Xor(Step(poly, x), Step(poly, y));
    }
  }

  lemma ShlShl(a: Word, j: nat, k: nat)
    ensures Shl(Shl(a, j), k) == Shl(a, j + k)
  {
  }

  lemma {:induction false} StepsShift(poly: Word, r: Word, n: nat)
    requires |poly| == |r| > 0 && n <= |r|
    requires forall i :: |r| - n <= i < |r| ==> !r[i]
    ensures Steps(poly, r, n) == Shl(r, n)
  {
    if n > 0 {
      StepsShift(poly, r, n - 1);
      ShlShl(r, n - 1, 1);
      assert !r[|r| - n];
    }
  }

  /** The top byte of a register. */
  function Top(r: Word): (b: Byte)
    requires |r| >= 8
    ensures forall i :: 0 <= i < 8 ==> b[i] == r[|r| - 8 + i]
  {
    r[|r| - 8..]
  }

  /** Eight bit steps are one byte shift and one lookup of the byte that leaves. */
  lemma AbsorbByTable(poly: Word, r: Word, b: Byte)
    requires |poly| == |r| >= 8
    ensures Absorb(poly, r, b) == Xor(Shl(r, 8), Absorb(poly, Zero(|r|), Xor(Top(r), b)))
  {
    var n := |r|;
    var low := Xor(r, Place(Top(r), n));
    var high := Place(Xor(Top(r), b), n);
    assert Xor(r, Place(b, n)) == Xor(low, high);
    StepsLinear(poly, low, high, CHAR_BIT);
    StepsShift(poly, low, CHAR_BIT);
    assert Shl(low, 8) == Shl(r, 8);
    assert Xor(Zero(n), high) == high;
  }

  lemma {:induction false} RunAppend(poly: Word, a: seq<Byte>, b: seq<Byte>, r: Word)
    requires |poly| == |r| >= 8
    ensures Run(poly, a + b, r) == Run(poly, b, Run(poly, a, r))
  {
    if b == [] {
      assert a + b == a;
    } else {
      var n := |b| - 1;
      RunAppend(poly, a, b[..n], r);
      assert (a + b)[..|a + b| - 1] == a + b[..n];
    }
  }

  /** A generator with k zero low coefficients keeps the low k bits of the register zero. */
  lemma {:induction false} StepsLowZero(poly: Word, r: Word, n: nat, k: nat)
    requires |poly| == |r| > 0 && k <= |r|
    requires forall i :: 0 <= i < k ==> !poly[i]
    requires forall i :: 0 <= i < k - n ==> !r[i]
    ensures forall i :: 0 <= i < k ==> !Steps(poly, r, n)[i]
  {
    if n > 0 && k > 0 {
      StepsLowZero(poly, r, n - 1, k - 1);
    }
  }

  lemma {:induction false} RunLowZero(poly: Word, data: seq<Byte>, r: Word, k: nat)
    requires |poly| == |r| >= 8 && k <= |r|
    requires k <= 8 || k <= |r| - 8
    requires forall i :: 0 <= i < k ==> !poly[i] && !r[i]
    ensures forall i :: 0 <= i < k ==> !Run(poly, data, r)[i]
  {
    if data != [] {
      var n := |data| - 1;
      RunLowZero(poly, data[..n], r, k);
      StepsLowZero(poly, Xor(Run(poly, data[..n], r), Place(data[n], |r|)), CHAR_BIT, k);
    }
  }

  // ---------- Long division ----------

  ghost function ToPoly(r: Word): (p: Poly)
    ensures forall x {:trigger x in p} :: x in p <==> 0 <= x < |r| && r[x]
  {
    iset x: int | 0 <= x < |r| && r[x]
  }

  /** The monic polynomial of degree |poly| that the register divides by. */
  ghost function Generator(poly: Word): (g: Poly)
    ensures Monic(g, |poly|)
  {
    ToPoly(poly + [true])
  }

  /** The message as a polynomial: first byte first, each byte's top bit first. */
  ghost function Message(data: seq<Byte>): (p: Poly)
    ensures forall x :: x in p ==> 0 <= x < 8 * |data|
  {
    if data == [] then iset{}
    else Add(Shift(Message(data[..|data| - 1]), 8), ToPoly(data[|data| - 1]))
  }

  lemma StepDivides(poly: Word, r: Word)
    requires |poly| == |r| > 0
    ensures ToPoly(Step(poly, r)) == Add(Shift(ToPoly(r), 1), Times(r[|r| - 1], Generator(poly)))
  {
    var t := Times(r[|r| - 1], Generator(poly));
    forall x ensures x in ToPoly(Step(poly, r)) <==> x in Add(Shift(ToPoly(r), 1), t) {
      if 0 < x < |r| {
        assert Shl(r, 1)[x] == r[x - 1];
      }
    }
  }

  lemma {:induction false} StepsDivide(poly: Word, r: Word, n: nat) returns (q: seq<bool>)
    requires |poly| == |r| > 0
    ensures |q| == n
    ensures ToPoly(Steps(poly, r, n)) == Add(Shift(ToPoly(r), n), Mul(q, Generator(poly)))
  {
    if n == 0 {
      q := [];
      assert forall x :: x in ToPoly(r) <==> x in Add(Shift(ToPoly(r), 0), Mul(q, Generator(poly)));
    } else {
      var g := Generator(poly);
      var p := StepsDivide(poly, r, n - 1);
      var s := Steps(poly, r, n - 1);
      var c := s[|s| - 1];
      q := [c] + p;
      assert q[1..] == p;
      StepDivides(poly, s);
      ShiftAdd(Shift(ToPoly(r), n - 1), Mul(p, g), 1);
      ShiftShift(ToPoly(r), n - 1, 1);
      assert forall x :: x in ToPoly(Steps(poly, r, n)) <==> x in Add(Shift(ToPoly(r), n), Mul(q, g));
    }
  }

  lemma AbsorbDivides(poly: Word, r: Word, b: Byte) returns (q: seq<bool>)
    requires |poly| == |r| >= 8
    ensures |q| == 8
    ensures ToPoly(Absorb(poly, r, b))
         == Add(Add(Shift(ToPoly(r), 8), Shift(ToPoly(b), |r|)), Mul(q, Generator(poly)))
  {
    var n := |r|;
    var d := Xor(r, Place(b, n));
    q := StepsDivide(poly, d, CHAR_BIT);
    forall x ensures x in ToPoly(d) <==> x in Add(ToPoly(r), Shift(ToPoly(b), n - 8)) {
    }
    ShiftAdd(ToPoly(r), Shift(ToPoly(b), n - 8), 8);
    ShiftShift(ToPoly(b), n - 8, 8);
  }

  /** What the register divides: the message above the register, plus the initial value above the message. */
  ghost function Dividend(data: seq<Byte>, r: Poly, w: nat): Poly {
    Add(Shift(Message(data), w), Shift(r, 8 * |data|))
  }

  lemma {:induction false} RunDivides(poly: Word, data: seq<Byte>, r: Word) returns (q: seq<bool>)
    requires |poly| == |r| >= 8
    ensures ToPoly(Run(poly, data, r)) == Add(Dividend(data, ToPoly(r), |r|), Mul(q, Generator(poly)))
  {
    var w, g := |r|, Generator(poly);
    if data == [] {
      q := [];
      assert forall x :: x in ToPoly(r) <==> x in Add(Dividend(data, ToPoly(r), w), Mul(q, g));
    } else {
      var n := |data| - 1;
      var p := RunDivides(poly, data[..n], r);
      var s := Run(poly, data[..n], r);
      var c := AbsorbDivides(poly, s, data[n]);
      q := c + p;
      MulAppend(c, p, g);
      var m := Message(data[..n]);
      ShiftAdd(Dividend(data[..n], ToPoly(r), w), Mul(p, g), 8);
      ShiftAdd(Shift(m, w), Shift(ToPoly(r), 8 * n), 8);
      ShiftShift(m, w, 8);
      ShiftShift(ToPoly(r), 8 * n, 8);
      ShiftAdd(Shift(m, 8), ToPoly(data[n]), w);
      ShiftShift(m, 8, w);
      assert forall x :: x in ToPoly(Run(poly, data, r)) <==> x in Add(Dividend(data, ToPoly(r), w), Mul(q, g));
    }
  }
}
