/**
 The CRC engine of src/base/CRC.h for every CRCType of at least eight bits and every CRCWidth:
 the bit-by-bit and the table-driven remainder, Finalize and UndoFinalize, and the four
 Calculate overloads.
 */
module Crc {
  import opened Words
  import opened Gf2Polynomials
  import opened CrcRegister

  datatype Parameters = Parameters(
    typeBits: nat,        // number of bits of CRCType
    width: nat,           // CRCWidth
    polynomial: Word,
    initialValue: Word,
    finalXOR: Word,
    reflectInput: bool,
    reflectOutput: bool)
  {
    predicate Valid() {
      && 1 <= width <= typeBits && 8 <= typeBits
      && |polynomial| == |initialValue| == |finalXOR| == typeBits
      && Fits(polynomial, width) && Fits(initialValue, width) && Fits(finalXOR, width)
    }

    /** Whether Finalize reflects. */
    predicate Reflects() {
      reflectInput != reflectOutput
    }
  }

  // ---------- Reflection ----------

  function Reflected(value: Word, numBits: nat): (r: Word)
    requires numBits <= |value|
    ensures |r| == |value|
    ensures forall i {:trigger r[i]} :: 0 <= i < |r| ==> r[i] == (i < numBits && value[numBits - 1 - i])
  {
    Cast(Mirror(value, numBits), |value|)
  }

  method Reflect(value: Word, numBits: nat) returns (reversedValue: Word)
    requires numBits <= |value|
    ensures reversedValue == Reflected(value, numBits)
  {
    var one := LowMask(|value|, 1);
    reversedValue := Zero(|value|);
    var v := value;
    for i := 0 to numBits
      invariant |v| == |reversedValue| == |value|
      invariant v == Shr(value, i)
      invariant reversedValue == Reflected(value, i)
    {
      reversedValue := Or(Shl(reversedValue, 1), And(v, one));
      v := Shr(v, 1);
    }
  }

  // ---------- Finalize and UndoFinalize ----------

  function Finalized(p: Parameters, remainder: Word): (r: Word)
    requires p.Valid() && |remainder| == p.typeBits
    ensures |r| == p.typeBits && Fits(r, p.width)
  {
    var reflected := if p.Reflects() then Reflected(remainder, p.width) else remainder;
    And(Xor(reflected, p.finalXOR), LowMask(p.typeBits, p.width))
  }

  function Unfinalized(p: Parameters, crc: Word): (r: Word)
    requires p.Valid() && |crc| == p.typeBits
    ensures |r| == p.typeBits && Fits(r, p.width)
  {
    var masked := Xor(And(crc, LowMask(p.typeBits, p.width)), p.finalXOR);
    if p.Reflects() then Reflected(masked, p.width) else masked
  }

  method Finalize(p: Parameters, remainder: Word) returns (crc: Word)
    requires p.Valid() && |remainder| == p.typeBits
    ensures crc == Finalized(p, remainder)
  {
    var r := remainder;
    if p.Reflects() {
      r := Reflect(r, p.width);
    }
    crc := And(Xor(r, p.finalXOR), LowMask(p.typeBits, p.width));
  }

  method UndoFinalize(p: Parameters, crc: Word) returns (remainder: Word)
    requires p.Valid() && |crc| == p.typeBits
    ensures remainder == Unfinalized(p, crc)
  {
    remainder := Xor(And(crc, LowMask(p.typeBits, p.width)), p.finalXOR);
    if p.Reflects() {
      remainder := Reflect(remainder, p.width);
    }
  }

  /** Undoing a finalization gives back the low CRCWidth bits of the remainder. */
  lemma UndoAfterFinalize(p: Parameters, r: Word)
    requires p.Valid() && |r| == p.typeBits
    ensures Unfinalized(p, Finalized(p, r)) == And(r, LowMask(p.typeBits, p.width))
  {
  }

  /** The round trip that the header promises for every value holds for those that fit, and only those. */
  lemma UndoInvertsFinalize(p: Parameters, r: Word)
    requires p.Valid() && |r| == p.typeBits
    ensures Unfinalized(p, Finalized(p, r)) == r <==> Fits(r, p.width)
    ensures Finalized(p, Unfinalized(p, r)) == r <==> Fits(r, p.width)
  {
    UndoAfterFinalize(p, r);
    var mask := LowMask(p.typeBits, p.width);
    assert Finalized(p, Unfinalized(p, r)) == And(r, mask);
    if And(r, mask) == r {
      forall i | p.width <= i < |r| ensures !r[i] {
        assert !And(r, mask)[i];
      }
    }
    if Fits(r, p.width) {
      assert And(r, mask) == r;
    }
  }

  /** A four-bit CRC in an eight-bit type: bit 4 of a remainder does not come back. */
  lemma UndoLosesHighBits()
    ensures var z := Zero(8);
            var p := Parameters(8, 4, z, z, z, false, false);
            p.Valid() && Unfinalized(p, Finalized(p, z[4 := true])) != z[4 := true]
  {
    var z := Zero(8);
    var p := Parameters(8, 4, z, z, z, false, false);
    UndoInvertsFinalize(p, z[4 := true]);
    assert z[4 := true][4];
  }

  // ---------- The bit-by-bit remainder ----------

  /** One step of the reflected branch. */
  function LowStep(poly: Word, r: Word): (s: Word)
    requires |poly| == |r| > 0
    ensures |s| == |r|
  {
    if r[0] then Xor(Shr(r, 1), poly) else Shr(r, 1)
  }

  function LowSteps(poly: Word, r: Word, n: nat): (s: Word)
    requires |poly| == |r| > 0
    ensures |s| == |r|
  {
    if n == 0 then r else LowStep(poly, LowSteps(poly, r, n - 1))
  }

  function LowRun(poly: Word, data: seq<Byte>, r: Word): (s: Word)
    requires |poly| == |r| > 0
    ensures |s| == |r|
  {
    if data == [] then r
    else LowSteps(poly, Xor(LowRun(poly, data[..|data| - 1], r), Cast(data[|data| - 1], |r|)), CHAR_BIT)
  }

  /** One step of the branches that are not reflected, with the tested bit at w - 1. */
  function HighStep(w: nat, poly: Word, r: Word): (s: Word)
    requires |poly| == |r| >= w > 0
    ensures |s| == |r|
  {
    if r[w - 1] then Xor(Shl(r, 1), poly) else Shl(r, 1)
  }

  function HighSteps(w: nat, poly: Word, r: Word, n: nat): (s: Word)
    requires |poly| == |r| >= w > 0
    ensures |s| == |r|
  {
    if n == 0 then r else HighStep(w, poly, HighSteps(w, poly, r, n - 1))
  }

  function HighRun(w: nat, poly: Word, data: seq<Byte>, r: Word): (s: Word)
    requires |poly| == |r| >= w >= 8
    ensures |s| == |r|
  {
    if data == [] then r
    else
      var prefix := HighRun(w, poly, data[..|data| - 1], r);
      HighSteps(w, poly, Xor(prefix, Shl(Cast(data[|data| - 1], |r|), w - 8)), CHAR_BIT)
  }

  function Remainder(p: Parameters, data: seq<Byte>, r: Word): (s: Word)
    requires p.Valid() && |r| == p.typeBits
    ensures |s| == p.typeBits
  {
    if p.reflectInput then
      LowRun(Reflected(p.polynomial, p.width), data, r)
    else if p.width >= 8 then
      HighRun(p.width, p.polynomial, data, r)
    else
      var shift := 8 - p.width;
      Shr(HighRun(8, Shl(p.polynomial, shift), data, Shl(r, shift)), shift)
  }

  /** The bits of one byte in the reflected branch. */
  method ShiftRight(poly: Word, remainder: Word) returns (r: Word)
    requires |poly| == |remainder| > 0
    ensures r == LowSteps(poly, remainder, CHAR_BIT)
  {
    r := remainder;
    for i := 0 to CHAR_BIT
      invariant |r| == |remainder| && r == LowSteps(poly, remainder, i)
    {
      r := if r[0] then Xor(Shr(r, 1), poly) else Shr(r, 1);
    }
  }

  /** The bits of one byte in the other two branches. */
  method ShiftLeft(w: nat, poly: Word, remainder: Word) returns (r: Word)
    requires |poly| == |remainder| >= w > 0
    ensures r == HighSteps(w, poly, remainder, CHAR_BIT)
  {
    r := remainder;
    for i := 0 to CHAR_BIT
      invariant |r| == |remainder| && r == HighSteps(w, poly, remainder, i)
    {
      r := if r[w - 1] then Xor(Shl(r, 1), poly) else Shl(r, 1);
    }
  }

  method CalculateRemainder(data: seq<Byte>, p: Parameters, remainder: Word) returns (r: Word)
    requires p.Valid() && |remainder| == p.typeBits
    ensures r == Remainder(p, data, remainder)
  {
    hide Xor, Shl, Shr, Cast, LowSteps, HighSteps;
    r := remainder;
    if p.reflectInput {
      var polynomial := Reflect(p.polynomial, p.width);
      for current := 0 to |data|
        invariant |r| == p.typeBits
        invariant r == LowRun(polynomial, data[..current], remainder)
      {
        r := Xor(r, Cast(data[current], p.typeBits));
        r := ShiftRight(polynomial, r);
        assert data[..current + 1][..current] == data[..current];
      }
    } else if p.width >= 8 {
      for current := 0 to |data|
        invariant |r| == p.typeBits
        invariant r == HighRun(p.width, p.polynomial, data[..current], remainder)
      {
        r := Xor(r, Shl(Cast(data[current], p.typeBits), p.width - 8));
        r := ShiftLeft(p.width, p.polynomial, r);
        assert data[..current + 1][..current] == data[..current];
      }
    } else {
      var shift := 8 - p.width;
      var polynomial := Shl(p.polynomial, shift);
      r := Shl(r, shift);
      for current := 0 to |data|
        invariant |r| == p.typeBits
        invariant r == HighRun(8, polynomial, data[..current], Shl(remainder, shift))
      {
        assert Shl(Cast(data[current], p.typeBits), 0) == Cast(data[current], p.typeBits);
        r := Xor(r, Cast(data[current], p.typeBits));
        r := ShiftLeft(8, polynomial, r);
        assert data[..current + 1][..current] == data[..current];
      }
      r := Shr(r, shift);
    }
    assert data[..|data|] == data;
  }

  function Checksum(p: Parameters, data: seq<Byte>): (crc: Word)
    requires p.Valid()
    ensures |crc| == p.typeBits
  {
    Finalized(p, Remainder(p, data, p.initialValue))
  }

  function Continued(p: Parameters, data: seq<Byte>, crc: Word): (r: Word)
    requires p.Valid() && |crc| == p.typeBits
    ensures |r| == p.typeBits
  {
    Finalized(p, Remainder(p, data, Unfinalized(p, crc)))
  }

  method Calculate(data: seq<Byte>, p: Parameters) returns (crc: Word)
    requires p.Valid()
    ensures crc == Checksum(p, data)
  {
    var remainder := CalculateRemainder(data, p, p.initialValue);
    crc := Finalize(p, remainder);
  }

  method CalculatePart(data: seq<Byte>, p: Parameters, previous: Word) returns (crc: Word)
    requires p.Valid() && |previous| == p.typeBits
    ensures crc == Continued(p, data, previous)
  {
    var remainder := UndoFinalize(p, previous);
    remainder := CalculateRemainder(data, p, remainder);
    crc := Finalize(p, remainder);
  }

  // ---------- Every branch is the same register ----------

  /** Size of the common register: wide enough for a byte. */
  function RegisterBits(p: Parameters): nat {
    if p.width >= 8 then p.width else 8
  }

  /** Zero bits below the CRC in the common register. */
  function Padding(p: Parameters): nat
    requires p.Valid()
  {
    RegisterBits(p) - p.width
  }

  /** The CRC bits of a remainder, coefficient of the highest power last. */
  function View(p: Parameters, r: Word): (v: Word)
    requires p.Valid() && |r| == p.typeBits
    ensures |v| == p.width
  {
    if p.reflectInput then Mirror(r, p.width) else r[..p.width]
  }

  /** CRC bits placed at the top of the common register. */
  function Loaded(p: Parameters, v: Word): (r: Word)
    requires p.Valid()
    ensures |r| == RegisterBits(p)
  {
    Shl(Cast(v, RegisterBits(p)), Padding(p))
  }

  /** The bytes in the order of their bits that the register consumes. */
  function Fed(p: Parameters, data: seq<Byte>): (d: seq<Byte>)
    ensures |d| == |data|
  {
    if p.reflectInput then seq(|data|, i requires 0 <= i < |data| => Mirror(data[i], 8)) else data
  }

  lemma {:induction false} HighStepsLow(w: nat, poly: Word, r: Word, n: nat)
    requires |poly| == |r| >= w > 0
    ensures HighSteps(w, poly, r, n)[..w] == Steps(poly[..w], r[..w], n)
  {
    if n > 0 {
      HighStepsLow(w, poly, r, n - 1);
      var s := HighSteps(w, poly, r, n - 1);
      HighStepLow(w, poly, s);
    }
  }

  lemma HighStepLow(w: nat, poly: Word, s: Word)
    requires |poly| == |s| >= w > 0
    ensures HighStep(w, poly, s)[..w] == Step(poly[..w], s[..w])
  {
    var a, b := HighStep(w, poly, s), Step(poly[..w], s[..w]);
    forall i | 0 <= i < w ensures a[i] == b[i] {
    }
  }

  /** Bits above the register never reach it. */
  lemma {:induction false} HighRunLow(w: nat, poly: Word, data: seq<Byte>, r: Word)
    requires |poly| == |r| >= w >= 8
    ensures HighRun(w, poly, data, r)[..w] == Run(poly[..w], data, r[..w])
  {
    hide Xor, Shl, Cast, Place, HighSteps, Steps;
    if data != [] {
      var n := |data| - 1;
      HighRunLow(w, poly, data[..n], r);
      var s := HighRun(w, poly, data[..n], r);
      var x := Xor(s, Shl(Cast(data[n], |r|), w - 8));
      HighStepsLow(w, poly, x, CHAR_BIT);
      PlaceLow(w, s, data[n]);
    }
  }

  lemma PlaceLow(w: nat, s: Word, b: Byte)
    requires |s| >= w >= 8
    ensures Xor(s, Shl(Cast(b, |s|), w - 8))[..w] == Xor(s[..w], Place(b, w))
  {
  }

  lemma {:induction false} LowStepsMirror(w: nat, poly: Word, r: Word, n: nat)
    requires |poly| == |r| >= w > 0
    requires Fits(poly, w) && Fits(r, w)
    ensures Fits(LowSteps(poly, r, n), w)
    ensures Mirror(LowSteps(poly, r, n), w) == Steps(Mirror(poly, w), Mirror(r, w), n)
  {
    if n > 0 {
      LowStepsMirror(w, poly, r, n - 1);
      var s := LowSteps(poly, r, n - 1);
      assert Mirror(LowStep(poly, s), w) == Step(Mirror(poly, w), Mirror(s, w));
    }
  }

  /** The reflected loop is the mirror image of the one that shifts left. */
  lemma {:induction false} LowRunMirror(p: Parameters, w: nat, poly: Word, data: seq<Byte>, r: Word)
    requires p.reflectInput
    requires |poly| == |r| >= w >= 8
    requires Fits(poly, w) && Fits(r, w)
    ensures Fits(LowRun(poly, data, r), w)
    ensures Mirror(LowRun(poly, data, r), w) == Run(Mirror(poly, w), Fed(p, data), Mirror(r, w))
  {
    hide Shl, LowSteps, Steps;
    if data != [] {
      var n := |data| - 1;
      LowRunMirror(p, w, poly, data[..n], r);
      var s := LowRun(poly, data[..n], r);
      var x := Xor(s, Cast(data[n], |r|));
      LowStepsMirror(w, poly, x, CHAR_BIT);
      assert Fed(p, data)[..n] == Fed(p, data[..n]);
      assert Mirror(x, w) == Xor(Mirror(s, w), Place(Mirror(data[n], 8), w));
    }
  }

  /** The generator of the common register. */
  function RegisterPoly(p: Parameters): (r: Word)
    requires p.Valid()
    ensures |r| == RegisterBits(p)
  {
    Loaded(p, p.polynomial)
  }

  lemma LoadedMirror(p: Parameters, r: Word)
    requires p.Valid() && |r| == p.typeBits && Fits(r, p.width)
    ensures Mirror(r, RegisterBits(p)) == Loaded(p, Mirror(r, p.width))
  {
  }

  /** All branches, for all widths and types: the CRC bits of the remainder are a run of the register. */
  lemma RemainderIsRun(p: Parameters, data: seq<Byte>, r: Word)
    requires p.Valid() && |r| == p.typeBits
    requires p.reflectInput ==> Fits(r, p.width)
    ensures Loaded(p, View(p, Remainder(p, data, r))) == Run(RegisterPoly(p), Fed(p, data), Loaded(p, View(p, r)))
    ensures p.reflectInput ==> Fits(Remainder(p, data, r), p.width)
  {
    if p.reflectInput {
      ReflectedIsRun(p, data, r);
    } else if p.width >= 8 {
      var w := p.width;
      HighRunLow(w, p.polynomial, data, r);
      WideLoaded(p, p.polynomial);
      WideLoaded(p, r);
      WideLoaded(p, HighRun(w, p.polynomial, data, r));
    } else {
      NarrowIsRun(p, data, r);
    }
  }

  lemma WideLoaded(p: Parameters, r: Word)
    requires p.Valid() && p.width >= 8 && |r| == p.typeBits
    ensures Loaded(p, r[..p.width]) == Loaded(p, r) == r[..p.width]
  {
  }

  lemma ReflectedIsRun(p: Parameters, data: seq<Byte>, r: Word)
    requires p.Valid() && |r| == p.typeBits && p.reflectInput && Fits(r, p.width)
    ensures Loaded(p, View(p, Remainder(p, data, r))) == Run(RegisterPoly(p), Fed(p, data), Loaded(p, View(p, r)))
    ensures Fits(Remainder(p, data, r), p.width)
  {
    var w := RegisterBits(p);
    var poly := Reflected(p.polynomial, p.width);
    LowRunMirror(p, w, poly, data, r);
    LoadedMirror(p, r);
    ReflectedPoly(p);
    RunLowZero(RegisterPoly(p), Fed(p, data), Mirror(r, w), Padding(p));
    var t := LowRun(poly, data, r);
    forall i | p.width <= i < |t| ensures !t[i] {
      if i < w {
        assert t[i] == Mirror(t, w)[w - 1 - i];
      }
    }
    LoadedMirror(p, t);
  }

  lemma ReflectedPoly(p: Parameters)
    requires p.Valid()
    ensures Mirror(Reflected(p.polynomial, p.width), RegisterBits(p)) == RegisterPoly(p)
  {
  }

  lemma NarrowIsRun(p: Parameters, data: seq<Byte>, r: Word)
    requires p.Valid() && |r| == p.typeBits && !p.reflectInput && p.width < 8
    ensures Loaded(p, View(p, Remainder(p, data, r))) == Run(RegisterPoly(p), data, Loaded(p, View(p, r)))
  {
    hide Xor, HighRun, Run, Cast;
    var s := Padding(p);
    var poly, r' := Shl(p.polynomial, s), Shl(r, s);
    HighRunLow(8, poly, data, r');
    NarrowPoly(p);
    assert r'[..8] == Loaded(p, View(p, r));
    RunLowZero(RegisterPoly(p), data, Loaded(p, View(p, r)), s);
    NarrowLoaded(p, HighRun(8, poly, data, r'));
  }

  lemma NarrowPoly(p: Parameters)
    requires p.Valid() && p.width < 8
    ensures Shl(p.polynomial, Padding(p))[..8] == RegisterPoly(p)
  {
  }

  lemma NarrowLoaded(p: Parameters, t: Word)
    requires p.Valid() && |t| == p.typeBits && !p.reflectInput && p.width < 8
    requires forall i :: 0 <= i < Padding(p) ==> !t[..8][i]
    ensures Loaded(p, View(p, Shr(t, Padding(p)))) == t[..8]
  {
    assert forall i :: 0 <= i < Padding(p) ==> t[i] == t[..8][i];
  }

  lemma LoadedInjective(p: Parameters, v: Word, u: Word)
    requires p.Valid() && |v| == |u| == p.width
    requires Loaded(p, v) == Loaded(p, u)
    ensures v == u
  {
    forall i | 0 <= i < p.width ensures v[i] == u[i] {
      assert Loaded(p, v)[i + Padding(p)] == v[i];
      assert Loaded(p, u)[i + Padding(p)] == u[i];
    }
  }

  /**
   Between the two loops of the source, for every width: the reflected remainder is the mirror image of
   the other one over the mirrored bytes, from the mirrored start.
   */
  lemma RemainderMirror(p: Parameters, data: seq<Byte>, r: Word)
    requires p.Valid() && p.reflectInput && |r| == p.typeBits && Fits(r, p.width)
    ensures Remainder(p, data, r)[..p.width]
         == Mirror(Remainder(p.(reflectInput := false), Fed(p, data), Reflected(r, p.width)), p.width)
    ensures Fits(Remainder(p, data, r), p.width)
  {
    hide Remainder, Run, Loaded;
    var q, d, m := p.(reflectInput := false), Fed(p, data), Reflected(r, p.width);
    RemainderIsRun(p, data, r);
    RemainderIsRun(q, d, m);
    assert View(q, m) == View(p, r);
    SameRegister(p, q);
    var s, t := Remainder(p, data, r), Remainder(q, d, m);
    SameLoad(p, q, View(p, r));
    SameLoad(p, q, View(q, t));
    LoadedInjective(p, View(p, s), View(q, t));
    MirrorBack(s, t, p.width);
  }

  lemma SameRegister(p: Parameters, q: Parameters)
    requires p.Valid() && q == p.(reflectInput := false)
    ensures RegisterPoly(p) == RegisterPoly(q)
  {
  }

  lemma SameLoad(p: Parameters, q: Parameters, v: Word)
    requires p.Valid() && q == p.(reflectInput := false)
    ensures Loaded(p, v) == Loaded(q, v)
  {
  }

  lemma MirrorBack(s: Word, t: Word, w: nat)
    requires w <= |s| == |t| && Mirror(s, w) == t[..w]
    ensures s[..w] == Mirror(t, w)
  {
    forall i | 0 <= i < w ensures s[i] == Mirror(t, w)[i] {
      assert Mirror(s, w)[w - 1 - i] == t[..w][w - 1 - i];
    }
  }

  // ---------- What a CRC is ----------

  /** The generator polynomial: x to the width, plus the polynomial parameter. */
  ghost function CrcGenerator(p: Parameters): Poly
    requires p.Valid()
  {
    Generator(p.polynomial[..p.width])
  }

  /** The polynomial that a CRC stands for, once the final XOR is taken off. */
  ghost function Meaning(p: Parameters, crc: Word): Poly
    requires p.Valid() && |crc| == p.typeBits
  {
    var d := Xor(crc, p.finalXOR);
    ToPoly(if p.reflectOutput then Mirror(d, p.width) else d[..p.width])
  }

  lemma FinalizedMeaning(p: Parameters, r: Word)
    requires p.Valid() && |r| == p.typeBits
    ensures Meaning(p, Finalized(p, r)) == ToPoly(View(p, r))
  {
    var d := Xor(Finalized(p, r), p.finalXOR);
    if p.reflectOutput {
      assert Mirror(d, p.width) == View(p, r);
    } else {
      assert d[..p.width] == View(p, r);
    }
  }

  lemma LoadedPoly(p: Parameters, v: Word)
    requires p.Valid() && |v| == p.width
    ensures ToPoly(Loaded(p, v)) == Shift(ToPoly(v), Padding(p))
  {
    assert forall x :: x in ToPoly(Loaded(p, v)) <==> x in Shift(ToPoly(v), Padding(p));
  }

  lemma RegisterGenerator(p: Parameters)
    requires p.Valid()
    ensures Generator(RegisterPoly(p)) == Shift(CrcGenerator(p), Padding(p))
  {
    assert forall x :: x in Generator(RegisterPoly(p)) <==> x in Shift(CrcGenerator(p), Padding(p));
  }

  /**
   The remainder loop, in every branch, is long division over the two-element field: its CRC bits are
   the remainder of message * x^width + start * x^(8n) on division by the generator.
   */
  lemma RemainderDivides(p: Parameters, data: seq<Byte>, r: Word)
    requires p.Valid() && |r| == p.typeBits
    requires p.reflectInput ==> Fits(r, p.width)
    ensures IsRemainder(Dividend(Fed(p, data), ToPoly(View(p, r)), p.width), CrcGenerator(p), p.width,
                        ToPoly(View(p, Remainder(p, data, r))))
  {
    var s, w, d := Padding(p), RegisterBits(p), Fed(p, data);
    var v, t := View(p, r), View(p, Remainder(p, data, r));
    RemainderIsRun(p, data, r);
    var q := RunDivides(RegisterPoly(p), d, Loaded(p, v));
    LoadedPoly(p, v);
    LoadedPoly(p, t);
    RegisterGenerator(p);
    DivisionCancel(ToPoly(t), Message(d), ToPoly(v), q, CrcGenerator(p), p.width, 8 * |d|, s);
  }

  /**
   A checksum is the one word that fits the CRC and stands for the remainder of
   message * x^width + initialValue * x^(8n) on division by x^width + polynomial.
   */
  lemma ChecksumIsTheRemainder(p: Parameters, data: seq<Byte>, crc: Word)
    requires p.Valid() && |crc| == p.typeBits
    ensures crc == Checksum(p, data) <==>
            && Fits(crc, p.width)
            && IsRemainder(Dividend(Fed(p, data), ToPoly(View(p, p.initialValue)), p.width),
                           CrcGenerator(p), p.width, Meaning(p, crc))
  {
    var c := Checksum(p, data);
    var a := Dividend(Fed(p, data), ToPoly(View(p, p.initialValue)), p.width);
    RemainderDivides(p, data, p.initialValue);
    FinalizedMeaning(p, Remainder(p, data, p.initialValue));
    if Fits(crc, p.width) && IsRemainder(a, CrcGenerator(p), p.width, Meaning(p, crc)) {
      RemainderUnique(a, CrcGenerator(p), p.width, Meaning(p, c), Meaning(p, crc));
      MeaningInjective(p, c, crc);
    }
  }

  lemma MeaningInjective(p: Parameters, c: Word, d: Word)
    requires p.Valid() && |c| == |d| == p.typeBits
    requires Fits(c, p.width) && Fits(d, p.width)
    requires Meaning(p, c) == Meaning(p, d)
    ensures c == d
  {
    forall i | 0 <= i < p.width ensures c[i] == d[i] {
      var x := if p.reflectOutput then p.width - 1 - i else i;
      assert x in Meaning(p, c) <==> c[i] != p.finalXOR[i];
      assert x in Meaning(p, d) <==> d[i] != p.finalXOR[i];
    }
  }

  // ---------- Multi-part computation ----------

  lemma FedAppend(p: Parameters, a: seq<Byte>, b: seq<Byte>)
    ensures Fed(p, a + b) == Fed(p, a) + Fed(p, b)
  {
  }

  lemma ViewDecides(p: Parameters, r: Word, s: Word)
    requires p.Valid() && |r| == |s| == p.typeBits
    requires View(p, r) == View(p, s)
    ensures Finalized(p, r) == Finalized(p, s)
  {
    forall i | 0 <= i < p.width ensures r[i] == s[i] {
      var x := if p.reflectInput then p.width - 1 - i else i;
      assert View(p, r)[x] == r[i] && View(p, s)[x] == s[i];
    }
  }

  /** A CRC taken in two parts is the CRC of the whole message. */
  lemma MultiPart(p: Parameters, a: seq<Byte>, b: seq<Byte>)
    requires p.Valid()
    ensures Continued(p, b, Checksum(p, a)) == Checksum(p, a + b)
  {
    var init := p.initialValue;
    var r := Remainder(p, a, init);
    var r' := Unfinalized(p, Finalized(p, r));
    UndoAfterFinalize(p, r);
    assert View(p, r') == View(p, r);
    RemainderIsRun(p, a, init);
    RemainderIsRun(p, b, r');
    RemainderIsRun(p, a + b, init);
    FedAppend(p, a, b);
    RunAppend(RegisterPoly(p), Fed(p, a), Fed(p, b), Loaded(p, View(p, init)));
    LoadedInjective(p, View(p, Remainder(p, b, r')), View(p, Remainder(p, a + b, init)));
    ViewDecides(p, Remainder(p, b, r'), Remainder(p, a + b, init));
  }

  // ---------- The lookup table ----------

  function TableEntry(p: Parameters, b: Byte): (e: Word)
    requires p.Valid()
    ensures |e| == p.typeBits
  {
    var crc := And(Remainder(p, [b], Zero(p.typeBits)), LowMask(p.typeBits, p.width));
    if !p.reflectInput && p.width < 8 then Shl(crc, 8 - p.width) else crc
  }

  /** No entry has bits above the register, nor below the CRC where that is placed at its top. */
  lemma EntryFits(p: Parameters, b: Byte)
    requires p.Valid()
    ensures Fits(TableEntry(p, b), RegisterBits(p)) && (p.reflectInput ==> Fits(TableEntry(p, b), p.width))
    ensures !p.reflectInput ==> forall i :: 0 <= i < Padding(p) ==> !TableEntry(p, b)[i]
  {
    hide Remainder;
  }

  /** The lookup table: entries are indexed by the value of a byte. */
  class Table {
    const parameters: Parameters
    const table: array<Word>

    ghost predicate Valid()
      reads table
    {
      && parameters.Valid()
      && table.Length == 256
      && forall b: Byte :: table[ByteValue(b)] == TableEntry(parameters, b)
    }

    constructor (p: Parameters)
      requires p.Valid()
      ensures Valid() && parameters == p && fresh(table)
    {
      parameters := p;
      table := new Word[256](_ => []);
      new;
      InitTable();
    }

    method InitTable()
      requires parameters.Valid() && table.Length == 256
      modifies table
      ensures Valid()
    {
      var p := parameters;
      for byte := 0 to 256
        invariant forall k :: 0 <= k < byte ==> table[k] == TableEntry(p, FromValue(k, 8))
      {
        var b: Byte := FromValue(byte, 8);
        var crc := CalculateRemainder([b], p, Zero(p.typeBits));
        crc := And(crc, LowMask(p.typeBits, p.width));
        if !p.reflectInput && p.width < 8 {
          crc := Shl(crc, 8 - p.width);
        }
        table[byte] := crc;
      }
    }

    /** The entry for an index cast to unsigned char. */
    function Lookup(index: Word): (e: Word)
      requires Valid()
      reads table
      ensures e == TableEntry(parameters, Cast(index, 8))
    {
      table[ByteValue(Cast(index, 8))]
    }
  }

  /** One byte of the reflected table loop. */
  function TableLowStep(p: Parameters, s: Word, b: Byte): (t: Word)
    requires p.Valid() && |s| == p.typeBits
    ensures |t| == p.typeBits
  {
    Xor(Shr(s, 8), TableEntry(p, Cast(Xor(s, Cast(b, p.typeBits)), 8)))
  }

  function TableLowRun(p: Parameters, data: seq<Byte>, r: Word): (s: Word)
    requires p.Valid() && |r| == p.typeBits
    ensures |s| == p.typeBits
  {
    if data == [] then r else TableLowStep(p, TableLowRun(p, data[..|data| - 1], r), data[|data| - 1])
  }

  /** One byte of the table loop that shifts left, for CRCs of eight bits or more. */
  function TableHighStep(p: Parameters, s: Word, b: Byte): (t: Word)
    requires p.Valid() && |s| == p.typeBits && p.width >= 8
    ensures |t| == p.typeBits
  {
    Xor(Shl(s, 8), TableEntry(p, Cast(Xor(Shr(s, p.width - 8), Cast(b, p.typeBits)), 8)))
  }

  function TableHighRun(p: Parameters, data: seq<Byte>, r: Word): (s: Word)
    requires p.Valid() && |r| == p.typeBits && p.width >= 8
    ensures |s| == p.typeBits
  {
    if data == [] then r else TableHighStep(p, TableHighRun(p, data[..|data| - 1], r), data[|data| - 1])
  }

  /** One byte of the table loop for CRCs of less than eight bits. */
  function TableNarrowStep(p: Parameters, s: Word, b: Byte): (t: Word)
    requires p.Valid() && |s| == p.typeBits
    ensures |t| == p.typeBits
  {
    TableEntry(p, Cast(Xor(s, Cast(b, p.typeBits)), 8))
  }

  function TableNarrowRun(p: Parameters, data: seq<Byte>, r: Word): (s: Word)
    requires p.Valid() && |r| == p.typeBits
    ensures |s| == p.typeBits
  {
    if data == [] then r else TableNarrowStep(p, TableNarrowRun(p, data[..|data| - 1], r), data[|data| - 1])
  }

  function TableRemainder(p: Parameters, data: seq<Byte>, r: Word): (s: Word)
    requires p.Valid() && |r| == p.typeBits
    ensures |s| == p.typeBits
  {
    if p.reflectInput then TableLowRun(p, data, r)
    else if p.width >= 8 then TableHighRun(p, data, r)
    else Shr(TableNarrowRun(p, data, Shl(r, 8 - p.width)), 8 - p.width)
  }

  method CalculateRemainderByTable(data: seq<Byte>, lookupTable: Table, remainder: Word) returns (r: Word)
    requires lookupTable.Valid() && |remainder| == lookupTable.parameters.typeBits
    ensures r == TableRemainder(lookupTable.parameters, data, remainder)
  {
    hide TableEntry, Xor, Shl, Shr, Cast;
    var p := lookupTable.parameters;
    r := remainder;
    if p.reflectInput {
      for current := 0 to |data|
        invariant |r| == p.typeBits
        invariant r == TableLowRun(p, data[..current], remainder)
      {
        r := Xor(Shr(r, 8), lookupTable.Lookup(Xor(r, Cast(data[current], p.typeBits))));
        assert data[..current + 1][..current] == data[..current];
      }
    } else if p.width >= 8 {
      for current := 0 to |data|
        invariant |r| == p.typeBits
        invariant r == TableHighRun(p, data[..current], remainder)
      {
        r := Xor(Shl(r, 8), lookupTable.Lookup(Xor(Shr(r, p.width - 8), Cast(data[current], p.typeBits))));
        assert data[..current + 1][..current] == data[..current];
      }
    } else {
      r := Shl(r, 8 - p.width);
      for current := 0 to |data|
        invariant |r| == p.typeBits
        invariant r == TableNarrowRun(p, data[..current], Shl(remainder, 8 - p.width))
      {
        r := lookupTable.Lookup(Xor(r, Cast(data[current], p.typeBits)));
        assert data[..current + 1][..current] == data[..current];
      }
      r := Shr(r, 8 - p.width);
    }
    assert data[..|data|] == data;
  }

  lemma RunOne(poly: Word, b: Byte, r: Word)
    requires |poly| == |r| >= 8
    ensures Run(poly, [b], r) == Absorb(poly, r, b)
  {
    assert [b][..0] == [];
    assert Run(poly, [], r) == r;
  }

  /** A table entry holds the effect of one byte on an empty register. */
  lemma EntryIsAbsorb(p: Parameters, b: Byte)
    requires p.Valid() && !p.reflectInput
    ensures TableEntry(p, b)[..RegisterBits(p)] == Absorb(RegisterPoly(p), Zero(RegisterBits(p)), b)
  {
    var z, w, s := Zero(p.typeBits), RegisterBits(p), Padding(p);
    RemainderIsRun(p, [b], z);
    RunOne(RegisterPoly(p), b, Loaded(p, View(p, z)));
    assert Loaded(p, View(p, z)) == Zero(w);
    var r := Remainder(p, [b], z);
    assert Fed(p, [b]) == [b];
    forall i | 0 <= i < w ensures TableEntry(p, b)[i] == Loaded(p, View(p, r))[i] {
    }
  }

  lemma {:induction false} TableHighRunAgrees(p: Parameters, data: seq<Byte>, r: Word)
    requires p.Valid() && |r| == p.typeBits && p.width >= 8 && !p.reflectInput
    ensures TableHighRun(p, data, r)[..p.width] == Run(RegisterPoly(p), data, r[..p.width])
  {
    if data != [] {
      var n, w := |data| - 1, p.width;
      TableHighRunAgrees(p, data[..n], r);
      var s := TableHighRun(p, data[..n], r);
      HighStepAgrees(p, s, data[n]);
    }
  }

  lemma HighStepAgrees(p: Parameters, s: Word, b: Byte)
    requires p.Valid() && |s| == p.typeBits && p.width >= 8 && !p.reflectInput
    ensures TableHighStep(p, s, b)[..p.width] == Absorb(RegisterPoly(p), s[..p.width], b)
  {
    hide Xor, Shl, Shr, Cast, Top, Absorb, TableEntry, RegisterPoly;
    var w := p.width;
    var index: Byte := Cast(Xor(Shr(s, w - 8), Cast(b, p.typeBits)), 8);
    EntryIsAbsorb(p, index);
    AbsorbByTable(RegisterPoly(p), s[..w], b);
    IndexIsTop(s, b, w);
    XorShlLow(s, TableEntry(p, index), w);
  }

  /** The byte that indexes the table is the top of the register, xor the data. */
  lemma IndexIsTop(s: Word, b: Byte, w: nat)
    requires 8 <= w <= |s|
    ensures Cast(Xor(Shr(s, w - 8), Cast(b, |s|)), 8) == Xor(Top(s[..w]), b)
  {
  }

  lemma XorShlLow(s: Word, e: Word, w: nat)
    requires |s| == |e| >= w
    ensures Xor(Shl(s, 8), e)[..w] == Xor(Shl(s[..w], 8), e[..w])
  {
  }

  lemma {:induction false} TableNarrowRunAgrees(p: Parameters, data: seq<Byte>, r: Word)
    requires p.Valid() && |r| == p.typeBits && p.width < 8 && !p.reflectInput
    ensures TableNarrowRun(p, data, r)[..8] == Run(RegisterPoly(p), data, r[..8])
  {
    if data != [] {
      var n := |data| - 1;
      TableNarrowRunAgrees(p, data[..n], r);
      var s := TableNarrowRun(p, data[..n], r);
      NarrowStepAgrees(p, s, data[n]);
    }
  }

  lemma NarrowStepAgrees(p: Parameters, s: Word, b: Byte)
    requires p.Valid() && |s| == p.typeBits && p.width < 8 && !p.reflectInput
    ensures TableNarrowStep(p, s, b)[..8] == Absorb(RegisterPoly(p), s[..8], b)
  {
    var index: Byte := Cast(Xor(s, Cast(b, p.typeBits)), 8);
    EntryIsAbsorb(p, index);
    AbsorbByTable(RegisterPoly(p), s[..8], b);
    assert index == Xor(Top(s[..8]), b);
    var e := TableEntry(p, index)[..8];
    assert Xor(Shl(s[..8], 8), e) == e;
  }

  /** In the reflected branch an entry is the unmasked effect of one byte, over the whole type. */
  lemma ReflectedEntry(p: Parameters, b: Byte)
    requires p.Valid() && p.reflectInput
    ensures Mirror(TableEntry(p, b), p.typeBits)
         == Absorb(Mirror(Reflected(p.polynomial, p.width), p.typeBits), Zero(p.typeBits), Mirror(b, 8))
  {
    var n, poly, z := p.typeBits, Reflected(p.polynomial, p.width), Zero(p.typeBits);
    RemainderIsRun(p, [b], z);
    var r := Remainder(p, [b], z);
    assert TableEntry(p, b) == r;
    LowRunMirror(p, n, poly, [b], z);
    assert Fed(p, [b]) == [Mirror(b, 8)];
    assert Mirror(z, n) == z;
    RunOne(Mirror(poly, n), Mirror(b, 8), z);
  }

  lemma {:induction false} TableLowRunAgrees(p: Parameters, data: seq<Byte>, r: Word)
    requires p.Valid() && |r| == p.typeBits && p.reflectInput
    ensures Mirror(TableLowRun(p, data, r), p.typeBits)
         == Run(Mirror(Reflected(p.polynomial, p.width), p.typeBits), Fed(p, data), Mirror(r, p.typeBits))
  {
    if data != [] {
      var n, k := p.typeBits, |data| - 1;
      TableLowRunAgrees(p, data[..k], r);
      assert Fed(p, data)[..k] == Fed(p, data[..k]);
      var s := TableLowRun(p, data[..k], r);
      LowStepAgrees(p, s, data[k]);
    }
  }

  lemma LowStepAgrees(p: Parameters, s: Word, b: Byte)
    requires p.Valid() && |s| == p.typeBits && p.reflectInput
    ensures Mirror(TableLowStep(p, s, b), p.typeBits)
         == Absorb(Mirror(Reflected(p.polynomial, p.width), p.typeBits), Mirror(s, p.typeBits), Mirror(b, 8))
  {
    var n, m := p.typeBits, Mirror(s, p.typeBits);
    var index: Byte := Cast(Xor(s, Cast(b, n)), 8);
    ReflectedEntry(p, index);
    AbsorbByTable(Mirror(Reflected(p.polynomial, p.width), n), m, Mirror(b, 8));
    assert Mirror(index, 8) == Xor(Top(m), Mirror(b, 8));
    MirrorXorShr(s, TableEntry(p, index));
  }

  lemma MirrorXorShr(s: Word, e: Word)
    requires |s| == |e|
    ensures Mirror(Xor(Shr(s, 8), e), |s|) == Xor(Shl(Mirror(s, |s|), 8), Mirror(e, |s|))
  {
  }

  /**
   The table-driven remainder has the same CRC bits as the bit-by-bit one, from any register contents,
   in all branches; in the reflected branch the whole words are equal.
   */
  lemma TableAgrees(p: Parameters, data: seq<Byte>, r: Word)
    requires p.Valid() && |r| == p.typeBits
    ensures View(p, TableRemainder(p, data, r)) == View(p, Remainder(p, data, r))
    ensures p.reflectInput ==> TableRemainder(p, data, r) == Remainder(p, data, r)
  {
    if p.reflectInput {
      ReflectedTableAgrees(p, data, r);
    } else if p.width >= 8 {
      TableHighRunAgrees(p, data, r);
      HighRunLow(p.width, p.polynomial, data, r);
      assert RegisterPoly(p) == p.polynomial[..p.width];
    } else {
      NarrowTableAgrees(p, data, r);
    }
  }

  lemma ReflectedTableAgrees(p: Parameters, data: seq<Byte>, r: Word)
    requires p.Valid() && |r| == p.typeBits && p.reflectInput
    ensures TableRemainder(p, data, r) == Remainder(p, data, r)
  {
    var n, poly := p.typeBits, Reflected(p.polynomial, p.width);
    TableLowRunAgrees(p, data, r);
    LowRunMirror(p, n, poly, data, r);
    MirrorInjective(TableLowRun(p, data, r), LowRun(poly, data, r));
  }

  lemma NarrowTableAgrees(p: Parameters, data: seq<Byte>, r: Word)
    requires p.Valid() && |r| == p.typeBits && p.width < 8 && !p.reflectInput
    ensures TableRemainder(p, data, r)[..p.width] == Remainder(p, data, r)[..p.width]
  {
    var s := Padding(p);
    var r' := Shl(r, s);
    NarrowRunsAgree(p, data, r');
    var t, u := TableNarrowRun(p, data, r'), HighRun(8, Shl(p.polynomial, s), data, r');
    ShrLow(t, u, 8, s);
    assert TableRemainder(p, data, r) == Shr(t, s);
    assert Remainder(p, data, r) == Shr(u, s);
  }

  lemma NarrowRunsAgree(p: Parameters, data: seq<Byte>, r: Word)
    requires p.Valid() && |r| == p.typeBits && p.width < 8 && !p.reflectInput
    ensures TableNarrowRun(p, data, r)[..8] == HighRun(8, Shl(p.polynomial, Padding(p)), data, r)[..8]
  {
    TableNarrowRunAgrees(p, data, r);
    HighRunLow(8, Shl(p.polynomial, Padding(p)), data, r);
    NarrowPoly(p);
  }

  lemma ShrLow(t: Word, u: Word, n: nat, s: nat)
    requires |t| == |u| && s <= n <= |t| && t[..n] == u[..n]
    ensures Shr(t, s)[..n - s] == Shr(u, s)[..n - s]
  {
    forall i | 0 <= i < n - s ensures Shr(t, s)[i] == Shr(u, s)[i] {
      assert t[..n][i + s] == u[..n][i + s];
    }
  }

  method CalculateByTable(data: seq<Byte>, lookupTable: Table) returns (crc: Word)
    requires lookupTable.Valid()
    ensures crc == Checksum(lookupTable.parameters, data)
  {
    var p := lookupTable.parameters;
    var remainder := CalculateRemainderByTable(data, lookupTable, p.initialValue);
    crc := Finalize(p, remainder);
    TableAgrees(p, data, p.initialValue);
    ViewDecides(p, remainder, Remainder(p, data, p.initialValue));
  }

  method CalculatePartByTable(data: seq<Byte>, lookupTable: Table, previous: Word) returns (crc: Word)
    requires lookupTable.Valid() && |previous| == lookupTable.parameters.typeBits
    ensures crc == Continued(lookupTable.parameters, data, previous)
  {
    var p := lookupTable.parameters;
    var start := UndoFinalize(p, previous);
    var remainder := CalculateRemainderByTable(data, lookupTable, start);
    crc := Finalize(p, remainder);
    TableAgrees(p, data, start);
    ViewDecides(p, remainder, Remainder(p, data, start));
  }
}
