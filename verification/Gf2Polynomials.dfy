/**
 Polynomials over the two-element field. A polynomial is the set of the exponents whose
 coefficient is one, so addition is symmetric difference. Multiplication takes its left factor
 as a list of coefficients, constant term first.
 */
module Gf2Polynomials {

  type Poly = iset<int>

  ghost function Add(a: Poly, b: Poly): (r: Poly)
    ensures forall x {:trigger x in r} :: x in r <==> (x in a) != (x in b)
  {
    iset x: int | (x in a) != (x in b)
  }

  /** a times the k-th power of the indeterminate. */
  ghost function Shift(a: Poly, k: int): (r: Poly)
    ensures forall x {:trigger x in r} :: x in r <==> x - k in a
  {
    iset x: int | Minus(x, k) in a
  }

  function Minus(x: int, k: int): int {
    x - k
  }

  ghost function Times(c: bool, a: Poly): Poly {
    if c then a else iset{}
  }

  ghost function Mul(q: seq<bool>, g: Poly): Poly {
    if q == [] then iset{} else Add(Times(q[0], g), Shift(Mul(q[1..], g), 1))
  }

  /** g is monic of degree w. */
  ghost predicate Monic(g: Poly, w: nat) {
    w in g && forall e :: e in g ==> 0 <= e <= w
  }

  /** r is a remainder of a on division by the monic polynomial g of degree w. */
  ghost predicate IsRemainder(a: Poly, g: Poly, w: nat, r: Poly) {
    && (forall e :: e in r ==> 0 <= e < w)
    && exists q :: a == Add(Mul(q, g), r)
  }

  lemma ShiftShift(a: Poly, j: int, k: int)
    ensures Shift(Shift(a, j), k) == Shift(a, j + k)
  {
    assert forall x :: x in Shift(Shift(a, j), k) <==> x in Shift(a, j + k);
  }

  lemma ShiftAdd(a: Poly, b: Poly, k: int)
    ensures Shift(Add(a, b), k) == Add(Shift(a, k), Shift(b, k))
  {
    assert forall x :: x in Shift(Add(a, b), k) <==> x in Add(Shift(a, k), Shift(b, k));
  }

  lemma ShiftCancel(a: Poly, b: Poly, k: int)
    requires Shift(a, k) == Shift(b, k)
    ensures a == b
  {
    forall x ensures x in a <==> x in b {
      assert (x + k) - k == x;
      assert x + k in Shift(a, k) <==> x in a;
      assert x + k in Shift(b, k) <==> x in b;
    }
  }

  lemma {:induction false} MulShift(q: seq<bool>, g: Poly, k: int)
    ensures Mul(q, Shift(g, k)) == Shift(Mul(q, g), k)
  {
    if q == [] {
      assert forall x :: x !in Shift(Mul(q, g), k);
    } else {
      var m := Mul(q[1..], g);
      MulShift(q[1..], g, k);
      ShiftAdd(Times(q[0], g), Shift(m, 1), k);
      ShiftShift(m, 1, k);
      ShiftShift(m, k, 1);
      assert Times(q[0], Shift(g, k)) == Shift(Times(q[0], g), k);
    }
  }

  lemma {:induction false} MulAppend(p: seq<bool>, q: seq<bool>, g: Poly)
    ensures Mul(p + q, g) == Add(Mul(p, g), Shift(Mul(q, g), |p|))
  {
    if p == [] {
      assert p + q == q;
      assert forall x :: x in Mul(q, g) <==> x in Add(Mul(p, g), Shift(Mul(q, g), 0));
    } else {
      MulAppend(p[1..], q, g);
      assert (p + q)[1..] == p[1..] + q;
      ShiftAdd(Mul(p[1..], g), Shift(Mul(q, g), |p| - 1), 1);
      ShiftShift(Mul(q, g), |p| - 1, 1);
      assert forall x :: x in Mul(p + q, g) <==> x in Add(Mul(p, g), Shift(Mul(q, g), |p|));
    }
  }

  /** A common power of the indeterminate cancels from a division. */
  lemma DivisionCancel(t: Poly, m: Poly, v: Poly, q: seq<bool>, g: Poly, w: int, n: int, s: int)
    requires Shift(t, s) == Add(Add(Shift(m, w + s), Shift(Shift(v, s), n)), Mul(q, Shift(g, s)))
    ensures Add(Shift(m, w), Shift(v, n)) == Add(Mul(q, g), t)
  {
    var a := Add(Shift(m, w), Shift(v, n));
    MulShift(q, g, s);
    ShiftAdd(a, Mul(q, g), s);
    ShiftAdd(Shift(m, w), Shift(v, n), s);
    ShiftShift(m, w, s);
    ShiftShift(v, n, s);
    ShiftShift(v, s, n);
    ShiftCancel(t, Add(a, Mul(q, g)), s);
    forall x ensures x in a <==> x in Add(Mul(q, g), t) {
      assert x in t <==> x in Add(a, Mul(q, g));
    }
  }

  function XorLists(p: seq<bool>, q: seq<bool>): seq<bool> {
    if p == [] then q else if q == [] then p else [p[0] != q[0]] + XorLists(p[1..], q[1..])
  }

  lemma {:induction false} MulAdd(p: seq<bool>, q: seq<bool>, g: Poly)
    ensures Mul(XorLists(p, q), g) == Add(Mul(p, g), Mul(q, g))
  {
    if p != [] && q != [] {
      MulAdd(p[1..], q[1..], g);
      ShiftAdd(Mul(p[1..], g), Mul(q[1..], g), 1);
      assert XorLists(p, q)[1..] == XorLists(p[1..], q[1..]);
      assert forall x :: x in Mul(XorLists(p, q), g) <==> x in Add(Mul(p, g), Mul(q, g));
    } else {
      assert forall x :: x in Mul(XorLists(p, q), g) <==> x in Add(Mul(p, g), Mul(q, g));
    }
  }

  /** A product is zero, or its degree is that of the monic factor plus that of the other one. */
  lemma {:induction false} MulDegree(q: seq<bool>, g: Poly, w: nat) returns (d: int)
    requires Monic(g, w)
    ensures -1 <= d < |q|
    ensures d == -1 ==> Mul(q, g) == iset{}
    ensures d >= 0 ==> d + w in Mul(q, g) && forall e :: e in Mul(q, g) ==> e <= d + w
  {
    if q == [] {
      d := -1;
    } else {
      var t := MulDegree(q[1..], g, w);
      var tail := Shift(Mul(q[1..], g), 1);
      if t >= 0 {
        d := t + 1;
        assert d + w in tail;
      } else if q[0] {
        d := 0;
      } else {
        d := -1;
        assert forall x :: x !in Mul(q, g);
      }
    }
  }

  /** Division with remainder by a monic polynomial has one answer. */
  lemma RemainderUnique(a: Poly, g: Poly, w: nat, r: Poly, s: Poly)
    requires Monic(g, w)
    requires IsRemainder(a, g, w, r) && IsRemainder(a, g, w, s)
    ensures r == s
  {
    var p :| a == Add(Mul(p, g), r);
    var q :| a == Add(Mul(q, g), s);
    MulAdd(p, q, g);
    var m := Mul(XorLists(p, q), g);
    forall x ensures x in m <==> x in Add(r, s) {
      assert x in a <==> x in Add(Mul(p, g), r);
      assert x in a <==> x in Add(Mul(q, g), s);
    }
    assert forall e :: e in m ==> e < w;
    var d := MulDegree(XorLists(p, q), g, w);
    forall x ensures x in r <==> x in s {
      assert x in Add(r, s) <==> x in m;
    }
  }
}
