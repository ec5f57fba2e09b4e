/**
 The counts of one bits of src/base/bit.c on unsigned words, as numbers below a power of two: the parallel
 sums of the 32- and 64-bit counts.
 */
module BitCounting {
  import opened Arithmetic

  /** The number of one bits. */
  function Ones(x: nat): nat {
    if x == 0 then 0 else x % 2 + Ones(x / 2)
  }

  const WORD32: nat := 0x1_0000_0000
  const WORD64: nat := 0x1_0000_0000_0000_0000

  // ---------- Parallel sums ----------

  /** n fields of the given base, each with the digit d. */
  function Repeat(base: nat, d: nat, n: nat): nat {
    if n == 0 then 0 else d + base * Repeat(base, d, n - 1)
  }

  /** The words whose fields of two, four and eight bits hold the bit counts of those fields of x. */
  function Pairs(x: nat, n: nat): nat {
    if n == 0 then 0 else Ones(x % 4) + 4 * Pairs(x / 4, n - 1)
  }

  function Nibbles(x: nat, n: nat): nat {
    if n == 0 then 0 else Ones(x % 16) + 16 * Nibbles(x / 16, n - 1)
  }

  function Bytes(x: nat, n: nat): nat {
    if n == 0 then 0 else Ones(x % 256) + 256 * Bytes(x / 256, n - 1)
  }

  lemma BitAndSplit(a: nat, b: nat)
    ensures BitAnd(a, b) == (if a % 2 == 1 && b % 2 == 1 then 1 else 0) + 2 * BitAnd(a / 2, b / 2)
  {
  }

  lemma OnesPair(d: nat)
    requires d < 4
    ensures Ones(d) == d - d / 2
  {
    assert Ones(d) == d % 2 + Ones(d / 2);
  }

  /** Counts add up over two fields. */
  lemma OnesSplit2(d: nat)
    ensures Ones(d) == Ones(d % 4) + Ones(d / 4)
  {
    OnesPair(d % 4);
    assert Ones(d) == d % 2 + Ones(d / 2);
    assert Ones(d / 2) == d / 2 % 2 + Ones(d / 2 / 2);
    assert d / 2 / 2 == d / 4;
  }

  lemma OnesSplit4(d: nat)
    ensures Ones(d) == Ones(d % 16) + Ones(d / 16)
  {
    hide Ones;
    OnesSplit2(d);
    OnesSplit2(d / 4);
    OnesSplit2(d % 16);
    assert d % 16 % 4 == d % 4 && d % 16 / 4 == d / 4 % 4 && d / 4 / 4 == d / 16;
    SmallOnes(d / 4 % 4);
  }

  lemma SmallOnes(d: nat)
    requires d < 4
    ensures Ones(d) == Ones(d % 4) && Ones(d) <= 2
  {
    OnesPair(d);
  }

  lemma OnesSplit8(d: nat)
    ensures Ones(d) == Ones(d % 256) + Ones(d / 256)
  {
    hide Ones;
    OnesSplit4(d);
    OnesSplit4(d / 16);
    OnesSplit4(d % 256);
    assert d % 256 % 16 == d % 16 && d % 256 / 16 == d / 16 % 16 && d / 16 / 16 == d / 256;
  }

  lemma NibbleOnes(d: nat)
    requires d < 16
    ensures Ones(d) == Ones(d % 4) + Ones(d / 4) <= 4
  {
    hide Ones;
    OnesSplit2(d);
    SmallOnes(d % 4);
    SmallOnes(d / 4);
  }

  lemma ByteOnesBound(d: nat)
    requires d < 256
    ensures Ones(d) == Ones(d % 16) + Ones(d / 16) <= 8
  {
    hide Ones;
    OnesSplit4(d);
    NibbleOnes(d % 16);
    NibbleOnes(d / 16);
  }

  /** The odd bits, moved onto the even ones: (x >> 1) & 0x55...5. */
  lemma OddBits(x: nat, m: nat)
    ensures BitAnd(x / 2, 1 + 4 * m) == x % 4 / 2 + 4 * BitAnd(x / 4 / 2, m)
  {
    hide BitAnd;
    BitAndSplit(x / 2, 1 + 4 * m);
    BitAndSplit(x / 2 / 2, 2 * m);
    assert x / 2 % 2 == x % 4 / 2;
    assert x / 2 / 2 / 2 == x / 4 / 2;
  }

  /** First step: x - ((x >> 1) & 0x55...5) counts in fields of two bits. */
  lemma {:induction false} PairCounts(x: nat, n: nat)
    requires x < Power(4, n)
    ensures x - BitAnd(x / 2, Repeat(4, 1, n)) == Pairs(x, n)
  {
    hide BitAnd, Ones;
    if n == 0 {
      BitAndSplit(0, 0);
      AndZero(x / 2);
    } else {
      PairCounts(x / 4, n - 1);
      OddBits(x, Repeat(4, 1, n - 1));
      OnesPair(x % 4);
    }
  }

  lemma AndZero(a: nat)
    ensures BitAnd(a, 0) == 0
  {
  }

  lemma LowTwo(y: nat, m: nat)
    ensures BitAnd(y, 3 + 4 * m) == y % 4 + 4 * BitAnd(y / 4, m)
  {
    hide BitAnd;
    BitAndSplit(y, 3 + 4 * m);
    BitAndSplit(y / 2, 1 + 2 * m);
    assert y / 2 / 2 == y / 4;
  }

  lemma SkipTwo(y: nat, m: nat)
    ensures BitAnd(y, 4 * m) == 4 * BitAnd(y / 4, m)
  {
    hide BitAnd;
    BitAndSplit(y, 4 * m);
    BitAndSplit(y / 2, 2 * m);
    assert y / 2 / 2 == y / 4;
  }

  lemma MaskNibble(y: nat, m: nat)
    ensures BitAnd(y, 3 + 16 * m) == y % 4 + 16 * BitAnd(y / 16, m)
  {
    hide BitAnd;
    LowTwo(y, 4 * m);
    SkipTwo(y / 4, m);
    assert y / 4 / 4 == y / 16;
  }

  lemma MaskByte(y: nat, m: nat)
    ensures BitAnd(y, 15 + 256 * m) == y % 16 + 256 * BitAnd(y / 256, m)
  {
    hide BitAnd;
    LowTwo(y, 3 + 64 * m);
    LowTwo(y / 4, 16 * m);
    SkipTwo(y / 4 / 4, 4 * m);
    SkipTwo(y / 4 / 4 / 4, m);
    assert y / 4 / 4 / 4 / 4 == y / 256;
    assert y % 16 == y % 4 + 4 * (y / 4 % 4);
  }

  lemma PairsTwice(x: nat, n: nat)
    requires n > 0
    ensures Pairs(x, 2 * n) == Ones(x % 4) + 4 * Ones(x / 4 % 4) + 16 * Pairs(x / 16, 2 * n - 2)
  {
    hide Ones;
    assert x / 4 / 4 == x / 16;
    assert Pairs(x / 4, 2 * n - 1) == Ones(x / 4 % 4) + 4 * Pairs(x / 4 / 4, 2 * n - 2);
  }

  lemma DigitsOf16(x: nat)
    ensures x % 16 % 4 == x % 4 && x % 16 / 4 == x / 4 % 4
  {
  }

  lemma DigitsOf256(x: nat)
    ensures x % 256 % 16 == x % 16 && x % 256 / 16 == x / 16 % 16
  {
  }

  lemma TwoPairs(a: nat, b: nat, q: nat)
    requires a < 4 && b < 4
    ensures var y := a + 4 * b + 16 * q;
            y % 4 == a && y / 4 % 4 == b && y / 16 == q && y / 4 / 16 == q / 4
  {
    var y := a + 4 * b + 16 * q;
    assert y / 4 == b + 4 * q;
  }

  /** Second step: (y & 0x33...3) + ((y >> 2) & 0x33...3) counts in fields of four bits. */
  lemma {:induction false} NibbleCounts(x: nat, n: nat)
    ensures var y := Pairs(x, 2 * n);
            BitAnd(y, Repeat(16, 3, n)) + BitAnd(y / 4, Repeat(16, 3, n)) == Nibbles(x, n)
  {
    hide BitAnd, Ones, Pairs;
    if n == 0 {
      AndZero(Pairs(x, 0));
      AndZero(Pairs(x, 0) / 4);
    } else {
      var a, b, q, m := Ones(x % 4), Ones(x / 4 % 4), Pairs(x / 16, 2 * n - 2), Repeat(16, 3, n - 1);
      var y := Pairs(x, 2 * n);
      PairsTwice(x, n);
      SmallOnes(x % 4);
      SmallOnes(x / 4 % 4);
      TwoPairs(a, b, q);
      NibbleCounts(x / 16, n - 1);
      MaskNibble(y, m);
      MaskNibble(y / 4, m);
      NibbleOnes(x % 16);
      DigitsOf16(x);
    }
  }

  lemma {:induction false} LowNibble(x: nat, n: nat)
    ensures Nibbles(x, n) % 16 <= 4
  {
    hide Ones;
    if n > 0 {
      NibbleOnes(x % 16);
    }
  }

  lemma NibblesTwice(x: nat, n: nat)
    requires n > 0
    ensures Nibbles(x, 2 * n) == Ones(x % 16) + 16 * Ones(x / 16 % 16) + 256 * Nibbles(x / 256, 2 * n - 2)
  {
    hide Ones;
    assert x / 16 / 16 == x / 256;
    assert Nibbles(x / 16, 2 * n - 1) == Ones(x / 16 % 16) + 16 * Nibbles(x / 16 / 16, 2 * n - 2);
  }

  /** Third step: (z + (z >> 4)) & 0x0F...0F counts in fields of eight bits. */
  lemma {:induction false} ByteCounts(x: nat, n: nat)
    ensures var z := Nibbles(x, 2 * n);
            BitAnd(z + z / 16, Repeat(256, 15, n)) == Bytes(x, n)
  {
    hide BitAnd, Ones, Nibbles;
    if n == 0 {
      AndZero(Nibbles(x, 0) + Nibbles(x, 0) / 16);
    } else {
      var a, b, q, m := Ones(x % 16), Ones(x / 16 % 16), Nibbles(x / 256, 2 * n - 2), Repeat(256, 15, n - 1);
      var z := Nibbles(x, 2 * n);
      NibblesTwice(x, n);
      NibbleOnes(x % 16);
      NibbleOnes(x / 16 % 16);
      LowNibble(x / 256, 2 * n - 2);
      ByteCounts(x / 256, n - 1);
      NoCarry(a, b, q);
      MaskByte(z + z / 16, m);
      ByteOnesBound(x % 256);
      DigitsOf256(x);
    }
  }

  lemma NoCarry(a: nat, b: nat, q: nat)
    requires a <= 4 && b <= 4 && q % 16 <= 4
    ensures var z := a + 16 * b + 256 * q;
            (z + z / 16) % 16 == a + b && (z + z / 16) / 256 == q + q / 16
  {
    var z := a + 16 * b + 256 * q;
    var h, k := q / 16, q % 16;
    ModUnique(z, 16, b + 16 * q, a);
    var x := z + z / 16;
    assert x == (a + b) + 16 * (b + k) + 256 * (q + h);
    ModUnique(x, 16, (b + k) + 16 * (q + h), a + b);
    ModUnique(x, 256, q + h, (a + b) + 16 * (b + k));
  }

  // ---------- The last step: one multiplication adds all bytes ----------

  /** Fields of eight bits hold the counts of the bytes of x, and the counts of all bytes make the count of x. */
  function TotalOf(x: nat, n: nat): nat {
    if n == 0 then 0 else Ones(x % 256) + TotalOf(x / 256, n - 1)
  }

  lemma {:induction false} TotalIsOnes(x: nat, n: nat)
    requires x < Power(256, n)
    ensures TotalOf(x, n) == Ones(x) <= 8 * n
  {
    if n > 0 {
      OnesSplit8(x);
      ByteOnesBound(x % 256);
      TotalIsOnes(x / 256, n - 1);
    }
  }

  lemma {:induction false} RepeatTop(n: nat)
    ensures Repeat(256, 1, n + 1) == Repeat(256, 1, n) + Power(256, n)
    ensures 255 * Repeat(256, 1, n) == Power(256, n) - 1
  {
    if n > 0 {
      RepeatTop(n - 1);
    }
  }

  /** The product is the total in the top byte, something smaller below it, and what overflows. */
  lemma {:induction false} ProductParts(x: nat, n: nat) returns (low: nat, over: nat)
    requires n > 0
    ensures Bytes(x, n) * Repeat(256, 1, n) == TotalOf(x, n) * Power(256, n - 1) + low + Power(256, n) * over
    ensures low <= TotalOf(x, n) * Repeat(256, 1, n - 1)
  {
    hide Ones;
    var c := Ones(x % 256);
    if n == 1 {
      low, over := 0, 0;
      assert Bytes(x, 1) == c + 256 * Bytes(x / 256, 0) == c;
      assert TotalOf(x, 1) == c + TotalOf(x / 256, 0) == c;
      assert Repeat(256, 1, 1) == 1 && Power(256, 0) == 1;
    } else {
      var q, s := Bytes(x / 256, n - 1), TotalOf(x / 256, n - 1);
      var r, p := Repeat(256, 1, n - 1), Power(256, n - 1);
      var low', over' := ProductParts(x / 256, n - 1);
      low, over := c * r + 256 * low', over' + q;
      RepeatTop(n - 1);
      ProductStep(c, q, s, r, p, Power(256, n - 2), low', over');
      LowStep(c, s, r, Repeat(256, 1, n - 2), low');
    }
  }

  lemma ProductStep(c: nat, q: nat, s: nat, r: nat, p: nat, p': nat, low: nat, over: nat)
    requires q * r == s * p' + low + p * over && p == 256 * p'
    ensures (c + 256 * q) * (r + p) == (c + s) * p + (c * r + 256 * low) + 256 * p * (over + q)
  {
    assert (c + 256 * q) * (r + p) == c * r + c * p + 256 * (q * r) + 256 * q * p;
    assert 256 * (q * r) == 256 * (s * p') + 256 * low + 256 * (p * over);
    assert 256 * (s * p') == s * p;
    assert (c + s) * p == c * p + s * p;
    assert 256 * p * (over + q) == 256 * (p * over) + 256 * q * p;
  }

  lemma LowStep(c: nat, s: nat, r: nat, r': nat, low: nat)
    requires low <= s * r' && r == 1 + 256 * r'
    ensures c * r + 256 * low <= (c + s) * r
  {
    assert (c + s) * r == c * r + s * r;
    assert s * r == s + 256 * (s * r');
  }

  /** Multiplying by 0x01...01 and keeping the top byte adds up all bytes. */
  lemma TopByteIsTotal(x: nat, n: nat)
    requires n > 0 && TotalOf(x, n) <= 255
    ensures Power(256, n) > 0 && Power(256, n - 1) > 0
    ensures Bytes(x, n) * Repeat(256, 1, n) % Power(256, n) / Power(256, n - 1) == TotalOf(x, n)
  {
    var low, over := ProductParts(x, n);
    var s, p := TotalOf(x, n), Power(256, n - 1);
    RepeatTop(n - 1);
    MulBound(s, 255, Repeat(256, 1, n - 1));
    assert low < p && Power(256, n) == 256 * p;
    TopDigit(Bytes(x, n) * Repeat(256, 1, n), s, p, low, over);
  }

  lemma TopDigit(v: nat, s: nat, p: nat, low: nat, over: nat)
    requires v == s * p + low + 256 * p * over && low < p && s <= 255
    ensures v % (256 * p) / p == s
  {
    MulBound(s, 255, p);
    ModUnique(v, 256 * p, over, s * p + low);
    assert s * p + low == p * s + low;
    ModUnique(s * p + low, p, s, low);
  }

  lemma MulBound(a: nat, b: nat, m: nat)
    requires a <= b
    ensures a * m <= b * m
  {
    assert b * m == a * m + (b - a) * m;
  }

  // ---------- The counts of the source ----------

  lemma {:induction false} PowerSquare(b: nat, n: nat)
    ensures Power(b, 2 * n) == Power(b * b, n)
  {
    if n > 0 {
      PowerSquare(b, n - 1);
      assert Power(b, 2 * n) == b * (b * Power(b, 2 * n - 2));
      assert b * (b * Power(b, 2 * n - 2)) == (b * b) * Power(b, 2 * n - 2);
    }
  }

  lemma {:induction false} NibblesBound(x: nat, m: nat)
    ensures 15 * Nibbles(x, m) <= 4 * (Power(16, m) - 1)
  {
    hide Ones;
    if m > 0 {
      NibbleOnes(x % 16);
      NibblesBound(x / 16, m - 1);
    }
  }

  /** The whole ladder for a word of n bytes gives the bit count, and none of its sums overflows. */
  lemma LadderCounts(x: nat, n: nat, i: int, j: int)
    requires 0 < n <= 8 && x < Power(256, n)
    requires i == x - BitAnd(x / 2, Repeat(4, 1, 4 * n))
    requires i >= 0 ==> j == BitAnd(i, Repeat(16, 3, 2 * n)) + BitAnd(i / 4, Repeat(16, 3, 2 * n))
    ensures 0 <= i <= x && 0 <= j && j + j / 16 < Power(256, n) && Power(256, n - 1) > 0
    ensures BitAnd(j + j / 16, Repeat(256, 15, n)) * Repeat(256, 1, n) % Power(256, n) / Power(256, n - 1) == Ones(x)
  {
    hide BitAnd, Ones, Repeat, Power, TotalOf, Bytes, Nibbles, Pairs;
    PowerSquare(16, n);
    PowerSquare(4, 2 * n);
    PairCounts(x, 4 * n);
    assert 2 * (2 * n) == 4 * n;
    NibbleCounts(x, 2 * n);
    NibblesBound(x, 2 * n);
    ByteCounts(x, n);
    TotalIsOnes(x, n);
    TopByteIsTotal(x, n);
  }

  lemma {:induction false} RepeatClosed(base: nat, d: nat, n: nat)
    ensures (base - 1) * Repeat(base, d, n) == d * (Power(base, n) - 1)
  {
    if n > 0 {
      RepeatClosed(base, d, n - 1);
      GeometricStep(base, d, Repeat(base, d, n - 1), Power(base, n - 1));
    }
  }

  lemma GeometricStep(base: int, d: int, r: int, p: int)
    requires (base - 1) * r == d * (p - 1)
    ensures (base - 1) * (d + base * r) == d * (base * p - 1)
  {
    hide *;
    calc {
      (base - 1) * (d + base * r);
      (base - 1) * d + base * ((base - 1) * r);
      (base - 1) * d + base * (d * (p - 1));
      d * (base * p - 1);
    }
  }

  lemma Power4(b: nat)
    ensures Power(b, 4) == b * (b * (b * b)) && Power(b, 3) == b * (b * b)
  {
    assert Power(b, 2) == b * Power(b, 1) == b * (b * Power(b, 0));
    assert Power(b, 4) == b * (b * Power(b, 2));
  }

  /** The masks of a word of n bytes, from the power they all divide. */
  lemma MasksFrom(n: nat, word: nat)
    requires Power(256, n) == word
    ensures 3 * Repeat(4, 1, 4 * n) == word - 1 && 15 * Repeat(16, 3, 2 * n) == 3 * (word - 1)
    ensures 255 * Repeat(256, 15, n) == 15 * (word - 1) && 255 * Repeat(256, 1, n) == word - 1
  {
    hide Repeat, Power;
    PowerSquare(16, n);
    PowerSquare(4, 2 * n);
    assert 2 * (2 * n) == 4 * n;
    RepeatClosed(4, 1, 4 * n);
    RepeatClosed(16, 3, 2 * n);
    RepeatClosed(256, 15, n);
    RepeatClosed(256, 1, n);
  }

  lemma Masks32()
    ensures Repeat(4, 1, 16) == 0x5555_5555 && Repeat(16, 3, 8) == 0x3333_3333
    ensures Repeat(256, 15, 4) == 0x0F0F_0F0F && Repeat(256, 1, 4) == 0x0101_0101
    ensures Power(256, 4) == WORD32 && Power(256, 3) == 0x100_0000
  {
    hide Repeat, Power;
    Power4(256);
    MasksFrom(4, WORD32);
  }

  lemma Masks64()
    ensures Repeat(4, 1, 32) == 0x5555_5555_5555_5555 && Repeat(16, 3, 16) == 0x3333_3333_3333_3333
    ensures Repeat(256, 15, 8) == 0x0F0F_0F0F_0F0F_0F0F && Repeat(256, 1, 8) == 0x0101_0101_0101_0101
    ensures Power(256, 8) == WORD64 && Power(256, 7) == 0x100_0000_0000_0000
  {
    Power4(65536);
    PowerSquare(256, 4);
    MasksFrom(8, WORD64);
    assert Power(256, 8) == 256 * Power(256, 7);
  }

  /** Arithmetic on an unsigned word. */
  function Wrap(x: int, word: nat): (r: nat)
    requires word > 0
    ensures r < word
  {
    x % word
  }

  lemma NoWrap(x: int, word: nat)
    requires 0 <= x < word
    ensures Wrap(x, word) == x
  {
  }

  /** The first two steps without wrap-around. */
  function Ladder(x: nat, fives: nat, threes: nat): int {
    var i := x - BitAnd(x / 2, fives);
    if i < 0 then 0 else BitAnd(i, threes) + BitAnd(i / 4, threes)
  }

  /** The last step of the ladder, with the shift that keeps the top byte. */
  function TopByte(i: nat, word: nat, fifteens: nat, ones: nat, top: nat): (r: nat)
    requires word > 0 && top > 0
  {
    Wrap(BitAnd(Wrap(i + i / 16, word), fifteens) * ones, word) / top
  }

  /** The ladder on a word of n bytes, with the masks of that width. */
  lemma LadderIsOnes(x: nat, n: nat, word: nat, fives: nat, threes: nat, fifteens: nat, ones: nat, top: nat)
    requires 0 < n <= 8 && x < word == Power(256, n) && top == Power(256, n - 1) > 0
    requires fives == Repeat(4, 1, 4 * n) && threes == Repeat(16, 3, 2 * n)
    requires fifteens == Repeat(256, 15, n) && ones == Repeat(256, 1, n)
    ensures var i := Wrap(x - BitAnd(x / 2, fives), word);
            var j := Wrap(BitAnd(i, threes) + BitAnd(i / 4, threes), word);
            TopByte(j, word, fifteens, ones, top) == Ones(x)
  {
    hide BitAnd, Ones, Repeat, Power;
    var j := Ladder(x, fives, threes);
    LadderCounts(x, n, x - BitAnd(x / 2, fives), j);
    hide Wrap;
    NoWrap(x - BitAnd(x / 2, fives), word);
    NoWrap(j, word);
    NoWrap(j + j / 16, word);
    assert Wrap(BitAnd(j + j / 16, fifteens) * ones, word) == BitAnd(j + j / 16, fifteens) * ones % word by {
      WrapIs(BitAnd(j + j / 16, fifteens) * ones, word);
    }
  }

  lemma WrapIs(x: int, word: nat)
    requires word > 0
    ensures Wrap(x, word) == x % word
  {
  }

  /** bit32_count_ones. */
  method CountOnes32(word: nat) returns (c: nat)
    requires word < WORD32
    ensures c == Ones(word)
  {
    hide BitAnd, Ones, Repeat, Power, Wrap, TopByte;
    Masks32();
    LadderIsOnes(word, 4, WORD32, 0x5555_5555, 0x3333_3333, 0x0F0F_0F0F, 0x0101_0101, 0x100_0000);
    var i := word;
    i := Wrap(i - BitAnd(i / 2, 0x5555_5555), WORD32);
    i := Wrap(BitAnd(i, 0x3333_3333) + BitAnd(i / 4, 0x3333_3333), WORD32);
    c := TopByte(i, WORD32, 0x0F0F_0F0F, 0x0101_0101, 0x100_0000);
  }

  /** bit64_count_ones. */
  method CountOnes64(word: nat) returns (c: nat)
    requires word < WORD64
    ensures c == Ones(word)
  {
    hide BitAnd, Ones, Repeat, Power, Wrap, TopByte;
    Masks64();
    LadderIsOnes(word, 8, WORD64, 0x5555_5555_5555_5555, 0x3333_3333_3333_3333, 0x0F0F_0F0F_0F0F_0F0F,
                 0x0101_0101_0101_0101, 0x100_0000_0000_0000);
    var i := word;
    i := Wrap(i - BitAnd(i / 2, 0x5555_5555_5555_5555), WORD64);
    i := Wrap(BitAnd(i, 0x3333_3333_3333_3333) + BitAnd(i / 4, 0x3333_3333_3333_3333), WORD64);
    c := TopByte(i, WORD64, 0x0F0F_0F0F_0F0F_0F0F, 0x0101_0101_0101_0101, 0x100_0000_0000_0000);
  }
}
