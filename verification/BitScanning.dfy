/**
 The counts of src/base/bit.c that look for the first or last bit of a word, the zero counts, and the
 byte tables. A word is a number below a power of two.
 */
module BitScanning {
  import opened Arithmetic
  import opened BitCounting

  /** Bit k of x. */
  predicate Bit(x: nat, k: nat) {
    if k == 0 then x % 2 == 1 else Bit(x / 2, k - 1)
  }

  // ---------- Zeros of a word are ones of its complement ----------

  lemma {:induction false} OnesComplement(x: nat, w: nat)
    requires x < Power(2, w)
    ensures Ones(Power(2, w) - 1 - x) == w - Ones(x)
  {
    if w > 0 {
      OnesComplement(x / 2, w - 1);
      assert (Power(2, w) - 1 - x) / 2 == Power(2, w - 1) - 1 - x / 2;
    }
  }

  lemma {:induction false} BitComplement(x: nat, w: nat, k: nat)
    requires x < Power(2, w) && k < w
    ensures Bit(Power(2, w) - 1 - x, k) <==> !Bit(x, k)
  {
    assert (Power(2, w) - 1 - x) / 2 == Power(2, w - 1) - 1 - x / 2;
    if k > 0 {
      BitComplement(x / 2, w - 1, k - 1);
    }
  }

  lemma {:induction false} PowerSum(a: nat, b: nat)
    ensures Power(2, a + b) == Power(2, a) * Power(2, b) > 0
  {
    if a > 0 {
      PowerSum(a - 1, b);
      assert Power(2, a + b) == 2 * Power(2, a - 1 + b);
      assert 2 * (Power(2, a - 1) * Power(2, b)) == (2 * Power(2, a - 1)) * Power(2, b);
    } else if b > 0 {
      PowerSum(0, b - 1);
    }
  }

  lemma Powers()
    ensures Power(2, 0) == 1 && Power(2, 1) == 2 && Power(2, 2) == 4 && Power(2, 4) == 16 && Power(2, 8) == 256
    ensures Power(2, 16) == 0x1_0000 && Power(2, 32) == WORD32 && Power(2, 64) == WORD64
  {
    assert Power(2, 2) == 2 * Power(2, 1) == 2 * (2 * Power(2, 0));
    PowerSum(2, 2);
    PowerSum(4, 4);
    PowerSum(8, 8);
    PowerSum(16, 16);
    PowerSum(32, 32);
  }

  // ---------- The lowest bit ----------

  lemma {:induction false} Disjoint(h: nat, w: nat)
    requires h < Power(2, w)
    ensures BitAnd(h, Power(2, w) - 1 - h) == 0
  {
    if w > 0 {
      BitAndSplit(h, Power(2, w) - 1 - h);
      assert (Power(2, w) - 1 - h) / 2 == Power(2, w - 1) - 1 - h / 2;
      Disjoint(h / 2, w - 1);
    }
  }

  /** i & -i keeps the lowest one bit and nothing else. */
  lemma {:induction false} LowestBit(x: nat, w: nat) returns (k: nat)
    requires 0 < x < Power(2, w)
    ensures k < w && Bit(x, k) && forall j: nat :: j < k ==> !Bit(x, j)
    ensures BitAnd(x, Power(2, w) - x) == Power(2, k)
  {
    hide BitAnd;
    BitAndSplit(x, Power(2, w) - x);
    if x % 2 == 1 {
      k := 0;
      assert (Power(2, w) - x) / 2 == Power(2, w - 1) - 1 - x / 2;
      Disjoint(x / 2, w - 1);
    } else {
      assert (Power(2, w) - x) / 2 == Power(2, w - 1) - x / 2;
      k := LowestBit(x / 2, w - 1);
      k := k + 1;
    }
  }

  /** A power of two meets a mask exactly when the mask has that bit. */
  lemma {:induction false} PowerMeets(k: nat, m: nat)
    ensures BitAnd(Power(2, k), m) != 0 <==> Bit(m, k)
  {
    hide BitAnd;
    BitAndSplit(Power(2, k), m);
    if k > 0 {
      PowerMeets(k - 1, m / 2);
    } else {
      ZeroAnd(m / 2);
    }
  }

  lemma ZeroAnd(m: nat)
    ensures BitAnd(0, m) == 0
  {
  }

  lemma {:induction false} LowBits(d: nat, m: nat, r: nat, k: nat)
    requires k < m
    ensures Bit(d + Power(2, m) * r, k) == Bit(d, k)
  {
    var p := Power(2, m - 1);
    Half(d, p, r);
    if k > 0 {
      LowBits(d / 2, m - 1, r, k - 1);
    }
  }

  lemma Half(d: nat, p: nat, r: nat)
    ensures (d + 2 * p * r) / 2 == d / 2 + p * r && (d + 2 * p * r) % 2 == d % 2
  {
    var t := p * r;
    assert 2 * p * r == 2 * t;
  }

  lemma {:induction false} HighBits(d: nat, m: nat, r: nat, k: nat)
    requires d < Power(2, m) && m <= k
    ensures Bit(d + Power(2, m) * r, k) == Bit(r, k - m)
  {
    if m > 0 {
      Half(d, Power(2, m - 1), r);
      HighBits(d / 2, m - 1, r, k - 1);
    }
  }

  lemma {:induction false} AllOnesBit(s: nat, k: nat)
    ensures Power(2, s) > 0 && (Bit(Power(2, s) - 1, k) <==> k < s)
  {
    if s > 0 {
      AllOnesBit(s - 1, if k > 0 then k - 1 else 0);
      assert (Power(2, s) - 1) / 2 == Power(2, s - 1) - 1;
    } else if k > 0 {
      AllOnesBit(0, k - 1);
    }
  }

  /** The mask of n fields whose low halves are ones has bit k when k is in a low half. */
  lemma {:induction false} MaskBit(s: nat, n: nat, k: nat)
    requires s > 0 && k < 2 * s * n && Power(2, s) > 0
    ensures Bit(Repeat(Power(2, 2 * s), Power(2, s) - 1, n), k) <==> k % (2 * s) < s
  {
    hide Bit, Power;
    var w, d := 2 * s, Power(2, s) - 1;
    if n > 0 {
      var r := Repeat(Power(2, w), d, n - 1);
      if k < w {
        LowBits(d, w, r, k);
        AllOnesBit(s, k);
        ModUnique(k, w, 0, k);
      } else {
        HalfMask(s);
        HighBits(d, w, r, k);
        LastField(w, n, k);
        MaskBit(s, n - 1, k - w);
      }
    }
  }

  lemma HalfMask(s: nat)
    ensures 0 < Power(2, s) <= Power(2, 2 * s)
  {
    hide Power;
    PowerSum(s, s);
    PowerSum(s, 0);
    MulAtLeast(Power(2, s), Power(2, s));
  }

  lemma LastField(w: nat, n: nat, k: nat)
    requires 0 < w <= k < w * n
    ensures k - w < w * (n - 1) && k % w == (k - w) % w
  {
    assert w * n == w * (n - 1) + w;
    var q, r := (k - w) / w, (k - w) % w;
    assert k == w * (q + 1) + r;
    ModUnique(k, w, q + 1, r);
  }

  lemma Masks32Bits(k: nat)
    requires k < 32
    ensures Bit(0x0000_FFFF, k) <==> k < 16
    ensures Bit(0x00FF_00FF, k) <==> k % 16 < 8
    ensures Bit(0x0F0F_0F0F, k) <==> k % 8 < 4
    ensures Bit(0x3333_3333, k) <==> k % 4 < 2
    ensures Bit(0x5555_5555, k) <==> k % 2 < 1
  {
    hide Bit, Power;
    Powers();
    Masks32();
    AllOnesBit(16, k);
    assert Repeat(0x1_0000, 255, 2) == 0x00FF_00FF by {
      assert Repeat(0x1_0000, 255, 1) == 255 + 0x1_0000 * Repeat(0x1_0000, 255, 0);
    }
    hide Repeat;
    MaskBit(8, 2, k);
    MaskBit(4, 4, k);
    MaskBit(2, 8, k);
    MaskBit(1, 16, k);
  }

  lemma Masks64Bits(k: nat)
    requires k < 64
    ensures Bit(0x0000_0000_FFFF_FFFF, k) <==> k < 32
    ensures Bit(0x0000_FFFF_0000_FFFF, k) <==> k % 32 < 16
    ensures Bit(0x00FF_00FF_00FF_00FF, k) <==> k % 16 < 8
    ensures Bit(0x0F0F_0F0F_0F0F_0F0F, k) <==> k % 8 < 4
    ensures Bit(0x3333_3333_3333_3333, k) <==> k % 4 < 2
    ensures Bit(0x5555_5555_5555_5555, k) <==> k % 2 < 1
  {
    hide Bit, Power;
    Powers();
    Masks64();
    AllOnesBit(32, k);
    assert Repeat(WORD32, 0xFFFF, 2) == 0x0000_FFFF_0000_FFFF by {
      assert Repeat(WORD32, 0xFFFF, 1) == 0xFFFF + WORD32 * Repeat(WORD32, 0xFFFF, 0);
    }
    hide Repeat;
    RepeatClosed(0x1_0000, 255, 4);
    Power4(0x1_0000);
    MaskBit(16, 2, k);
    MaskBit(8, 4, k);
    MaskBit(4, 8, k);
    MaskBit(2, 16, k);
    MaskBit(1, 32, k);
  }

  lemma {:induction false} NoBit(k: nat)
    ensures !Bit(0, k)
  {
    if k > 0 {
      NoBit(k - 1);
    }
  }

  /** Halving the range of k reads off one binary digit of k. */
  lemma Digit(k: nat, m: nat)
    requires m > 0
    ensures k % (2 * m) == k % m + (if k % (2 * m) < m then 0 else m)
  {
    var q, r := k / (2 * m), k % (2 * m);
    assert k == m * (2 * q) + r;
    if r < m {
      ModUnique(k, m, 2 * q, r);
    } else {
      assert m * (2 * q + 1) == m * (2 * q) + m;
      ModUnique(k, m, 2 * q + 1, r - m);
    }
  }

  lemma DigitsOf32(k: nat)
    ensures k % 32 == 31 - (if k % 32 < 16 then 16 else 0) - (if k % 16 < 8 then 8 else 0)
                      - (if k % 8 < 4 then 4 else 0) - (if k % 4 < 2 then 2 else 0) - (if k % 2 < 1 then 1 else 0)
  {
    Digit(k, 16);
    Digit(k, 8);
    Digit(k, 4);
    Digit(k, 2);
  }

  /** c is the position of the lowest bit of x, or w when there is none. */
  ghost predicate IsTrailingZeros(x: nat, w: nat, c: int) {
    0 <= c <= w && (c < w ==> Bit(x, c)) && forall j: nat :: j < c ==> !Bit(x, j)
  }

  /** c is the position of the lowest zero bit of x, or w when there is none. */
  ghost predicate IsTrailingOnes(x: nat, w: nat, c: int) {
    0 <= c <= w && (c < w ==> !Bit(x, c)) && forall j: nat :: j < c ==> Bit(x, j)
  }

  lemma NoTrailingZeros(w: nat)
    ensures IsTrailingZeros(0, w, w)
  {
    hide Bit;
    forall j: nat | j < w ensures !Bit(0, j) {
      NoBit(j);
    }
  }

  lemma TrailingOfComplement(x: nat, w: nat, c: int)
    requires x < Power(2, w) && IsTrailingZeros(Power(2, w) - 1 - x, w, c)
    ensures IsTrailingOnes(x, w, c)
  {
    hide Bit, Power;
    if c < w {
      BitComplement(x, w, c);
    }
    forall j: nat | j < c ensures Bit(x, j) {
      BitComplement(x, w, j);
    }
  }

  /** bit32_count_zeros. */
  method CountZeros32(word: nat) returns (c: nat)
    requires word < WORD32
    ensures c == 32 - Ones(word)
  {
    hide Ones, Power;
    Powers();
    OnesComplement(word, 32);
    c := CountOnes32(WORD32 - 1 - word);
  }

  /** bit64_count_zeros. */
  method CountZeros64(word: nat) returns (c: nat)
    requires word < WORD64
    ensures c == 64 - Ones(word)
  {
    hide Ones, Power;
    Powers();
    OnesComplement(word, 64);
    c := CountOnes64(WORD64 - 1 - word);
  }

  /** bit32_count_trailing_zeros. */
  method CountTrailingZeros32(word: nat) returns (c: int)
    requires word < WORD32
    ensures IsTrailingZeros(word, 32, c)
  {
    hide Bit, Power, BitAnd;
    c := 31;
    if word == 0 {
      NoTrailingZeros(32);
      return 32;
    }
    Powers();
    var i := BitAnd(word, WORD32 - word);
    ghost var k := LowestBit(word, 32);
    assert IsTrailingZeros(word, 32, k);
    hide IsTrailingZeros;
    Masks32Bits(k);
    DigitsOf32(k);
    PowerMeets(k, 0x0000_FFFF);
    PowerMeets(k, 0x00FF_00FF);
    PowerMeets(k, 0x0F0F_0F0F);
    PowerMeets(k, 0x3333_3333);
    PowerMeets(k, 0x5555_5555);
    if BitAnd(i, 0x0000_FFFF) != 0 {
      c := c - 16;
    }
    if BitAnd(i, 0x00FF_00FF) != 0 {
      c := c - 8;
    }
    if BitAnd(i, 0x0F0F_0F0F) != 0 {
      c := c - 4;
    }
    if BitAnd(i, 0x3333_3333) != 0 {
      c := c - 2;
    }
    if BitAnd(i, 0x5555_5555) != 0 {
      c := c - 1;
    }
  }

  /** bit64_count_trailing_zeros. */
  method CountTrailingZeros64(word: nat) returns (c: int)
    requires word < WORD64
    ensures IsTrailingZeros(word, 64, c)
  {
    hide Bit, Power, BitAnd;
    c := 63;
    if word == 0 {
      NoTrailingZeros(64);
      return 64;
    }
    Powers();
    var i := BitAnd(word, WORD64 - word);
    ghost var k := LowestBit(word, 64);
    assert IsTrailingZeros(word, 64, k);
    hide IsTrailingZeros;
    Masks64Bits(k);
    DigitsOf32(k);
    Digit(k, 32);
    PowerMeets(k, 0x0000_0000_FFFF_FFFF);
    PowerMeets(k, 0x0000_FFFF_0000_FFFF);
    PowerMeets(k, 0x00FF_00FF_00FF_00FF);
    PowerMeets(k, 0x0F0F_0F0F_0F0F_0F0F);
    PowerMeets(k, 0x3333_3333_3333_3333);
    PowerMeets(k, 0x5555_5555_5555_5555);
    if BitAnd(i, 0x0000_0000_FFFF_FFFF) != 0 {
      c := c - 32;
    }
    if BitAnd(i, 0x0000_FFFF_0000_FFFF) != 0 {
      c := c - 16;
    }
    if BitAnd(i, 0x00FF_00FF_00FF_00FF) != 0 {
      c := c - 8;
    }
    if BitAnd(i, 0x0F0F_0F0F_0F0F_0F0F) != 0 {
      c := c - 4;
    }
    if BitAnd(i, 0x3333_3333_3333_3333) != 0 {
      c := c - 2;
    }
    if BitAnd(i, 0x5555_5555_5555_5555) != 0 {
      c := c - 1;
    }
  }

  /** bit32_count_trailing_ones. */
  method CountTrailingOnes32(word: nat) returns (c: int)
    requires word < WORD32
    ensures IsTrailingOnes(word, 32, c)
  {
    hide IsTrailingOnes, IsTrailingZeros, Power;
    Powers();
    c := CountTrailingZeros32(WORD32 - 1 - word);
    TrailingOfComplement(word, 32, c);
  }

  /** bit64_count_trailing_ones. */
  method CountTrailingOnes64(word: nat) returns (c: int)
    requires word < WORD64
    ensures IsTrailingOnes(word, 64, c)
  {
    hide IsTrailingOnes, IsTrailingZeros, Power;
    Powers();
    c := CountTrailingZeros64(WORD64 - 1 - word);
    TrailingOfComplement(word, 64, c);
  }

  // ---------- The highest bit ----------

  /** The number of zero bits above the highest one bit of a word of w bits. */
  function LeadingZeros(x: nat, w: nat): nat {
    if w == 0 || Bit(x, w - 1) then 0 else 1 + LeadingZeros(x, w - 1)
  }

  lemma {:induction false} AndAllOnes(i: nat, t: nat)
    requires i < Power(2, t)
    ensures BitAnd(i, Power(2, t) - 1) == i
  {
    if t > 0 {
      BitAndSplit(i, Power(2, t) - 1);
      assert (Power(2, t) - 1) / 2 == Power(2, t - 1) - 1;
      AndAllOnes(i / 2, t - 1);
    }
  }

  /** A mask of the bits from s up to t meets i exactly when i reaches bit s. */
  lemma {:induction false} HighMaskMeets(i: nat, s: nat, t: nat)
    requires i < Power(2, t) && s <= t
    ensures Power(2, s) <= Power(2, t) && (BitAnd(i, Power(2, t) - Power(2, s)) != 0 <==> i >= Power(2, s))
  {
    hide BitAnd;
    if s == 0 {
      AndAllOnes(i, t);
    } else {
      HighMaskMeets(i / 2, s - 1, t - 1);
      BitAndSplit(i, Power(2, t) - Power(2, s));
      assert (Power(2, t) - Power(2, s)) / 2 == Power(2, t - 1) - Power(2, s - 1);
    }
  }

  lemma {:induction false} ShiftMore(x: nat, a: nat, b: nat)
    ensures Power(2, a) > 0 && Power(2, b) > 0 && Power(2, a + b) > 0
    ensures x / Power(2, a) / Power(2, b) == x / Power(2, a + b)
  {
    hide Power;
    PowerSum(a, b);
    PowerSum(a, 0);
    PowerSum(b, 0);
    var p, q := Power(2, a), Power(2, b);
    var y := x / p;
    var z := y / q;
    var r, t := x % p, y % q;
    MulMonotone(p, t, q - 1);
    assert x == p * (q * z + t) + r == (p * q) * z + (p * t + r);
    assert p * (q - 1) == p * q - p;
    ModUnique(x, p * q, z, p * t + r);
  }

  /** Bits are quotients by powers of two. */
  lemma {:induction false} BitIsQuotient(x: nat, k: nat)
    ensures Power(2, k) > 0 && (Bit(x, k) <==> x / Power(2, k) % 2 == 1)
  {
    if k > 0 {
      BitIsQuotient(x / 2, k - 1);
      ShiftMore(x, 1, k - 1);
      assert Power(2, 1) == 2 * Power(2, 0);
    }
  }

  lemma {:induction false} LeadingFrom(x: nat, t: nat, w: nat)
    requires t < w && Power(2, t) > 0 && x / Power(2, t) == 1
    ensures LeadingZeros(x, w) == w - 1 - t
  {
    hide Bit, Power;
    BitIsQuotient(x, w - 1);
    if t < w - 1 {
      ShiftMore(x, t, w - 1 - t);
      PowerSum(1, w - 2 - t);
      PowerOne();
      SmallQuotient(Power(2, w - 1 - t));
      LeadingFrom(x, t, w - 1);
    }
  }

  lemma PowerOne()
    ensures Power(2, 1) == 2
  {
    assert Power(2, 1) == 2 * Power(2, 0);
  }

  lemma SmallQuotient(d: nat)
    requires d >= 2
    ensures 1 / d == 0
  {
    ModUnique(1, d, 0, 1);
  }

  /** i is word shifted right, and its highest bit is the highest bit of word and lies below width. */
  ghost predicate Narrowed(word: nat, i: nat, shift: int, width: nat) {
    shift >= 0 && 0 < i < Power(2, width) && Power(2, shift) > 0 && i == word / Power(2, shift)
  }

  lemma NarrowedStart(word: nat, width: nat)
    requires 0 < word < Power(2, width)
    ensures Narrowed(word, word, 0, width)
  {
  }

  /** The test the counts repeat: if the upper half of the bits that are left has a one, drop the lower half. */
  method NarrowOnce(ghost word: nat, ghost top: int, i: nat, c: int, half: nat, mask: nat, power: nat)
    returns (i': nat, c': int)
    requires Narrowed(word, i, top - c, 2 * half)
    requires power == Power(2, half) > 0 && mask == Power(2, 2 * half) - power
    ensures Narrowed(word, i', top - c', half) && c - half <= c' <= c
  {
    hide BitAnd, Power;
    HighMaskMeets(i, half, 2 * half);
    ShiftMore(word, top - c, half);
    PowerSum(half, half);
    i', c' := i, c;
    if BitAnd(i, mask) != 0 {
      QuotientBounds(i, power);
      c' := c' - half;
      i' := i' / power;
    }
  }

  lemma QuotientBounds(i: nat, p: nat)
    requires 0 < p <= i < p * p
    ensures 0 < i / p < p
  {
    var q, r := i / p, i % p;
    assert i == p * q + r;
    if q <= 0 {
      MulMonotone(p, q, 0);
    } else if q >= p {
      MulMonotone(p, p, q);
    }
  }

  lemma NarrowedEnd(word: nat, i: nat, shift: int, w: nat)
    requires Narrowed(word, i, shift, 1) && shift < w
    ensures BitAnd(i, 1) == 1 && LeadingZeros(word, w) == w - 1 - shift
  {
    hide LeadingZeros, BitAnd;
    PowerOne();
    LeadingFrom(word, shift, w);
    AndAllOnes(1, 1);
  }

  /**
   bit32_count_leading_zeros and bit64_count_leading_zeros: the last test takes one more from every word
   but zero, so the result is the number of leading zeros for the word zero only, and one less for every
   other word.
   */
  method CountLeadingZeros32(word: nat) returns (c: int)
    requires word < WORD32
    ensures c == LeadingZeros(word, 32) <==> word == 0
    ensures word != 0 ==> c == LeadingZeros(word, 32) - 1
  {
    hide Power, BitAnd, LeadingZeros, Narrowed;
    if word == 0 {
      NoLeadingOne(32);
      return 32;
    }
    Powers();
    NarrowedStart(word, 32);
    var i := word;
    c := 31;
    i, c := NarrowOnce(word, 31, i, c, 16, 0xFFFF_0000, 0x1_0000);
    i, c := NarrowOnce(word, 31, i, c, 8, 0x0000_FF00, 0x100);
    i, c := NarrowOnce(word, 31, i, c, 4, 0x0000_00F0, 0x10);
    i, c := NarrowOnce(word, 31, i, c, 2, 0x0000_000C, 4);
    i, c := NarrowOnce(word, 31, i, c, 1, 0x0000_0002, 2);
    NarrowedEnd(word, i, 31 - c, 32);
    if BitAnd(i, 0x0000_0001) != 0 {
      c := c - 1;
    }
  }

  method CountLeadingZeros64(word: nat) returns (c: int)
    requires word < WORD64
    ensures c == LeadingZeros(word, 64) <==> word == 0
    ensures word != 0 ==> c == LeadingZeros(word, 64) - 1
  {
    hide Power, BitAnd, LeadingZeros, Narrowed;
    if word == 0 {
      NoLeadingOne(64);
      return 64;
    }
    Powers();
    NarrowedStart(word, 64);
    var i := word;
    c := 63;
    i, c := NarrowOnce(word, 63, i, c, 32, 0xFFFF_FFFF_0000_0000, 0x1_0000_0000);
    i, c := NarrowOnce(word, 63, i, c, 16, 0x0000_0000_FFFF_0000, 0x1_0000);
    i, c := NarrowOnce(word, 63, i, c, 8, 0x0000_0000_0000_FF00, 0x100);
    i, c := NarrowOnce(word, 63, i, c, 4, 0x0000_0000_0000_00F0, 0x10);
    i, c := NarrowOnce(word, 63, i, c, 2, 0x0000_0000_0000_000C, 4);
    i, c := NarrowOnce(word, 63, i, c, 1, 0x0000_0000_0000_0002, 2);
    NarrowedEnd(word, i, 63 - c, 64);
    if BitAnd(i, 0x0000_0000_0000_0001) != 0 {
      c := c - 1;
    }
  }

  lemma {:induction false} NoLeadingOne(w: nat)
    ensures LeadingZeros(0, w) == w
  {
    if w > 0 {
      NoBit(w - 1);
      NoLeadingOne(w - 1);
    }
  }

  // ---------- The byte tables ----------

  /** byte_ones, from its nested macros: k levels of four entries each, counting from n;
      the table is OnesTable(4, 0). */
  function OnesTable(k: nat, n: int): (t: seq<int>)
    ensures |t| == Power(4, k)
  {
    if k == 0 then [n]
    else OnesTable(k - 1, n) + OnesTable(k - 1, n + 1) + OnesTable(k - 1, n + 1) + OnesTable(k - 1, n + 2)
  }

  /** byte_zeros is the same with 8 - n for n at the bottom; the table is ZerosTable(4, 0). */
  function ZerosTable(k: nat, n: int): (t: seq<int>)
    ensures |t| == Power(4, k)
  {
    if k == 0 then [8 - n]
    else ZerosTable(k - 1, n) + ZerosTable(k - 1, n + 1) + ZerosTable(k - 1, n + 1) + ZerosTable(k - 1, n + 2)
  }

  /** Counts add up over a field of any even width. */
  lemma {:induction false} OnesConcat(q: nat, r: nat, k: nat)
    requires r < Power(4, k)
    ensures Ones(Power(4, k) * q + r) == Ones(q) + Ones(r)
  {
    hide Ones;
    if k == 0 {
      SmallOnes(0);
      OnesPair(0);
    } else {
      var p := Power(4, k - 1);
      var t := p * q;
      assert Power(4, k) * q + r == 4 * (t + r / 4) + r % 4;
      OnesSplit2(4 * (t + r / 4) + r % 4);
      OnesSplit2(r);
      OnesConcat(q, r / 4, k - 1);
    }
  }

  /** Entry r of quarter q of a table of 4 * p entries is entry i. */
  predicate Quartered(i: nat, p: nat, q: nat, r: nat) {
    q < 4 && r < p && i == r + (if q == 0 then 0 else if q == 1 then p else if q == 2 then 2 * p else 3 * p)
  }

  lemma Quarter(i: nat, p: nat) returns (q: nat, r: nat)
    requires i < 4 * p
    ensures Quartered(i, p, q, r)
  {
    q := if i < p then 0 else if i < 2 * p then 1 else if i < 3 * p then 2 else 3;
    r := i - (if q == 0 then 0 else if q == 1 then p else if q == 2 then 2 * p else 3 * p);
  }

  lemma OnesOfQuarter(k: nat, i: nat, q: nat, r: nat)
    requires Quartered(i, Power(4, k), q, r)
    ensures Ones(i) == Ones(q) + Ones(r)
  {
    hide Ones, Power;
    OnesConcat(q, r, k);
    assert i == Power(4, k) * q + r;
  }

  /** Entry i of a table of k levels counts the one bits of i. */
  lemma {:induction false} OnesTableCounts(k: nat, n: int, i: nat)
    requires i < Power(4, k)
    ensures OnesTable(k, n)[i] == n + Ones(i) && ZerosTable(k, n)[i] == 8 - n - Ones(i)
  {
    hide Ones, OnesTable, ZerosTable;
    if k == 0 {
      TableBase(n);
    } else {
      var q, r := Quarter(i, Power(4, k - 1));
      hide Power;
      OnesOfQuarter(k - 1, i, q, r);
      OnesTableCounts(k - 1, n + Ones(q), r);
      TableEntry(k, n, i, q, r);
    }
  }

  lemma TableBase(n: int)
    ensures OnesTable(0, n) == [n] && ZerosTable(0, n) == [8 - n] && Ones(0) == 0
  {
  }

  lemma TableEntry(k: nat, n: int, i: nat, q: nat, r: nat)
    requires k > 0 && Quartered(i, Power(4, k - 1), q, r) && i < Power(4, k)
    ensures OnesTable(k, n)[i] == OnesTable(k - 1, n + Ones(q))[r]
    ensures ZerosTable(k, n)[i] == ZerosTable(k - 1, n + Ones(q))[r]
  {
    OnesPair(q);
    hide Ones, Power;
  }

  /** bit8_count_ones and bit8_count_zeros look the count up. */
  lemma ByteTables(i: nat)
    requires i < 256
    ensures |OnesTable(4, 0)| == |ZerosTable(4, 0)| == 256
    ensures OnesTable(4, 0)[i] == Ones(i) && ZerosTable(4, 0)[i] == 8 - Ones(i)
  {
    hide Ones, OnesTable, ZerosTable;
    Power4(4);
    OnesTableCounts(4, 0, i);
  }

  /** The byte counts of a word of n bytes, looked up one by one. */
  function TableTotal(x: nat, n: nat): int {
    if n == 0 then 0
    else
      assert Power(4, 4) == 256 by { Power4(4); }
      OnesTable(4, 0)[x % 256] + TableTotal(x / 256, n - 1)
  }

  /** A word has as many one bits as the table counts in its bytes. */
  lemma {:induction false} TableTotalIsOnes(x: nat, n: nat)
    requires x < Power(256, n)
    ensures TableTotal(x, n) == Ones(x)
  {
    hide OnesTable;
    if n > 0 {
      hide Ones;
      ByteTables(x % 256);
      OnesSplit8(x);
      TableTotalIsOnes(x / 256, n - 1);
    }
  }
}
