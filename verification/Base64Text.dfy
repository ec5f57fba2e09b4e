/**
 What an encoded text is, letter by letter: section 4 of RFC 4648 with its alphabet written out, the lines
 of 76 characters, and the codes that decoding skips. Nothing here is stated through the tables of the codec.
 */
module Base64Text {
  import opened Arithmetic
  import opened Base64
  import opened BitScanning

  const ALPHABET: string := "ABCDEFGHIJKLMNOPQRSTUVWXYZ" + "abcdefghijklmnopqrstuvwxyz" + "0123456789" + "+/"

  /** Tabulator to carriage return, space, and no-break space. */
  const SPACES: set<int> := {9, 10, 11, 12, 13, 32, 160}

  /** The code of letter v of the alphabet. */
  function Letter(v: Sextet): int
  {
    AlphabetLength();
    ALPHABET[v] as int
  }

  lemma AlphabetLength()
    ensures |ALPHABET| == 64
  {
  }

  lemma LettersUpper(v: Sextet)
    ensures v < 26 ==> Letter(v) == MapAt(v)
  {
  }

  lemma LettersLower(v: Sextet)
    ensures 26 <= v < 52 ==> Letter(v) == MapAt(v)
  {
  }

  lemma LettersRest(v: Sextet)
    ensures 52 <= v ==> Letter(v) == MapAt(v)
  {
  }

  /** The encoding table is the alphabet. */
  lemma MapIsAlphabet(v: Sextet)
    ensures MapAt(v) == Letter(v)
  {
    hide Letter;
    LettersUpper(v);
    LettersLower(v);
    LettersRest(v);
  }

  /** The decoding table skips exactly the white space codes. */
  lemma SpaceCodes(c: Octet)
    ensures IsSpace(c) <==> c in SPACES
  {
  }

  /** The decoding table gives every letter its place in the alphabet, and no other code a place. */
  lemma LetterCodes(c: Octet, v: Sextet)
    ensures TableAt(c) == v <==> Letter(v) == c
  {
    hide Letter;
    MapIsAlphabet(v);
    TablesInverse(v, c);
  }

  // ---------- The bits of an encoding ----------

  /** Bit k of the source, top bit of the first byte first; none beyond the end. */
  predicate SourceBit(src: seq<Octet>, k: nat) {
    k / 8 < |src| && Bit(src[k / 8], 7 - k % 8)
  }

  /** Bit k of six, top bit first. */
  predicate LetterBit(v: Sextet, k: nat)
    requires k < 6
  {
    Bit(v, 5 - k)
  }

  /** Character c of the text: a letter with six bits of the source, zero beyond its end, or a code 61. */
  ghost predicate Carries(src: seq<Octet>, c: nat, ch: int) {
    if 6 * c < 8 * |src| then
      exists v: Sextet :: ch == Letter(v) && forall j :: 0 <= j < 6 ==> (LetterBit(v, j) <==> SourceBit(src, 6 * c + j))
    else ch == 61
  }

  lemma SmallPowers()
    ensures Power(2, 6) == 64 && Power(2, 8) == 0x100 && Power(2, 16) == 0x10000
    ensures Power(2, 0) == 1 && Power(2, 12) == 0x1000 && Power(2, 18) == 0x40000
  {
    Powers();
    PowerSum(4, 2);
    PowerSum(8, 4);
    PowerSum(16, 2);
  }

  /** A group of six bits holds those bits of the number. */
  lemma GroupBit(d: nat, shift: nat, s: nat, j: nat)
    requires shift == Power(2, s) > 0 && j < 6
    ensures Bit(Group(d, shift), j) <==> Bit(d, s + j)
  {
    hide Bit, Power;
    SmallPowers();
    var y := d / shift;
    assert y == y % 64 + 64 * (y / 64);
    LowBits(y % 64, 6, y / 64, j);
    assert d == d % shift + shift * y;
    HighBits(d % shift, s, y, s + j);
  }

  lemma JoinedBytes(b0: Octet, b1: Octet, b2: Octet, k: nat)
    requires k < 24
    ensures Bit(b0 * 0x10000 + b1 * 0x100 + b2, 23 - k) <==> Bit([b0, b1, b2][k / 8], 7 - k % 8)
  {
    hide Bit, Power;
    SmallPowers();
    var low := b1 * 0x100 + b2;
    if k < 8 {
      HighBits(low, 16, b0, 23 - k);
    } else {
      LowBits(low, 16, b0, 23 - k);
      if k < 16 {
        HighBits(b2, 8, b1, 23 - k);
      } else {
        LowBits(b2, 8, b1, 23 - k);
      }
    }
  }

  lemma PackedBit(b: seq<Octet>, k: nat)
    requires 1 <= |b| <= 3 && k < 24
    ensures Bit(Packed(b), 23 - k) <==> SourceBit(b, k)
  {
    hide Bit;
    JoinedBytes(b[0], if |b| > 1 then b[1] else 0, if |b| > 2 then b[2] else 0, k);
    NoBit(7 - k % 8);
  }

  lemma BlockText(b: seq<Octet>, c: nat)
    requires 1 <= |b| <= 3 && c < 4
    ensures Carries(b, c, Block(b)[c])
  {
    hide Bit, Letter, MapAt, Packed, Group, Power;
    SmallPowers();
    if 6 * c < 8 * |b| {
      var shift := [0x40000, 0x1000, 0x40, 1][c];
      var v := Group(Packed(b), shift);
      MapIsAlphabet(v);
      forall j | 0 <= j < 6 ensures LetterBit(v, j) <==> SourceBit(b, 6 * c + j) {
        GroupBit(Packed(b), shift, 18 - 6 * c, 5 - j);
        PackedBit(b, 6 * c + j);
      }
    }
  }

  /** Section 4 of RFC 4648: every character of the unbroken text, and how many there are. */
  lemma {:induction false} PlainText(src: seq<Octet>, c: nat)
    requires c < |Plain(src)|
    ensures |Plain(src)| == 4 * ((|src| + 2) / 3) && Carries(src, c, Plain(src)[c])
  {
    hide Block, SourceBit;
    if |src| <= 3 {
      BlockText(src, c);
    } else if c < 4 {
      BlockText(src[..3], c);
      CarriesPrefix(src, c, Plain(src)[c]);
    } else {
      PlainText(src[3..], c - 4);
      CarriesSuffix(src, c, Plain(src)[c]);
    }
  }

  lemma CarriesPrefix(src: seq<Octet>, c: nat, ch: int)
    requires |src| > 3 && c < 4 && Carries(src[..3], c, ch)
    ensures Carries(src, c, ch)
  {
    hide Bit, Letter;
    var t := src[..3];
    var v: Sextet :| ch == Letter(v) && forall j :: 0 <= j < 6 ==> (LetterBit(v, j) <==> SourceBit(t, 6 * c + j));
    forall j | 0 <= j < 6 ensures LetterBit(v, j) <==> SourceBit(src, 6 * c + j) {
      assert SourceBit(t, 6 * c + j) <==> SourceBit(src, 6 * c + j);
    }
  }

  lemma CarriesSuffix(src: seq<Octet>, c: nat, ch: int)
    requires |src| > 3 && c >= 4 && Carries(src[3..], c - 4, ch)
    ensures Carries(src, c, ch)
  {
    hide Bit, Letter;
    if 6 * c < 8 * |src| {
      var t := src[3..];
      var d := c - 4;
      var v: Sextet :| ch == Letter(v) && forall j :: 0 <= j < 6 ==> (LetterBit(v, j) <==> SourceBit(t, 6 * d + j));
      forall j | 0 <= j < 6 ensures LetterBit(v, j) <==> SourceBit(src, 6 * c + j) {
        var k := 6 * d + j;
        assert (k + 24) / 8 == k / 8 + 3 && (k + 24) % 8 == k % 8;
        assert SourceBit(t, k) <==> SourceBit(src, k + 24);
      }
    }
  }

  /** Character k of the text broken into lines: a code 10 after every 76 characters, else the next one. */
  lemma {:induction false} LineAt(s: seq<Octet>, k: nat)
    requires k < |Lines(s)|
    ensures k - k / 77 < |s| || k % 77 == 76
    ensures Lines(s)[k] == if k % 77 == 76 then 10 else s[k - k / 77]
  {
    if |s| > LINE_LENGTH && k > LINE_LENGTH {
      LineAt(s[LINE_LENGTH..], k - 77);
      assert Lines(s)[k] == Lines(s[LINE_LENGTH..])[k - 77];
      assert (k - 77) / 77 == k / 77 - 1 && (k - 77) % 77 == k % 77;
    }
  }

  /** Every character that base64_encode writes, and how many there are. */
  lemma EncodedText(src: seq<Octet>, k: nat)
    requires k < |Lines(Plain(src))|
    ensures var n := 4 * ((|src| + 2) / 3); |Lines(Plain(src))| == n + (n - 1) / 76
    ensures if k % 77 == 76 then Lines(Plain(src))[k] == 10 else Carries(src, k - k / 77, Lines(Plain(src))[k])
  {
    hide Plain, Lines, Carries;
    LinesLength(Plain(src));
    LineAt(Plain(src), k);
    if k % 77 != 76 {
      PlainText(src, k - k / 77);
    }
  }

  // ---------- What decoding accepts, and what it answers ----------

  /** The text without the white space codes. */
  function Visible(s: seq<Octet>): seq<Octet> {
    if s == [] then [] else (if s[0] in SPACES then [] else [s[0]]) + Visible(s[1..])
  }

  lemma {:induction false} StrippedIsVisible(s: seq<Octet>)
    ensures Stripped(s) == Visible(s)
  {
    if s != [] {
      StrippedIsVisible(s[1..]);
      assert s == [s[0]] + s[1..];
      StrippedAppend([s[0]], s[1..]);
      SpaceCodes(s[0]);
      assert [s[0]][..0] == [];
    }
  }

  ghost predicate IsLetter(c: Octet) {
    exists v: Sextet :: Letter(v) == c
  }

  lemma AlphabetIsLetters(c: Octet)
    ensures IsAlphabet(c) <==> IsLetter(c)
  {
    hide Letter, TableAt;
    if IsAlphabet(c) {
      TablesInverse(0, c);
      LetterCodes(c, TableAt(c));
    }
    if v: Sextet :| Letter(v) == c {
      LetterCodes(c, v);
    }
  }

  /** Letters, then p codes 61 at the end. */
  ghost predicate Padded(s: seq<Octet>, p: nat) {
    p <= |s| && (forall i :: 0 <= i < |s| - p ==> IsLetter(s[i])) && forall i :: |s| - p <= i < |s| ==> s[i] == 61
  }

  lemma PaddedIs(s: seq<Octet>, p: nat)
    requires |s| >= 4 && p <= 2
    ensures PaddedBy(s, p) <==> Padded(s, p)
  {
    hide IsAlphabet, IsLetter;
    var t := s[..|s| - p];
    forall i | 0 <= i < |s| - p ensures IsAlphabet(t[i]) <==> IsLetter(s[i]) {
      AlphabetIsLetters(s[i]);
    }
    if Padded(s, p) {
      forall c | c in t ensures IsAlphabet(c) {
        var i :| 0 <= i < |t| && t[i] == c;
        assert IsLetter(s[i]);
      }
    }
    if PaddedBy(s, p) {
      forall i | 0 <= i < |s| - p ensures IsLetter(s[i]) {
        assert t[i] in t;
      }
    }
  }

  /**
   The visible text alone decides the answer: none is an empty input; a multiple of four letters, of which
   the last one or two may be codes 61, is accepted; everything else is invalid.
   */
  lemma DecodeLaw(src: seq<Octet>)
    ensures var s := Visible(src);
            && (DecodeResult(src).EmptyInput? <==> s == [])
            && (DecodeResult(src).Ok? <==> s != [] && |s| % 4 == 0 && exists p :: 0 <= p <= 2 && Padded(s, p))
  {
    hide Padded, PaddedBy, Decoded;
    StrippedIsVisible(src);
    var s := Visible(src);
    if |s| >= 4 {
      PaddedIs(s, 0);
      PaddedIs(s, 1);
      PaddedIs(s, 2);
    }
    if p :| 0 <= p <= 2 && |s| >= 4 && PaddedBy(s, p) {
      assert Padded(s, p);
    }
  }

  /** White space changes nothing. */
  lemma WhiteSpaceIsSkipped(src: seq<Octet>)
    ensures DecodeResult(src) == DecodeResult(Visible(src))
  {
    hide Stripped, Visible, WellFormed, Decoded, IsSpace;
    StrippedIsVisible(src);
    StrippedHasNoSpace(src);
    NothingToStrip(Visible(src));
  }

  lemma {:induction false} VisibleStays(s: seq<Octet>, i: nat)
    requires i < |s| && s[i] !in SPACES
    ensures s[i] in Visible(s)
  {
    if i > 0 {
      VisibleStays(s[1..], i - 1);
    }
  }

  /** Any code that is no white space, no letter and no 61 makes the input invalid. */
  lemma OtherCodesAreInvalid(src: seq<Octet>, i: nat)
    requires i < |src| && src[i] !in SPACES && !IsLetter(src[i]) && src[i] != 61
    ensures DecodeResult(src) == InvalidInput
  {
    hide IsLetter, DecodeResult;
    VisibleStays(src, i);
    DecodeLaw(src);
    var s := Visible(src);
    var j :| 0 <= j < |s| && s[j] == src[i];
    if p :| 0 <= p <= 2 && Padded(s, p) {
      assert !IsLetter(s[j]) && s[j] != 61;
    }
  }

  // ---------- The bits of what was decoded ----------

  lemma JoinedLetters(v0: Sextet, v1: Sextet, v2: Sextet, v3: Sextet, k: nat)
    requires k < 24
    ensures Bit(Joined(v0, v1, v2, v3), 23 - k) <==> LetterBit([v0, v1, v2, v3][k / 6], k % 6)
  {
    hide Bit, Power;
    SmallPowers();
    var low, mid := v2 * 64 + v3, v1 * 0x1000 + v2 * 64 + v3;
    if k < 6 {
      HighBits(mid, 18, v0, 23 - k);
    } else {
      LowBits(mid, 18, v0, 23 - k);
      if k < 12 {
        HighBits(low, 12, v1, 23 - k);
      } else {
        LowBits(low, 12, v1, 23 - k);
        if k < 18 {
          HighBits(v3, 6, v2, 23 - k);
        } else {
          LowBits(v3, 6, v2, 23 - k);
        }
      }
    }
  }

  lemma ByteBit(d: nat, shift: nat, s: nat, j: nat)
    requires shift == Power(2, s) > 0 && j < 8
    ensures Bit(d / shift % 256, j) <==> Bit(d, s + j)
  {
    hide Bit, Power;
    SmallPowers();
    var y := d / shift;
    assert y == y % 256 + 256 * (y / 256);
    LowBits(y % 256, 8, y / 256, j);
    assert d == d % shift + shift * y;
    HighBits(d % shift, s, y, s + j);
  }

  lemma ChunkBit(c: Chunk, k: nat)
    requires c.padding <= 2 && k < 8 * |ChunkBytes(c)|
    ensures SourceBit(ChunkBytes(c), k) <==> LetterBit([c.v0, c.v1, c.v2, c.v3][k / 6], k % 6)
  {
    hide Bit, Power, Joined, LetterBit;
    SmallPowers();
    var d := Joined(c.v0, c.v1, c.v2, c.v3);
    var shift := [0x10000, 0x100, 1][k / 8];
    assert ChunkBytes(c)[k / 8] == d / shift % 256;
    ByteBit(d, shift, 16 - 8 * (k / 8), 7 - k % 8);
    JoinedLetters(c.v0, c.v1, c.v2, c.v3, k);
  }

  lemma OneChunkBit(q: seq<Octet>, p: nat, k: nat)
    requires |q| == 4 && p <= 2 && PaddedBy(q, p)
    ensures |Decoded(q)| == 3 - p
    ensures k < 8 * (3 - p) ==>
              IsAlphabet(q[k / 6]) && (SourceBit(Decoded(q), k) <==> LetterBit(Value(q[k / 6]), k % 6))
  {
    hide SourceBit, LetterBit, ChunkBytes, TableAt;
    forall i | 0 <= i < 4 - p ensures IsAlphabet(q[i]) {
      assert q[..4 - p][i] == q[i];
    }
    PadIsNoLetter();
    assert PaddingOf(q) == p;
    OneChunk(q);
    if k < 8 * (3 - p) {
      assert k / 6 < 4 - p;
      ChunkBit(ChunkOf(q), k);
    }
  }

  lemma PadIsNoLetter()
    ensures !IsAlphabet(PAD)
  {
  }

  lemma PaddedRest(s: seq<Octet>, p: nat)
    requires |s| > 4 && |s| % 4 == 0 && p <= 2 && PaddedBy(s, p)
    ensures PaddedBy(s[..4], 0) && PaddedBy(s[4..], p)
  {
    var q, t := s[..4], s[4..];
    forall c | c in q ensures IsAlphabet(c) {
      assert c in s[..|s| - p];
    }
    forall c | c in t[..|t| - p] ensures IsAlphabet(c) {
      assert c in s[..|s| - p];
    }
  }

  lemma {:induction false} DecodedBit(s: seq<Octet>, p: nat, k: nat)
    requires |s| >= 4 && |s| % 4 == 0 && p <= 2 && PaddedBy(s, p)
    ensures |Decoded(s)| == |s| / 4 * 3 - p
    ensures k < 8 * |Decoded(s)| ==>
              && k / 6 < |s| && IsAlphabet(s[k / 6])
              && (SourceBit(Decoded(s), k) <==> LetterBit(Value(s[k / 6]), k % 6))
  {
    hide LetterBit, PaddedBy, Decoded, IsAlphabet, Bit;
    if |s| == 4 {
      OneChunkBit(s, p, k);
    } else {
      var q, t := s[..4], s[4..];
      assert s == q + t;
      PaddedRest(s, p);
      DecodedAppend(q, t);
      OneChunkBit(q, 0, k);
      if k < 24 {
        DecodedBit(t, p, 0);
      } else {
        DecodedBit(t, p, k - 24);
        assert (k - 24) / 6 == k / 6 - 4 && (k - 24) % 6 == k % 6 && (k - 24) / 8 == k / 8 - 3 && (k - 24) % 8 == k % 8;
      }
    }
  }

  /** Every bit of the answer to an accepted input, also when its spare bits are not zero, and its length. */
  lemma DecodedText(src: seq<Octet>, p: nat, k: nat)
    requires DecodeResult(src).Ok? && p <= 2 && Padded(Visible(src), p)
    ensures var (s, r) := (Visible(src), DecodeResult(src).value);
            && |r| == |s| / 4 * 3 - p
            && (k < 8 * |r| ==>
                  && k / 6 < |s|
                  && exists v: Sextet :: Letter(v) == s[k / 6] && (LetterBit(v, k % 6) <==> SourceBit(r, k)))
  {
    hide Decoded, Padded, PaddedBy, SourceBit, LetterBit, Letter, TableAt;
    StrippedIsVisible(src);
    var s := Visible(src);
    PaddedIs(s, p);
    DecodedBit(s, p, k);
    if k < 8 * |Decoded(s)| {
      LetterCodes(s[k / 6], Value(s[k / 6]));
    }
  }
}
