/**
 The Base64 codec of src/base/base64.c: the alphabet and padding of section 4 of RFC 4648, broken into
 lines of 76 characters, and a decoder that strips white space and rejects everything ill formed.
 */
module Base64 {

  type Octet = x: int | 0 <= x < 256

  const LINE_LENGTH: nat := 76
  const NEWLINE: Octet := 10
  const PAD: Octet := 61       // '='
  const CH_INVALID: int := -1
  const CH_SPACE: int := -2

  type Sextet = x: int | 0 <= x < 64

  /** base64_map, by its ranges: A-Z, a-z, 0-9, '+', '/'. */
  function MapAt(v: Sextet): Octet {
    if v < 26 then 65 + v
    else if v < 52 then 97 + (v - 26)
    else if v < 62 then 48 + (v - 52)
    else if v == 62 then 43
    else 47
  }

  /** from_base64_table, by its ranges. Code 160 counts as a space. */
  function TableAt(c: Octet): int {
    if 65 <= c <= 90 then c - 65
    else if 97 <= c <= 122 then c - 71
    else if 48 <= c <= 57 then c + 4
    else if c == 43 then 62
    else if c == 47 then 63
    else if 9 <= c <= 13 || c == 32 || c == 160 then CH_SPACE
    else CH_INVALID
  }

  predicate IsAlphabet(c: Octet) {
    TableAt(c) >= 0
  }

  predicate IsSpace(c: Octet) {
    TableAt(c) == CH_SPACE
  }

  predicate IsInvalid(c: Octet) {
    c != PAD && TableAt(c) == CH_INVALID
  }

  /** The encoding table and the decoding table are inverse. */
  lemma TablesInverse(v: Sextet, c: Octet)
    ensures TableAt(MapAt(v)) == v
    ensures IsAlphabet(c) ==> TableAt(c) < 64 && MapAt(TableAt(c)) == c
  {
  }

  /** find_base64: the position of a character in the encoding table. */
  method FindBase64(ch: Octet) returns (offset: Sextet)
    requires IsAlphabet(ch)
    ensures offset == TableAt(ch)
  {
    var k := 0;
    while k < 63 && MapAt(k) != ch
      invariant 0 <= k <= 63
      invariant forall v: Sextet :: v < k ==> MapAt(v) != ch
    {
      k := k + 1;
    }
    offset := k;
    TablesInverse(offset, ch);
  }

  // ---------- Encoding ----------

  function Group(d: nat, shift: nat): Sextet
    requires shift > 0
  {
    d / shift % 64
  }

  /** Up to three bytes as a 24-bit number, first byte on top. */
  function Packed(b: seq<Octet>): (d: int)
    requires 1 <= |b| <= 3
    ensures 0 <= d < 0x100_0000
  {
    var b0: int := b[0];
    var b1: int := if |b| > 1 then b[1] else 0;
    var b2: int := if |b| > 2 then b[2] else 0;
    b0 * 0x10000 + b1 * 0x100 + b2
  }

  /** Up to three bytes as four characters. */
  function Block(b: seq<Octet>): (r: seq<Octet>)
    requires 1 <= |b| <= 3
    ensures |r| == 4
  {
    var d := Packed(b);
    [MapAt(Group(d, 0x40000)), MapAt(Group(d, 0x1000)),
     if |b| < 2 then PAD else MapAt(Group(d, 0x40)), if |b| < 3 then PAD else MapAt(Group(d, 1))]
  }

  function Plain(src: seq<Octet>): (r: seq<Octet>)
    ensures |r| == (|src| + 2) / 3 * 4
  {
    if src == [] then [] else if |src| <= 3 then Block(src) else Block(src[..3]) + Plain(src[3..])
  }

  /** Break into lines: a newline after every 76 characters that are followed by another. */
  function Lines(s: seq<Octet>): seq<Octet> {
    if |s| <= LINE_LENGTH then s else s[..LINE_LENGTH] + [NEWLINE] + Lines(s[LINE_LENGTH..])
  }

  function EncodeLen(srcLen: nat): int {
    var nbytes := (srcLen + 2) / 3 * 4;
    var breaks := nbytes / LINE_LENGTH;
    nbytes + if nbytes % LINE_LENGTH == 0 then breaks - 1 else breaks
  }

  lemma {:induction false} LinesLength(s: seq<Octet>)
    ensures |Lines(s)| == if s == [] then 0 else |s| + (|s| - 1) / LINE_LENGTH
  {
    if |s| > LINE_LENGTH {
      LinesLength(s[LINE_LENGTH..]);
    }
  }

  /** The length computed for the buffer is the length of the encoding, except for the empty input. */
  lemma EncodeLenIsExact(src: seq<Octet>)
    ensures EncodeLen(|src|) == |Lines(Plain(src))| <==> src != []
    ensures src == [] ==> EncodeLen(|src|) == -1
  {
    LinesLength(Plain(src));
    var n := |Plain(src)|;
    if src != [] {
      assert (n - 1) / LINE_LENGTH == if n % LINE_LENGTH == 0 then n / LINE_LENGTH - 1 else n / LINE_LENGTH;
    }
  }

  /** The 32-bit int that holds the length holds it exactly for sources up to this size. */
  lemma EncodeLenFitsInt(srcLen: nat)
    ensures EncodeLen(srcLen) <= 0x7FFF_FFFF <==> srcLen <= 1_589_695_686
  {
    var groups := (srcLen + 2) / 3;
    var n := 4 * groups;
    assert EncodeLen(srcLen) == n + (n - 1) / LINE_LENGTH by {
      assert (n - 1) / LINE_LENGTH == if n % LINE_LENGTH == 0 then n / LINE_LENGTH - 1 else n / LINE_LENGTH;
    }
    assert groups <= 529_898_562 <==> srcLen <= 1_589_695_686;
  }

  /** Newlines stand exactly after every 76 other characters, so no line is longer. */
  lemma {:induction false} LineBreaks(s: seq<Octet>, k: nat)
    requires NEWLINE !in s && k < |Lines(s)|
    ensures Lines(s)[k] == NEWLINE <==> k % (LINE_LENGTH + 1) == LINE_LENGTH
  {
    if |s| > LINE_LENGTH && k > LINE_LENGTH {
      LineBreaks(s[LINE_LENGTH..], k - LINE_LENGTH - 1);
      assert Lines(s)[k] == Lines(s[LINE_LENGTH..])[k - LINE_LENGTH - 1];
    }
  }

  lemma {:induction false} LinesAppend(s: seq<Octet>, b: seq<Octet>)
    requires |s| % 4 == 0 && |b| == 4
    ensures Lines(s + b) == Lines(s) + (if s != [] && |s| % LINE_LENGTH == 0 then [NEWLINE] else []) + b
  {
    if |s| <= LINE_LENGTH {
      if |s| == LINE_LENGTH {
        assert (s + b)[..LINE_LENGTH] == s && (s + b)[LINE_LENGTH..] == b;
      }
    } else {
      var t := s[LINE_LENGTH..];
      LinesAppend(t, b);
      assert (s + b)[..LINE_LENGTH] == s[..LINE_LENGTH] && (s + b)[LINE_LENGTH..] == t + b;
    }
  }

  lemma {:induction false} PlainAppend(a: seq<Octet>, b: seq<Octet>)
    requires |a| % 3 == 0
    ensures Plain(a + b) == Plain(a) + Plain(b)
  {
    hide Block;
    if a == [] {
      assert a + b == b;
    } else if b == [] {
      assert a + b == a;
    } else {
      PlainAppend(a[3..], b);
      assert (a + b)[..3] == a[..3] && (a + b)[3..] == a[3..] + b;
      assert Plain(a) == Block(a[..3]) + Plain(a[3..]) by {
        if |a| == 3 { assert a[..3] == a; }
      }
    }
  }

  method GetEncodeLen(srcLen: nat) returns (total: int)
    ensures total == EncodeLen(srcLen)
  {
    var nbytes := (srcLen + 2) / 3 * 4;
    var breaks := nbytes / LINE_LENGTH;
    if nbytes % LINE_LENGTH == 0 {
      breaks := breaks - 1;
    }
    total := nbytes + breaks;
  }

  /** A longer input never needs a shorter buffer. */
  lemma PrefixFits(src: seq<Octet>, i: nat)
    requires i < |src| && i % 3 == 0
    ensures |Lines(Plain(src[..i]))| + (if i > 0 && |Plain(src[..i])| % LINE_LENGTH == 0 then 1 else 0) + 4
         <= |Lines(Plain(src))|
  {
    hide Lines, Block;
    LinesLength(Plain(src[..i]));
    LinesLength(Plain(src));
    LongerFits((i + 2) / 3 * 4, (|src| + 2) / 3 * 4);
  }

  lemma LongerFits(a: nat, n: nat)
    requires a + 4 <= n
    ensures (if a == 0 then 0 else a + (a - 1) / LINE_LENGTH) + (if a > 0 && a % LINE_LENGTH == 0 then 1 else 0) + 4
         <= n + (n - 1) / LINE_LENGTH
  {
    assert (n - 1) / LINE_LENGTH >= a / LINE_LENGTH;
  }

  lemma NextBlock(src: seq<Octet>, i: nat, n: nat)
    requires i % 3 == 0 && i < n <= i + 3 && n <= |src|
    ensures Plain(src[..n]) == Plain(src[..i]) + Block(src[i..n])
  {
    hide Block;
    assert src[..n] == src[..i] + src[i..n];
    PlainAppend(src[..i], src[i..n]);
  }

  /** Up to three bytes from i on, as a number, and how many of three are missing. */
  method GatherGroup(src: seq<Octet>, i: nat) returns (d: nat, fill: nat, next: nat)
    requires i < |src|
    ensures i < next <= i + 3 && next <= |src| && (next == i + 3 || next == |src|)
    ensures d == Packed(src[i..next]) && fill == 3 - (next - i)
  {
    var b0: int := src[i];
    d, fill, next := b0 * 0x10000, 2, i + 1;
    if |src| >= next + 1 {
      var b1: int := src[next];
      d := d + b1 * 0x100;
      next := next + 1;
      fill := 1;
    }
    if |src| >= next + 1 {
      var b2: int := src[next];
      d := d + b2;
      next := next + 1;
      fill := 0;
    }
  }

  /** Writes the encoding and nothing beyond it. */
  method EncodeLocal(src: seq<Octet>, dest: array<Octet>)
    requires dest.Length >= |Lines(Plain(src))|
    modifies dest
    ensures dest[..|Lines(Plain(src))|] == Lines(Plain(src))
    ensures dest[|Lines(Plain(src))|..] == old(dest[|Lines(Plain(src))|..])
  {
    hide Lines, Plain, Block;
    var encodedLen, lineBreakCount, i := 0, 0, 0;
    EmptyEncoding(src);
    ghost var total := |Lines(Plain(src))|;
    while i < |src|
      invariant 0 <= i <= |src| && (i < |src| ==> i % 3 == 0)
      invariant lineBreakCount == LineCount(|Plain(src[..i])|)
      invariant encodedLen == |Lines(Plain(src[..i]))| <= total
      invariant dest[..encodedLen] == Lines(Plain(src[..i]))
      invariant dest[total..] == old(dest[total..])
    {
      ghost var start, done := i, Plain(src[..i]);
      PrefixFits(src, i);
      LineCountMeaning(|done|);
      if lineBreakCount == LINE_LENGTH {
        dest[encodedLen] := NEWLINE;
        encodedLen := encodedLen + 1;
        lineBreakCount := 0;
      }
      ghost var written := dest[..encodedLen];
      var d, fill;
      d, fill, i := GatherGroup(src, i);
      ghost var block := Block(src[start..i]);
      WriteBlock(dest, encodedLen, d, fill, src[start..i]);
      encodedLen := encodedLen + 4;
      lineBreakCount := lineBreakCount + 4;
      NextBlock(src, start, i);
      LinesAppend(done, block);
      NextThird(start);
    }
    assert src[..i] == src;
  }

  lemma NextThird(i: nat)
    ensures (i + 3) % 3 == i % 3
  {
  }

  /** Characters on the current line once n have been written. */
  function LineCount(n: nat): nat {
    if n == 0 then 0 else (n - 1) % LINE_LENGTH + 1
  }

  lemma LineCountMeaning(n: nat)
    requires n % 4 == 0
    ensures LineCount(n) == LINE_LENGTH <==> n > 0 && n % LINE_LENGTH == 0
    ensures LineCount(n + 4) == (if LineCount(n) == LINE_LENGTH then 0 else LineCount(n)) + 4
  {
  }

  lemma EmptyEncoding(src: seq<Octet>)
    ensures Lines(Plain(src[..0])) == Plain(src[..0]) == []
  {
  }

  /** The four characters of one block. */
  method WriteBlock(dest: array<Octet>, at: nat, d: nat, fill: nat, ghost b: seq<Octet>)
    requires at + 4 <= dest.Length
    requires 1 <= |b| <= 3 && fill == 3 - |b| && d == Packed(b)
    modifies dest
    ensures dest[..at + 4] == old(dest[..at]) + Block(b)
    ensures dest[at + 4..] == old(dest[at + 4..])
  {
    dest[at] := MapAt(Group(d, 0x40000));
    dest[at + 1] := MapAt(Group(d, 0x1000));
    dest[at + 2] := if fill > 1 then PAD else MapAt(Group(d, 0x40));
    dest[at + 3] := if fill > 0 then PAD else MapAt(Group(d, 1));
  }

  /** The destination gets exactly the computed length and a terminator. */
  method Encode(src: seq<Octet>) returns (dest: array<Octet>, destLen: int)
    requires src != []
    ensures fresh(dest) && destLen == EncodeLen(|src|) == dest.Length - 1
    ensures dest[..destLen] == Lines(Plain(src)) && dest[destLen] == 0
  {
    destLen := GetEncodeLen(|src|);
    EncodeLenIsExact(src);
    dest := new Octet[destLen + 1];
    EncodeLocal(src, dest);
    dest[destLen] := 0;
  }

  // ---------- Decoding ----------

  /** The input without its white space. */
  function Stripped(s: seq<Octet>): seq<Octet> {
    if s == [] then []
    else Stripped(s[..|s| - 1]) + if IsSpace(s[|s| - 1]) then [] else [s[|s| - 1]]
  }

  lemma {:induction false} StrippedAppend(a: seq<Octet>, b: seq<Octet>)
    ensures Stripped(a + b) == Stripped(a) + Stripped(b)
  {
    if b == [] {
      assert a + b == a;
    } else {
      StrippedAppend(a, b[..|b| - 1]);
      assert (a + b)[..|a + b| - 1] == a + b[..|b| - 1];
    }
  }

  lemma {:induction false} StrippedHasNoSpace(s: seq<Octet>)
    ensures |Stripped(s)| <= |s|
    ensures forall c :: c in Stripped(s) ==> !IsSpace(c)
  {
    if s != [] {
      StrippedHasNoSpace(s[..|s| - 1]);
    }
  }

  lemma {:induction false} NothingToStrip(s: seq<Octet>)
    requires forall c :: c in s ==> !IsSpace(c)
    ensures Stripped(s) == s
  {
    if s != [] {
      NothingToStrip(s[..|s| - 1]);
    }
  }

  /** The source is read one cell past its size, so that cell must exist. */
  method RemoveSpace(src: seq<Octet>, size: nat, dest: array<Octet>) returns (destLen: nat)
    requires size < |src| && dest.Length >= size
    modifies dest
    ensures destLen == |Stripped(src[..size])| <= size
    ensures dest[..destLen] == Stripped(src[..size])
  {
    destLen := 0;
    var i := 0;
    assert src[..0] == [];
    while i < size
      invariant 0 <= i <= size
      invariant destLen <= i && destLen == |Stripped(src[..i])|
      invariant dest[..destLen] == Stripped(src[..i])
    {
      while IsSpace(src[i]) && i < size
        invariant 0 <= i <= size
        invariant destLen <= i
        invariant Stripped(src[..i]) == dest[..destLen]
        decreases size - i
      {
        assert src[..i + 1][..i] == src[..i];
        i := i + 1;
      }
      if i >= size {
        break;
      }
      assert src[..i + 1][..i] == src[..i];
      dest[destLen] := src[i];
      i := i + 1;
      destLen := destLen + 1;
    }
  }

  /** Four sextets, zero where padding stands, and the number of padding characters. */
  datatype Chunk = Chunk(v0: Sextet, v1: Sextet, v2: Sextet, v3: Sextet, padding: nat)

  ghost predicate AllAlphabet(s: seq<Octet>) {
    forall c :: c in s ==> IsAlphabet(c)
  }

  /** Length divisible by four, and alphabet characters except for one or two final paddings. */
  ghost predicate WellFormed(s: seq<Octet>) {
    && |s| > 0 && |s| % 4 == 0
    && exists p :: 0 <= p <= 2 && PaddedBy(s, p)
  }

  ghost predicate PaddedBy(s: seq<Octet>, p: nat)
    requires |s| >= 4
  {
    p <= 2 && AllAlphabet(s[..|s| - p]) && forall i :: |s| - p <= i < |s| ==> s[i] == PAD
  }

  function Value(c: Octet): Sextet {
    if IsAlphabet(c) then TableAt(c) else 0
  }

  function PaddingOf(q: seq<Octet>): nat
    requires |q| == 4
  {
    if q[2] == PAD then 2 else if q[3] == PAD then 1 else 0
  }

  function ChunkOf(q: seq<Octet>): Chunk
    requires |q| == 4
  {
    Chunk(Value(q[0]), Value(q[1]), Value(q[2]), Value(q[3]), PaddingOf(q))
  }

  function Chunks(s: seq<Octet>): (r: seq<Chunk>)
    requires |s| % 4 == 0
    ensures |r| == |s| / 4
  {
    if s == [] then [] else Chunks(s[..|s| - 4]) + [ChunkOf(s[|s| - 4..])]
  }

  /** Four sextets as a 24-bit number, first sextet on top. */
  function Joined(v0: Sextet, v1: Sextet, v2: Sextet, v3: Sextet): (d: int)
    ensures 0 <= d < 0x100_0000
  {
    v0 as int * 0x40000 + v1 as int * 0x1000 + v2 as int * 0x40 + v3 as int
  }

  /** The bytes of one chunk. */
  function ChunkBytes(c: Chunk): (r: seq<Octet>)
    requires c.padding <= 2
    ensures |r| == 3 - c.padding
  {
    var d := Joined(c.v0, c.v1, c.v2, c.v3);
    [d / 0x10000 % 256, d / 0x100 % 256, d % 256][..3 - c.padding]
  }

  function Bytes(cs: seq<Chunk>): seq<Octet>
    requires forall c :: c in cs ==> c.padding <= 2
  {
    if cs == [] then [] else Bytes(cs[..|cs| - 1]) + ChunkBytes(cs[|cs| - 1])
  }

  /** The decoded bytes of a text without white space. */
  function Decoded(s: seq<Octet>): seq<Octet>
    requires |s| % 4 == 0
  {
    ChunksPadding(s);
    Bytes(Chunks(s))
  }

  lemma {:induction false} ChunksPadding(s: seq<Octet>)
    requires |s| % 4 == 0
    ensures forall c :: c in Chunks(s) ==> c.padding <= 2
  {
    if s != [] {
      ChunksPadding(s[..|s| - 4]);
    }
  }

  datatype Result<T> = Ok(value: T) | EmptyInput | InvalidInput

  datatype Partition = Partition(chunks: seq<Chunk>, dstLen: nat)

  /** The four characters make a chunk: no padding in front, two at most, and the second only behind the first. */
  predicate ChunkIsValid(q: seq<Octet>)
    requires |q| == 4
  {
    && !IsInvalid(q[0]) && !IsInvalid(q[1]) && !IsInvalid(q[2]) && !IsInvalid(q[3])
    && q[0] != PAD && q[1] != PAD && (q[2] == PAD ==> q[3] == PAD)
  }

  /** Chunk k is valid, and unpadded unless it is the last one. */
  predicate ChunkFits(s: seq<Octet>, k: nat)
    requires 4 * k + 4 <= |s|
  {
    ChunkIsValid(s[4 * k..4 * k + 4]) && (s[4 * k + 3] == PAD ==> 4 * k + 4 == |s|)
  }

  /** What the loop checks of the first n chunks. */
  ghost predicate ChunksFit(s: seq<Octet>, n: nat)
    requires 4 * n <= |s|
  {
    forall k :: 0 <= k < n ==> ChunkFits(s, k)
  }

  method MakeChunk(q: seq<Octet>) returns (chunk: Chunk)
    requires |q| == 4 && ChunkIsValid(q) && forall c :: c in q ==> !IsSpace(c)
    ensures chunk == ChunkOf(q)
  {
    var padding := if q[3] == PAD then 1 else 0;
    padding := padding + if q[2] == PAD then 1 else 0;
    var bytes: array<Sextet> := new Sextet[4](_ => 0);
    for j := 0 to 4 - padding
      invariant forall k :: 0 <= k < j ==> bytes[k] == Value(q[k])
      invariant forall k :: j <= k < 4 ==> bytes[k] == 0
    {
      assert q[j] in q;
      assert IsAlphabet(q[j]);
      bytes[j] := FindBase64(q[j]);
    }
    chunk := Chunk(bytes[0], bytes[1], bytes[2], bytes[3], padding);
  }

  lemma ChunkStep(s: seq<Octet>, k: nat)
    requires 4 * k + 4 <= |s|
    ensures Chunks(s[..4 * k + 4]) == Chunks(s[..4 * k]) + [ChunkOf(s[4 * k..4 * k + 4])]
    ensures |Decoded(s[..4 * k + 4])| == |Decoded(s[..4 * k])| + 3 - PaddingOf(s[4 * k..4 * k + 4])
  {
    hide ChunkOf, ChunkBytes, PaddingOf;
    var t := s[..4 * k + 4];
    assert t[..|t| - 4] == s[..4 * k] && t[|t| - 4..] == s[4 * k..4 * k + 4];
    var cs := Chunks(t);
    ChunksPadding(t);
    assert cs[..|cs| - 1] == Chunks(s[..4 * k]);
    ChunkPadding(s[4 * k..4 * k + 4]);
  }

  lemma ChunkPadding(q: seq<Octet>)
    requires |q| == 4
    ensures ChunkOf(q).padding == PaddingOf(q) <= 2
  {
  }

  method PartitionIntoChunk(src: seq<Octet>) returns (r: Result<Partition>)
    requires src != [] && forall c :: c in src ==> !IsSpace(c)
    ensures !r.EmptyInput?
    ensures r.Ok? <==> |src| % 4 == 0 && ChunksFit(src, |src| / 4)
    ensures r.Ok? ==> r.value.chunks == Chunks(src) && r.value.dstLen == |Decoded(src)|
  {
    hide Chunks, Decoded, ChunkOf, IsInvalid, IsSpace;
    if |src| % 4 != 0 {
      return InvalidInput;
    }
    var chunkNum := |src| / 4;
    var chunks: seq<Chunk> := [];
    var dstLen, i, chunkCount := 0, 0, 0;
    NoChunks(src);
    while chunkCount < chunkNum
      invariant i == 4 * chunkCount <= |src|
      invariant chunks == Chunks(src[..i])
      invariant dstLen == |Decoded(src[..i])|
      invariant ChunksFit(src, chunkCount)
    {
      var q := src[i..i + 4];
      var d1, d2, d3, d4 := src[i], src[i + 1], src[i + 2], src[i + 3];
      assert q == [d1, d2, d3, d4];
      ghost var fits := ChunkFits(src, chunkCount);
      if IsInvalid(d1) || IsInvalid(d2) || IsInvalid(d3) || IsInvalid(d4) || d1 == PAD || d2 == PAD {
        assert !fits;
        return InvalidInput;
      }
      if d3 == PAD && d4 != PAD {
        assert !fits;
        return InvalidInput;
      }
      var chk := MakeChunk(q);
      chunks := chunks + [chk];
      ChunkStep(src, chunkCount);
      if d4 == PAD {
        if chunkCount + 1 != chunkNum {
          assert !fits;
          return InvalidInput;
        }
        dstLen := dstLen + if d3 == PAD then 1 else 2;
        chunkCount := chunkCount + 1;
        i := i + 4;
        break;
      }
      chunkCount := chunkCount + 1;
      dstLen := dstLen + 3;
      i := i + 4;
    }
    assert src[..i] == src;
    r := Ok(Partition(chunks, dstLen));
  }

  lemma NoChunks(s: seq<Octet>)
    ensures Chunks(s[..0]) == [] && Decoded(s[..0]) == []
  {
  }

  /** The checks of the loop accept exactly the well-formed texts. */
  lemma FitsIsWellFormed(s: seq<Octet>)
    requires s != [] && |s| % 4 == 0 && forall c :: c in s ==> !IsSpace(c)
    ensures ChunksFit(s, |s| / 4) <==> WellFormed(s)
  {
    var n := |s| / 4;
    if ChunksFit(s, n) {
      var q := s[4 * (n - 1)..];
      assert q == s[4 * (n - 1)..4 * (n - 1) + 4];
      assert ChunkFits(s, n - 1);
      var p := PaddingOf(q);
      forall c | c in s[..|s| - p] ensures IsAlphabet(c) {
        var j :| 0 <= j < |s| - p && s[j] == c;
        CharacterOfChunk(s, n, j);
      }
      assert PaddedBy(s, p);
    }
    if WellFormed(s) {
      var p :| 0 <= p <= 2 && PaddedBy(s, p);
      forall k | 0 <= k < n ensures ChunkFits(s, k) {
        PaddedChunk(s, p, k);
      }
    }
  }

  lemma CharacterOfChunk(s: seq<Octet>, n: nat, j: nat)
    requires |s| == 4 * n && ChunksFit(s, n) && j < |s| && !IsSpace(s[j])
    requires j < |s| - PaddingOf(s[4 * (n - 1)..])
    ensures IsAlphabet(s[j])
  {
    var k := j / 4;
    assert ChunkFits(s, k);
    var q := s[4 * k..4 * k + 4];
    assert q[j - 4 * k] == s[j];
    assert q[3] == s[4 * k + 3];
    if k == n - 1 { assert q == s[4 * (n - 1)..]; }
  }

  lemma PaddedChunk(s: seq<Octet>, p: nat, k: nat)
    requires |s| >= 4 && |s| % 4 == 0 && p <= 2 && PaddedBy(s, p) && 4 * k + 4 <= |s|
    ensures ChunkFits(s, k)
  {
    forall j | 0 <= j < |s| ensures if j < |s| - p then IsAlphabet(s[j]) else s[j] == PAD {
      if j < |s| - p { assert s[..|s| - p][j] == s[j]; }
    }
    var q := s[4 * k..4 * k + 4];
    assert q == [s[4 * k], s[4 * k + 1], s[4 * k + 2], s[4 * k + 3]];
  }

  method DecodeChunk(dest: array<Octet>, chunks: seq<Chunk>)
    requires forall c :: c in chunks ==> c.padding <= 2
    requires dest.Length >= |Bytes(chunks)|
    modifies dest
    ensures dest[..|Bytes(chunks)|] == Bytes(chunks)
    ensures dest[|Bytes(chunks)|..] == old(dest[|Bytes(chunks)|..])
  {
    hide ChunkBytes;
    var at := 0;
    for i := 0 to |chunks|
      invariant at == |Bytes(chunks[..i])| <= |Bytes(chunks)|
      invariant dest[..at] == Bytes(chunks[..i])
      invariant dest[|Bytes(chunks)|..] == old(dest[|Bytes(chunks)|..])
    {
      assert chunks[..i + 1][..i] == chunks[..i];
      BytesGrow(chunks, i + 1);
      var bytes := ChunkBytes(chunks[i]);
      forall j | 0 <= j < |bytes| {
        dest[at + j] := bytes[j];
      }
      at := at + |bytes|;
    }
    assert chunks[..|chunks|] == chunks;
  }

  lemma {:induction false} BytesGrow(cs: seq<Chunk>, n: nat)
    requires n <= |cs| && forall c :: c in cs ==> c.padding <= 2
    ensures |Bytes(cs[..n])| <= |Bytes(cs)|
  {
    if n == |cs| {
      assert cs[..n] == cs;
    } else {
      BytesGrow(cs[..|cs| - 1], n);
      assert cs[..|cs| - 1][..n] == cs[..n];
    }
  }

  /** What decoding answers: the errors and the bytes. */
  ghost function DecodeResult(src: seq<Octet>): (r: Result<seq<Octet>>)
  {
    var s := Stripped(src);
    if s == [] then EmptyInput
    else if WellFormed(s) then Ok(Decoded(s))
    else InvalidInput
  }

  method Decode(src: seq<Octet>, srcLen: nat) returns (r: Result<seq<Octet>>)
    requires srcLen < |src|
    ensures r == DecodeResult(src[..srcLen])
  {
    hide Decoded, WellFormed, Stripped, IsSpace, ChunksFit, Bytes;
    var buffer := new Octet[srcLen + 1];
    var len := RemoveSpace(src, srcLen, buffer);
    if len == 0 {
      return EmptyInput;
    }
    var text := buffer[..len];
    StrippedHasNoSpace(src[..srcLen]);
    var p := PartitionIntoChunk(text);
    if |text| % 4 == 0 {
      FitsIsWellFormed(text);
    } else {
      OddLength(text);
    }
    if !p.Ok? {
      return InvalidInput;
    }
    var dest := new Octet[p.value.dstLen + 1];
    dest[p.value.dstLen] := 0;
    DecodedIsBytes(text);
    DecodeChunk(dest, p.value.chunks);
    r := Ok(dest[..p.value.dstLen]);
  }

  lemma OddLength(s: seq<Octet>)
    requires |s| % 4 != 0
    ensures !WellFormed(s)
  {
  }

  lemma DecodedIsBytes(s: seq<Octet>)
    requires |s| % 4 == 0
    ensures (forall c :: c in Chunks(s) ==> c.padding <= 2) && Decoded(s) == Bytes(Chunks(s))
  {
    ChunksPadding(s);
  }

  // ---------- Round trips ----------

  lemma JoinGroups(d: int)
    requires 0 <= d < 0x100_0000
    ensures Joined(Group(d, 0x40000), Group(d, 0x1000), Group(d, 0x40), Group(d, 1)) == d
  {
    var a := d / 64;
    var b := a / 64;
    GroupJoined(b / 64, b % 64, a % 64, d % 64);
    assert Joined(b / 64, b % 64, a % 64, d % 64) == d;
  }

  lemma GroupJoined(v0: Sextet, v1: Sextet, v2: Sextet, v3: Sextet)
    ensures var d := Joined(v0, v1, v2, v3);
            0 <= d && Group(d, 0x40000) == v0 && Group(d, 0x1000) == v1 && Group(d, 0x40) == v2 && Group(d, 1) == v3
  {
    var d := Joined(v0, v1, v2, v3);
    assert d / 0x40 == v0 as int * 0x1000 + v1 as int * 0x40 + v2 as int;
    assert d / 0x1000 == v0 as int * 0x40 + v1 as int;
    assert d / 0x40000 == v0 as int;
  }

  lemma PackedBytes(b0: int, b1: int, b2: int)
    requires 0 <= b0 < 256 && 0 <= b1 < 256 && 0 <= b2 < 256
    ensures var d := b0 * 0x10000 + b1 * 0x100 + b2;
            d / 0x10000 % 256 == b0 && d / 0x100 % 256 == b1 && d % 256 == b2
  {
    var d := b0 * 0x10000 + b1 * 0x100 + b2;
    assert d / 0x100 == b0 * 0x100 + b1;
    assert d / 0x10000 == b0;
  }

  lemma BlockCharacters(b: seq<Octet>)
    requires 1 <= |b| <= 3
    ensures var q := Block(b);
            && PaddedBy(q, 3 - |b|) && PaddingOf(q) == 3 - |b|
            && (forall c :: c in q ==> !IsSpace(c) && c != NEWLINE)
  {
    var q := Block(b);
    forall v: Sextet ensures IsAlphabet(MapAt(v)) && MapAt(v) != PAD {
      TablesInverse(v, 0);
    }
    forall c | c in q[..4 - (3 - |b|)] ensures IsAlphabet(c) {}
  }

  /** The sextets that padding leaves out are zero. */
  lemma UnusedGroups(b: seq<Octet>)
    requires 1 <= |b| <= 3
    ensures |b| < 3 ==> Group(Packed(b), 1) == 0
    ensures |b| < 2 ==> Group(Packed(b), 0x40) == 0
  {
    var d := Packed(b);
    var b0: int := b[0];
    if |b| == 1 {
      assert d == 0x1000 * (b0 * 16);
    } else if |b| == 2 {
      var b1: int := b[1];
      assert d == 0x40 * (b0 * 0x400 + b1 * 4);
    }
  }

  lemma BlockValues(b: seq<Octet>)
    requires 1 <= |b| <= 3
    ensures var d := Packed(b);
            ChunkOf(Block(b)) == Chunk(Group(d, 0x40000), Group(d, 0x1000), Group(d, 0x40), Group(d, 1), 3 - |b|)
  {
    hide Packed, Group, MapAt, TableAt;
    var d := Packed(b);
    BlockCharacters(b);
    ValueOfMap(Group(d, 0x40000));
    ValueOfMap(Group(d, 0x1000));
    ValueOfMap(Group(d, 0x40));
    ValueOfMap(Group(d, 1));
    PadValue();
    UnusedGroups(b);
  }

  lemma ValueOfMap(v: Sextet)
    ensures Value(MapAt(v)) == v && MapAt(v) != PAD
  {
  }

  lemma PadValue()
    ensures Value(PAD) == 0
  {
  }

  lemma BlockChunk(b: seq<Octet>)
    requires 1 <= |b| <= 3
    ensures ChunkOf(Block(b)).padding == 3 - |b|
    ensures ChunkBytes(ChunkOf(Block(b))) == b
  {
    hide ChunkOf, Block, Group, Joined;
    BlockValues(b);
    JoinGroups(Packed(b));
    PackedBytes(b[0], if |b| > 1 then b[1] else 0, if |b| > 2 then b[2] else 0);
  }

  lemma {:induction false} DecodedAppend(a: seq<Octet>, b: seq<Octet>)
    requires |a| % 4 == 0 && |b| % 4 == 0
    ensures Decoded(a + b) == Decoded(a) + Decoded(b)
    decreases |b|
  {
    hide ChunkOf, ChunkBytes, Chunks, Decoded;
    if b == [] {
      assert a + b == a;
      NoChunks(b);
      assert b[..0] == b;
    } else {
      var t, q := b[..|b| - 4], b[|b| - 4..];
      DecodedAppend(a, t);
      assert (a + b)[..|a + b| - 4] == a + t && (a + b)[|a + b| - 4..] == q;
      LastChunk(a + b);
      LastChunk(b);
    }
  }

  lemma LastChunk(s: seq<Octet>)
    requires |s| % 4 == 0 && s != []
    ensures ChunkOf(s[|s| - 4..]).padding <= 2
    ensures Decoded(s) == Decoded(s[..|s| - 4]) + ChunkBytes(ChunkOf(s[|s| - 4..]))
  {
    hide ChunkOf, ChunkBytes;
    var cs := Chunks(s);
    ChunksPadding(s);
    ChunkPadding(s[|s| - 4..]);
    assert cs[..|cs| - 1] == Chunks(s[..|s| - 4]);
  }

  lemma OneChunk(q: seq<Octet>)
    requires |q| == 4
    ensures ChunkOf(q).padding <= 2 && Decoded(q) == ChunkBytes(ChunkOf(q))
  {
    hide ChunkOf, ChunkBytes;
    LastChunk(q);
    NoChunks(q);
    assert q[0..] == q;
  }

  lemma {:induction false} PlainDecodes(src: seq<Octet>)
    requires src != []
    ensures WellFormed(Plain(src)) && Decoded(Plain(src)) == src
    ensures forall c :: c in Plain(src) ==> !IsSpace(c) && c != NEWLINE
  {
    hide Block, ChunkOf, ChunkBytes, Decoded, IsSpace, IsAlphabet;
    if |src| <= 3 {
      BlockCharacters(src);
      BlockChunk(src);
      OneChunk(Block(src));
    } else {
      var b, rest := src[..3], src[3..];
      var q, t := Block(b), Plain(rest);
      BlockCharacters(b);
      BlockChunk(b);
      OneChunk(q);
      PlainDecodes(rest);
      DecodedAppend(q, t);
      PaddedAppend(q, t);
    }
  }

  lemma PaddedAppend(q: seq<Octet>, t: seq<Octet>)
    requires |q| == 4 && PaddedBy(q, 0) && WellFormed(t)
    ensures WellFormed(q + t)
  {
    var p :| 0 <= p <= 2 && PaddedBy(t, p);
    var s := q + t;
    assert s[..|s| - p] == q[..4] + t[..|t| - p];
    assert PaddedBy(s, p);
  }

  lemma {:induction false} StripLines(s: seq<Octet>)
    requires forall c :: c in s ==> !IsSpace(c)
    ensures Stripped(Lines(s)) == s
  {
    if |s| <= LINE_LENGTH {
      NothingToStrip(s);
    } else {
      var a, t := s[..LINE_LENGTH], s[LINE_LENGTH..];
      StripLines(t);
      NothingToStrip(a);
      StrippedAppend(a + [NEWLINE], Lines(t));
      StrippedAppend(a, [NEWLINE]);
      assert Stripped([NEWLINE]) == Stripped([]) + [];
    }
  }

  /** Decoding what was encoded gives it back, for every input that can be encoded. */
  lemma RoundTrip(src: seq<Octet>)
    requires src != []
    ensures DecodeResult(Lines(Plain(src))) == Ok(src)
  {
    PlainDecodes(src);
    StripLines(Plain(src));
  }

  /** No line of an encoding is longer than 76 characters. */
  lemma EncodedLines(src: seq<Octet>, k: nat)
    requires k < |Lines(Plain(src))|
    ensures Lines(Plain(src))[k] == NEWLINE <==> k % (LINE_LENGTH + 1) == LINE_LENGTH
  {
    if src != [] {
      PlainDecodes(src);
    }
    LineBreaks(Plain(src), k);
  }

  /** The bits of the last sextet that reach no byte are zero: section 3.5 of RFC 4648. */
  predicate SpareBitsZero(q: seq<Octet>)
    requires |q| == 4
  {
    && (PaddingOf(q) == 1 ==> Value(q[2]) % 4 == 0)
    && (PaddingOf(q) == 2 ==> Value(q[1]) % 16 == 0)
  }

  lemma ChunkBlock(q: seq<Octet>)
    requires |q| == 4 && PaddedBy(q, PaddingOf(q))
    ensures Block(ChunkBytes(ChunkOf(q))) == q <==> SpareBitsZero(q)
  {
    var c, p := ChunkOf(q), PaddingOf(q);
    forall i | 0 <= i < 4 - p ensures IsAlphabet(q[i]) && MapAt(Value(q[i])) == q[i] {
      assert q[i] in q[..4 - p];
      TablesInverse(0, q[i]);
    }
    var d := Joined(c.v0, c.v1, c.v2, c.v3);
    GroupJoined(c.v0, c.v1, c.v2, c.v3);
    SpareBits(c.v0, c.v1, c.v2, c.v3, p, ChunkBytes(c));
    MapInjective(Group(Packed(ChunkBytes(c)), 0x1000), c.v1);
    MapInjective(Group(Packed(ChunkBytes(c)), 0x40), c.v2);
  }

  lemma MapInjective(v: Sextet, u: Sextet)
    ensures MapAt(v) == MapAt(u) <==> v == u
  {
    TablesInverse(v, 0);
    TablesInverse(u, 0);
  }

  /** Dropping the bytes that padding stands for clears the spare bits and nothing else. */
  lemma SpareBits(v0: Sextet, v1: Sextet, v2: Sextet, v3: Sextet, p: nat, b: seq<Octet>)
    requires p <= 2 && (p >= 1 ==> v3 == 0) && (p == 2 ==> v2 == 0)
    requires b == ChunkBytes(Chunk(v0, v1, v2, v3, p))
    ensures var e := Packed(b);
            && Group(e, 0x40000) == v0
            && Group(e, 0x1000) == (if p == 2 then v1 - v1 % 16 else v1)
            && Group(e, 0x40) == (if p == 1 then v2 - v2 % 4 else v2)
            && Group(e, 1) == v3
  {
    hide Group, Joined;
    if p == 0 {
      Repack(v0, v1, v2, v3);
      GroupJoined(v0, v1, v2, v3);
    } else if p == 1 {
      DropOne(v0, v1, v2);
      GroupJoined(v0, v1, v2 - v2 % 4, 0);
    } else {
      DropTwo(v0, v1);
      GroupJoined(v0, v1 - v1 % 16, 0, 0);
    }
  }

  lemma Recombine(d: int)
    requires 0 <= d < 0x100_0000
    ensures d / 0x10000 % 256 == d / 0x100 / 256
    ensures d / 0x100 / 256 * 0x10000 + d / 0x100 % 256 * 0x100 == d / 0x100 * 0x100
  {
    var q := d / 0x100;
    assert d / 0x10000 == q / 256 < 256;
    assert q == q / 256 * 256 + q % 256;
  }

  lemma Repack(v0: Sextet, v1: Sextet, v2: Sextet, v3: Sextet)
    ensures var d := Joined(v0, v1, v2, v3);
            d / 0x10000 % 256 * 0x10000 + d / 0x100 % 256 * 0x100 + d % 256 == d
  {
    hide Joined;
    Recombine(Joined(v0, v1, v2, v3));
  }

  lemma DropOne(v0: Sextet, v1: Sextet, v2: Sextet)
    ensures var d := Joined(v0, v1, v2, 0);
            d / 0x10000 % 256 * 0x10000 + d / 0x100 % 256 * 0x100 == Joined(v0, v1, v2 - v2 % 4, 0)
  {
    var d := Joined(v0, v1, v2, 0);
    Recombine(d);
    DropByte(v0, v1, v2);
  }

  lemma DropByte(v0: Sextet, v1: Sextet, v2: Sextet)
    ensures Joined(v0, v1, v2, 0) / 0x100 * 0x100 == Joined(v0, v1, v2 - v2 % 4, 0)
  {
    var d, h := Joined(v0, v1, v2, 0), v0 as int * 0x400 + v1 as int * 0x10 + v2 as int / 4;
    assert d == 0x100 * h + 0x40 * (v2 as int % 4);
    assert d / 0x100 == h;
  }

  lemma DropTwo(v0: Sextet, v1: Sextet)
    ensures var d := Joined(v0, v1, 0, 0);
            d / 0x10000 % 256 * 0x10000 == Joined(v0, v1 - v1 % 16, 0, 0)
  {
    var d, h := Joined(v0, v1, 0, 0), v0 as int * 4 + v1 as int / 16;
    assert d == 0x10000 * h + 0x1000 * (v1 as int % 16);
    assert d / 0x10000 == h;
  }

  /** Encoding what was decoded gives the text back exactly when the spare bits of its last chunk are zero. */
  lemma {:induction false} PlainOfDecoded(s: seq<Octet>)
    requires WellFormed(s)
    ensures Plain(Decoded(s)) == s <==> SpareBitsZero(s[|s| - 4..])
    ensures Decoded(s) != []
  {
    hide Block, ChunkOf, ChunkBytes, Decoded, SpareBitsZero, IsAlphabet, PaddingOf;
    if |s| == 4 {
      assert s[0..] == s;
      SinglePadding(s);
      OneChunk(s);
      ChunkBlock(s);
      ChunkPadding(s);
    } else {
      var q, t := s[..4], s[4..];
      assert s == q + t && t[|t| - 4..] == s[|s| - 4..];
      FirstChunk(s);
      PlainOfDecoded(t);
      DecodedAppend(q, t);
      OneChunk(q);
      ChunkBlock(q);
      ChunkPadding(q);
      PlainAppend(Decoded(q), Decoded(t));
    }
  }

  lemma SinglePadding(s: seq<Octet>)
    requires |s| == 4 && WellFormed(s)
    ensures PaddedBy(s, PaddingOf(s))
  {
    var p :| 0 <= p <= 2 && PaddedBy(s, p);
    forall i | 0 <= i < 4 - p ensures s[i] != PAD {
      assert s[i] in s[..4 - p];
    }
  }

  lemma FirstChunk(s: seq<Octet>)
    requires |s| > 4 && WellFormed(s)
    ensures WellFormed(s[4..]) && PaddingOf(s[..4]) == 0 && PaddedBy(s[..4], 0) && SpareBitsZero(s[..4])
  {
    var p :| 0 <= p <= 2 && PaddedBy(s, p);
    var q, t := s[..4], s[4..];
    forall c | c in q ensures IsAlphabet(c) {
      assert c in s[..|s| - p];
    }
    forall c | c in t[..|t| - p] ensures IsAlphabet(c) {
      assert c in s[..|s| - p];
    }
    assert q[2] in q && q[3] in q;
    assert PaddedBy(t, p);
  }

  /** Re-encoding accepted input gives the stripped text, broken again into lines,
      exactly when its spare bits are zero. */
  lemma Reencode(src: seq<Octet>)
    requires DecodeResult(src).Ok?
    ensures var s := Stripped(src);
            && |s| >= 4
            && (Lines(Plain(DecodeResult(src).value)) == Lines(s) <==> SpareBitsZero(s[|s| - 4..]))
  {
    var s := Stripped(src);
    PlainOfDecoded(s);
    StrippedHasNoSpace(src);
    PlainDecodes(Decoded(s));
    StripLines(s);
    StripLines(Plain(Decoded(s)));
  }
}
