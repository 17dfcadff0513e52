/** The base64 encoder with its line breaks, and the decoder that passes over what is not base64. */
module Base64 {
  import opened Wire

  type Sextet = x: int | 0 <= x < 64

  const NEWLINE: Byte := 10
  const PAD: Byte := 61
  const LETTER_A: Byte := 65

  /** `A` to `Z`, `a` to `z`, `0` to `9`, `+`, `/`. */
  function Base64Chars(): (t: seq<Byte>)
    ensures |t| == 64
  {
    seq(26, i requires 0 <= i < 26 => 65 + i) + seq(26, i requires 0 <= i < 26 => 97 + i)
    + seq(10, i requires 0 <= i < 10 => 48 + i) + [43, 47]
  }

  /** The value of each character up to `z`, with 0 for those that are not base64. */
  function Base64Inv(): (t: seq<Sextet>)
    ensures |t| == 123
  {
    seq(43, _ => 0) + [62] + seq(3, _ => 0) + [63] + seq(10, i requires 0 <= i < 10 => 52 + i) + seq(7, _ => 0)
    + seq(26, i requires 0 <= i < 26 => i) + seq(6, _ => 0) + seq(26, i requires 0 <= i < 26 => 26 + i)
  }

  predicate IsBase64Char(ch: Byte) {
    65 <= ch <= 90 || 97 <= ch <= 122 || 48 <= ch <= 57 || ch == 43 || ch == 47
  }

  lemma TablesMatch(x: Sextet)
    ensures IsBase64Char(Base64Chars()[x]) && Base64Inv()[Base64Chars()[x]] == x
  {
  }

  /** The alphabet of section 4 of RFC 4648. */
  lemma AlphabetIs(x: Sextet)
    ensures Base64Chars()[x] ==
      if x < 26 then 'A' as int + x else if x < 52 then 'a' as int + x - 26 else if x < 62 then '0' as int + x - 52
      else if x == 62 then '+' as int else '/' as int
  {
  }

  /** Just these characters are taken for base64. */
  lemma OnlyTheAlphabet(ch: Byte)
    ensures IsBase64Char(ch) <==> exists x: Sextet :: Base64Chars()[x] == ch
  {
    if IsBase64Char(ch) {
      var x := Base64Inv()[ch];
      assert Base64Chars()[x] == ch;
    }
  }

  // ---- Encoding ----

  /** The space taken by n bytes of data: 4 characters for 3 bytes, and a line break for each full line. */
  function EncodeBufferReq(n: nat, outputLineLen: int): nat {
    var m := (n + 2) / 3 * 4;
    if outputLineLen > 0 then m + m / outputLineLen else m
  }

  /** The four characters for one to three bytes. */
  function EncodeBlock(d: seq<Byte>): (r: seq<Byte>)
    requires 1 <= |d| <= 3
    ensures |r| == 4
  {
    var a := d[0];
    var b := if |d| > 1 then d[1] else 0;
    var c := if |d| > 2 then d[2] else 0;
    [Base64Chars()[a / 4],
     Base64Chars()[a % 4 * 16 + b / 16],
     if |d| > 1 then Base64Chars()[b % 16 * 4 + c / 64] else PAD,
     if |d| > 2 then Base64Chars()[c % 64] else PAD]
  }

  /** The four characters say, in digits of base 64, the number that the bytes are in base 256, filled up with zeros. */
  lemma BlockIsNumber(d: seq<Byte>, x0: Sextet, x1: Sextet, x2: Sextet, x3: Sextet)
    requires 1 <= |d| <= 3
    requires |d| == 3 ==> ((x0 as int * 64 + x1 as int) * 64 + x2 as int) * 64 + x3 as int == (d[0] as int * 256 + d[1] as int) * 256 + d[2] as int
    requires |d| == 2 ==> (x0 as int * 64 + x1 as int) * 64 + x2 as int == (d[0] as int * 256 + d[1] as int) * 4
    requires |d| == 1 ==> x0 as int * 64 + x1 as int == d[0] as int * 16
    ensures EncodeBlock(d) == [Base64Chars()[x0], Base64Chars()[x1],
                               if |d| > 1 then Base64Chars()[x2] else PAD, if |d| > 2 then Base64Chars()[x3] else PAD]
  {
    hide Base64Chars;
  }

  function BlockLen(d: seq<Byte>): nat {
    if |d| > 2 then 3 else |d|
  }

  /** The line break, if any, after a block that starts with `cnt` characters in the line. */
  function BreakAfter(len: int, cnt: int): seq<Byte> {
    if cnt + 4 >= len then [NEWLINE] else []
  }

  function NextCount(len: int, cnt: int): int {
    if cnt + 4 >= len then 0 else cnt + 4
  }

  /** The text for the data, when the current line has `cnt` characters already. */
  function Text(d: seq<Byte>, len: int, cnt: int): seq<Byte>
    decreases |d|
  {
    if d == [] then (if cnt >= len then [NEWLINE] else [])
    else EncodeBlock(d[..BlockLen(d)]) + BreakAfter(len, cnt) + Text(d[BlockLen(d)..], len, NextCount(len, cnt))
  }

  function Zeros(n: nat): seq<Byte> {
    seq(n, _ => 0)
  }

  /** How many line breaks b blocks make when the current line has room for `room` more of them. */
  function Breaks(b: nat, len: int, cnt: int): nat {
    if b == 0 then (if cnt >= len then 1 else 0)
    else if cnt + 4 >= len then 1 + Breaks(b - 1, len, 0) else Breaks(b - 1, len, cnt + 4)
  }

  lemma {:induction false} TextLength(d: seq<Byte>, len: int, cnt: int)
    ensures |Text(d, len, cnt)| == (|d| + 2) / 3 * 4 + Breaks((|d| + 2) / 3, len, cnt)
    decreases |d|
  {
    hide EncodeBlock;
    if d != [] {
      var rest := d[BlockLen(d)..];
      assert (|rest| + 2) / 3 == (|d| + 2) / 3 - 1;
      TextLength(rest, len, NextCount(len, cnt));
    }
  }

  /** The length of a line, rounded up to whole blocks. */
  function WholeBlocks(len: nat): nat {
    (len + 3) / 4 * 4
  }

  /** Each full line is a whole number of blocks long, at least `len` characters, and ends with the only line break. */
  lemma LinesAreEven(d: seq<Byte>, len: nat, k: nat)
    requires len >= 1 && k < |Text(d, len, 0)|
    ensures Text(d, len, 0)[k] == NEWLINE <==> (k + 1) % (WholeBlocks(len) + 1) == 0
    ensures len <= WholeBlocks(len) < len + 4 && WholeBlocks(len) % 4 == 0
  {
    BreaksFrom(d, len, 0, k);
  }

  lemma {:induction false} BreaksFrom(d: seq<Byte>, len: nat, cnt: nat, k: nat)
    requires cnt < len && cnt % 4 == 0 && k < |Text(d, len, cnt)|
    ensures Text(d, len, cnt)[k] == NEWLINE <==> (cnt + k + 1) % (WholeBlocks(len) + 1) == 0
    decreases |d|
  {
    hide EncodeBlock, WholeBlocks;
    var block, rest := EncodeBlock(d[..BlockLen(d)]), d[BlockLen(d)..];
    var m := WholeBlocks(len) + 1;
    NoBreakInBlock(d[..BlockLen(d)]);
    LineIsLonger(len, cnt);
    if k < 4 {
      assert Text(d, len, cnt)[k] == block[k];
      Small(cnt + k + 1, m);
    } else if cnt + 4 >= len {
      LastBlockOfLine(len, cnt);
      if k == 4 {
        assert Text(d, len, cnt)[k] == NEWLINE && cnt + k + 1 == m;
        Small(0, m);
        OneTurn(0, m);
      } else {
        assert Text(d, len, cnt)[k] == Text(rest, len, 0)[k - 5];
        BreaksFrom(rest, len, 0, k - 5);
        OneTurn(k - 4, m);
        assert cnt + k + 1 == k - 4 + m;
      }
    } else {
      assert Text(d, len, cnt)[k] == Text(rest, len, cnt + 4)[k - 4];
      BreaksFrom(rest, len, cnt + 4, k - 4);
    }
  }

  lemma NoBreakInBlock(d: seq<Byte>)
    requires 1 <= |d| <= 3
    ensures forall i :: 0 <= i < 4 ==> EncodeBlock(d)[i] != NEWLINE
  {
  }

  lemma LineIsLonger(len: nat, cnt: nat)
    requires cnt < len && cnt % 4 == 0
    ensures cnt + 4 <= WholeBlocks(len)
  {
  }

  lemma Small(x: nat, m: nat)
    requires x < m
    ensures x % m == x
  {
  }

  lemma OneTurn(x: nat, m: nat)
    requires m > 0
    ensures (x + m) % m == x % m
  {
    var q, r := x / m, x % m;
    assert x + m == m * (q + 1) + r;
    DivisionIsUnique(x + m, m, q + 1, r);
  }

  lemma DivisionIsUnique(x: nat, m: nat, q: nat, r: nat)
    requires m > 0 && x == m * q + r && r < m
    ensures x % m == r
  {
    var d: int := x / m - q;
    assert m * d == r - x % m;
    AtLeastOnce(m, d);
  }

  lemma AtLeastOnce(m: int, d: int)
    requires m > 0
    ensures (d > 0 ==> m * d >= m) && (d < 0 ==> m * d <= -m)
  {
  }

  lemma LastBlockOfLine(len: nat, cnt: nat)
    requires cnt < len <= cnt + 4 && cnt % 4 == 0
    ensures WholeBlocks(len) == cnt + 4
  {
  }

  lemma OneMore(k: nat, w: nat)
    ensures (1 + k) * w == k * w + w
  {
  }

  /** A line break is made exactly where the whole blocks of a line have gone before. */
  lemma {:induction false} BreaksBound(b: nat, len: nat, cnt: nat, w: nat)
    requires cnt < len && cnt % 4 == 0 && w == WholeBlocks(len)
    ensures Breaks(b, len, cnt) * w <= cnt + 4 * b < Breaks(b, len, cnt) * w + w
  {
    hide WholeBlocks;
    if b == 0 {
      LineHasRoom(len, cnt);
    } else if cnt + 4 >= len {
      LastBlockOfLine(len, cnt);
      BreaksBound(b - 1, len, 0, w);
      OneMore(Breaks(b - 1, len, 0), w);
    } else {
      BreaksBound(b - 1, len, cnt + 4, w);
    }
  }

  lemma LineHasRoom(len: nat, cnt: nat)
    requires cnt < len
    ensures cnt < WholeBlocks(len)
  {
  }

  lemma QuotientBound(k: nat, n: nat, d: nat)
    requires d > 0 && k * d <= n
    ensures k <= n / d
    ensures k * d + d > n ==> k == n / d
  {
    var q := n / d;
    assert q * d <= n < q * d + d;
    TimesMonotone(k, q, d);
    TimesMonotone(q, k, d);
  }

  lemma TimesMonotone(a: nat, b: nat, d: nat)
    ensures a < b ==> a * d + d <= b * d
  {
    if a < b {
      assert b * d == (a + 1) * d + (b - a - 1) * d;
    }
  }

  /** Without room for a single character per line there is a line break after every block, and one more. */
  lemma {:induction false} BreaksWithoutLines(b: nat, len: int, cnt: int)
    requires len <= 0 <= cnt
    ensures Breaks(b, len, cnt) == b + 1
  {
    if b > 0 {
      BreaksWithoutLines(b - 1, len, 0);
    }
  }

  /** A longer line never needs more breaks. */
  lemma FewerBreaks(n: nat, d: nat, w: nat)
    requires 0 < d <= w
    ensures n / w <= n / d
  {
    QuotientBound(n / w, n, w);
    assert n / w * d <= n / w * w <= n;
    QuotientBound(n / w, n, d);
  }

  lemma MultipleOfFour(len: nat)
    ensures len % 4 == 0 ==> WholeBlocks(len) == len
    ensures len % 4 != 0 ==> WholeBlocks(len) > len
  {
  }

  /**
   * The text fits the space set aside for it exactly if a line has room for at least one character, and then
   * there is one line break for every line of whole blocks.
   */
  lemma TextFits(d: seq<Byte>, len: int)
    ensures |Text(d, len, 0)| <= EncodeBufferReq(|d|, len) <==> len >= 1
    ensures len >= 1 ==> var m := (|d| + 2) / 3 * 4; |Text(d, len, 0)| == m + m / WholeBlocks(len)
  {
    hide Text, Breaks, WholeBlocks;
    var b := (|d| + 2) / 3;
    TextLength(d, len, 0);
    MultipleOfFour(if len >= 1 then len else 1);
    if len >= 1 {
      BreaksBound(b, len, 0, WholeBlocks(len));
      QuotientBound(Breaks(b, len, 0), 4 * b, WholeBlocks(len));
      FewerBreaks(4 * b, len, WholeBlocks(len));
    } else {
      BreaksWithoutLines(b, len, 0);
    }
  }

  lemma TextFills(d: seq<Byte>, len: nat)
    requires len >= 1 && len % 4 == 0
    ensures |Text(d, len, 0)| == EncodeBufferReq(|d|, len)
  {
    hide Text, WholeBlocks;
    TextFits(d, len);
    MultipleOfFour(len);
  }

  /** Four full lines of blocks take fewer breaks than four lines of `len` characters. */
  lemma SpaceIsLeft(d: seq<Byte>, len: nat)
    requires len % 4 != 0 && |d| == 3 * len
    ensures |Text(d, len, 0)| < EncodeBufferReq(|d|, len)
  {
    hide Text, WholeBlocks;
    TextFits(d, len);
    MultipleOfFour(len);
    assert (|d| + 2) / 3 == len;
    QuotientBelow(len, WholeBlocks(len));
  }

  lemma QuotientBelow(len: nat, w: nat)
    requires 0 < len < w
    ensures len * 4 / w < 4 == len * 4 / len
  {
  }

  /** The text fills the space, whatever the data, exactly if the length of a line is a multiple of 4. */
  lemma TextFillsExactly(len: nat)
    requires len >= 1
    ensures len % 4 == 0 <==> forall d :: |Text(d, len, 0)| == EncodeBufferReq(|d|, len)
  {
    hide Text, EncodeBufferReq;
    if len % 4 == 0 {
      forall d
        ensures |Text(d, len, 0)| == EncodeBufferReq(|d|, len)
      {
        TextFills(d, len);
      }
    } else {
      var d := Zeros(3 * len);
      SpaceIsLeft(d, len);
      assert |Text(d, len, 0)| != EncodeBufferReq(|d|, len);
    }
  }

  method EncodeBlockInto(data: seq<Byte>, from: nat, len: nat, dest: array<Byte>, out: nat) returns (inPos: nat, outPos: nat)
    requires 1 <= len <= 3 && from + len <= |data| && out + 4 <= dest.Length
    modifies dest
    ensures inPos == from + len && outPos == out + 4
    ensures dest[..outPos] == old(dest[..out]) + EncodeBlock(data[from..from + len])
    ensures forall k :: outPos <= k < dest.Length ==> dest[k] == old(dest[k])
  {
    inPos, outPos := from, out;
    var a: Byte, b: Byte, c: Byte := 0, 0, 0;
    a, inPos := data[inPos], inPos + 1;
    if len > 1 {
      b, inPos := data[inPos], inPos + 1;
    }
    if len > 2 {
      c, inPos := data[inPos], inPos + 1;
    }
    dest[outPos] := Base64Chars()[a / 4];
    outPos := outPos + 1;
    dest[outPos] := Base64Chars()[a % 4 * 16 + b / 16];
    outPos := outPos + 1;
    dest[outPos] := if len > 1 then Base64Chars()[b % 16 * 4 + c / 64] else PAD;
    outPos := outPos + 1;
    dest[outPos] := if len > 2 then Base64Chars()[c % 64] else PAD;
    outPos := outPos + 1;
  }

  /** Every write is inside the buffer; what the text does not fill stays zero. */
  method B64Encode(data: seq<Byte>, outputLineLength: int) returns (dest: array<Byte>)
    requires outputLineLength >= 1
    ensures fresh(dest) && dest.Length == EncodeBufferReq(|data|, outputLineLength)
    ensures var t := Text(data, outputLineLength, 0); |t| <= dest.Length && dest[..] == t + Zeros(dest.Length - |t|)
  {
    hide EncodeBlock, EncodeBufferReq, Text;
    dest := new Byte[EncodeBufferReq(|data|, outputLineLength)](_ => 0);
    ghost var t := Text(data, outputLineLength, 0);
    TextFits(data, outputLineLength);
    var inPos, outPos, lineCnt := 0, 0, 0;
    ghost var done: seq<Byte> := [];
    var i := 0;
    assert data[0..] == data;
    assert done + t == t;
    while i < |data|
      invariant inPos == (if i < |data| then i else |data|)
      invariant outPos <= dest.Length && dest[..outPos] == done
      invariant done + Text(data[inPos..], outputLineLength, lineCnt) == t
      invariant forall k :: outPos <= k < dest.Length ==> dest[k] == 0
      decreases |data| - i
    {
      ghost var rest := data[inPos..];
      var n := if |data| - i > 2 then 3 else |data| - i;
      TextStep(done, rest, outputLineLength, lineCnt);
      assert |done| + |Text(rest, outputLineLength, lineCnt)| <= dest.Length;
      assert rest[..n] == data[inPos..inPos + n] && rest[n..] == data[inPos + n..];
      done := done + EncodeBlock(rest[..n]) + BreakAfter(outputLineLength, lineCnt);
      inPos, outPos := EncodeBlockInto(data, inPos, n, dest, outPos);
      lineCnt := lineCnt + 4;
      if lineCnt >= outputLineLength {
        lineCnt := 0;
        outPos := PutBreak(dest, outPos);
      }
      i := i + 3;
    }
    TextEnd(data[inPos..], outputLineLength, lineCnt);
    if lineCnt >= outputLineLength {
      outPos := PutBreak(dest, outPos);
    }
    assert dest[..outPos] == t;
  }

  method PutBreak(dest: array<Byte>, out: nat) returns (outPos: nat)
    requires out < dest.Length
    modifies dest
    ensures outPos == out + 1 && dest[..outPos] == old(dest[..out]) + [NEWLINE]
    ensures forall k :: outPos <= k < dest.Length ==> dest[k] == old(dest[k])
  {
    dest[out] := NEWLINE;
    outPos := out + 1;
  }

  lemma TextStep(before: seq<Byte>, d: seq<Byte>, len: int, cnt: int)
    requires d != []
    ensures var n, rest := BlockLen(d), Text(d[BlockLen(d)..], len, NextCount(len, cnt));
      before + Text(d, len, cnt) == before + EncodeBlock(d[..n]) + BreakAfter(len, cnt) + rest
    ensures |Text(d, len, cnt)| >= 4 + |BreakAfter(len, cnt)|
  {
    var n := BlockLen(d);
    var block, tail, rest := EncodeBlock(d[..n]), BreakAfter(len, cnt), Text(d[n..], len, NextCount(len, cnt));
    assert Text(d, len, cnt) == block + tail + rest;
    hide *;
    assert before + (block + tail + rest) == before + block + tail + rest;
  }

  lemma TextEnd(d: seq<Byte>, len: int, cnt: int)
    requires d == []
    ensures Text(d, len, cnt) == if cnt >= len then [NEWLINE] else []
  {
  }

  // ---- Decoding ----

  function DecodeBufferReq(n: nat): nat {
    (n + 3) / 4 * 3
  }

  type Letter = ch: Byte | IsBase64Char(ch) witness 65

  function Number(x: int, y: int, z: int, w: int): int {
    x * 0x4_0000 + y * 0x1000 + z * 0x40 + w
  }

  /** The low three bytes of a number, highest first. */
  function BytesOf(nn: nat): (r: seq<Byte>)
    ensures |r| == 3
  {
    [nn / 0x1_0000 % 0x100, nn / 0x100 % 0x100, nn % 0x100]
  }

  /** The three bytes that four characters stand for. */
  function DecodeBlock(b: seq<Letter>): (r: seq<Byte>)
    requires |b| == 4
    ensures |r| == 3
  {
    var t := Base64Inv();
    BytesOf(Number(t[b[0]], t[b[1]], t[b[2]], t[b[3]]))
  }

  /** The characters of a block so far, the bytes written, how many of them count, and the padding of the block. */
  datatype Decoder = Decoder(block: seq<Letter>, out: seq<Byte>, cnt: int, padding: nat) {
    ghost predicate Valid() {
      |block| < 4 && cnt <= |out|
    }
  }

  const DECODER := Decoder([], [], 0, 0)

  /** One character more; padding stands for an `A` that does not count. */
  function Step(s: Decoder, ch: Byte): (r: Decoder)
    requires s.Valid()
    ensures r.Valid()
  {
    var (c, p) := if ch == PAD then (LETTER_A, s.padding + 1) else (ch, s.padding);
    if !IsBase64Char(c) then s.(padding := p)
    else if |s.block| == 3 then Decoder([], s.out + DecodeBlock(s.block + [c]), s.cnt + 3 - p, 0)
    else s.(block := s.block + [c], padding := p)
  }

  function Decode(s: Decoder, text: seq<Byte>): (r: Decoder)
    requires s.Valid()
    ensures r.Valid()
    decreases |text|
  {
    if text == [] then s else Decode(Step(s, text[0]), text[1..])
  }

  /** More padding than there is room for makes the count negative, which is no length a result can have. */
  datatype Decoded = Bytes(data: seq<Byte>) | LengthError

  function ResultOf(s: Decoder): Decoded
    requires s.Valid()
  {
    if s.cnt < 0 then LengthError else Bytes(s.out[..s.cnt])
  }

  lemma {:induction false} DecodeConcat(s: Decoder, a: seq<Byte>, b: seq<Byte>)
    requires s.Valid()
    ensures Decode(s, a + b) == Decode(Decode(s, a), b)
    decreases |a|
  {
    if a == [] {
      assert a + b == b;
    } else {
      assert (a + b)[1..] == a[1..] + b;
      DecodeConcat(Step(s, a[0]), a[1..], b);
    }
  }

  predicate Passes(ch: Byte) {
    IsBase64Char(ch) || ch == PAD
  }

  function Kept(text: seq<Byte>): seq<Byte> {
    if text == [] then [] else (if Passes(text[0]) then [text[0]] else []) + Kept(text[1..])
  }

  /** Characters that are neither base64 nor padding make no difference, wherever they are. */
  lemma {:induction false} ForeignCharactersAreSkipped(s: Decoder, text: seq<Byte>)
    requires s.Valid()
    ensures Decode(s, text) == Decode(s, Kept(text))
    decreases |text|
  {
    if text != [] {
      ForeignCharactersAreSkipped(Step(s, text[0]), text[1..]);
      if Passes(text[0]) {
        assert Kept(text) == [text[0]] + Kept(text[1..]);
        assert Kept(text)[1..] == Kept(text[1..]);
      } else {
        assert Kept(text) == Kept(text[1..]) && Step(s, text[0]) == s;
      }
    }
  }

  // ---- Round trip ----

  lemma BlockSums(a: Byte, b: Byte, c: Byte)
    ensures Number(a / 4, a % 4 * 16 + b / 16, b % 16 * 4 + c / 64, c % 64) == a * 0x1_0000 + b * 0x100 + c
  {
    SplitNumber(a / 4, a % 4, b / 16, b % 16, c / 64, c % 64);
  }

  lemma SplitNumber(a1: nat, a0: nat, b1: nat, b0: nat, c1: nat, c0: nat)
    ensures Number(a1, a0 * 16 + b1, b0 * 4 + c1, c0) == (4 * a1 + a0) * 0x1_0000 + (16 * b1 + b0) * 0x100 + 64 * c1 + c0
  {
  }

  lemma BytesOfNumber(a: Byte, b: Byte, c: Byte)
    ensures BytesOf(a * 0x1_0000 + b * 0x100 + c) == [a, b, c]
  {
    var nn := a * 0x1_0000 + b * 0x100 + c;
    assert nn / 0x100 == a * 0x100 + b;
  }

  /** What stands for a letter in a block: itself, or `A` for padding. */
  function AsLetter(ch: Byte): Byte {
    if ch == PAD then LETTER_A else ch
  }

  function Padding(ch: Byte): nat {
    if ch == PAD then 1 else 0
  }

  /** The values of the four characters of a block. */
  function Sextets(d: seq<Byte>): (r: seq<Sextet>)
    requires 1 <= |d| <= 3
    ensures |r| == 4
  {
    var a, b, c := d[0], if |d| > 1 then d[1] else 0, if |d| > 2 then d[2] else 0;
    [a / 4, a % 4 * 16 + b / 16, b % 16 * 4 + c / 64, c % 64]
  }

  lemma EncodedLetter(d: seq<Byte>, i: nat)
    requires 1 <= |d| <= 3 && i < 4
    ensures var ch := EncodeBlock(d)[i];
      && Passes(ch) && Padding(ch) == (if i <= |d| then 0 else 1)
      && IsBase64Char(AsLetter(ch)) && Base64Inv()[AsLetter(ch)] == Sextets(d)[i]
  {
    hide Base64Chars, Base64Inv;
    TablesMatch(Sextets(d)[i]);
    TablesMatch(0);
    FirstLetter();
  }

  lemma FirstLetter()
    ensures Base64Chars()[0] == LETTER_A
  {
  }

  lemma SextetsGiveBytes(d: seq<Byte>)
    requires 1 <= |d| <= 3
    ensures var x := Sextets(d); Number(x[0], x[1], x[2], x[3]) >= 0
    ensures var x := Sextets(d); BytesOf(Number(x[0], x[1], x[2], x[3])) == d + Zeros(3 - |d|)
  {
    hide Number, BytesOf;
    var a, b, c := d[0], if |d| > 1 then d[1] else 0, if |d| > 2 then d[2] else 0;
    BlockSums(a, b, c);
    BytesOfNumber(a, b, c);
    assert [a, b, c] == d + Zeros(3 - |d|);
  }

  lemma StepAdds(s: Decoder, ch: Byte)
    requires s.Valid() && Passes(ch)
    ensures IsBase64Char(AsLetter(ch))
    ensures |s.block| < 3 ==> Step(s, ch) == s.(block := s.block + [AsLetter(ch)], padding := s.padding + Padding(ch))
    ensures |s.block| == 3 ==>
      Step(s, ch) == Decoder([], s.out + DecodeBlock(s.block + [AsLetter(ch)]), s.cnt + 3 - (s.padding + Padding(ch)), 0)
  {
    hide DecodeBlock;
  }

  lemma DecodeFour(s: Decoder, e: seq<Byte>)
    requires s.Valid() && |e| == 4
    ensures Decode(s, e) == Step(Step(Step(Step(s, e[0]), e[1]), e[2]), e[3])
  {
    hide Step;
    var s1 := Step(s, e[0]);
    var s2 := Step(s1, e[1]);
    var s3 := Step(s2, e[2]);
    assert e[1..][1..] == e[2..] && e[2..][1..] == e[3..] && e[3..][1..] == [];
    assert Decode(s2, e[2..]) == Decode(s3, e[3..]) == Step(s3, e[3]);
  }

  /** A block of characters gives back the bytes it was made of, and zeros for those there were not. */
  lemma DecodeEncodedBlock(s: Decoder, d: seq<Byte>)
    requires 1 <= |d| <= 3 && s.Valid() && s.block == [] && s.padding == 0
    ensures Decode(s, EncodeBlock(d)) == Decoder([], s.out + (d + Zeros(3 - |d|)), s.cnt + |d|, 0)
  {
    hide EncodeBlock, Step, Base64Inv, Sextets, Number, BytesOf, Decode;
    var e := EncodeBlock(d);
    EncodedLetter(d, 0);
    EncodedLetter(d, 1);
    EncodedLetter(d, 2);
    EncodedLetter(d, 3);
    SextetsGiveBytes(d);
    DecodeFour(s, e);
    StepAdds(s, e[0]);
    var s1 := Step(s, e[0]);
    StepAdds(s1, e[1]);
    var s2 := Step(s1, e[1]);
    StepAdds(s2, e[2]);
    var s3 := Step(s2, e[2]);
    StepAdds(s3, e[3]);
    assert s3.block == [AsLetter(e[0]), AsLetter(e[1]), AsLetter(e[2])];
  }

  lemma {:induction false} ForeignRun(s: Decoder, text: seq<Byte>)
    requires s.Valid() && forall i :: 0 <= i < |text| ==> !Passes(text[i])
    ensures Decode(s, text) == s
    decreases |text|
  {
    if text != [] {
      assert !Passes(text[0]);
      ForeignRun(s, text[1..]);
    }
  }

  /** Decoding the text of some data starts with its first block. */
  lemma DecodeTextStep(s: Decoder, d: seq<Byte>, len: int, cnt: int)
    requires s.Valid() && s.block == [] && s.padding == 0 && d != []
    ensures var n := BlockLen(d); var t := Decoder([], s.out + (d[..n] + Zeros(3 - n)), s.cnt + n, 0);
      t.Valid() && Decode(s, Text(d, len, cnt)) == Decode(t, Text(d[n..], len, NextCount(len, cnt)))
  {
    hide EncodeBlock, Step, Text, Decode;
    var n := BlockLen(d);
    var block, tail, more := EncodeBlock(d[..n]), BreakAfter(len, cnt), Text(d[n..], len, NextCount(len, cnt));
    TextStep([], d, len, cnt);
    assert [] + Text(d, len, cnt) == Text(d, len, cnt) && [] + block == block;
    assert block + tail + more == block + (tail + more);
    DecodeConcat(s, block, tail + more);
    DecodeEncodedBlock(s, d[..n]);
    var t := Decode(s, block);
    DecodeConcat(t, tail, more);
    ForeignRun(t, tail);
  }

  lemma {:induction false} DecodeText(s: Decoder, d: seq<Byte>, len: int, cnt: int) returns (pad: nat)
    requires s.Valid() && s.block == [] && s.padding == 0 && |s.out| == s.cnt
    ensures Decode(s, Text(d, len, cnt)) == Decoder([], s.out + d + Zeros(pad), s.cnt + |d|, 0)
    decreases |d|
  {
    hide Step, Text, Decode;
    var n, next := BlockLen(d), NextCount(len, cnt);
    if d == [] {
      TextEnd(d, len, cnt);
      ForeignRun(s, Text(d, len, cnt));
      pad := 0;
      assert s.out + d + Zeros(0) == s.out;
    } else {
      DecodeTextStep(s, d, len, cnt);
      var t := Decoder([], s.out + (d[..n] + Zeros(3 - n)), s.cnt + n, 0);
      if d[n..] == [] {
        pad := 3 - n;
        TextEnd(d[n..], len, next);
        ForeignRun(t, Text(d[n..], len, next));
        assert d[..n] == d;
        assert t.out == s.out + d + Zeros(pad);
      } else {
        assert t.out == s.out + d[..n];
        pad := DecodeText(t, d[n..], len, next);
        assert t.out + d[n..] + Zeros(pad) == s.out + d + Zeros(pad);
      }
    }
  }

  /**
   * Decoding what was encoded gives the data back, for all data and every length of a line, whatever zeros are
   * left at the end of the encoder's buffer.
   */
  lemma RoundTrip(d: seq<Byte>, len: int, slack: nat)
    ensures ResultOf(Decode(DECODER, Text(d, len, 0) + Zeros(slack))) == Bytes(d)
  {
    DecodeConcat(DECODER, Text(d, len, 0), Zeros(slack));
    var pad := DecodeText(DECODER, d, len, 0);
    ForeignRun(Decode(DECODER, Text(d, len, 0)), Zeros(slack));
    assert ([] + d + Zeros(pad))[..|d|] == d;
  }

  // ---- How long the result is ----

  function Pads(text: seq<Byte>): nat {
    if text == [] then 0 else Padding(text[0]) + Pads(text[1..])
  }

  predicate AllPass(text: seq<Byte>) {
    forall i | 0 <= i < |text| :: Passes(text[i])
  }

  lemma {:induction false} KeptPasses(text: seq<Byte>)
    ensures AllPass(Kept(text))
  {
    if text != [] {
      KeptPasses(text[1..]);
    }
  }

  /** What the decoder counts, from any state in which no character of the block is padded twice. */
  lemma {:induction false} DecodeCounts(s: Decoder, k: seq<Byte>)
    requires s.Valid() && AllPass(k) && s.padding <= |s.block|
    ensures var r, n := Decode(s, k), |s.block| + |k|;
      && |r.block| == n % 4 && r.padding <= |r.block|
      && r.cnt - r.padding == s.cnt - s.padding + 3 * (n / 4) - Pads(k)
      && (n < 4 ==> r.cnt == s.cnt)
    decreases |k|
  {
    hide Step;
    if k != [] {
      StepAdds(s, k[0]);
      DecodeCounts(Step(s, k[0]), k[1..]);
    }
  }

  /**
   * Of the characters that are not skipped, only whole blocks of four count, each for three bytes less its
   * padding. The result has no length exactly if there is more padding in them than there are bytes.
   */
  lemma ResultLength(text: seq<Byte>)
    ensures var k := Kept(text); var n := |k| / 4; var r := ResultOf(Decode(DECODER, text));
      && (r == LengthError <==> Pads(k[..4 * n]) > 3 * n)
      && (r.Bytes? ==> |r.data| == 3 * n - Pads(k[..4 * n]))
  {
    hide Decode, Step, Kept, Pads;
    var k := Kept(text);
    var n := |k| / 4;
    KeptPasses(text);
    ForeignCharactersAreSkipped(DECODER, text);
    DecodeConcat(DECODER, k[..4 * n], k[4 * n..]);
    assert k == k[..4 * n] + k[4 * n..];
    DecodeCounts(DECODER, k[..4 * n]);
    DecodeCounts(Decode(DECODER, k[..4 * n]), k[4 * n..]);
  }

  /** Four characters of padding are such a text. */
  lemma OnlyPaddingHasNoLength()
    ensures ResultOf(Decode(DECODER, [PAD, PAD, PAD, PAD])) == LengthError
  {
    hide Decode;
    var k := [PAD, PAD, PAD, PAD];
    OnlyPads(k);
    ResultLength(k);
    assert k[..4] == k;
  }

  lemma {:induction false} OnlyPads(k: seq<Byte>)
    requires forall i | 0 <= i < |k| :: k[i] == PAD
    ensures Kept(k) == k && Pads(k) == |k|
  {
    if k != [] {
      OnlyPads(k[1..]);
    }
  }

  /** The decoder, writing into its buffer. */
  method B64Decode(data: seq<Byte>) returns (r: Decoded)
    ensures r == ResultOf(Decode(DECODER, data))
  {
    hide Decode, Step;
    var dest := new Byte[DecodeBufferReq(|data|)](_ => 0);
    var outPos, ndx, cnt, padding := 0, 0, 0, 0;
    var block := new Letter[4](_ => 65);
    ghost var s, blocks := DECODER, 0;
    assert data[0..] == data;
    for i := 0 to |data|
      invariant s.Valid() && Decode(s, data[i..]) == Decode(DECODER, data)
      invariant 0 <= ndx < 4 && block[..ndx] == s.block && cnt == s.cnt && padding == s.padding
      invariant outPos == 3 * blocks && 4 * blocks + ndx <= i && outPos <= dest.Length && dest[..outPos] == s.out
    {
      var ch := data[i];
      DecodeNext(s, data[i..]);
      assert data[i..][1..] == data[i + 1..];
      StepIs(s, ch);
      if ch == PAD {
        ch := LETTER_A;
        padding := padding + 1;
      }
      ghost var before := block[..ndx];
      s := Step(s, data[i]);
      if IsBase64Char(ch) {
        PutLetter(block, ndx, ch);
        ndx := ndx + 1;
        if ndx >= 4 {
          ndx := 0;
          assert block[..] == before + [ch];
          blocks := blocks + 1;
          outPos := DecodeBlockInto(block, dest, outPos);
          cnt := cnt + (3 - padding);
          padding := 0;
        }
      }
    }
    DecodeEnd(s, data[|data|..]);
    if cnt < 0 {
      return LengthError;
    }
    r := Bytes(dest[..cnt]);
    assert dest[..cnt] == dest[..outPos][..cnt];
  }

  method PutLetter(block: array<Letter>, ndx: nat, ch: Letter)
    requires ndx < block.Length
    modifies block
    ensures block[..ndx + 1] == old(block[..ndx]) + [ch]
  {
    block[ndx] := ch;
  }

  method DecodeBlockInto(block: array<Letter>, dest: array<Byte>, out: nat) returns (outPos: nat)
    requires block.Length == 4 && out + 3 <= dest.Length
    modifies dest
    ensures outPos == out + 3 && dest[..outPos] == old(dest[..out]) + DecodeBlock(block[..])
  {
    var t := Base64Inv();
    var nn: int := t[block[0]] as int * 0x4_0000 + t[block[1]] as int * 0x1000 + t[block[2]] as int * 0x40 + t[block[3]];
    dest[out] := nn / 0x1_0000 % 0x100;
    dest[out + 1] := nn / 0x100 % 0x100;
    dest[out + 2] := nn % 0x100;
    outPos := out + 3;
  }

  lemma DecodeNext(s: Decoder, text: seq<Byte>)
    requires s.Valid() && text != []
    ensures Decode(s, text) == Decode(Step(s, text[0]), text[1..])
  {
  }

  lemma DecodeEnd(s: Decoder, text: seq<Byte>)
    requires s.Valid() && text == []
    ensures Decode(s, text) == s
  {
  }

  lemma StepIs(s: Decoder, ch: Byte)
    requires s.Valid()
    ensures var c, p := AsLetter(ch), s.padding + Padding(ch);
      if !IsBase64Char(c) then Step(s, ch) == s
      else if |s.block| == 3 then Step(s, ch) == Decoder([], s.out + DecodeBlock(s.block + [c]), s.cnt + 3 - p, 0)
      else Step(s, ch) == s.(block := s.block + [c], padding := p)
  {
    hide DecodeBlock;
  }
}
