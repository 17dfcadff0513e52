/** Code points and their encoding in one to four bytes, as in section 3 of RFC 3629. */
module Utf8 {
  import opened Wire

  type Codepoint = x: int | 0 <= x <= 0x10_ffff

  /** The byte in which the bits of a group follow the mark of a continuation. */
  function Continuation(bits: nat): Byte
    requires bits < 0x40
  {
    0x80 + bits
  }

  function CodepointToUtf8(cp: Codepoint): (r: seq<Byte>)
    ensures 1 <= |r| <= 4
  {
    if cp <= 0x7f then [cp]
    else if cp <= 0x7ff then [0xc0 + cp / 0x40, Continuation(cp % 0x40)]
    else if cp <= 0xffff then [0xe0 + cp / 0x1000, Continuation(cp / 0x40 % 0x40), Continuation(cp % 0x40)]
    else [0xf0 + cp / 0x4_0000, Continuation(cp / 0x1000 % 0x40), Continuation(cp / 0x40 % 0x40), Continuation(cp % 0x40)]
  }

  predicate Bit(c: Byte, mask: nat)
    requires mask > 0
  {
    c / mask % 2 == 1
  }

  /** How far the iterator moves from a byte. */
  function Width(c: Byte): (n: nat)
    ensures 1 <= n <= 4
  {
    if !Bit(c, 0x80) then 1 else if !Bit(c, 0x20) then 2 else if !Bit(c, 0x10) then 3 else 4
  }

  /** The code point at the start of a string, of which so many bytes are there. */
  function First(s: seq<Byte>): int
    requires s != [] && Width(s[0]) <= |s|
  {
    match Width(s[0])
    case 1 => s[0]
    case 2 => (s[0] as int - 192) * 0x40 + After(s, 1)
    case 3 => (s[0] as int - 224) * 0x1000 + After(s, 1) * 0x40 + After(s, 2)
    case _ => (s[0] as int - 240) * 0x4_0000 + After(s, 1) * 0x1000 + After(s, 2) * 0x40 + After(s, 3)
  }

  function After(s: seq<Byte>, i: nat): int
    requires i < |s|
  {
    s[i] as int - 128
  }

  /** A leading byte with all its continuations, or a byte that stands alone. */
  predicate ValidFirst(s: seq<Byte>)
    requires s != []
  {
    var c := s[0];
    Bit(c, 0x80) ==>
      && Bit(c, 0x40) && !(Width(c) == 4 && Bit(c, 0x8))
      && Width(c) <= |s|
      && forall k | 1 <= k < Width(c) :: Bit(s[k], 0x80) && !Bit(s[k], 0x40)
  }

  predicate ValidateUtf8String(s: seq<Byte>) {
    s == [] || (ValidFirst(s) && Width(s[0]) <= |s| && ValidateUtf8String(s[Width(s[0])..]))
  }

  /** What the iterator yields from the start to the end. */
  function Codepoints(s: seq<Byte>): seq<int>
    requires ValidateUtf8String(s)
  {
    if s == [] then [] else [First(s)] + Codepoints(s[Width(s[0])..])
  }

  function Encoded(cps: seq<Codepoint>): seq<Byte> {
    if cps == [] then [] else CodepointToUtf8(cps[0]) + Encoded(cps[1..])
  }

  lemma ContinuationBits(bits: nat)
    requires bits < 0x40
    ensures Bit(Continuation(bits), 0x80) && !Bit(Continuation(bits), 0x40)
  {
  }

  lemma LeadingBits(c: Byte)
    ensures c <= 0x7f ==> Width(c) == 1 && !Bit(c, 0x80)
    ensures 0xc0 <= c <= 0xdf ==> Width(c) == 2
    ensures 0xe0 <= c <= 0xef ==> Width(c) == 3
    ensures 0xf0 <= c <= 0xf7 ==> Width(c) == 4 && !Bit(c, 0x8)
    ensures 0xc0 <= c ==> Bit(c, 0x80) && Bit(c, 0x40)
  {
  }

  lemma Digits(cp: nat)
    ensures cp == cp / 0x40 * 0x40 + cp % 0x40
    ensures cp / 0x40 == cp / 0x1000 * 0x40 + cp / 0x40 % 0x40
    ensures cp / 0x1000 == cp / 0x4_0000 * 0x40 + cp / 0x1000 % 0x40
  {
  }

  /** The form of section 3 of RFC 3629: the shortest, with six bits in each byte behind the first. */
  lemma EncodedAsInTheStandard(cp: Codepoint)
    ensures var b := CodepointToUtf8(cp);
      && |b| == (if cp < 0x80 then 1 else if cp < 0x800 then 2 else if cp < 0x1_0000 then 3 else 4)
      && (forall i :: 0 < i < |b| ==> 0x80 <= b[i] <= 0xbf)
      && match |b|
         case 1 => b[0] == cp
         case 2 => 0xc2 <= b[0] <= 0xdf && cp == (b[0] as int - 0xc0) * 0x40 + b[1] as int - 0x80
         case 3 => 0xe0 <= b[0] <= 0xef && cp == ((b[0] as int - 0xe0) * 0x40 + b[1] as int - 0x80) * 0x40 + b[2] as int - 0x80
         case _ =>
           && 0xf0 <= b[0] <= 0xf4
           && cp == (((b[0] as int - 0xf0) * 0x40 + b[1] as int - 0x80) * 0x40 + b[2] as int - 0x80) * 0x40 + b[3] as int - 0x80
  {
    Digits(cp);
  }

  lemma FirstOfEncoded(cp: Codepoint, rest: seq<Byte>)
    ensures var s := CodepointToUtf8(cp) + rest;
      Width(s[0]) == |CodepointToUtf8(cp)| && First(s) == cp && ValidFirst(s)
  {
    hide Bit, Width;
    var e := CodepointToUtf8(cp);
    var s := e + rest;
    LeadingBits(e[0]);
    Digits(cp);
    ContinuationBits(cp % 0x40);
    ContinuationBits(cp / 0x40 % 0x40);
    ContinuationBits(cp / 0x1000 % 0x40);
    assert forall k | 0 <= k < |e| :: s[k] == e[k];
  }

  /** Encoding any code points gives a valid string, in which the iterator finds just these. */
  lemma {:induction false} EncodedIsRead(cps: seq<Codepoint>)
    ensures ValidateUtf8String(Encoded(cps)) && Codepoints(Encoded(cps)) == cps
  {
    hide CodepointToUtf8, First, Width, ValidFirst;
    if cps != [] {
      var e, rest := CodepointToUtf8(cps[0]), Encoded(cps[1..]);
      FirstOfEncoded(cps[0], rest);
      EncodedIsRead(cps[1..]);
      assert (e + rest)[|e|..] == rest;
    }
  }
}
