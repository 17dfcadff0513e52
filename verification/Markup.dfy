/** Special characters in text: the names that stand for them, and their escapes. */
module Markup {
  import opened Common
  import opened Wire
  import opened Utf8

  type Text = seq<Byte>

  const AMPERSAND: Byte := 38
  const SEMICOLON: Byte := 59
  const LESS: Byte := 60
  const GREATER: Byte := 62

  function Ascii(s: string): (r: Text)
    requires forall i | 0 <= i < |s| :: s[i] < 128 as char
    ensures |r| == |s| && forall i | 0 <= i < |s| :: r[i] == s[i] as int
  {
    seq(|s|, i requires 0 <= i < |s| => s[i] as int)
  }

  datatype MarkupEntry = MarkupEntry(tag: Text, codepoint: Codepoint)

  function MarkupMap(): (r: seq<MarkupEntry>)
    ensures |r| == 8
  {
    [MarkupEntry(Ascii("ldquo"), 8220), MarkupEntry(Ascii("rdquo"), 8221), MarkupEntry(Ascii("emdash"), 8212),
     MarkupEntry(Ascii("amp"), 38), MarkupEntry(Ascii("lt"), 60), MarkupEntry(Ascii("gt"), 62),
     MarkupEntry(Ascii("aelig"), 230), MarkupEntry(Ascii("AElig"), 198)]
  }

  /** The first entry with a tag, from an index on. */
  function LookUp(tag: Text, from: nat): (r: Option<Text>)
    requires from <= |MarkupMap()|
    decreases |MarkupMap()| - from
  {
    if from == |MarkupMap()| then None
    else if tag == MarkupMap()[from].tag then Some(CodepointToUtf8(MarkupMap()[from].codepoint))
    else LookUp(tag, from + 1)
  }

  /** What the eight names stand for, in UTF-8. */
  lemma NamesMean()
    ensures LookUp(Ascii("ldquo"), 0) == Some([0xE2, 0x80, 0x9C]) && LookUp(Ascii("rdquo"), 0) == Some([0xE2, 0x80, 0x9D])
    ensures LookUp(Ascii("emdash"), 0) == Some([0xE2, 0x80, 0x94])
    ensures LookUp(Ascii("amp"), 0) == Some(['&' as int]) && LookUp(Ascii("lt"), 0) == Some(['<' as int])
    ensures LookUp(Ascii("gt"), 0) == Some(['>' as int])
    ensures LookUp(Ascii("aelig"), 0) == Some([0xC3, 0xA6]) && LookUp(Ascii("AElig"), 0) == Some([0xC3, 0x86])
  {
    forall entry: nat | entry < 8
      ensures LookUp(MarkupMap()[entry].tag, 0) == Some(CodepointToUtf8(MarkupMap()[entry].codepoint))
    {
      LookUpFindsEntry(entry, 0);
    }
    assert MarkupMap()[0].tag == Ascii("ldquo") && MarkupMap()[1].tag == Ascii("rdquo") && MarkupMap()[2].tag == Ascii("emdash");
    assert MarkupMap()[3].tag == Ascii("amp") && MarkupMap()[4].tag == Ascii("lt") && MarkupMap()[5].tag == Ascii("gt");
    assert MarkupMap()[6].tag == Ascii("aelig") && MarkupMap()[7].tag == Ascii("AElig");
  }

  /** The place of the first such byte, or the length of the text. */
  function Find(s: Text, c: Byte): (i: nat)
    ensures i <= |s| && (i < |s| ==> s[i] == c) && c !in s[..i]
  {
    if s == [] || s[0] == c then 0 else 1 + Find(s[1..], c)
  }

  /** Text, or the tag that is no name. */
  datatype Parsed = Parsed(text: Text) | NoMarkup(tag: Text)

  function Prepend(t: Text, p: Parsed): Parsed {
    match p
    case NoMarkup(tag) => NoMarkup(tag)
    case Parsed(text) => Parsed(t + text)
  }

  /** The places of the first ampersand and of the semicolon after it, either of which may be the end. */
  function Itor(s: Text): (i: nat)
    ensures i <= |s|
  {
    Find(s, AMPERSAND)
  }

  function Semi(s: Text): (i: nat)
    ensures Itor(s) <= i <= |s| && (i < |s| ==> Itor(s) < i)
  {
    Itor(s) + Find(s[Itor(s)..], SEMICOLON)
  }

  function Parse(s: Text): Parsed
    decreases |s|
  {
    var itor, semi := Itor(s), Semi(s);
    if semi == |s| then Parsed(s)
    else
      var tag := s[itor + 1..semi];
      match LookUp(tag, 0)
      case None => NoMarkup(tag)
      case Some(special) => Prepend(s[..itor] + special, Parse(s[semi + 1..]))
  }

  // ---- What markup means ----

  /** A byte that stands for itself, or a name from the table. */
  datatype Piece = Literal(c: Byte) | Special(entry: nat)

  predicate IsPiece(p: Piece) {
    match p
    case Literal(c) => c != AMPERSAND
    case Special(entry) => entry < |MarkupMap()|
  }

  function Printed(p: Piece): Text
    requires IsPiece(p)
  {
    match p
    case Literal(c) => [c]
    case Special(entry) => [AMPERSAND] + MarkupMap()[entry].tag + [SEMICOLON]
  }

  function Meaning(p: Piece): Text
    requires IsPiece(p)
  {
    match p
    case Literal(c) => [c]
    case Special(entry) => CodepointToUtf8(MarkupMap()[entry].codepoint)
  }

  predicate ArePieces(ps: seq<Piece>) {
    forall i | 0 <= i < |ps| :: IsPiece(ps[i])
  }

  function Print(ps: seq<Piece>): Text
    requires ArePieces(ps)
  {
    if ps == [] then [] else Printed(ps[0]) + Print(ps[1..])
  }

  function Read(ps: seq<Piece>): Text
    requires ArePieces(ps)
  {
    if ps == [] then [] else Meaning(ps[0]) + Read(ps[1..])
  }

  /** An ampersand that no semicolon follows ends the markup; it and what follows stand for themselves. */
  predicate IsTail(t: Text) {
    t == [] || (t[0] == AMPERSAND && SEMICOLON !in t)
  }

  lemma {:induction false} FindIs(s: Text, c: Byte, i: nat)
    requires i <= |s| && c !in s[..i] && (i < |s| ==> s[i] == c)
    ensures Find(s, c) == i
    decreases i
  {
    if i > 0 {
      assert s[0] == s[..i][0];
      assert s[1..][..i - 1] == s[..i][1..];
      FindIs(s[1..], c, i - 1);
    }
  }

  lemma TagsAreNames(e: nat)
    requires e < |MarkupMap()|
    ensures SEMICOLON !in MarkupMap()[e].tag
  {
    assert Ascii("emdash")[0] == 101;
  }

  lemma {:induction false} LookUpFindsEntry(e: nat, from: nat)
    requires from <= e < |MarkupMap()|
    ensures LookUp(MarkupMap()[e].tag, from) == Some(CodepointToUtf8(MarkupMap()[e].codepoint))
    decreases e - from
  {
    hide MarkupMap, CodepointToUtf8;
    if from < e {
      TagsDiffer(from, e);
      LookUpFindsEntry(e, from + 1);
    }
  }

  lemma TagsDiffer(a: nat, b: nat)
    requires a < b < |MarkupMap()|
    ensures MarkupMap()[a].tag != MarkupMap()[b].tag
  {
    var x, y := MarkupMap()[a].tag, MarkupMap()[b].tag;
    assert |x| == |y| ==> x[0] != y[0];
  }

  lemma {:induction false} LookUpIsEntry(tag: Text, from: nat) returns (e: nat)
    requires from <= |MarkupMap()| && LookUp(tag, from).Some?
    ensures e < |MarkupMap()| && tag == MarkupMap()[e].tag
    ensures LookUp(tag, from) == Some(CodepointToUtf8(MarkupMap()[e].codepoint))
    decreases |MarkupMap()| - from
  {
    hide MarkupMap, CodepointToUtf8;
    if tag == MarkupMap()[from].tag {
      e := from;
    } else {
      e := LookUpIsEntry(tag, from + 1);
    }
  }

  lemma PrependTwice(a: Text, b: Text, p: Parsed)
    ensures Prepend(a + b, p) == Prepend(a, Prepend(b, p))
  {
    if p.Parsed? {
      assert a + b + p.text == a + (b + p.text);
    }
  }

  lemma ShiftedByOne(c: Byte, rest: Text)
    requires c != AMPERSAND
    ensures Itor([c] + rest) == Itor(rest) + 1 && Semi([c] + rest) == Semi(rest) + 1
  {
    var s, i := [c] + rest, Itor(rest);
    assert s[1..] == rest;
    assert s[i + 1..] == rest[i..];
  }

  lemma ParseLiteral(c: Byte, rest: Text)
    requires c != AMPERSAND
    ensures Parse([c] + rest) == Prepend([c], Parse(rest))
  {
    hide MarkupMap, CodepointToUtf8, LookUp, Itor, Semi, Prepend;
    var s, i, j := [c] + rest, Itor(rest), Semi(rest);
    ShiftedByOne(c, rest);
    ParseStep(s);
    ParseStep(rest);
    if j == |rest| {
      assert Prepend([c], Parsed(rest)) == Parsed(s) by {
        PrependParsed([c], rest);
      }
    } else {
      var tag := rest[i + 1..j];
      assert s[i + 2..j + 1] == tag && s[j + 2..] == rest[j + 1..];
      if LookUp(tag, 0).Some? {
        var special := LookUp(tag, 0).value;
        assert s[..i + 1] + special == [c] + (rest[..i] + special);
        PrependTwice([c], rest[..i] + special, Parse(rest[j + 1..]));
      } else {
        PrependNone([c], tag);
      }
    }
  }

  lemma PrependParsed(a: Text, b: Text)
    ensures Prepend(a, Parsed(b)) == Parsed(a + b)
  {
  }

  lemma PrependNone(a: Text, tag: Text)
    ensures Prepend(a, NoMarkup(tag)) == NoMarkup(tag)
  {
  }

  lemma ParseStep(s: Text)
    ensures Semi(s) == |s| ==> Parse(s) == Parsed(s)
    ensures Semi(s) < |s| ==>
      var tag := s[Itor(s) + 1..Semi(s)];
      && (LookUp(tag, 0).None? ==> Parse(s) == NoMarkup(tag))
      && (LookUp(tag, 0).Some? ==>
        Parse(s) == Prepend(s[..Itor(s)] + LookUp(tag, 0).value, Parse(s[Semi(s) + 1..])))
  {
    hide MarkupMap, CodepointToUtf8, LookUp, Itor, Semi, Prepend;
  }

  lemma ParseSpecial(tag: Text, rest: Text)
    requires SEMICOLON !in tag
    ensures Parse([AMPERSAND] + tag + [SEMICOLON] + rest) ==
      match LookUp(tag, 0)
      case None => NoMarkup(tag)
      case Some(special) => Prepend(special, Parse(rest))
  {
    hide MarkupMap, CodepointToUtf8, LookUp, Prepend;
    var s := [AMPERSAND] + tag + [SEMICOLON] + rest;
    SemiOfSpecial(tag, rest);
    hide Itor, Semi;
    ParseStep(s);
    assert s[1..|tag| + 1] == tag && s[|tag| + 2..] == rest;
    if LookUp(tag, 0).Some? {
      assert s[..0] + LookUp(tag, 0).value == LookUp(tag, 0).value;
    }
  }

  lemma SemiOfSpecial(tag: Text, rest: Text)
    requires SEMICOLON !in tag
    ensures var s := [AMPERSAND] + tag + [SEMICOLON] + rest; Itor(s) == 0 && Semi(s) == |tag| + 1
  {
    var s := [AMPERSAND] + tag + [SEMICOLON] + rest;
    assert Itor(s) == 0 && s[0..] == s;
    assert s[..|tag| + 1] == [AMPERSAND] + tag;
    FindIs(s, SEMICOLON, |tag| + 1);
  }

  lemma PrintStep(ps: seq<Piece>, tail: Text)
    requires ArePieces(ps) && ps != []
    ensures Print(ps) + tail == Printed(ps[0]) + (Print(ps[1..]) + tail)
    ensures Read(ps) + tail == Meaning(ps[0]) + (Read(ps[1..]) + tail)
  {
    hide Printed, Meaning;
  }

  /** Markup is read as what it means, up to a tail that is kept as it is. */
  lemma {:induction false} PrintIsParsed(ps: seq<Piece>, tail: Text)
    requires ArePieces(ps) && IsTail(tail)
    ensures Parse(Print(ps) + tail) == Parsed(Read(ps) + tail)
    decreases |ps|
  {
    hide MarkupMap, CodepointToUtf8, LookUp, Parse;
    if ps == [] {
      ParseTail(tail);
      assert Print(ps) + tail == tail && Read(ps) + tail == tail;
    } else {
      hide Print, Read, IsTail;
      PrintStep(ps, tail);
      PrintIsParsed(ps[1..], tail);
      var rest := Print(ps[1..]) + tail;
      assert IsPiece(ps[0]);
      match ps[0]
      case Literal(c) => ParseLiteral(c, rest);
      case Special(e) =>
        TagsAreNames(e);
        LookUpFindsEntry(e, 0);
        ParseSpecial(MarkupMap()[e].tag, rest);
    }
  }

  lemma ParseTail(tail: Text)
    requires IsTail(tail)
    ensures Parse(tail) == Parsed(tail)
  {
    if tail != [] {
      assert Itor(tail) == 0 && tail[0..] == tail;
      assert tail[..|tail|] == tail;
      FindIs(tail, SEMICOLON, |tail|);
    }
    hide Itor, Semi;
    ParseStep(tail);
  }

  /** Text is accepted only if it is markup and a tail; with the lemma before, just then. */
  lemma {:induction false} ParsedIsPrinted(s: Text) returns (ps: seq<Piece>, tail: Text)
    requires Parse(s).Parsed?
    ensures ArePieces(ps) && IsTail(tail) && s == Print(ps) + tail
    decreases |s|
  {
    hide MarkupMap, CodepointToUtf8, LookUp, Parse;
    if IsTail(s) {
      return [], s;
    }
    var p: Piece;
    if s[0] != AMPERSAND {
      p := Literal(s[0]);
      assert s == [s[0]] + s[1..];
      ParseLiteral(s[0], s[1..]);
      ps, tail := ParsedIsPrinted(s[1..]);
    } else {
      var semi := Find(s, SEMICOLON);
      var tag, rest := s[1..semi], s[semi + 1..];
      assert s[..semi] == [AMPERSAND] + tag;
      assert s == [AMPERSAND] + tag + [SEMICOLON] + rest;
      ParseSpecial(tag, rest);
      var e := LookUpIsEntry(tag, 0);
      p := Special(e);
      ps, tail := ParsedIsPrinted(rest);
    }
    var all := [p] + ps;
    assert all[1..] == ps;
    assert Print(all) + tail == Printed(p) + (Print(ps) + tail);
    ps := all;
  }

  // ---- Escaping ----

  function EscapeChar(c: Byte): Text {
    if c == AMPERSAND then Ascii("&amp;")
    else if c == LESS then Ascii("&lt;")
    else if c == GREATER then Ascii("&gt;")
    else [c]
  }

  function Escape(s: Text): Text {
    if s == [] then [] else EscapeChar(s[0]) + Escape(s[1..])
  }

  function EscapePiece(c: Byte): Piece {
    if c == AMPERSAND then Special(3) else if c == LESS then Special(4) else if c == GREATER then Special(5) else Literal(c)
  }

  lemma EscapeCharIsPiece(c: Byte)
    ensures IsPiece(EscapePiece(c)) && Printed(EscapePiece(c)) == EscapeChar(c) && Meaning(EscapePiece(c)) == [c]
    ensures LESS !in EscapeChar(c) && GREATER !in EscapeChar(c)
  {
    assert CodepointToUtf8(c % 128) == [c % 128];
  }

  /** Only the three characters with a name of their own are changed, each into that. */
  lemma EscapeCharIs(c: Byte)
    ensures EscapeChar(c) ==
      if c == '&' as int then Ascii("&amp;") else if c == '<' as int then Ascii("&lt;")
      else if c == '>' as int then Ascii("&gt;") else [c]
  {
  }

  lemma {:induction false} EscapeConcat(s: Text, t: Text)
    ensures Escape(s + t) == Escape(s) + Escape(t)
    decreases |s|
  {
    if s == [] {
      assert s + t == t;
    } else {
      assert (s + t)[1..] == s[1..] + t;
      EscapeConcat(s[1..], t);
    }
  }

  /** Text without these three is left alone. */
  lemma {:induction false} EscapeLeavesOthers(s: Text)
    requires '&' as int !in s && '<' as int !in s && '>' as int !in s
    ensures Escape(s) == s
    decreases |s|
  {
    if s != [] {
      EscapeLeavesOthers(s[1..]);
    }
  }

  lemma {:induction false} EscapeIsPrint(s: Text) returns (ps: seq<Piece>)
    ensures ArePieces(ps) && Print(ps) == Escape(s) && Read(ps) == s
    decreases |s|
  {
    hide MarkupMap, CodepointToUtf8, EscapeChar, EscapePiece, Printed, Meaning;
    if s == [] {
      ps := [];
    } else {
      var rest := EscapeIsPrint(s[1..]);
      EscapeCharIsPiece(s[0]);
      ps := [EscapePiece(s[0])] + rest;
      assert ps[1..] == rest;
    }
  }

  /** Parsing what was escaped gives the text back, whatever it is. */
  lemma EscapeRoundTrip(s: Text)
    ensures Parse(Escape(s)) == Parsed(s)
  {
    hide Parse, Escape;
    var ps := EscapeIsPrint(s);
    PrintIsParsed(ps, []);
    assert Print(ps) + [] == Escape(s) && Read(ps) + [] == s;
  }

  /** Escaped text holds nothing that starts or ends a tag. */
  lemma {:induction false} EscapedHasNoTags(s: Text)
    ensures LESS !in Escape(s) && GREATER !in Escape(s)
    decreases |s|
  {
    hide EscapeChar;
    if s != [] {
      EscapeCharIsPiece(s[0]);
      EscapedHasNoTags(s[1..]);
    }
  }

  lemma EscapeInjective(s: Text, t: Text)
    requires Escape(s) == Escape(t)
    ensures s == t
  {
    hide Parse, Escape;
    EscapeRoundTrip(s);
    EscapeRoundTrip(t);
  }

  lemma EscapeAppend(s: Text, c: Byte)
    ensures Escape(s + [c]) == Escape(s) + EscapeChar(c)
  {
    hide EscapeChar;
    if s == [] {
      assert [] + [c] == [c] && [c][1..] == [];
      assert Escape([c]) == EscapeChar(c) + Escape([]);
    } else {
      EscapeAppend(s[1..], c);
      assert (s + [c])[1..] == s[1..] + [c];
    }
  }

  method EscapeText(text: Text) returns (out: Text)
    ensures out == Escape(text)
  {
    hide Escape;
    out := [];
    EscapeNothing();
    for i := 0 to |text|
      invariant out == Escape(text[..i])
    {
      var c := text[i];
      EscapeAppend(text[..i], c);
      assert text[..i + 1] == text[..i] + [c];
      if c == AMPERSAND {
        out := out + Ascii("&amp;");
      } else if c == LESS {
        out := out + Ascii("&lt;");
      } else if c == GREATER {
        out := out + Ascii("&gt;");
      } else {
        out := out + [c];
      }
    }
    assert text[..|text|] == text;
  }

  lemma EscapeNothing()
    ensures Escape([]) == []
  {
  }

  lemma SliceOfRest(s: Text, start: nat, itor: nat)
    requires start <= itor <= |s|
    ensures s[start..][itor - start..] == s[itor..] && s[start..] == s[start..itor] + s[itor..]
  {
  }

  lemma Ends(before: Text, s: Text, start: nat, itor: nat)
    requires start <= itor <= |s| && itor == start + Itor(s[start..]) && start + Semi(s[start..]) == |s|
    ensures Prepend(before, Parse(s[start..])) == Parsed(before + s[start..itor] + s[itor..])
  {
    hide Parse, Itor, Semi;
    ParseStep(s[start..]);
    SliceOfRest(s, start, itor);
    assert before + (s[start..itor] + s[itor..]) == before + s[start..itor] + s[itor..];
  }

  lemma NotFound(before: Text, s: Text, start: nat, itor: nat, semi: nat)
    requires start <= itor < semi < |s| && itor == start + Itor(s[start..]) && semi == start + Semi(s[start..])
    requires LookUp(s[itor + 1..semi], 0).None?
    ensures Prepend(before, Parse(s[start..])) == NoMarkup(s[itor + 1..semi])
  {
    hide Parse, Itor, Semi, LookUp;
    ParseStep(s[start..]);
    assert s[start..][itor - start + 1..semi - start] == s[itor + 1..semi];
  }

  lemma Replaced(before: Text, s: Text, start: nat, itor: nat, semi: nat)
    requires start <= itor < semi < |s| && itor == start + Itor(s[start..]) && semi == start + Semi(s[start..])
    requires LookUp(s[itor + 1..semi], 0).Some?
    ensures Prepend(before, Parse(s[start..]))
      == Prepend(before + s[start..itor] + LookUp(s[itor + 1..semi], 0).value, Parse(s[semi + 1..]))
  {
    hide Parse, Itor, Semi, LookUp, Prepend;
    var left := s[start..];
    ParseStep(left);
    assert left[itor - start + 1..semi - start] == s[itor + 1..semi];
    assert left[..itor - start] == s[start..itor] && left[semi - start + 1..] == s[semi + 1..];
    var special := LookUp(s[itor + 1..semi], 0).value;
    PrependTwice(before, s[start..itor] + special, Parse(s[semi + 1..]));
    assert before + (s[start..itor] + special) == before + s[start..itor] + special;
  }

  lemma SearchFromSemicolon(s: Text)
    requires s != [] && s[0] == SEMICOLON
    ensures Find(s, AMPERSAND) == 1 + Find(s[1..], AMPERSAND)
  {
  }

  /** `start` and `itor` move on together; what lies before `start` has been copied or replaced. */
  method ParseSpecialChars(s: Text) returns (r: Parsed)
    ensures r == Parse(s)
  {
    hide MarkupMap, CodepointToUtf8, LookUp, Parse, Prepend, Find;
    var result := [];
    var start := 0;
    var itor := Find(s, AMPERSAND);
    if itor == |s| {
      ParseStep(s);
      return Parsed(s);
    }
    assert s[0..] == s;
    PrependNothing(Parse(s));
    while itor != |s|
      invariant start <= itor <= |s| && itor == start + Itor(s[start..])
      invariant Prepend(result, Parse(s[start..])) == Parse(s)
      decreases |s| - itor
    {
      ghost var before := result;
      SliceOfRest(s, start, itor);
      result := result + s[start..itor];
      var semi := itor + Find(s[itor..], SEMICOLON);
      if semi == |s| {
        Ends(before, s, start, itor);
        start := itor;
        break;
      }
      var tag := s[itor + 1..semi];
      var special := FindMarkup(tag);
      if special == None {
        NotFound(before, s, start, itor, semi);
        return NoMarkup(tag);
      }
      Replaced(before, s, start, itor, semi);
      result := result + special.value;
      start := semi + 1;
      SearchFromSemicolon(s[semi..]);
      assert s[semi..][1..] == s[start..];
      itor := semi + Find(s[semi..], AMPERSAND);
    }
    if itor == |s| {
      ParseStep(s[start..]);
      PrependParsed(result, s[start..]);
    }
    r := Parsed(result + s[start..]);
  }

  lemma PrependNothing(p: Parsed)
    ensures Prepend([], p) == p
  {
    if p.Parsed? {
      assert [] + p.text == p.text;
    }
  }

  /** The loop over the table. */
  method FindMarkup(tag: Text) returns (r: Option<Text>)
    ensures r == LookUp(tag, 0)
  {
    hide MarkupMap, CodepointToUtf8;
    for e := 0 to |MarkupMap()|
      invariant LookUp(tag, 0) == LookUp(tag, e)
    {
      if tag == MarkupMap()[e].tag {
        return Some(CodepointToUtf8(MarkupMap()[e].codepoint));
      }
    }
    r := None;
  }
}
