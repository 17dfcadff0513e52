/** Laying text out in lines of limited width, by a measure of which nothing is known. */
module TextLayout {
  import opened Common

  datatype Item = Item(text: string, font: nat, nobr: bool, align: nat)

  /** How far a text in a font takes the pen, and how high the font is. */
  datatype Measure = Measure(advance: (nat, string) -> real, height: nat -> real)

  /** Text at a place, what the pen moved on for it, its font, and the width of the line it was put on. */
  datatype Fragment = Fragment(x: real, y: real, advance: real, text: string, font: nat, room: real)

  datatype LineOfText = LineOfText(align: nat, fragments: seq<Fragment>)

  /** Where the next fragment goes, and how wide and high the current line is. */
  datatype Pen = Pen(x: real, y: real, width: real, lineHeight: real)

  datatype Settings = Settings(widthDelta: real, scaleLineHeights: real)

  /** All that a layout is made from. */
  datatype Job = Job(m: Measure, items: seq<Item>, c: Settings, width: real)

  // ---- Splitting into lines ----

  function Split(text: string): (lines: seq<string>)
    ensures |lines| >= 1
  {
    if text == [] then [""]
    else Preceded(text[0], Split(text[1..]))
  }

  function Joined(lines: seq<string>): string
    requires lines != []
  {
    if |lines| == 1 then lines[0] else lines[0] + "\n" + Joined(lines[1..])
  }

  predicate Unbroken(lines: seq<string>) {
    forall i | 0 <= i < |lines| :: '\n' !in lines[i]
  }

  lemma JoinPreceded(c: char, lines: seq<string>)
    requires lines != [] && Unbroken(lines)
    ensures Joined(Preceded(c, lines)) == [c] + Joined(lines) && Unbroken(Preceded(c, lines))
  {
    var all := Preceded(c, lines);
    if c == '\n' {
      assert all[1..] == lines;
      assert "" + "\n" + Joined(lines) == [c] + Joined(lines);
    } else {
      assert all[1..] == lines[1..];
      if |lines| > 1 {
        assert [c] + lines[0] + "\n" + Joined(lines[1..]) == [c] + (lines[0] + "\n" + Joined(lines[1..]));
      }
    }
  }

  /** The lines hold no line break, and give the text when joined by them. */
  lemma {:induction false} SplitIsJoined(text: string)
    ensures Joined(Split(text)) == text && Unbroken(Split(text))
    decreases |text|
  {
    if text != [] {
      hide Joined, Unbroken, Preceded;
      SplitIsJoined(text[1..]);
      JoinPreceded(text[0], Split(text[1..]));
    }
  }

  /** The lines when one more character comes at the end. */
  function Appended(lines: seq<string>, c: char): seq<string>
    requires lines != []
  {
    var n := |lines| - 1;
    if c == '\n' then lines + [""] else lines[..n] + [lines[n] + [c]]
  }

  /** The lines when one more character comes at the front. */
  function Preceded(c: char, lines: seq<string>): (r: seq<string>)
    requires lines != []
    ensures r != []
  {
    if c == '\n' then [""] + lines else [[c] + lines[0]] + lines[1..]
  }

  lemma PrecededAppended(a: char, lines: seq<string>, c: char)
    requires lines != []
    ensures Preceded(a, Appended(lines, c)) == Appended(Preceded(a, lines), c)
  {
    var x, y := Preceded(a, Appended(lines, c)), Appended(Preceded(a, lines), c);
    if |lines| == 1 && a != '\n' && c != '\n' {
      assert [a] + (lines[0] + [c]) == [a] + lines[0] + [c];
    }
    assert |x| == |y| && forall i | 0 <= i < |x| :: x[i] == y[i];
  }

  lemma {:induction false} SplitAppend(text: string, c: char)
    ensures Split(text + [c]) == Appended(Split(text), c)
    decreases |text|
  {
    hide Appended, Preceded;
    if text == [] {
      SplitOne(c);
    } else {
      assert (text + [c])[1..] == text[1..] + [c];
      SplitAppend(text[1..], c);
      PrecededAppended(text[0], Split(text[1..]), c);
    }
  }

  lemma SplitOne(c: char)
    ensures Split([] + [c]) == Appended(Split([]), c)
  {
    assert [] + [c] == [c] && [c][1..] == "" && Split("") == [""];
    assert [c] + "" == [c] && [""][1..] == [];
    assert [""] + [""] == ["", ""];
  }

  method SplitLines(val: string) returns (res: seq<string>)
    ensures res == Split(val)
  {
    res := [];
    var i1, i2 := 0, 0;
    while i2 < |val|
      invariant i1 <= i2 <= |val|
      invariant res + [val[i1..i2]] == Split(val[..i2])
    {
      SplitAppend(val[..i2], val[i2]);
      assert (res + [val[i1..i2]])[..|res|] == res;
      assert val[..i2 + 1] == val[..i2] + [val[i2]];
      if val[i2] == '\n' {
        res := res + [val[i1..i2]];
        i2 := i2 + 1;
        i1 := i2;
        assert val[i1..i2] == "";
      } else {
        assert val[i1..i2 + 1] == val[i1..i2] + [val[i2]];
        i2 := i2 + 1;
      }
    }
    assert val[..|val|] == val;
    res := res + [val[i1..i2]];
  }

  // ---- What a good layout is ----

  /** The place after the next space, or the end. */
  function WordEnd(line: string, i: nat): (j: nat)
    requires i <= |line|
    ensures i <= j <= |line| && (i < |line| ==> i < j)
    ensures j < |line| ==> line[j - 1] == ' '
    ensures forall k | i <= k < j - 1 :: line[k] != ' '
    decreases |line| - i
  {
    if i == |line| then i else if line[i] == ' ' then i + 1 else WordEnd(line, i + 1)
  }

  /** From `to` on, words are taken in one by one as long as all from i1 on fits behind x. */
  function Taken(m: Measure, font: nat, line: string, i1: nat, to: nat, x: real, width: real): (r: nat)
    requires i1 <= to <= |line|
    ensures to <= r <= |line|
    decreases |line| - to
  {
    if to == |line| || x + m.advance(font, line[i1..WordEnd(line, to)]) > width then to
    else Taken(m, font, line, i1, WordEnd(line, to), x, width)
  }

  /** What is taken in fits, in whole words, and one more word would not. */
  lemma {:induction false} TakenIsGreedy(m: Measure, font: nat, line: string, i1: nat, i2: nat, x: real, width: real)
    requires i1 <= i2 <= |line|
    ensures var to := Taken(m, font, line, i1, i2, x, width);
      && (to > i2 ==> x + m.advance(font, line[i1..to]) <= width && (to == |line| || line[to - 1] == ' '))
      && (to < |line| ==> x + m.advance(font, line[i1..WordEnd(line, to)]) > width)
    decreases |line| - i2
  {
    if i2 < |line| && x + m.advance(font, line[i1..WordEnd(line, i2)]) <= width {
      TakenIsGreedy(m, font, line, i1, WordEnd(line, i2), x, width);
    }
  }

  /** The end of the first word, or of the line of an item that must not be broken. */
  function FirstEnd(item: Item, line: string, i1: nat): (w: nat)
    requires i1 < |line|
    ensures i1 < w <= |line|
  {
    if item.nobr then |line| else WordEnd(line, i1)
  }

  /** The first word does not fit behind the pen. */
  predicate Wraps(m: Measure, item: Item, line: string, i1: nat, pen: Pen)
    requires i1 < |line|
  {
    pen.x + m.advance(item.font, line[i1..FirstEnd(item, line, i1)]) > pen.width
  }

  /** The pen at the left edge of the next line. */
  function Below(c: Settings, pen: Pen, minLineHeight: real): Pen {
    Pen(0.0, pen.y + pen.lineHeight * c.scaleLineHeights,
        pen.width + c.widthDelta * pen.lineHeight * c.scaleLineHeights, minLineHeight)
  }

  /** Where the next fragment is made longer from: on a new line from its first character, unless it must not break. */
  function FirstTry(m: Measure, item: Item, line: string, i1: nat, pen: Pen): (i2: nat)
    requires i1 < |line|
    ensures i1 < i2 <= FirstEnd(item, line, i1)
  {
    if Wraps(m, item, line, i1, pen) && !item.nobr then i1 + 1 else FirstEnd(item, line, i1)
  }

  function FragmentEnd(m: Measure, item: Item, line: string, i1: nat, c: Settings, pen: Pen): (to: nat)
    requires i1 < |line|
    ensures i1 < to <= |line|
  {
    var start := if Wraps(m, item, line, i1, pen) then Below(c, pen, 0.0) else pen;
    Taken(m, item.font, line, i1, FirstTry(m, item, line, i1, pen), start.x, start.width)
  }

  /**
   * A word is cut exactly if it may be broken, has more than one character, and fits neither behind the pen nor
   * on a line of its own.
   */
  lemma CutExactly(m: Measure, item: Item, line: string, i1: nat, c: Settings, pen: Pen)
    requires i1 < |line|
    ensures var w := FirstEnd(item, line, i1);
      FragmentEnd(m, item, line, i1, c, pen) < w <==>
        && !item.nobr && w > i1 + 1 && Wraps(m, item, line, i1, pen)
        && m.advance(item.font, line[i1..w]) > Below(c, pen, 0.0).width
  {
    var w := FirstEnd(item, line, i1);
    if w > i1 + 1 && !item.nobr {
      assert WordEnd(line, i1 + 1) == w;
    }
  }

  /** Where a fragment comes from: a stretch of a line of an item. */
  datatype Source = Source(item: Item, line: string, from: nat, to: nat)

  function Advance(m: Measure, s: Source, to: nat): real
    requires s.from <= to <= |s.line|
  {
    m.advance(s.item.font, s.line[s.from..to])
  }

  predicate IsStretch(f: Fragment, s: Source) {
    s.from < s.to <= |s.line| && f.text == s.line[s.from..s.to] && f.font == s.item.font
  }

  predicate Fits(m: Measure, f: Fragment, s: Source)
    requires IsStretch(f, s)
  {
    f.x + Advance(m, s, s.to) <= f.room
  }

  /** A single character at the left edge. */
  predicate Forced(f: Fragment, s: Source) {
    s.to == s.from + 1 && f.x == 0.0
  }

  /** The place up to which the pen moves on: the end of the fragment, or of its first word if that is longer. */
  function MeasuredTo(s: Source): (b: nat)
    requires s.from <= s.to <= |s.line|
    ensures s.to <= b <= |s.line|
  {
    if s.to < WordEnd(s.line, s.from) then WordEnd(s.line, s.from) else s.to
  }

  /**
   * A fragment of an item that may be broken fits or is a single character at the left edge; it ends after a
   * word, or is such a character; and one more word would not have fitted. The pen moves on by the measure of
   * the fragment. But when a word is cut, after its first character, it moves on by that of the whole word,
   * which does not fit.
   */
  predicate Breakable(m: Measure, f: Fragment, s: Source)
    requires IsStretch(f, s)
  {
    && (Fits(m, f, s) || Forced(f, s))
    && (s.to == |s.line| || s.line[s.to - 1] == ' ' || Forced(f, s))
    && (s.to < |s.line| ==> f.x + Advance(m, s, WordEnd(s.line, s.to)) > f.room)
    && f.advance == Advance(m, s, MeasuredTo(s))
    && (s.to < WordEnd(s.line, s.from) ==> Forced(f, s) && f.advance > f.room)
  }

  /** An item that must not be broken keeps each line whole, at the left edge if it does not fit elsewhere. */
  predicate Whole(m: Measure, f: Fragment, s: Source)
    requires IsStretch(f, s)
  {
    s.from == 0 && s.to == |s.line| && f.advance == Advance(m, s, s.to) && (Fits(m, f, s) || f.x == 0.0)
  }

  predicate Placed(m: Measure, f: Fragment, s: Source) {
    IsStretch(f, s) && if s.item.nobr then Whole(m, f, s) else Breakable(m, f, s)
  }

  /** From left to right without gaps, on one level; only the first fragment may go beyond the width. */
  predicate LineOk(fs: seq<Fragment>) {
    && (fs != [] ==> fs[0].x == 0.0)
    && forall k | 0 < k < |fs| :: Follows(fs[k - 1], fs[k])
  }

  predicate Follows(a: Fragment, b: Fragment) {
    b.x == a.x + a.advance && b.y == a.y && b.room == a.room && b.x + b.advance <= b.room
  }

  function All(output: seq<LineOfText>): seq<Fragment> {
    if output == [] then []
    else All(output[..|output| - 1]) + output[|output| - 1].fragments
  }

  /** The pen is at the end of the last line. */
  predicate AtEnd(pen: Pen, output: seq<LineOfText>) {
    output != [] &&
    var fs := output[|output| - 1].fragments;
    if fs == [] then pen.x == 0.0
    else
      var last := fs[|fs| - 1];
      pen.x == last.x + last.advance && pen.y == last.y && pen.width == last.room
  }

  predicate OutputOk(output: seq<LineOfText>) {
    forall i | 0 <= i < |output| :: LineOk(output[i].fragments)
  }

  predicate AllPlaced(m: Measure, fs: seq<Fragment>, ss: seq<Source>) {
    |fs| == |ss| && forall i | 0 <= i < |fs| :: Placed(m, fs[i], ss[i])
  }

  predicate RoomIs(fs: seq<Fragment>, width: real) {
    forall i | 0 <= i < |fs| :: fs[i].room == width
  }

  /** The stretches follow each other from one place in a line to another. */
  predicate Tiles(ss: seq<Source>, item: Item, line: string, from: nat, to: nat) {
    && (forall i | 0 <= i < |ss| :: ss[i].item == item && ss[i].line == line)
    && (if ss == [] then from == to else ss[0].from == from && ss[|ss| - 1].to == to)
    && (forall i | 0 < i < |ss| :: ss[i].from == ss[i - 1].to)
  }

  // ---- The loops ----

  method NewLine(pen: Pen, output: seq<LineOfText>, c: Settings, minLineHeight: real, align: nat)
    returns (p: Pen, o: seq<LineOfText>)
    requires OutputOk(output)
    ensures OutputOk(o) && AtEnd(p, o) && All(o) == All(output)
    ensures o == output + [LineOfText(align, [])] && p == Below(c, pen, minLineHeight)
    ensures p.x == 0.0 && p.y == pen.y + pen.lineHeight * c.scaleLineHeights && p.lineHeight == minLineHeight
    ensures p.width == pen.width + c.widthDelta * pen.lineHeight * c.scaleLineHeights
    ensures c.widthDelta == 0.0 ==> p.width == pen.width
  {
    if c.widthDelta == 0.0 {
      assert c.widthDelta * pen.lineHeight == 0.0;
    }
    p := Below(c, pen, minLineHeight);
    o := output + [LineOfText(align, [])];
    assert o[..|output|] == output;
  }

  /** Takes in further words while they fit. */
  method Extend(m: Measure, font: nat, line: string, i1: nat, i2: nat, pen: Pen, advance: real)
    returns (to: nat, taken: real)
    requires i1 < i2 <= |line|
    ensures to == Taken(m, font, line, i1, i2, pen.x, pen.width)
    ensures taken == if to == i2 then advance else m.advance(font, line[i1..to])
  {
    to, taken := i2, advance;
    while to != |line|
      invariant i2 <= to <= |line|
      invariant Taken(m, font, line, i1, to, pen.x, pen.width) == Taken(m, font, line, i1, i2, pen.x, pen.width)
      invariant taken == if to == i2 then advance else m.advance(font, line[i1..to])
      decreases |line| - to
    {
      var anchor := to;
      to := WordEnd(line, to);
      var newAdvance := m.advance(font, line[i1..to]);
      if pen.x + newAdvance > pen.width {
        to := anchor;
        break;
      }
      taken := newAdvance;
    }
  }

  /** With one more fragment on the last line. */
  function Extended(output: seq<LineOfText>, f: Fragment): seq<LineOfText>
    requires output != []
  {
    var n := |output| - 1;
    output[..n] + [output[n].(fragments := output[n].fragments + [f])]
  }

  method Put(pen: Pen, output: seq<LineOfText>, text: string, font: nat, advance: real) returns (p: Pen, o: seq<LineOfText>)
    requires OutputOk(output) && AtEnd(pen, output)
    requires output[|output| - 1].fragments == [] || pen.x + advance <= pen.width
    ensures OutputOk(o) && AtEnd(p, o)
    ensures var f := Fragment(pen.x, pen.y, advance, text, font, pen.width);
      All(o) == All(output) + [f] && o == Extended(output, f)
    ensures p == pen.(x := pen.x + advance)
  {
    hide LineOk, All;
    var f := Fragment(pen.x, pen.y, advance, text, font, pen.width);
    var n := |output| - 1;
    var last := output[n];
    assert LineOk(last.fragments);
    o := Extended(output, f);
    p := pen.(x := pen.x + advance);
    LineGrows(last.fragments, f);
    AllOfLast(output[..n], last, o[n]);
    assert output == output[..n] + [last];
  }

  lemma LineGrows(fs: seq<Fragment>, f: Fragment)
    requires LineOk(fs)
    requires if fs == [] then f.x == 0.0 else Follows(fs[|fs| - 1], f)
    ensures LineOk(fs + [f])
  {
    hide Follows;
    var all := fs + [f];
    forall k | 0 < k < |all|
      ensures Follows(all[k - 1], all[k])
    {
      if k < |fs| {
        assert Follows(fs[k - 1], fs[k]);
      }
    }
  }

  lemma AllOfLast(output: seq<LineOfText>, a: LineOfText, b: LineOfText)
    ensures All(output + [a]) == All(output) + a.fragments
    ensures All(output + [b]) == All(output) + b.fragments
  {
    assert (output + [a])[..|output|] == output && (output + [b])[..|output|] == output;
  }

  lemma FragmentIsPlaced(m: Measure, item: Item, line: string, i1: nat, c: Settings, pen: Pen, start: Pen, taken: real)
    requires i1 < |line| && (item.nobr ==> i1 == 0)
    requires if Wraps(m, item, line, i1, pen) then start.x == 0.0 && start.width == Below(c, pen, 0.0).width else start == pen
    requires var to := FragmentEnd(m, item, line, i1, c, pen);
      taken == m.advance(item.font,
        line[i1..if to == FirstTry(m, item, line, i1, pen) then FirstEnd(item, line, i1) else to])
    ensures var to := FragmentEnd(m, item, line, i1, c, pen);
      Placed(m, Fragment(start.x, start.y, taken, line[i1..to], item.font, start.width), Source(item, line, i1, to))
    ensures Wraps(m, item, line, i1, pen) || start.x + taken <= start.width
  {
    hide Taken, WordEnd, Breakable, Whole;
    var w, i2 := FirstEnd(item, line, i1), FirstTry(m, item, line, i1, pen);
    var to := FragmentEnd(m, item, line, i1, c, pen);
    var f, src := Fragment(start.x, start.y, taken, line[i1..to], item.font, start.width), Source(item, line, i1, to);
    TakenIsGreedy(m, item.font, line, i1, i2, start.x, start.width);
    if item.nobr {
      WholeIsPlaced(m, f, src);
    } else {
      RestOfWord(line, i1);
      BreakableIsPlaced(m, f, src, w);
    }
  }

  lemma RestOfWord(line: string, i1: nat)
    requires i1 < |line|
    ensures i1 + 1 < WordEnd(line, i1) ==> WordEnd(line, i1 + 1) == WordEnd(line, i1)
    ensures WordEnd(line, i1) == |line| || line[WordEnd(line, i1) - 1] == ' '
  {
  }

  lemma WholeIsPlaced(m: Measure, f: Fragment, s: Source)
    requires IsStretch(f, s) && s.from == 0 && s.to == |s.line| && f.advance == Advance(m, s, s.to)
    requires Fits(m, f, s) || f.x == 0.0
    ensures Whole(m, f, s)
  {
  }

  lemma BreakableIsPlaced(m: Measure, f: Fragment, s: Source, w: nat)
    requires IsStretch(f, s) && w == WordEnd(s.line, s.from)
    requires Fits(m, f, s) || Forced(f, s)
    requires s.to == |s.line| || s.line[s.to - 1] == ' ' || Forced(f, s)
    requires s.to < |s.line| ==> f.x + Advance(m, s, WordEnd(s.line, s.to)) > f.room
    requires f.advance == Advance(m, s, if s.to < w then w else s.to)
    requires s.to < w ==> Forced(f, s) && f.advance > f.room
    ensures Breakable(m, f, s)
  {
    hide WordEnd;
  }

  /** One turn of the loop: the next fragment, on a new line if its first word does not fit. */
  method PlaceFragment(m: Measure, item: Item, line: string, i1: nat, c: Settings, minLineHeight: real, pen: Pen,
                       output: seq<LineOfText>)
    returns (to: nat, p: Pen, o: seq<LineOfText>, ghost f: Fragment)
    requires i1 < |line| && (item.nobr ==> i1 == 0)
    requires OutputOk(output) && AtEnd(pen, output)
    ensures to == FragmentEnd(m, item, line, i1, c, pen) && (item.nobr ==> to == |line|)
    ensures OutputOk(o) && AtEnd(p, o) && All(o) == All(output) + [f]
    ensures Placed(m, f, Source(item, line, i1, to))
    ensures var wraps := Wraps(m, item, line, i1, pen);
      var start := if wraps then Below(c, pen, minLineHeight) else pen;
      && f == Fragment(start.x, start.y, f.advance, line[i1..to], item.font, start.width) && p == start.(x := start.x + f.advance)
      && o == Extended(if wraps then output + [LineOfText(item.align, [])] else output, f)
    ensures Wraps(m, item, line, i1, pen) ==>
      && f.x == 0.0 && f.y == pen.y + pen.lineHeight * c.scaleLineHeights
      && f.room == pen.width + c.widthDelta * pen.lineHeight * c.scaleLineHeights
    ensures c.widthDelta == 0.0 ==> p.width == pen.width
  {
    hide OutputOk, All, LineOk, AtEnd, Placed, Taken, Extended;
    p, o := pen, output;
    var i2 := if item.nobr then |line| else WordEnd(line, i1);
    var advance := m.advance(item.font, line[i1..i2]);
    if p.x + advance > p.width {
      if !item.nobr {
        i2 := i1 + 1;
      }
      p, o := NewLine(p, o, c, minLineHeight, item.align);
    }
    var taken;
    to, taken := Extend(m, item.font, line, i1, i2, p, advance);
    FragmentIsPlaced(m, item, line, i1, c, pen, p, taken);
    f := Fragment(p.x, p.y, taken, line[i1..to], item.font, p.width);
    p, o := Put(p, o, line[i1..to], item.font, taken);
  }

  // ---- All items ----

  datatype SourceLine = SourceLine(item: Item, line: string)

  function ItemLines(item: Item, lines: seq<string>): (r: seq<SourceLine>)
    ensures |r| == |lines| && forall i | 0 <= i < |r| :: r[i] == SourceLine(item, lines[i])
  {
    seq(|lines|, i requires 0 <= i < |lines| => SourceLine(item, lines[i]))
  }

  /** The lines of all items, in order. */
  function SourceLines(items: seq<Item>): seq<SourceLine> {
    if items == [] then []
    else
      var item := items[|items| - 1];
      SourceLines(items[..|items| - 1]) + ItemLines(item, Split(item.text))
  }

  function Flat(pieces: seq<seq<Source>>): seq<Source> {
    if pieces == [] then [] else Flat(pieces[..|pieces| - 1]) + pieces[|pieces| - 1]
  }

  predicate AllTile(pieces: seq<seq<Source>>, lines: seq<SourceLine>) {
    |pieces| == |lines| &&
    forall k | 0 <= k < |pieces| :: Tiles(pieces[k], lines[k].item, lines[k].line, 0, |lines[k].line|)
  }

  lemma OneMorePiece(m: Measure, pieces: seq<seq<Source>>, lines: seq<SourceLine>, fs: seq<Fragment>,
                     ss: seq<Source>, next: SourceLine, more: seq<Fragment>)
    requires AllTile(pieces, lines) && AllPlaced(m, fs, Flat(pieces))
    requires Tiles(ss, next.item, next.line, 0, |next.line|) && AllPlaced(m, more, ss)
    ensures AllTile(pieces + [ss], lines + [next]) && AllPlaced(m, fs + more, Flat(pieces + [ss]))
  {
    hide Tiles, Placed;
    assert (pieces + [ss])[..|pieces|] == pieces;
  }

  // ---- Where lines of output begin ----

  /** Where the run of unbroken items that begins at f1 ends. */
  function RunEnd(items: seq<Item>, f: nat): (e: nat)
    requires f <= |items|
    ensures f <= e <= |items| && (e < |items| ==> !items[e].nobr)
    ensures forall k | f <= k < e :: items[k].nobr
    decreases |items| - f
  {
    if f == |items| || !items[f].nobr then f else RunEnd(items, f + 1)
  }

  /** The width of the items from f1 up to f, in the font of the first; the sum is kept in an integer. */
  function RunAdvance(m: Measure, items: seq<Item>, f1: nat, f: nat): int
    requires f1 <= f <= |items|
  {
    if f == f1 then 0
    else Truncate(RunAdvance(m, items, f1, f - 1) as real + m.advance(items[f1].font, items[f - 1].text))
  }

  /** An item of one line with which a run of unbroken items begins. */
  predicate BeginsRun(items: seq<Item>, f: nat)
    requires f < |items|
  {
    items[f].nobr && (f == 0 || !items[f - 1].nobr) && |Split(items[f].text)| == 1
  }

  predicate RunLeaves(m: Measure, items: seq<Item>, f1: nat, pen: Pen)
    requires f1 < |items|
  {
    pen.x + RunAdvance(m, items, f1, RunEnd(items, f1)) as real > pen.width
  }

  method LeavesLine(m: Measure, items: seq<Item>, f1: nat, pen: Pen) returns (leaves: bool)
    requires f1 < |items|
    ensures leaves <==> RunLeaves(m, items, f1, pen)
  {
    var sum := 0;
    var f := f1;
    while f != |items| && items[f].nobr
      invariant f1 <= f <= |items| && sum == RunAdvance(m, items, f1, f) && RunEnd(items, f) == RunEnd(items, f1)
    {
      sum := Truncate(sum as real + m.advance(items[f1].font, items[f].text));
      f := f + 1;
    }
    leaves := pen.x + sum as real > pen.width;
  }

  /** Line i of item f, a run of unbroken items that leaves the line, or a word that does not fit. */
  datatype Reason = First | NextLine(f: nat, i: nat) | UnbrokenRun(f: nat) | WordTooLong

  /** Why a line of output begins, in which item, after how many fragments, and the pen before and after it is moved there. */
  datatype Begin = Begin(why: Reason, item: nat, at: nat, end: Pen, start: Pen)

  /** The fragments so far are those of the first k lines of the items. */
  predicate ComesAt(at: nat, pieces: seq<seq<Source>>, k: nat) {
    k <= |pieces| && at == |Flat(pieces[..k])|
  }

  predicate ReasonOk(job: Job, b: Begin, line: LineOfText, pieces: seq<seq<Source>>, ss: seq<Source>) {
    match b.why
    case First => false
    case NextLine(f, i) =>
      f == b.item < |job.items| && 0 < i < |Split(job.items[f].text)| && ComesAt(b.at, pieces, |SourceLines(job.items[..f])| + i)
    case UnbrokenRun(f) =>
      && f == b.item < |job.items| && BeginsRun(job.items, f) && RunLeaves(job.m, job.items, f, b.end)
      && ComesAt(b.at, pieces, |SourceLines(job.items[..f])|)
    case WordTooLong =>
      && b.at < |ss| && ss[b.at].from < |ss[b.at].line| && Wraps(job.m, ss[b.at].item, ss[b.at].line, ss[b.at].from, b.end)
      && line.fragments != [] && b.item < |job.items| && ss[b.at].item == job.items[b.item]
  }

  /**
   * All fragments of the line are at the height of the pen and have its width to fill; the line is aligned as the
   * item of the first.
   */
  predicate LineAt(line: LineOfText, b: Begin, ss: seq<Source>) {
    && (forall f | f in line.fragments :: f.y == b.start.y && f.room == b.start.width)
    && (line.fragments != [] ==> b.at < |ss| && line.align == ss[b.at].item.align)
  }

  /** The pen has come to the end of a line. */
  predicate EndsAt(pen: Pen, line: LineOfText, start: Pen) {
    && pen.x == (if line.fragments == [] then 0.0 else Used(line.fragments))
    && pen.y == start.y && pen.width == start.width
  }

  /** No font on the line is higher. */
  predicate LineHigh(m: Measure, line: LineOfText, height: real) {
    forall f | f in line.fragments :: m.height(f.font) <= height
  }

  /** The height is that of the highest font of the items from a to e; the first line may also be of no height. */
  predicate IsGreatest(job: Job, a: nat, e: nat, height: real, first: bool) {
    && a <= e <= |job.items| && (first ==> 0.0 <= height)
    && (forall k | a <= k < e :: job.m.height(job.items[k].font) <= height)
    && ((first && height == 0.0) || exists k :: a <= k < e && height == job.m.height(job.items[k].font))
  }

  /** Line i of the output begins for its reason, below where the line before it ends. */
  predicate BeginOk(job: Job, output: seq<LineOfText>, begins: seq<Begin>, pieces: seq<seq<Source>>, ss: seq<Source>, i: nat)
    requires i < |output| && i < |begins|
  {
    var b := begins[i];
    && b.at == |All(output[..i])| && LineAt(output[i], b, ss)
    && if i == 0 then b.why == First && b.item == 0 && b.start == Pen(0.0, 0.0, job.width, 0.0)
       else
         && EndsAt(b.end, output[i - 1], begins[i - 1].start) && b.start == Below(job.c, b.end, b.start.lineHeight)
         && ReasonOk(job, b, output[i], pieces, ss)
         && IsGreatest(job, begins[i - 1].item, b.item + 1, b.end.lineHeight, i == 1)
         && LineHigh(job.m, output[i - 1], b.end.lineHeight)
  }

  ghost predicate Begun(job: Job, output: seq<LineOfText>, begins: seq<Begin>, pieces: seq<seq<Source>>, ss: seq<Source>) {
    |begins| == |output| && forall i: nat | i < |output| :: BeginOk(job, output, begins, pieces, ss, i)
  }

  /** The pen is at the end of the last line, whose beginning is the last, and the first e items have been begun. */
  predicate PenEnds(job: Job, e: nat, pen: Pen, output: seq<LineOfText>, begins: seq<Begin>) {
    && output != [] && begins != []
    && EndsAt(pen, output[|output| - 1], begins[|begins| - 1].start)
    && IsGreatest(job, begins[|begins| - 1].item, e, pen.lineHeight, |begins| == 1)
    && LineHigh(job.m, output[|output| - 1], pen.lineHeight)
    && (output[|output| - 1].fragments == [] && e > 0 ==> output[|output| - 1].align == job.items[e - 1].align)
  }

  lemma ReasonStays(job: Job, b: Begin, line: LineOfText, pieces: seq<seq<Source>>, ss: seq<Source>,
                    line': LineOfText, pieces': seq<seq<Source>>, ss': seq<Source>)
    requires ReasonOk(job, b, line, pieces, ss) && pieces <= pieces' && ss <= ss'
    requires line.fragments != [] ==> line'.fragments != []
    ensures ReasonOk(job, b, line', pieces', ss')
  {
    forall k: nat | k <= |pieces|
      ensures pieces'[..k] == pieces[..k]
    {
    }
  }

  /** What comes at the end of the last line, or after it, leaves the beginnings as they are. */
  lemma BeginStays(job: Job, output: seq<LineOfText>, begins: seq<Begin>, pieces: seq<seq<Source>>, ss: seq<Source>, i: nat,
                   output': seq<LineOfText>, begins': seq<Begin>, pieces': seq<seq<Source>>, ss': seq<Source>)
    requires i < |output| && i < |output'| && |begins| == |output| && begins <= begins'
    requires BeginOk(job, output, begins, pieces, ss, i) && pieces <= pieces' && ss <= ss'
    requires output'[..i] == output[..i] && LineAt(output'[i], begins[i], ss')
    requires output[i].fragments != [] ==> output'[i].fragments != []
    ensures BeginOk(job, output', begins', pieces', ss', i)
  {
    hide ReasonOk, LineAt, EndsAt, All, LineHigh, IsGreatest;
    assert begins'[i] == begins[i];
    if i > 0 {
      assert begins'[i - 1] == begins[i - 1];
      assert output'[i - 1] == output'[..i][i - 1] && output[i - 1] == output[..i][i - 1];
      ReasonStays(job, begins[i], output[i], pieces, ss, output'[i], pieces', ss');
    }
  }

  /** The last line becomes another one at the same place. */
  lemma BegunLast(job: Job, output: seq<LineOfText>, begins: seq<Begin>, pieces: seq<seq<Source>>, ss: seq<Source>,
                  line: LineOfText, ss': seq<Source>)
    requires output != [] && Begun(job, output, begins, pieces, ss) && ss <= ss'
    requires LineAt(line, begins[|begins| - 1], ss')
    requires output[|output| - 1].fragments != [] ==> line.fragments != []
    ensures Begun(job, output[..|output| - 1] + [line], begins, pieces, ss')
  {
    hide BeginOk, LineAt;
    var n, output' := |output| - 1, output[..|output| - 1] + [line];
    forall i: nat | i < |output'|
      ensures BeginOk(job, output', begins, pieces, ss', i)
    {
      assert BeginOk(job, output, begins, pieces, ss, i);
      LineIsAt(job, output, begins, pieces, ss, i, ss');
      assert output'[..i] == output[..i];
      BeginStays(job, output, begins, pieces, ss, i, output', begins, pieces, ss');
    }
  }

  lemma LineIsAt(job: Job, output: seq<LineOfText>, begins: seq<Begin>, pieces: seq<seq<Source>>, ss: seq<Source>, i: nat,
                 ss': seq<Source>)
    requires i < |output| && i < |begins| && BeginOk(job, output, begins, pieces, ss, i) && ss <= ss'
    ensures LineAt(output[i], begins[i], ss') && begins[i].at == |All(output[..i])|
  {
  }

  /** One more line begins. */
  lemma BegunMore(job: Job, pen: Pen, output: seq<LineOfText>, begins: seq<Begin>, pieces: seq<seq<Source>>, ss: seq<Source>,
                  line: LineOfText, b: Begin, ss': seq<Source>)
    requires Begun(job, output, begins, pieces, ss) && PenEnds(job, b.item + 1, pen, output, begins) && ss <= ss'
    requires b.at == |All(output)| && b.end == pen && b.start == Below(job.c, pen, b.start.lineHeight)
    requires LineAt(line, b, ss') && ReasonOk(job, b, line, pieces, ss')
    ensures Begun(job, output + [line], begins + [b], pieces, ss')
  {
    hide LineAt, ReasonOk, EndsAt, All, LineHigh, IsGreatest;
    var output', begins' := output + [line], begins + [b];
    forall i: nat | i < |output'|
      ensures BeginOk(job, output', begins', pieces, ss', i)
    {
      if i < |output| {
        LineIsAt(job, output, begins, pieces, ss, i, ss');
        assert output'[..i] == output[..i];
        BeginStays(job, output, begins, pieces, ss, i, output', begins', pieces, ss');
      } else {
        assert output'[..i] == output;
      }
    }
  }

  /** One more piece is done. */
  lemma BegunPiece(job: Job, output: seq<LineOfText>, begins: seq<Begin>, pieces: seq<seq<Source>>, ss: seq<Source>,
                   piece: seq<Source>)
    requires Begun(job, output, begins, pieces, ss)
    ensures Begun(job, output, begins, pieces + [piece], ss)
  {
    hide BeginOk;
    forall i: nat | i < |output|
      ensures BeginOk(job, output, begins, pieces + [piece], ss, i)
    {
      assert BeginOk(job, output, begins, pieces, ss, i);
      LineIsAt(job, output, begins, pieces, ss, i, ss);
      BeginStays(job, output, begins, pieces, ss, i, output, begins, pieces + [piece], ss);
    }
  }

  lemma LastIsEmpty(output: seq<LineOfText>)
    requires output != []
    ensures output[|output| - 1].fragments == [] ==> All(output[..|output| - 1]) == All(output)
  {
  }

  /** The last line was begun in this item or before. */
  predicate OnLine(begins: seq<Begin>, item: nat) {
    begins != [] && begins[|begins| - 1].item <= item
  }

  /** One more fragment, on the last line or on a new one if its first word does not fit. */
  lemma BegunFragment(job: Job, pen: Pen, output: seq<LineOfText>, begins: seq<Begin>, pieces: seq<seq<Source>>, ss: seq<Source>,
                      s: Source, f: Fragment, item: nat, minLineHeight: real)
    requires Begun(job, output, begins, pieces, ss) && PenEnds(job, item + 1, pen, output, begins)
    requires |All(output)| == |ss| && s.from < |s.line|
    requires item < |job.items| && s.item == job.items[item] && f.font == s.item.font
    requires minLineHeight == job.m.height(f.font) && OnLine(begins, item)
    requires var start := if Wraps(job.m, s.item, s.line, s.from, pen) then Below(job.c, pen, minLineHeight) else pen;
      f.x == start.x && f.y == start.y && f.room == start.width
    ensures var wraps := Wraps(job.m, s.item, s.line, s.from, pen);
      var start := if wraps then Below(job.c, pen, minLineHeight) else pen;
      var more := if wraps then begins + [Begin(WordTooLong, item, |ss|, pen, start)] else begins;
      var o := Extended(if wraps then output + [LineOfText(s.item.align, [])] else output, f);
      && Begun(job, o, more, pieces, ss + [s]) && PenEnds(job, item + 1, start.(x := f.x + f.advance), o, more)
      && NextLines(more) == NextLines(begins) && OnLine(more, item)
  {
    hide Wraps, All, BeginOk;
    var n := |output| - 1;
    if Wraps(job.m, s.item, s.line, s.from, pen) {
      var b, line := Begin(WordTooLong, item, |ss|, pen, Below(job.c, pen, minLineHeight)), LineOfText(s.item.align, [f]);
      BegunMore(job, pen, output, begins, pieces, ss, line, b, ss + [s]);
      assert (output + [LineOfText(s.item.align, [])])[..|output|] == output;
      assert [] + [f] == [f];
      assert Extended(output + [LineOfText(s.item.align, [])], f) == output + [line];
      assert (begins + [b])[..|begins|] == begins;
    } else {
      var line := output[n].(fragments := output[n].fragments + [f]);
      LineIsAt(job, output, begins, pieces, ss, n, ss + [s]);
      LastIsEmpty(output);
      BegunLast(job, output, begins, pieces, ss, line, ss + [s]);
    }
  }

  datatype Place = Place(item: nat, line: nat)

  /** The lines of items for which lines of output were begun, in order. */
  function NextLines(begins: seq<Begin>): seq<Place> {
    if begins == [] then []
    else
      var why := begins[|begins| - 1].why;
      NextLines(begins[..|begins| - 1]) + (if why.NextLine? then [Place(why.f, why.i)] else [])
  }

  /** All lines but the first of the first n lines of item f. */
  function LinesAfterFirst(f: nat, n: nat): seq<Place> {
    if n <= 1 then [] else LinesAfterFirst(f, n - 1) + [Place(f, n - 1)]
  }

  /** Every line of every item but the first of each. */
  function AllAfterFirst(items: seq<Item>): seq<Place> {
    if items == [] then []
    else
      var f := |items| - 1;
      AllAfterFirst(items[..f]) + LinesAfterFirst(f, |Split(items[f].text)|)
  }

  /** Lays out one line of an item, in as many fragments as it takes. */
  method PlaceLine(job: Job, f1: nat, line: string, minLineHeight: real, pen: Pen, output: seq<LineOfText>,
                   ghost begins: seq<Begin>, ghost pieces: seq<seq<Source>>)
    returns (p: Pen, o: seq<LineOfText>, ghost bs: seq<Begin>, ghost ss: seq<Source>)
    requires f1 < |job.items| && minLineHeight == job.m.height(job.items[f1].font) && OnLine(begins, f1)
    requires OutputOk(output) && AtEnd(pen, output) && PenEnds(job, f1 + 1, pen, output, begins)
    requires Begun(job, output, begins, pieces, Flat(pieces)) && |All(output)| == |Flat(pieces)|
    ensures OutputOk(o) && AtEnd(p, o) && PenEnds(job, f1 + 1, p, o, bs) && OnLine(bs, f1)
    ensures Begun(job, o, bs, pieces, Flat(pieces) + ss) && NextLines(bs) == NextLines(begins)
    ensures Tiles(ss, job.items[f1], line, 0, |line|)
    ensures |All(o)| == |All(output)| + |ss| && All(o)[..|All(output)|] == All(output)
    ensures AllPlaced(job.m, All(o)[|All(output)|..], ss)
    ensures job.c.widthDelta == 0.0 ==> p.width == pen.width && RoomIs(All(o)[|All(output)|..], pen.width)
  {
    hide OutputOk, AtEnd, All, Placed, LineOk, Begun, PenEnds, Flat, NextLines, Extended, FragmentEnd, Wraps, Below, OnLine;
    p, o, bs, ss := pen, output, begins, [];
    var item := job.items[f1];
    var i1 := 0;
    ghost var fs: seq<Fragment> := [];
    assert All(o) == All(output) + fs;
    assert Flat(pieces) + ss == Flat(pieces);
    while i1 != |line|
      invariant i1 <= |line|
      invariant OutputOk(o) && AtEnd(p, o) && PenEnds(job, f1 + 1, p, o, bs) && OnLine(bs, f1)
      invariant Begun(job, o, bs, pieces, Flat(pieces) + ss) && NextLines(bs) == NextLines(begins)
      invariant Tiles(ss, item, line, 0, i1) && (item.nobr ==> i1 == 0 || i1 == |line|)
      invariant All(o) == All(output) + fs && AllPlaced(job.m, fs, ss)
      invariant job.c.widthDelta == 0.0 ==> p.width == pen.width && RoomIs(fs, pen.width)
      decreases |line| - i1
    {
      var i2;
      ghost var f;
      ghost var before, was, last := All(o), o, p;
      i2, p, o, f := PlaceFragment(job.m, item, line, i1, job.c, minLineHeight, p, o);
      ghost var s := Source(item, line, i1, i2);
      BegunFragment(job, last, was, bs, pieces, Flat(pieces) + ss, s, f, f1, minLineHeight);
      if Wraps(job.m, item, line, i1, last) {
        bs := bs + [Begin(WordTooLong, f1, |Flat(pieces) + ss|, last, Below(job.c, last, minLineHeight))];
      }
      assert before + [f] == All(output) + (fs + [f]);
      assert Flat(pieces) + ss + [s] == Flat(pieces) + (ss + [s]);
      fs, ss := fs + [f], ss + [s];
      i1 := i2;
    }
  }

  /** The state of the loop over the items, and what has become of the lines so far. */
  ghost predicate Laid(job: Job, e: nat, pen: Pen, output: seq<LineOfText>, begins: seq<Begin>, pieces: seq<seq<Source>>,
                       lines: seq<SourceLine>) {
    && OutputOk(output) && AtEnd(pen, output) && AllTile(pieces, lines) && AllPlaced(job.m, All(output), Flat(pieces))
    && PenEnds(job, e, pen, output, begins) && Begun(job, output, begins, pieces, Flat(pieces))
  }

  /** Lines that are not made narrower or wider as they go down all have the width asked for. */
  ghost predicate Steady(job: Job, pen: Pen, output: seq<LineOfText>) {
    job.c.widthDelta == 0.0 ==> pen.width == job.width && RoomIs(All(output), job.width)
  }

  method LayoutLine(job: Job, f1: nat, line: string, minLineHeight: real, pen: Pen, output: seq<LineOfText>,
                    ghost begins: seq<Begin>, ghost pieces: seq<seq<Source>>, ghost lines: seq<SourceLine>)
    returns (p: Pen, o: seq<LineOfText>, ghost bs: seq<Begin>, ghost ss: seq<Source>)
    requires f1 < |job.items| && minLineHeight == job.m.height(job.items[f1].font) && OnLine(begins, f1)
    requires Laid(job, f1 + 1, pen, output, begins, pieces, lines) && Steady(job, pen, output)
    ensures Laid(job, f1 + 1, p, o, bs, pieces + [ss], lines + [SourceLine(job.items[f1], line)]) && Steady(job, p, o)
    ensures NextLines(bs) == NextLines(begins) && OnLine(bs, f1)
  {
    hide OutputOk, AtEnd, All, AllTile, Tiles, Begun, PenEnds, NextLines, Placed, OnLine;
    p, o, bs, ss := PlaceLine(job, f1, line, minLineHeight, pen, output, begins, pieces);
    ghost var n := |All(output)|;
    OneMorePiece(job.m, pieces, lines, All(output), ss, SourceLine(job.items[f1], line), All(o)[n..]);
    assert All(o) == All(output) + All(o)[n..];
    BegunPiece(job, o, bs, pieces, Flat(pieces) + ss, ss);
    assert (pieces + [ss])[..|pieces|] == pieces;
  }

  method LayoutItem(job: Job, f1: nat, pen: Pen, output: seq<LineOfText>, ghost begins: seq<Begin>,
                    ghost pieces: seq<seq<Source>>)
    returns (p: Pen, o: seq<LineOfText>, ghost bs: seq<Begin>, ghost ps: seq<seq<Source>>)
    requires f1 < |job.items| && Steady(job, pen, output)
    requires Laid(job, f1, pen, output, begins, pieces, SourceLines(job.items[..f1])) && OnLine(begins, f1)
    ensures Laid(job, f1 + 1, p, o, bs, ps, SourceLines(job.items[..f1 + 1])) && Steady(job, p, o) && OnLine(bs, f1)
    ensures NextLines(bs) == NextLines(begins) + LinesAfterFirst(f1, |Split(job.items[f1].text)|)
  {
    hide Laid, Steady, SourceLines, NextLines, RunLeaves, ReasonOk, OnLine;
    var item := job.items[f1];
    var minLineHeight := job.m.height(item.font);
    p, o, bs, ps := pen, output, begins, pieces;
    p, o := Raise(job, f1, pen, output, begins, pieces, SourceLines(job.items[..f1]));
    var lines := SplitLines(item.text);
    var firstLine := true;
    if item.nobr && (f1 == 0 || !job.items[f1 - 1].nobr) && |lines| == 1 {
      var leaves := LeavesLine(job.m, job.items, f1, p);
      firstLine := !leaves;
    }
    ghost var before := SourceLines(job.items[..f1]);
    assert before + ItemLines(item, lines)[..0] == before;
    for i := 0 to |lines|
      invariant Laid(job, f1 + 1, p, o, bs, ps, before + ItemLines(item, lines)[..i]) && Steady(job, p, o) && OnLine(bs, f1)
      invariant NextLines(bs) == NextLines(begins) + LinesAfterFirst(f1, i)
      invariant i == 0 && !firstLine ==> BeginsRun(job.items, f1) && RunLeaves(job.m, job.items, f1, p)
      invariant i > 0 ==> !firstLine
    {
      ghost var known := before + ItemLines(item, lines)[..i];
      if !firstLine {
        ghost var why := if i == 0 then UnbrokenRun(f1) else NextLine(f1, i);
        ReasonFor(job, p, o, bs, ps, known, f1, i);
        p, o, bs := StartLine(job, f1, p, o, minLineHeight, bs, ps, known, why);
      }
      firstLine := false;
      ghost var ss;
      p, o, bs, ss := LayoutLine(job, f1, lines[i], minLineHeight, p, o, bs, ps, known);
      ps := ps + [ss];
      assert before + ItemLines(item, lines)[..i + 1] == known + [SourceLine(item, lines[i])];
    }
    assert ItemLines(item, lines)[..|lines|] == ItemLines(item, lines);
    LinesOfOneMore(job.items, f1);
  }

  lemma ReasonFor(job: Job, pen: Pen, output: seq<LineOfText>, begins: seq<Begin>, pieces: seq<seq<Source>>,
                  lines: seq<SourceLine>, f1: nat, i: nat)
    requires Laid(job, f1 + 1, pen, output, begins, pieces, lines) && f1 < |job.items| && i < |Split(job.items[f1].text)|
    requires |lines| == |SourceLines(job.items[..f1])| + i
    requires i == 0 ==> BeginsRun(job.items, f1) && RunLeaves(job.m, job.items, f1, pen)
    ensures var why := if i == 0 then UnbrokenRun(f1) else NextLine(f1, i);
      ReasonOk(job, Begin(why, f1, |Flat(pieces)|, pen, pen), LineOfText(job.items[f1].align, []), pieces, Flat(pieces))
  {
    hide *;
    PiecesSoFar(job, f1 + 1, pen, output, begins, pieces, lines);
    ReasonIs(job, pen, LineOfText(job.items[f1].align, []), pieces, f1, i);
  }

  lemma ReasonIs(job: Job, pen: Pen, line: LineOfText, pieces: seq<seq<Source>>, f1: nat, i: nat)
    requires f1 < |job.items| && i < |Split(job.items[f1].text)|
    requires ComesAt(|Flat(pieces)|, pieces, |SourceLines(job.items[..f1])| + i)
    requires i == 0 ==> BeginsRun(job.items, f1) && RunLeaves(job.m, job.items, f1, pen)
    ensures var why := if i == 0 then UnbrokenRun(f1) else NextLine(f1, i);
      ReasonOk(job, Begin(why, f1, |Flat(pieces)|, pen, pen), line, pieces, Flat(pieces))
  {
    hide SourceLines, Split, RunLeaves, Flat, ComesAt, BeginsRun, Wraps, FirstEnd, WordEnd;
  }

  lemma PiecesSoFar(job: Job, e: nat, pen: Pen, output: seq<LineOfText>, begins: seq<Begin>, pieces: seq<seq<Source>>,
                    lines: seq<SourceLine>)
    requires Laid(job, e, pen, output, begins, pieces, lines)
    ensures ComesAt(|Flat(pieces)|, pieces, |lines|)
  {
    hide Begun, OutputOk, AtEnd, PenEnds, AllPlaced, Flat;
    assert pieces[..|pieces|] == pieces;
  }

  lemma LinesOfOneMore(items: seq<Item>, f1: nat)
    requires f1 < |items|
    ensures SourceLines(items[..f1 + 1]) == SourceLines(items[..f1]) + ItemLines(items[f1], Split(items[f1].text))
  {
    assert items[..f1 + 1][..f1] == items[..f1];
  }

  /** The line becomes as high as the font, and takes the alignment of the item if nothing is on it yet. */
  method Raise(job: Job, f1: nat, pen: Pen, output: seq<LineOfText>, ghost begins: seq<Begin>,
               ghost pieces: seq<seq<Source>>, ghost lines: seq<SourceLine>)
    returns (p: Pen, o: seq<LineOfText>)
    requires f1 < |job.items| && Laid(job, f1, pen, output, begins, pieces, lines) && Steady(job, pen, output)
    ensures Laid(job, f1 + 1, p, o, begins, pieces, lines) && Steady(job, p, o)
    ensures var height := job.m.height(job.items[f1].font);
      p == pen.(lineHeight := if height > pen.lineHeight then height else pen.lineHeight)
  {
    hide AllTile, AllPlaced, OutputOk, All, Begun;
    p, o := pen, output;
    var item := job.items[f1];
    if job.m.height(item.font) > p.lineHeight {
      p := p.(lineHeight := job.m.height(item.font));
    }
    var n := |o| - 1;
    if o[n].fragments == [] {
      Aligned(o[..n], o[n], item.align);
      LastIsAt(job, o, begins, pieces, Flat(pieces));
      BegunLast(job, o, begins, pieces, Flat(pieces), o[n].(align := item.align), Flat(pieces));
      assert o == o[..n] + [o[n]];
      o := o[..n] + [o[n].(align := item.align)];
    }
  }

  lemma LastIsAt(job: Job, output: seq<LineOfText>, begins: seq<Begin>, pieces: seq<seq<Source>>, ss: seq<Source>)
    requires Begun(job, output, begins, pieces, ss) && output != []
    ensures |begins| == |output| && LineAt(output[|output| - 1], begins[|begins| - 1], ss)
  {
    LineIsAt(job, output, begins, pieces, ss, |output| - 1, ss);
  }

  lemma Aligned(output: seq<LineOfText>, last: LineOfText, align: nat)
    ensures var before, after := output + [last], output + [last.(align := align)];
      All(after) == All(before) && (OutputOk(before) ==> OutputOk(after))
  {
    hide LineOk;
    AllOfLast(output, last, last.(align := align));
    var before, after := output + [last], output + [last.(align := align)];
    if OutputOk(before) {
      forall i | 0 <= i < |after|
        ensures LineOk(after[i].fragments)
      {
        assert LineOk(before[i].fragments) && after[i].fragments == before[i].fragments;
      }
    }
  }

  method StartLine(job: Job, f1: nat, pen: Pen, output: seq<LineOfText>, minLineHeight: real, ghost begins: seq<Begin>,
                   ghost pieces: seq<seq<Source>>, ghost lines: seq<SourceLine>, ghost why: Reason)
    returns (p: Pen, o: seq<LineOfText>, ghost bs: seq<Begin>)
    requires f1 < |job.items| && minLineHeight == job.m.height(job.items[f1].font) && !why.WordTooLong? && !why.First?
    requires Laid(job, f1 + 1, pen, output, begins, pieces, lines) && Steady(job, pen, output)
    requires ReasonOk(job, Begin(why, f1, |Flat(pieces)|, pen, pen), LineOfText(job.items[f1].align, []), pieces, Flat(pieces))
    ensures Laid(job, f1 + 1, p, o, bs, pieces, lines) && Steady(job, p, o) && OnLine(bs, f1)
    ensures NextLines(bs) == NextLines(begins) + (if why.NextLine? then [Place(why.f, why.i)] else [])
  {
    hide AllTile, OutputOk, All, Begun, Flat, Placed, ComesAt;
    var align := job.items[f1].align;
    p, o := NewLine(pen, output, job.c, minLineHeight, align);
    ghost var b := Begin(why, f1, |Flat(pieces)|, pen, p);
    BegunMore(job, pen, output, begins, pieces, Flat(pieces), LineOfText(align, []), b, Flat(pieces));
    bs := begins + [b];
    assert bs[..|begins|] == begins;
  }

  /** Without the last line, if nothing is on it. */
  function Trimmed(made: seq<LineOfText>): seq<LineOfText> {
    if made != [] && made[|made| - 1].fragments == [] then made[..|made| - 1] else made
  }

  /**
   * Lays out all items. Every line of every item is put in fragments that make up the line, each placed as it
   * should be; lines of output are filled from left to right. They begin just at the lines of the items but the
   * first of each, with a run of unbroken items that leaves the line, or with a word that does not fit.
   */
  method LayoutText(job: Job)
    returns (output: seq<LineOfText>, ghost made: seq<LineOfText>, ghost begins: seq<Begin>, ghost pieces: seq<seq<Source>>)
    ensures output == Trimmed(made) && OutputOk(output)
    ensures AllTile(pieces, SourceLines(job.items))
    ensures AllPlaced(job.m, All(output), Flat(pieces))
    ensures made != [] && Begun(job, made, begins, pieces, Flat(pieces))
    ensures NextLines(begins) == AllAfterFirst(job.items)
    ensures job.c.widthDelta == 0.0 ==> RoomIs(All(output), job.width)
  {
    hide SourceLines, AllTile, AllPlaced, Begun, OutputOk, All, LinesAfterFirst;
    var pen := Pen(0.0, 0.0, job.width, 0.0);
    output, begins, pieces := [LineOfText(0, [])], [Begin(First, 0, 0, pen, pen)], [];
    NothingLaid(job);
    for f1 := 0 to |job.items|
      invariant Laid(job, f1, pen, output, begins, pieces, SourceLines(job.items[..f1])) && Steady(job, pen, output)
      invariant OnLine(begins, f1)
      invariant NextLines(begins) == AllAfterFirst(job.items[..f1])
    {
      hide Laid, Steady, NextLines;
      pen, output, begins, pieces := LayoutItem(job, f1, pen, output, begins, pieces);
      assert job.items[..f1 + 1][..f1] == job.items[..f1];
    }
    assert job.items[..|job.items|] == job.items;
    made := output;
    TrimmedIsOk(made);
    var n := |output| - 1;
    if output[n].fragments == [] {
      output := output[..n];
    }
  }

  lemma TrimmedIsOk(made: seq<LineOfText>)
    requires OutputOk(made) && made != []
    ensures OutputOk(Trimmed(made)) && All(Trimmed(made)) == All(made)
  {
  }

  lemma NothingLaid(job: Job)
    ensures var pen := Pen(0.0, 0.0, job.width, 0.0);
      var empty, begins := [LineOfText(0, [])], [Begin(First, 0, 0, pen, pen)];
      && Laid(job, 0, pen, empty, begins, [], SourceLines(job.items[..0])) && Steady(job, pen, empty)
      && NextLines(begins) == []
  {
    NoFragments();
    var pen := Pen(0.0, 0.0, job.width, 0.0);
    assert [Begin(First, 0, 0, pen, pen)][..0] == [];
  }

  // ---- What follows ----

  function Texts(fs: seq<Fragment>): string {
    if fs == [] then "" else Texts(fs[..|fs| - 1]) + fs[|fs| - 1].text
  }

  /** The fragments of a line, put together, are the line. */
  lemma {:induction false} TilesAreTheLine(m: Measure, fs: seq<Fragment>, ss: seq<Source>, item: Item, line: string, to: nat)
    requires Tiles(ss, item, line, 0, to) && AllPlaced(m, fs, ss) && to <= |line|
    ensures Texts(fs) == line[..to]
    decreases |fs|
  {
    hide AllPlaced;
    AsLong(m, fs, ss);
    if ss != [] {
      var n := |ss| - 1;
      StretchAt(m, fs, ss, n);
      PlacedBefore(m, fs, ss, n);
      TilesBefore(ss, item, line, to);
      hide Tiles;
      TilesAreTheLine(m, fs[..n], ss[..n], item, line, ss[n].from);
      assert line[..to] == line[..ss[n].from] + line[ss[n].from..to];
    }
  }

  // ---- No text is lost ----

  lemma TextsOfMore(fs: seq<Fragment>, f: Fragment)
    ensures Texts(fs + [f]) == Texts(fs) + f.text
  {
    assert (fs + [f])[..|fs|] == fs;
  }

  lemma {:induction false} TextsConcat(a: seq<Fragment>, b: seq<Fragment>)
    ensures Texts(a + b) == Texts(a) + Texts(b)
    decreases |b|
  {
    hide *;
    if b == [] {
      NoTexts();
      assert a + b == a && Texts(a) + "" == Texts(a);
    } else {
      var n, last := |b| - 1, b[|b| - 1];
      TextsConcat(a, b[..n]);
      TextsOfMore(a + b[..n], last);
      TextsOfMore(b[..n], last);
      LastApart(a, b);
      LastApartOf(Texts(a), Texts(b[..n]), last.text);
    }
  }

  lemma NoTexts()
    ensures Texts([]) == ""
  {
  }

  lemma LastApart<T>(a: seq<T>, b: seq<T>)
    requires b != []
    ensures var n := |b| - 1; b[..n] + [b[n]] == b && a + b[..n] + [b[n]] == a + b
  {
  }

  lemma LastApartOf<T>(a: seq<T>, b: seq<T>, c: seq<T>)
    ensures a + b + c == a + (b + c)
  {
  }

  function Concat(lines: seq<string>): string {
    if lines == [] then "" else Concat(lines[..|lines| - 1]) + lines[|lines| - 1]
  }

  lemma ConcatOfMore(lines: seq<string>, line: string)
    ensures Concat(lines + [line]) == Concat(lines) + line
  {
    assert (lines + [line])[..|lines|] == lines;
  }

  lemma {:induction false} ConcatAppend(a: seq<string>, b: seq<string>)
    ensures Concat(a + b) == Concat(a) + Concat(b)
    decreases |b|
  {
    hide *;
    if b == [] {
      NoLines();
      assert a + b == a && Concat(a) + "" == Concat(a);
    } else {
      var n, last := |b| - 1, b[|b| - 1];
      ConcatAppend(a, b[..n]);
      ConcatOfMore(a + b[..n], last);
      ConcatOfMore(b[..n], last);
      LastApart(a, b);
      LastApartOf(Concat(a), Concat(b[..n]), last);
    }
  }

  lemma NoLines()
    ensures Concat([]) == ""
  {
  }

  lemma ConcatOne(line: string)
    ensures Concat([line]) == line
  {
    assert [line][..0] == [];
  }

  function WithoutBreaks(text: string): string {
    if text == [] then "" else (if text[0] == '\n' then "" else [text[0]]) + WithoutBreaks(text[1..])
  }

  lemma {:induction false} SplitKeepsText(text: string)
    ensures Concat(Split(text)) == WithoutBreaks(text)
    decreases |text|
  {
    if text == [] {
      ConcatOne("");
    } else {
      SplitKeepsText(text[1..]);
      ConcatPreceded(text[0], Split(text[1..]));
    }
  }

  lemma ConcatPreceded(c: char, lines: seq<string>)
    requires lines != []
    ensures Concat(Preceded(c, lines)) == (if c == '\n' then "" else [c]) + Concat(lines)
  {
    var first := if c == '\n' then "" else [c] + lines[0];
    var rest := if c == '\n' then lines else lines[1..];
    assert Preceded(c, lines) == [first] + rest && lines == [lines[0]] + lines[1..];
    hide Concat, Preceded;
    ConcatAppend([first], rest);
    ConcatOne(first);
    if c == '\n' {
      assert "" + Concat(lines) == Concat(lines);
    } else {
      ConcatAppend([lines[0]], lines[1..]);
      ConcatOne(lines[0]);
      assert [c] + lines[0] + Concat(lines[1..]) == [c] + (lines[0] + Concat(lines[1..]));
    }
  }

  function LineTexts(lines: seq<SourceLine>): (r: seq<string>)
    ensures |r| == |lines| && forall i | 0 <= i < |r| :: r[i] == lines[i].line
  {
    seq(|lines|, i requires 0 <= i < |lines| => lines[i].line)
  }

  /** The text of all items without their line breaks. */
  function AllText(items: seq<Item>): string {
    if items == [] then "" else AllText(items[..|items| - 1]) + WithoutBreaks(items[|items| - 1].text)
  }

  lemma {:induction false} LinesKeepText(items: seq<Item>)
    ensures Concat(LineTexts(SourceLines(items))) == AllText(items)
    decreases |items|
  {
    hide Concat, Split, WithoutBreaks;
    if items == [] {
      NothingConcat();
    } else {
      var n := |items| - 1;
      var item := items[n];
      LinesKeepText(items[..n]);
      SplitKeepsText(item.text);
      LineTextsAppend(SourceLines(items[..n]), item, Split(item.text));
      ConcatAppend(LineTexts(SourceLines(items[..n])), Split(item.text));
    }
  }

  lemma NothingConcat()
    ensures Concat(LineTexts([])) == ""
  {
  }

  lemma LineTextsAppend(before: seq<SourceLine>, item: Item, lines: seq<string>)
    ensures LineTexts(before + ItemLines(item, lines)) == LineTexts(before) + lines
  {
  }

  lemma {:induction false} PiecesKeepText(m: Measure, pieces: seq<seq<Source>>, lines: seq<SourceLine>, fs: seq<Fragment>)
    requires AllTile(pieces, lines) && AllPlaced(m, fs, Flat(pieces))
    ensures Texts(fs) == Concat(LineTexts(lines))
    decreases |pieces|
  {
    hide Placed, Tiles;
    if pieces == [] {
      assert LineTexts(lines) == [];
    } else {
      var n := |pieces| - 1;
      var k, line := |Flat(pieces[..n])|, lines[n].line;
      assert Flat(pieces) == Flat(pieces[..n]) + pieces[n];
      assert AllPlaced(m, fs[..k], Flat(pieces[..n])) && AllPlaced(m, fs[k..], pieces[n]);
      PiecesKeepText(m, pieces[..n], lines[..n], fs[..k]);
      assert Tiles(pieces[n], lines[n].item, line, 0, |line|);
      TilesAreTheLine(m, fs[k..], pieces[n], lines[n].item, line, |line|);
      TextsConcat(fs[..k], fs[k..]);
      assert fs == fs[..k] + fs[k..] && line[..|line|] == line;
      assert LineTexts(lines)[..n] == LineTexts(lines[..n]);
    }
  }

  /** Put together, the fragments of a layout are the text of the items without its line breaks. */
  lemma NoTextIsLost(job: Job, output: seq<LineOfText>, pieces: seq<seq<Source>>)
    requires AllTile(pieces, SourceLines(job.items)) && AllPlaced(job.m, All(output), Flat(pieces))
    ensures Texts(All(output)) == AllText(job.items)
  {
    PiecesKeepText(job.m, pieces, SourceLines(job.items), All(output));
    LinesKeepText(job.items);
  }

  lemma TilesBefore(ss: seq<Source>, item: Item, line: string, b: nat)
    requires Tiles(ss, item, line, 0, b) && ss != []
    ensures var last := ss[|ss| - 1];
      last.line == line && last.to == b && Tiles(ss[..|ss| - 1], item, line, 0, last.from)
  {
  }

  /** An unbroken line is one fragment. */
  lemma UnbrokenIsOne(m: Measure, fs: seq<Fragment>, ss: seq<Source>, item: Item, line: string)
    requires Tiles(ss, item, line, 0, |line|) && AllPlaced(m, fs, ss) && item.nobr && line != ""
    ensures |fs| == 1 && fs[0].text == line && (fs[0].x == 0.0 || fs[0].x + fs[0].advance <= fs[0].room)
  {
    hide AllPlaced;
    AsLong(m, fs, ss);
    PlacedAt(m, fs, ss, 0);
    if |fs| > 1 {
      PlacedAt(m, fs, ss, 1);
    }
  }

  lemma AsLong(m: Measure, fs: seq<Fragment>, ss: seq<Source>)
    requires AllPlaced(m, fs, ss)
    ensures |fs| == |ss|
  {
  }

  lemma StretchAt(m: Measure, fs: seq<Fragment>, ss: seq<Source>, i: nat)
    requires AllPlaced(m, fs, ss) && i < |fs|
    ensures |fs| == |ss| && IsStretch(fs[i], ss[i])
  {
    hide Breakable, Whole;
  }

  lemma PlacedBefore(m: Measure, fs: seq<Fragment>, ss: seq<Source>, i: nat)
    requires AllPlaced(m, fs, ss) && i <= |fs| && i <= |ss|
    ensures AllPlaced(m, fs[..i], ss[..i])
  {
    hide Placed;
  }

  /** The pen never moves back where no measure is negative. */
  lemma AdvanceNotNegative(m: Measure, f: Fragment, s: Source)
    requires NoNegative(m) && Placed(m, f, s)
    ensures f.advance >= 0.0
  {
  }

  lemma PlacedAt(m: Measure, fs: seq<Fragment>, ss: seq<Source>, i: nat)
    requires AllPlaced(m, fs, ss) && i < |fs|
    ensures Placed(m, fs[i], ss[i])
  {
  }

  ghost predicate NoNegative(m: Measure) {
    forall font, text :: m.advance(font, text) >= 0.0
  }

  /** Where a line of output ends. */
  function Used(fs: seq<Fragment>): real
    requires fs != []
  {
    fs[|fs| - 1].x + fs[|fs| - 1].advance
  }

  /**
   * A line of output goes beyond its width only if it holds one fragment, which is a single character or the
   * line of an unbroken item.
   */
  lemma LinesFit(m: Measure, fs: seq<Fragment>, ss: seq<Source>)
    requires NoNegative(m) && LineOk(fs) && AllPlaced(m, fs, ss) && fs != []
    requires Used(fs) > fs[0].room
    ensures |fs| == 1 && (|fs[0].text| == 1 || ss[0].item.nobr)
  {
    assert Placed(m, fs[0], ss[0]);
    if |fs| > 1 {
      var last := |fs| - 1;
      SameRoom(fs, last);
      NextStarts(fs, last);
    }
  }

  lemma {:induction false} SameRoom(fs: seq<Fragment>, k: nat)
    requires LineOk(fs) && k < |fs|
    ensures fs[k].room == fs[0].room && fs[k].y == fs[0].y
  {
    if k > 0 {
      SameRoom(fs, k - 1);
    }
  }

  /** Fragments on one line do not overlap. */
  lemma {:induction false} LeftToRight(m: Measure, fs: seq<Fragment>, ss: seq<Source>, i: nat, j: nat)
    requires NoNegative(m) && LineOk(fs) && AllPlaced(m, fs, ss) && i < j < |fs|
    ensures fs[i].x + fs[i].advance <= fs[j].x
    decreases j - i
  {
    hide LineOk;
    PlacedAt(m, fs, ss, j - 1);
    AdvanceNotNegative(m, fs[j - 1], ss[j - 1]);
    hide Placed, AllPlaced;
    NextStarts(fs, j);
    if i < j - 1 {
      LeftToRight(m, fs, ss, i, j - 1);
    }
  }

  lemma NextStarts(fs: seq<Fragment>, j: nat)
    requires LineOk(fs) && 0 < j < |fs|
    ensures Follows(fs[j - 1], fs[j])
  {
  }

  /**
   * A line is left empty in the middle of a line of text, or in front of a run of unbroken items, only if what
   * comes next is wider than the line.
   */
  lemma EmptyLines(job: Job, output: seq<LineOfText>, begins: seq<Begin>, pieces: seq<seq<Source>>, ss: seq<Source>, i: nat)
    requires Begun(job, output, begins, pieces, ss) && i + 1 < |output| && output[i].fragments == []
    ensures var b, width := begins[i + 1], begins[i].start.width;
      match b.why
      case First => false
      case NextLine(f, j) => 0 < j
      case UnbrokenRun(f) => f < |job.items| && RunAdvance(job.m, job.items, f, RunEnd(job.items, f)) as real > width
      case WordTooLong =>
        && b.at < |ss| && ss[b.at].from < |ss[b.at].line|
        && job.m.advance(ss[b.at].item.font,
             ss[b.at].line[ss[b.at].from..FirstEnd(ss[b.at].item, ss[b.at].line, ss[b.at].from)]) > width
  {
    assert BeginOk(job, output, begins, pieces, ss, i + 1);
  }

  /** The places for which lines of output begin are the lines of the items but the first of each. */
  lemma {:induction false} AfterFirstAre(items: seq<Item>, p: Place)
    ensures p in AllAfterFirst(items) <==> p.item < |items| && 0 < p.line < |Split(items[p.item].text)|
    decreases |items|
  {
    if items != [] {
      var f := |items| - 1;
      AfterFirstAre(items[..f], p);
      LinesOfOneItem(f, |Split(items[f].text)|, p);
    }
  }

  lemma {:induction false} LinesOfOneItem(f: nat, n: nat, p: Place)
    ensures p in LinesAfterFirst(f, n) <==> p.item == f && 0 < p.line < n
    decreases n
  {
    if n > 1 {
      LinesOfOneItem(f, n - 1, p);
    }
  }

  /**
   * Each line stands below the one before by the height of the highest font of the items that this has been made for,
   * times the scale, and is wider by as much times the change of width; all fragments of a line are at its height.
   */
  lemma LinesStepDown(job: Job, output: seq<LineOfText>, begins: seq<Begin>, pieces: seq<seq<Source>>, ss: seq<Source>, i: nat)
    returns (height: real)
    requires Begun(job, output, begins, pieces, ss) && i + 1 < |output|
    ensures IsGreatest(job, begins[i].item, begins[i + 1].item + 1, height, i == 0) && LineHigh(job.m, output[i], height)
    ensures var a, b := begins[i].start, begins[i + 1].start;
      && b.x == 0.0 && b.y == a.y + height * job.c.scaleLineHeights
      && b.width == a.width + job.c.widthDelta * height * job.c.scaleLineHeights
      && (forall f | f in output[i].fragments :: f.y == a.y && f.room == a.width)
      && (forall g | g in output[i + 1].fragments :: g.y == b.y && g.room == b.width)
  {
    hide IsGreatest, LineHigh, ReasonOk, All;
    assert BeginOk(job, output, begins, pieces, ss, i) && BeginOk(job, output, begins, pieces, ss, i + 1);
    height := begins[i + 1].end.lineHeight;
  }

  ghost predicate NoNegativeHeight(job: Job) {
    0.0 <= job.c.scaleLineHeights && forall k | 0 <= k < |job.items| :: 0.0 <= job.m.height(job.items[k].font)
  }

  lemma TimesMonotone(a: real, b: real, k: real)
    requires a <= b && 0.0 <= k
    ensures a * k <= b * k
  {
  }

  lemma BelowByMore(y: real, z: real, a: real, b: real, k: real)
    requires a <= b && 0.0 <= k && z >= y + b * k
    ensures z >= y + a * k
  {
    TimesMonotone(a, b, k);
  }

  /** No line begins above an earlier one. */
  lemma {:induction false} LinesNeverRise(job: Job, output: seq<LineOfText>, begins: seq<Begin>, pieces: seq<seq<Source>>,
                                          ss: seq<Source>, i: nat, j: nat)
    requires Begun(job, output, begins, pieces, ss) && i <= j < |output| && NoNegativeHeight(job)
    ensures begins[i].start.y <= begins[j].start.y
    decreases j
  {
    if i < j {
      LinesNeverRise(job, output, begins, pieces, ss, i, j - 1);
      var height := LinesStepDown(job, output, begins, pieces, ss, j - 1);
      TimesMonotone(0.0, height, job.c.scaleLineHeights);
    }
  }

  /** A fragment on a later line is below one on an earlier line by at least the height of the font of that. */
  lemma LaterLinesAreBelow(job: Job, output: seq<LineOfText>, begins: seq<Begin>, pieces: seq<seq<Source>>, ss: seq<Source>,
                           i: nat, j: nat, f: Fragment, g: Fragment)
    requires Begun(job, output, begins, pieces, ss) && i < j < |output| && NoNegativeHeight(job)
    requires f in output[i].fragments && g in output[j].fragments
    ensures g.y >= f.y + job.m.height(f.font) * job.c.scaleLineHeights
  {
    var height := LinesStepDown(job, output, begins, pieces, ss, i);
    LinesNeverRise(job, output, begins, pieces, ss, i + 1, j);
    LineIsAt(job, output, begins, pieces, ss, j, ss);
    assert job.m.height(f.font) <= height && g.y == begins[j].start.y && f.y == begins[i].start.y;
    hide *;
    BelowByMore(f.y, g.y, job.m.height(f.font), height, job.c.scaleLineHeights);
  }

  lemma {:induction false} LineIsAmongAll(output: seq<LineOfText>, i: nat) returns (k: nat)
    requires i < |output|
    ensures k + |output[i].fragments| <= |All(output)|
    ensures All(output)[k..k + |output[i].fragments|] == output[i].fragments
    decreases |output|
  {
    var n, fs := |output| - 1, output[i].fragments;
    if i == n {
      k := |All(output[..n])|;
    } else {
      k := LineIsAmongAll(output[..n], i);
      assert All(output)[k..k + |fs|] == All(output[..n])[k..k + |fs|];
    }
  }

  /** In a layout of items that may be broken, a line that is too long is a single character. */
  lemma OverlongLinesAreSingleCharacters(m: Measure, output: seq<LineOfText>, pieces: seq<seq<Source>>, i: nat)
    requires NoNegative(m) && OutputOk(output) && AllPlaced(m, All(output), Flat(pieces))
    requires forall k | 0 <= k < |Flat(pieces)| :: !Flat(pieces)[k].item.nobr
    requires i < |output| && output[i].fragments != []
    ensures var fs := output[i].fragments; Used(fs) <= fs[0].room || (|fs| == 1 && |fs[0].text| == 1 && fs[0].x == 0.0)
  {
    hide All, Flat, Placed;
    var k := LineIsAmongAll(output, i);
    var fs := output[i].fragments;
    var ss := Flat(pieces)[k..k + |fs|];
    assert forall j | 0 <= j < |fs| :: fs[j] == All(output)[k + j] && ss[j] == Flat(pieces)[k + j];
    if Used(fs) > fs[0].room {
      LinesFit(m, fs, ss);
    }
  }

  /**
   * Where not even a part of what is left fits on an empty line, one character is put, and the pen moves on by
   * the whole word it begins.
   */
  lemma NothingFits(m: Measure, f: Fragment, s: Source)
    requires Placed(m, f, s) && !s.item.nobr
    requires forall b | s.from < b <= |s.line| :: f.x + Advance(m, s, b) > f.room
    ensures f.text == [s.line[s.from]] && f.x == 0.0 && f.advance == Advance(m, s, WordEnd(s.line, s.from))
  {
    assert f.x + Advance(m, s, s.to) > f.room;
  }

  /** A word of two characters on lines with room for less than one: the pen moves by two, not by one. */
  method CutWord() returns (output: seq<LineOfText>, p: Pen)
    ensures |All(output)| == 1 && All(output)[0].text == "a" && All(output)[0].advance == 2.0 && p.x == 2.0
  {
    hide LineOk, WordEnd;
    var m := Measure((_, text: string) => |text| as real, _ => 1.0);
    var item := Item("ab", 0, false, 0);
    var pen, empty := Pen(0.0, 0.0, 0.5, 1.0), [LineOfText(0, [])];
    NoFragments();
    WholeWord();
    var b;
    ghost var f;
    b, p, output, f := PlaceFragment(m, item, "ab", 0, Settings(0.0, 1.0), 1.0, pen, empty);
    NothingFits(m, f, Source(item, "ab", 0, b));
  }

  lemma NoFragments()
    ensures var empty := [LineOfText(0, [])]; OutputOk(empty) && All(empty) == []
  {
    assert [LineOfText(0, [])][..0] == [];
  }

  lemma WholeWord()
    ensures WordEnd("ab", 0) == 2
  {
    assert WordEnd("ab", 1) == WordEnd("ab", 2);
  }
}
