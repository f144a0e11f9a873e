/**
  `generate_chapter_xml`: the MKVToolNix chapter document, written line by
  line into a text file: a fixed header, one `ChapterAtom` block per
  timestamp, a fixed footer.
 */
module ChapterXml {
  import opened Decimal
  import opened TimeFormat

  /** The file name the source writes when no other is given. */
  const DefaultXmlFile := "chapters.xml"

  /** Text that holds no line break. */
  predicate Plain(s: string) {
    '\n' !in s
  }

  /** A line as `f.write` is given it: plain text followed by its line break. */
  predicate IsLine(l: string) {
    |l| >= 1 && l[|l| - 1] == '\n' && Plain(l[..|l| - 1])
  }

  const Header: seq<string> := ["<?xml version=\"1.0\"?>\n", "<Chapters>\n", "  <EditionEntry>\n"]
  const Footer: seq<string> := ["  </EditionEntry>\n", "</Chapters>\n"]

  const AtomOpen := "    <ChapterAtom>\n"
  const DisplayOpen := "      <ChapterDisplay>\n"
  const LanguageLine := "        <ChapterLanguage>eng</ChapterLanguage>\n"
  const DisplayClose := "      </ChapterDisplay>\n"
  const AtomClose := "    </ChapterAtom>\n"

  /** The start-time line, given the time as `format_time` printed it. */
  function TimeStartLine(stamp: string): string {
    "      <ChapterTimeStart>" + stamp + "</ChapterTimeStart>\n"
  }

  function TitleLine(number: nat): string {
    "        <ChapterString>Chapter " + Digits(number) + "</ChapterString>\n"
  }

  /** The seven lines of the block for chapter `number`, starting at the printed time `stamp`. */
  function AtomLines(number: nat, stamp: string): seq<string> {
    [AtomOpen, TimeStartLine(stamp), DisplayOpen, TitleLine(number), LanguageLine, DisplayClose, AtomClose]
  }

  /** The blocks, in order, numbered from 1: `enumerate` counts from 0 and the title says `i+1`. */
  function Atoms(stamps: seq<string>): seq<string>
    decreases |stamps|
  {
    if stamps == [] then [] else Atoms(stamps[..|stamps| - 1]) + AtomLines(|stamps|, stamps[|stamps| - 1])
  }

  /** Each timestamp as `format_time` prints it. */
  function Stamps(ts: seq<real>): seq<string> {
    seq(|ts|, i requires 0 <= i < |ts| => FormatTime(ts[i]))
  }

  /** Every line the source writes, in the order it writes them. */
  function DocumentLines(ts: seq<real>): seq<string> {
    Header + Atoms(Stamps(ts)) + Footer
  }

  /** What a file holds after the given writes. */
  function Concat(lines: seq<string>): string
    decreases |lines|
  {
    if lines == [] then "" else Concat(lines[..|lines| - 1]) + lines[|lines| - 1]
  }

  /** The open output file: what has been written so far, and (for the proofs) the writes that made it. */
  class TextFile {
    var contents: string
    ghost var writes: seq<string>

    ghost predicate Valid()
      reads this
    {
      contents == Concat(writes)
    }

    /** `open(name, 'w')` empties the file. */
    constructor ()
      ensures Valid() && writes == [] && contents == ""
    {
      contents := "";
      writes := [];
    }

    method Write(s: string)
      requires Valid()
      modifies this
      ensures Valid()
      ensures writes == old(writes) + [s] && contents == old(contents) + s
    {
      assert (writes + [s])[..|writes|] == writes;
      contents := contents + s;
      writes := writes + [s];
    }
  }

  /**
    generate_chapter_xml: writes the document into a fresh file, named
    `chapters.xml` unless another name is given, and returns the file's
    name, with what the file then holds.
   */
  method GenerateChapterXml(timestamps: seq<real>, xmlFile: string := DefaultXmlFile) returns (path: string, contents: string)
    ensures path == xmlFile
    ensures contents == Concat(DocumentLines(timestamps))
  {
    var f := new TextFile();
    f.Write("<?xml version=\"1.0\"?>\n");
    f.Write("<Chapters>\n");
    f.Write("  <EditionEntry>\n");
    ghost var stamps := Stamps(timestamps);
    assert f.writes == Header + Atoms(stamps[..0]) by {
      Appended3([], Header[0], Header[1], Header[2]);
    }

    for i := 0 to |timestamps|
      invariant f.Valid()
      invariant f.writes == Header + Atoms(stamps[..i])
    {
      var timestamp := timestamps[i];
      assert stamps[i] == FormatTime(timestamp);
      WriteAtom(f, i + 1, FormatTime(timestamp));
      AtomsSnoc(stamps, i);
      Associative(Header, Atoms(stamps[..i]), AtomLines(i + 1, stamps[i]));
    }

    f.Write("  </EditionEntry>\n");
    f.Write("</Chapters>\n");
    assert stamps[..|stamps|] == stamps;
    Appended2(Header + Atoms(stamps), Footer[0], Footer[1]);
    path, contents := xmlFile, f.contents;
  }

  lemma Appended2<T>(w: seq<T>, a0: T, a1: T)
    ensures w + [a0] + [a1] == w + [a0, a1]
  {
  }

  lemma Appended3<T>(w: seq<T>, a0: T, a1: T, a2: T)
    ensures w + [a0] + [a1] + [a2] == w + [a0, a1, a2]
  {
  }

  lemma Appended7<T>(w: seq<T>, a0: T, a1: T, a2: T, a3: T, a4: T, a5: T, a6: T)
    ensures w + [a0] + [a1] + [a2] + [a3] + [a4] + [a5] + [a6] == w + [a0, a1, a2, a3, a4, a5, a6]
  {
  }

  lemma Associative<T>(a: seq<T>, b: seq<T>, c: seq<T>)
    ensures a + b + c == a + (b + c)
  {
  }

  /** One more timestamp adds its block after the others. */
  lemma AtomsSnoc(ts: seq<string>, i: nat)
    requires i < |ts|
    ensures Atoms(ts[..i + 1]) == Atoms(ts[..i]) + AtomLines(i + 1, ts[i])
  {
    assert ts[..i + 1][..i] == ts[..i];
  }

  /** The body of the loop: the seven writes of one chapter's block. */
  method WriteAtom(f: TextFile, number: nat, stamp: string)
    requires f.Valid()
    modifies f
    ensures f.Valid() && f.writes == old(f.writes) + AtomLines(number, stamp)
  {
    ghost var before := f.writes;
    f.Write(AtomOpen);
    f.Write(TimeStartLine(stamp));
    f.Write(DisplayOpen);
    f.Write(TitleLine(number));
    f.Write(LanguageLine);
    f.Write(DisplayClose);
    f.Write(AtomClose);
    Appended7(before, AtomOpen, TimeStartLine(stamp), DisplayOpen, TitleLine(number), LanguageLine, DisplayClose, AtomClose);
  }

  // ---------------------------------------------------------------------
  // The shape of the document.

  lemma {:induction false} AtomsLength(ts: seq<string>)
    ensures |Atoms(ts)| == 7 * |ts|
    decreases |ts|
  {
    if ts != [] {
      AtomsLength(ts[..|ts| - 1]);
    }
  }

  lemma SliceLeft<T>(a: seq<T>, b: seq<T>, lo: nat, hi: nat)
    requires lo <= hi <= |a|
    ensures (a + b)[lo..hi] == a[lo..hi]
  {
  }

  lemma SliceRight<T>(a: seq<T>, b: seq<T>)
    ensures (a + b)[|a|..|a| + |b|] == b
  {
  }

  lemma SliceMiddle<T>(a: seq<T>, b: seq<T>, c: seq<T>, lo: nat, hi: nat)
    requires lo <= hi <= |b|
    ensures |a + b + c| == |a| + |b| + |c| && (a + b + c)[|a| + lo..|a| + hi] == b[lo..hi]
  {
    assert a + b + c == a + (b + c);
  }

  /** Block `i` (from 0) of the blocks is the one for chapter `i + 1` at `ts[i]`. */
  lemma {:induction false} AtomsBlock(ts: seq<string>, i: nat)
    requires i < |ts|
    ensures |Atoms(ts)| == 7 * |ts|
    ensures Atoms(ts)[7 * i..7 * i + 7] == AtomLines(i + 1, ts[i])
    decreases |ts|
  {
    AtomsLength(ts);
    var n := |ts| - 1;
    var init := ts[..n];
    AtomsLength(init);
    assert Atoms(ts) == Atoms(init) + AtomLines(|ts|, ts[n]);
    if i < n {
      AtomsBlock(init, i);
      SliceLeft(Atoms(init), AtomLines(|ts|, ts[n]), 7 * i, 7 * i + 7);
      assert Atoms(ts)[7 * i..7 * i + 7] == Atoms(init)[7 * i..7 * i + 7];
      assert init[i] == ts[i];
      assert Atoms(init)[7 * i..7 * i + 7] == AtomLines(i + 1, ts[i]);
    } else {
      SliceRight(Atoms(init), AtomLines(|ts|, ts[n]));
      assert |Atoms(init)| == 7 * i && i == n && |AtomLines(|ts|, ts[n])| == 7;
      assert Atoms(ts)[7 * i..7 * i + 7] == AtomLines(|ts|, ts[n]);
    }
  }

  /**
    The document is the three header lines, seven lines per timestamp and
    the two footer lines. Block `i` (from 0) opens a `ChapterAtom`, starts at
    `format_time(ts[i])`, is titled `Chapter i+1` and is in English.
   */
  lemma DocumentBlocks(ts: seq<real>, i: nat)
    requires i < |ts|
    ensures |DocumentLines(ts)| == 5 + 7 * |ts|
    ensures DocumentLines(ts)[3 + 7 * i..3 + 7 * i + 7] == AtomLines(i + 1, FormatTime(ts[i]))
    ensures DocumentLines(ts)[3 + 7 * i] == "    <ChapterAtom>\n"
    ensures DocumentLines(ts)[3 + 7 * i + 1] == "      <ChapterTimeStart>" + FormatTime(ts[i]) + "</ChapterTimeStart>\n"
    ensures DocumentLines(ts)[3 + 7 * i + 2] == "      <ChapterDisplay>\n"
    ensures DocumentLines(ts)[3 + 7 * i + 3] == "        <ChapterString>Chapter " + Digits(i + 1) + "</ChapterString>\n"
    ensures DocumentLines(ts)[3 + 7 * i + 4] == "        <ChapterLanguage>eng</ChapterLanguage>\n"
    ensures DocumentLines(ts)[3 + 7 * i + 5] == "      </ChapterDisplay>\n"
    ensures DocumentLines(ts)[3 + 7 * i + 6] == "    </ChapterAtom>\n"
  {
    var stamps := Stamps(ts);
    assert stamps[i] == FormatTime(ts[i]);
    LinesOfBlock(stamps, i);
  }

  lemma LinesOfBlock(stamps: seq<string>, i: nat)
    requires i < |stamps|
    ensures |Header + Atoms(stamps) + Footer| == 5 + 7 * |stamps|
    ensures (Header + Atoms(stamps) + Footer)[3 + 7 * i..3 + 7 * i + 7] == AtomLines(i + 1, stamps[i])
    ensures (Header + Atoms(stamps) + Footer)[3 + 7 * i] == AtomOpen
    ensures (Header + Atoms(stamps) + Footer)[3 + 7 * i + 1] == TimeStartLine(stamps[i])
    ensures (Header + Atoms(stamps) + Footer)[3 + 7 * i + 2] == DisplayOpen
    ensures (Header + Atoms(stamps) + Footer)[3 + 7 * i + 3] == TitleLine(i + 1)
    ensures (Header + Atoms(stamps) + Footer)[3 + 7 * i + 4] == LanguageLine
    ensures (Header + Atoms(stamps) + Footer)[3 + 7 * i + 5] == DisplayClose
    ensures (Header + Atoms(stamps) + Footer)[3 + 7 * i + 6] == AtomClose
  {
    AtomsBlock(stamps, i);
    SliceMiddle(Header, Atoms(stamps), Footer, 7 * i, 7 * i + 7);
    var block := (Header + Atoms(stamps) + Footer)[3 + 7 * i..3 + 7 * i + 7];
    assert block == AtomLines(i + 1, stamps[i]);
    assert block[0] == AtomOpen && block[1] == TimeStartLine(stamps[i]) && block[2] == DisplayOpen;
    assert block[3] == TitleLine(i + 1) && block[4] == LanguageLine && block[5] == DisplayClose && block[6] == AtomClose;
  }

  /** The header always opens the document and the footer always closes it; with no timestamps they are all of it. */
  lemma DocumentFrame(ts: seq<real>)
    ensures DocumentLines(ts)[..3] == ["<?xml version=\"1.0\"?>\n", "<Chapters>\n", "  <EditionEntry>\n"]
    ensures DocumentLines(ts)[|DocumentLines(ts)| - 2..] == ["  </EditionEntry>\n", "</Chapters>\n"]
    ensures ts == [] ==> DocumentLines(ts) == ["<?xml version=\"1.0\"?>\n", "<Chapters>\n", "  <EditionEntry>\n", "  </EditionEntry>\n", "</Chapters>\n"]
  {
    var d := DocumentLines(ts);
    assert d == Header + (Atoms(Stamps(ts)) + Footer);
    assert d[..3] == Header;
    assert d[|d| - 2..] == Footer;
  }

  /** How many of the lines are exactly `x`. */
  function Count(lines: seq<string>, x: string): nat
    decreases |lines|
  {
    if lines == [] then 0 else Count(lines[..|lines| - 1], x) + (if lines[|lines| - 1] == x then 1 else 0)
  }

  lemma {:induction false} CountAppend(a: seq<string>, b: seq<string>, x: string)
    ensures Count(a + b, x) == Count(a, x) + Count(b, x)
    decreases |b|
  {
    if b == [] {
      assert a + b == a;
    } else {
      assert (a + b)[..|a + b| - 1] == a + b[..|b| - 1];
      CountAppend(a, b[..|b| - 1], x);
    }
  }

  lemma CountSnoc(lines: seq<string>, y: string, x: string)
    ensures Count(lines + [y], x) == Count(lines, x) + (if y == x then 1 else 0)
  {
    assert (lines + [y])[..|lines|] == lines;
  }

  /** Each block opens exactly one `ChapterAtom`. */
  lemma AtomOpensOnce(number: nat, t: string)
    ensures Count(AtomLines(number, t), AtomOpen) == 1
  {
    var a := AtomLines(number, t);
    assert a[1][4] != AtomOpen[4];
    assert a[3][4] != AtomOpen[4];
    assert a[4][4] != AtomOpen[4];
    assert a[2][4] != AtomOpen[4] && a[5][4] != AtomOpen[4];
    assert a[6] != AtomOpen by { assert a[6][5] != AtomOpen[5]; }
    Appended7([], a[0], a[1], a[2], a[3], a[4], a[5], a[6]);
    var w: seq<string> := [];
    assert Count(w, AtomOpen) == 0;
    CountSnoc(w, a[0], AtomOpen);
    CountSnoc(w + [a[0]], a[1], AtomOpen);
    CountSnoc(w + [a[0]] + [a[1]], a[2], AtomOpen);
    CountSnoc(w + [a[0]] + [a[1]] + [a[2]], a[3], AtomOpen);
    CountSnoc(w + [a[0]] + [a[1]] + [a[2]] + [a[3]], a[4], AtomOpen);
    CountSnoc(w + [a[0]] + [a[1]] + [a[2]] + [a[3]] + [a[4]], a[5], AtomOpen);
    CountSnoc(w + [a[0]] + [a[1]] + [a[2]] + [a[3]] + [a[4]] + [a[5]], a[6], AtomOpen);
    assert Count(w + [a[0]] + [a[1]] + [a[2]] + [a[3]] + [a[4]] + [a[5]] + [a[6]], AtomOpen) == 1;
    assert w + [a[0]] + [a[1]] + [a[2]] + [a[3]] + [a[4]] + [a[5]] + [a[6]] == a;
  }

  lemma {:induction false} AtomsCount(ts: seq<string>)
    ensures Count(Atoms(ts), AtomOpen) == |ts|
    decreases |ts|
  {
    if ts != [] {
      var n := |ts| - 1;
      AtomsCount(ts[..n]);
      CountAppend(Atoms(ts[..n]), AtomLines(|ts|, ts[n]), AtomOpen);
      AtomOpensOnce(|ts|, ts[n]);
    }
  }

  /** The document holds exactly one `<ChapterAtom>` line per timestamp. */
  lemma DocumentAtomCount(ts: seq<real>)
    ensures Count(DocumentLines(ts), "    <ChapterAtom>\n") == |ts|
  {
    AtomsCount(Stamps(ts));
    CountAppend(Header, Atoms(Stamps(ts)), AtomOpen);
    CountAppend(Header + Atoms(Stamps(ts)), Footer, AtomOpen);
    FrameWithoutAtoms();
  }

  lemma FrameWithoutAtoms()
    ensures Count(Header, AtomOpen) == 0 && Count(Footer, AtomOpen) == 0
  {
    assert Count(Header, AtomOpen) == 0 by {
      assert Header[..2][..1] == [Header[0]];
      assert Header[0][0] != AtomOpen[0] && Header[1][0] != AtomOpen[0] && Header[2][2] != AtomOpen[2];
    }
    assert Count(Footer, AtomOpen) == 0 by {
      assert Footer[..1] == [Footer[0]];
      assert Footer[0][2] != AtomOpen[2] && Footer[1][0] != AtomOpen[0];
    }
  }

  lemma {:induction false} ConcatAppend(a: seq<string>, b: seq<string>)
    ensures Concat(a + b) == Concat(a) + Concat(b)
    decreases |b|
  {
    if b == [] {
      assert a + b == a;
    } else {
      var init, last := b[..|b| - 1], b[|b| - 1];
      assert (a + b)[..|a + b| - 1] == a + init && (a + b)[|a + b| - 1] == last;
      assert Concat(a + b) == Concat(a + init) + last;
      assert Concat(b) == Concat(init) + last;
      ConcatAppend(a, init);
      Associative(Concat(a), Concat(init), last);
    }
  }

  /** The file's text: the header text, the blocks' text, the footer text. */
  lemma DocumentText(ts: seq<real>)
    ensures Concat(DocumentLines(ts)) == "<?xml version=\"1.0\"?>\n" + "<Chapters>\n" + "  <EditionEntry>\n" + Concat(Atoms(Stamps(ts))) + "  </EditionEntry>\n" + "</Chapters>\n"
  {
    ConcatAppend(Header + Atoms(Stamps(ts)), Footer);
    ConcatAppend(Header, Atoms(Stamps(ts)));
    FrameText();
  }

  lemma FrameText()
    ensures Concat(Header) == "<?xml version=\"1.0\"?>\n" + "<Chapters>\n" + "  <EditionEntry>\n"
    ensures Concat(Footer) == "  </EditionEntry>\n" + "</Chapters>\n"
  {
    assert Concat(Header) == "<?xml version=\"1.0\"?>\n" + "<Chapters>\n" + "  <EditionEntry>\n" by {
      assert Header[..2][..1] == [Header[0]] && Header[..2] == [Header[0], Header[1]];
      assert Concat([]) == "";
    }
    assert Concat(Footer) == "  </EditionEntry>\n" + "</Chapters>\n" by {
      assert Footer[..1] == [Footer[0]];
      assert Concat([]) == "";
    }
  }

  /** A one-timestamp document at 3661.5 seconds: its block starts at `01:01:01.500` and is `Chapter 1`. */
  lemma DocumentExample()
    ensures |DocumentLines([3661.5])| == 12
    ensures DocumentLines([3661.5])[4] == "      <ChapterTimeStart>" + "01:01:01.500" + "</ChapterTimeStart>\n"
    ensures DocumentLines([3661.5])[6] == "        <ChapterString>Chapter " + "1" + "</ChapterString>\n"
  {
    DocumentBlocks([3661.5], 0);
    FormatTimeFirstHour();
    assert Digits(1) == "1";
  }

  // ---------------------------------------------------------------------
  // The file read back: every write is one line, so the file's text splits
  // back into exactly the lines written.

  /** Where the line starting at `i` ends: just after its line break, or at the end of the text. */
  function LineEnd(s: string, i: nat): (k: nat)
    requires i <= |s|
    ensures i <= k <= |s| && (i < |s| ==> i < k)
    decreases |s| - i
  {
    if i == |s| then i else if s[i] == '\n' then i + 1 else LineEnd(s, i + 1)
  }

  /** The lines of a text as Python's `readlines` gives them: each keeps its line break. */
  function SplitLines(s: string): seq<string>
    decreases |s|
  {
    if s == [] then [] else var k := LineEnd(s, 0); [s[..k]] + SplitLines(s[k..])
  }

  lemma {:induction false} LineEndOf(l: string, rest: string, i: nat)
    requires IsLine(l) && i < |l|
    ensures LineEnd(l + rest, i) == |l|
    decreases |l| - i
  {
    if i < |l| - 1 {
      assert (l + rest)[i] == l[..|l| - 1][i];
      LineEndOf(l, rest, i + 1);
    }
  }

  lemma SplitFirst(l: string, rest: string)
    requires IsLine(l)
    ensures SplitLines(l + rest) == [l] + SplitLines(rest)
  {
    LineEndOf(l, rest, 0);
    assert (l + rest)[..|l|] == l;
    assert (l + rest)[|l|..] == rest;
  }

  lemma ConcatCons(l: string, lines: seq<string>)
    ensures Concat([l] + lines) == l + Concat(lines)
  {
    ConcatAppend([l], lines);
    assert Concat([l]) == l by {
      assert [l][..0] == [];
      assert Concat([l]) == Concat([]) + l;
    }
  }

  /** Writing lines and reading the file back by lines gives the same lines. */
  lemma {:induction false} SplitConcat(lines: seq<string>)
    requires forall i :: 0 <= i < |lines| ==> IsLine(lines[i])
    ensures SplitLines(Concat(lines)) == lines
    decreases |lines|
  {
    if lines != [] {
      var rest := lines[1..];
      assert lines == [lines[0]] + rest;
      ConcatCons(lines[0], rest);
      SplitFirst(lines[0], Concat(rest));
      SplitConcat(rest);
    }
  }

  lemma PlainAppend(a: string, b: string)
    requires Plain(a) && Plain(b)
    ensures Plain(a + b)
  {
    assert forall c :: c in a + b ==> c in a || c in b;
  }

  lemma PlainDigits(s: string)
    requires AllDigits(s)
    ensures Plain(s)
  {
    assert forall i :: 0 <= i < |s| ==> s[i] != '\n';
  }

  lemma PlainPadded(n: int, width: nat)
    ensures Plain(ZeroPadded(n, width))
  {
    if n < 0 {
      var w := if width == 0 then 0 else width - 1;
      PadSound(-n, w);
      PlainDigits(Pad(-n, w));
      PlainAppend("-", Pad(-n, w));
    } else {
      PadSound(n, width);
      PlainDigits(Pad(n, width));
    }
  }

  /** A printed time holds no line break. */
  lemma PlainTime(t: real)
    ensures Plain(FormatTime(t))
  {
    var c := Decompose(t);
    PlainPadded(c.hours, 2);
    PlainPadded(c.minutes, 2);
    PlainPadded(c.seconds, 2);
    PlainPadded(c.millis, 3);
    PlainAppend(ZeroPadded(c.hours, 2), ":");
    PlainAppend(ZeroPadded(c.hours, 2) + ":", ZeroPadded(c.minutes, 2));
    PlainAppend(ZeroPadded(c.hours, 2) + ":" + ZeroPadded(c.minutes, 2), ":");
    PlainAppend(ZeroPadded(c.hours, 2) + ":" + ZeroPadded(c.minutes, 2) + ":", ZeroPadded(c.seconds, 2));
    PlainAppend(ZeroPadded(c.hours, 2) + ":" + ZeroPadded(c.minutes, 2) + ":" + ZeroPadded(c.seconds, 2), ".");
    PlainAppend(ZeroPadded(c.hours, 2) + ":" + ZeroPadded(c.minutes, 2) + ":" + ZeroPadded(c.seconds, 2) + ".", ZeroPadded(c.millis, 3));
  }

  lemma Framed(a: string, m: string, b: string)
    requires Plain(a) && Plain(m) && Plain(b)
    ensures IsLine(a + m + b + "\n")
  {
    PlainAppend(a, m);
    PlainAppend(a + m, b);
    assert (a + m + b + "\n")[..|a + m + b|] == a + m + b;
  }

  lemma FixedLines()
    ensures IsLine(AtomOpen) && IsLine(DisplayOpen) && IsLine(DisplayClose) && IsLine(AtomClose)
    ensures forall j :: 0 <= j < 3 ==> IsLine(Header[j])
    ensures forall j :: 0 <= j < 2 ==> IsLine(Footer[j])
  {
  }

  lemma LanguageIsLine()
    ensures IsLine(LanguageLine)
  {
    Framed("        <ChapterLanguage>", "eng", "</ChapterLanguage>");
    assert "        <ChapterLanguage>" + "eng" + "</ChapterLanguage>" + "\n" == LanguageLine;
  }

  lemma TimeStartIsLine(stamp: string)
    requires Plain(stamp)
    ensures IsLine(TimeStartLine(stamp))
  {
    Framed("      <ChapterTimeStart>", stamp, "</ChapterTimeStart>");
    assert "      <ChapterTimeStart>" + stamp + "</ChapterTimeStart>" + "\n" == TimeStartLine(stamp);
  }

  lemma TitleIsLine(number: nat)
    ensures IsLine(TitleLine(number))
  {
    DigitsRoundTrip(number);
    PlainDigits(Digits(number));
    Framed("        <ChapterString>Chapter ", Digits(number), "</ChapterString>");
    assert "        <ChapterString>Chapter " + Digits(number) + "</ChapterString>" + "\n" == TitleLine(number);
  }

  lemma BlockLines(number: nat, stamp: string)
    requires Plain(stamp)
    ensures forall j :: 0 <= j < 7 ==> IsLine(AtomLines(number, stamp)[j])
  {
    FixedLines();
    LanguageIsLine();
    TimeStartIsLine(stamp);
    TitleIsLine(number);
  }

  lemma AllLinesAppend(a: seq<string>, b: seq<string>)
    requires forall j :: 0 <= j < |a| ==> IsLine(a[j])
    requires forall j :: 0 <= j < |b| ==> IsLine(b[j])
    ensures forall j :: 0 <= j < |a + b| ==> IsLine((a + b)[j])
  {
    assert forall j :: 0 <= j < |a + b| ==> (a + b)[j] == if j < |a| then a[j] else b[j - |a|];
  }

  lemma {:induction false} AtomsAreLines(stamps: seq<string>)
    requires forall k :: 0 <= k < |stamps| ==> Plain(stamps[k])
    ensures forall j :: 0 <= j < |Atoms(stamps)| ==> IsLine(Atoms(stamps)[j])
    decreases |stamps|
  {
    if stamps != [] {
      var n := |stamps| - 1;
      AtomsAreLines(stamps[..n]);
      BlockLines(|stamps|, stamps[n]);
      AllLinesAppend(Atoms(stamps[..n]), AtomLines(|stamps|, stamps[n]));
    }
  }

  /** Every line of the document is one line of text: it ends in its only line break. */
  lemma DocumentIsLines(ts: seq<real>)
    ensures forall j :: 0 <= j < |DocumentLines(ts)| ==> IsLine(DocumentLines(ts)[j])
  {
    var stamps := Stamps(ts);
    forall k | 0 <= k < |stamps| ensures Plain(stamps[k]) {
      PlainTime(ts[k]);
    }
    AtomsAreLines(stamps);
    FixedLines();
    AllLinesAppend(Header, Atoms(stamps));
    AllLinesAppend(Header + Atoms(stamps), Footer);
  }

  /**
    The file `generate_chapter_xml` leaves, read back by lines, is the
    document line for line.
   */
  lemma DocumentReadsBack(ts: seq<real>)
    ensures SplitLines(Concat(DocumentLines(ts))) == DocumentLines(ts)
  {
    DocumentIsLines(ts);
    SplitConcat(DocumentLines(ts));
  }
}
