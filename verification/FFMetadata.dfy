/** Printing chapters as an ffmetadata document (internal/books/liberate/chapters.go
    BuildFFMetadata) and reading such a document back by the rules of the "Metadata" section of
    the FFmpeg Formats Documentation. */
module FFMetadata {
  import opened Basics
  import opened Rows
  import opened Decimal
  import opened Int64
  import opened Chapters
  import opened ChapterForm

  // ---- printing ----

  function EscapeChar(c: char): string {
    if c in "\\=;#" then ['\\', c] else if c in "\n\r" then " " else [c]
  }

  function Escape(s: string): string {
    if s == [] then [] else EscapeChar(s[0]) + Escape(s[1..])
  }

  /** Carriage returns and line feeds become spaces. */
  function Spaced(s: string): (r: string)
    ensures |r| == |s|
  {
    seq(|s|, i requires 0 <= i < |s| => if s[i] in "\n\r" then ' ' else s[i])
  }

  const HEADER := ";FFMETADATA1"
  const HEADING := "[CHAPTER]"

  function KeyLine(key: string, value: string): string { key + "=" + value }

  const KEYS := ["TIMEBASE", "START", "END", "title"]

  function Values(c: Flat): seq<string> { ["1/1000", IntString(c.start), IntString(c.end), Escape(c.title)] }

  function TagLines(c: Flat): (r: seq<string>)
    ensures |r| == 4 && forall i :: 0 <= i < 4 ==> r[i] == KeyLine(KEYS[i], Values(c)[i])
  {
    [KeyLine("TIMEBASE", "1/1000"), KeyLine("START", IntString(c.start)), KeyLine("END", IntString(c.end)),
     KeyLine("title", Escape(c.title))]
  }

  function ChapterLines(c: Flat): seq<string> { ["", HEADING] + TagLines(c) }

  function Flatten(blocks: seq<seq<string>>): seq<string> {
    if blocks == [] then [] else Flatten(blocks[..|blocks| - 1]) + blocks[|blocks| - 1]
  }

  function Blocks(f: seq<Flat>): seq<seq<string>> { Map(ChapterLines, f) }

  function AllChapterLines(f: seq<Flat>): seq<string> { Flatten(Blocks(f)) }

  lemma FlattenSnoc(blocks: seq<seq<string>>, b: seq<string>)
    ensures Flatten(blocks + [b]) == Flatten(blocks) + b
  {
    var all := blocks + [b];
    assert all[..|all| - 1] == blocks;
  }

  lemma {:induction false} FlattenCons(b: seq<string>, blocks: seq<seq<string>>)
    ensures Flatten([b] + blocks) == b + Flatten(blocks)
  {
    if blocks == [] {
      FlattenSnoc([], b);
      assert [b] + blocks == [] + [b] && b + [] == b;
    } else {
      var init, d := blocks[..|blocks| - 1], blocks[|blocks| - 1];
      FlattenCons(b, init);
      FlattenSnoc([b] + init, d);
      assert [b] + blocks == ([b] + init) + [d];
    }
  }

  lemma BlocksSnoc(f: seq<Flat>, i: nat)
    requires i < |f|
    ensures Blocks(f[..i + 1]) == Blocks(f[..i]) + [ChapterLines(f[i])]
  {
    assert f[..i + 1] == f[..i] + [f[i]];
    MapConcat(ChapterLines, f[..i], [f[i]]);
  }

  lemma BlocksCons(f: seq<Flat>)
    requires f != []
    ensures Blocks(f) == [ChapterLines(f[0])] + Blocks(f[1..])
  {
    assert f == [f[0]] + f[1..];
    MapConcat(ChapterLines, [f[0]], f[1..]);
  }

  function Unlines(ls: seq<string>): string {
    if ls == [] then "" else Unlines(ls[..|ls| - 1]) + ls[|ls| - 1] + "\n"
  }

  /** The document of a chapter list: nothing at all when there is no chapter. */
  function Document(f: seq<Flat>): string {
    if f == [] then "" else Unlines([HEADER] + AllChapterLines(f))
  }

  lemma UnlinesSnoc(ls: seq<string>, l: string)
    ensures Unlines(ls + [l]) == Unlines(ls) + l + "\n"
  {
    assert (ls + [l])[..|ls|] == ls;
  }

  lemma {:induction false} UnlinesConcat(a: seq<string>, b: seq<string>)
    ensures Unlines(a + b) == Unlines(a) + Unlines(b)
  {
    if b == [] {
      assert a + b == a;
    } else {
      var init, l := b[..|b| - 1], b[|b| - 1];
      UnlinesConcat(a, init);
      UnlinesSnoc(a + init, l);
      UnlinesSnoc(init, l);
      assert a + b == a + init + [l] && b == init + [l];
    }
  }

  lemma DocumentGrows(f: seq<Flat>, i: nat)
    requires i < |f|
    ensures Unlines([HEADER] + AllChapterLines(f[..i + 1])) ==
              Unlines([HEADER] + AllChapterLines(f[..i])) + Unlines(ChapterLines(f[i]))
  {
    var before, more := [HEADER] + AllChapterLines(f[..i]), ChapterLines(f[i]);
    BlocksSnoc(f, i);
    FlattenSnoc(Blocks(f[..i]), more);
    assert [HEADER] + AllChapterLines(f[..i + 1]) == before + more;
    UnlinesConcat(before, more);
  }

  /** The lines of one mark. */
  predicate SixLines(ls: seq<string>, c: Flat) {
    && |ls| == 6 && ls[0] == "" && ls[1] == "[CHAPTER]" && ls[2] == "TIMEBASE=1/1000"
    && ls[3] == "START=" + IntString(c.start) && ls[4] == "END=" + IntString(c.end)
    && ls[5] == "title=" + Escape(c.title)
  }

  lemma Keyed(key: string, value: string, head: string)
    requires head == key + "="
    ensures KeyLine(key, value) == head + value
  {}

  lemma ChapterHasSixLines(c: Flat)
    ensures SixLines(ChapterLines(c), c)
  {
    Keyed("TIMEBASE", "1/1000", "TIMEBASE=");
    assert "TIMEBASE=" + "1/1000" == "TIMEBASE=1/1000";
    Keyed("START", IntString(c.start), "START=");
    Keyed("END", IntString(c.end), "END=");
    Keyed("title", Escape(c.title), "title=");
  }

  lemma BlocksOne(c: Flat)
    ensures Blocks([c]) == [ChapterLines(c)]
  {}

  lemma LinesSnoc(f: seq<Flat>, c: Flat)
    ensures AllChapterLines(f + [c]) == AllChapterLines(f) + ChapterLines(c)
  {
    BlocksOne(c);
    MapConcat(ChapterLines, f, [c]);
    FlattenSnoc(Blocks(f), ChapterLines(c));
  }

  /** The printed lines, each ended by a newline: the header, and six more for each mark. */
  lemma PrintedLines(f: seq<Flat>, c: Flat) returns (six: seq<string>)
    ensures Document(f + [c]) == Unlines([";FFMETADATA1"] + AllChapterLines(f + [c]))
    ensures AllChapterLines(f + [c]) == AllChapterLines(f) + six && SixLines(six, c)
    ensures AllChapterLines([]) == []
  {
    six := ChapterLines(c);
    LinesSnoc(f, c);
    ChapterHasSixLines(c);
  }

  /** Appends line `k` of `ls` to a buffer that held `b0` and then the lines before it. */
  method WriteLine(b: string, l: string, ghost b0: string, ghost ls: seq<string>, ghost k: nat) returns (r: string)
    requires k < |ls| && l == ls[k] && b == b0 + Unlines(ls[..k])
    ensures r == b0 + Unlines(ls[..k + 1])
  {
    r := b + l + "\n";
    assert ls[..k + 1][..k] == ls[..k];
  }

  method WriteTags(b0: string, c: Flat) returns (b: string)
    ensures b == b0 + Unlines(TagLines(c))
  {
    ghost var ls := TagLines(c);
    b := WriteLine(b0, KeyLine("TIMEBASE", "1/1000"), b0, ls, 0);
    b := WriteLine(b, KeyLine("START", IntString(c.start)), b0, ls, 1);
    b := WriteLine(b, KeyLine("END", IntString(c.end)), b0, ls, 2);
    b := WriteLine(b, KeyLine("title", Escape(c.title)), b0, ls, 3);
    assert ls[..4] == ls;
  }

  method WriteHeading(b0: string) returns (b: string)
    ensures b == b0 + Unlines(["", HEADING])
  {
    ghost var ls := ["", HEADING];
    b := WriteLine(b0, "", b0, ls, 0);
    b := WriteLine(b, HEADING, b0, ls, 1);
    assert ls[..2] == ls;
  }

  lemma Associates(a: string, b: string, c: string)
    ensures (a + b) + c == a + (b + c)
  {}

  method WriteChapter(b0: string, c: Flat) returns (b: string)
    ensures b == b0 + Unlines(ChapterLines(c))
  {
    b := WriteHeading(b0);
    b := WriteTags(b, c);
    Associates(b0, Unlines(["", HEADING]), Unlines(TagLines(c)));
    UnlinesConcat(["", HEADING], TagLines(c));
  }

  lemma EmptyDocument(f: seq<Flat>)
    ensures Document(f) == "" <==> f == []
  {}

  /** BuildFFMetadata: the document, which is empty exactly when there is no mark. */
  method BuildFFMetadata(ci: ChapterInfo) returns (b: string)
    ensures b == Document(Flattened(ci))
    ensures b == "" <==> Flattened(ci) == []
  {
    var chapters := FlattenChapters(ci);
    if |chapters| == 0 { return ""; }
    b := WriteLine("", HEADER, "", [HEADER], 0);
    assert [HEADER] + AllChapterLines(chapters[..0]) == [HEADER][..1];
    for i := 0 to |chapters|
      invariant b == Unlines([HEADER] + AllChapterLines(chapters[..i]))
    {
      b := WriteChapter(b, chapters[i]);
      DocumentGrows(chapters, i);
    }
    assert chapters[..|chapters|] == chapters;
    EmptyDocument(chapters);
  }

  // ---- reading ----

  datatype Tag = Tag(key: string, value: string)
  datatype Section = Section(name: string, tags: seq<Tag>)

  /** A chapter as a reader of the format sees it: times count units of num/den seconds. */
  datatype Mark = Mark(num: int, den: int, start: int, end: int, tags: seq<Tag>)

  /** The length of the text before the first `stop` that no backslash escapes. */
  function Until(s: string, stop: char): (n: nat)
    ensures n <= |s|
  {
    if s == [] || s[0] == stop then 0
    else if s[0] == '\\' && |s| > 1 then 2 + Until(s[2..], stop)
    else 1 + Until(s[1..], stop)
  }

  function Unescape(s: string): string {
    if s == [] then []
    else if s[0] == '\\' && |s| > 1 then [s[1]] + Unescape(s[2..])
    else [s[0]] + Unescape(s[1..])
  }

  /** The lines of a document; an escaped newline does not end a line. */
  function Lines(s: string): seq<string> {
    if s == [] then []
    else
      var n := Until(s, '\n');
      if n == |s| then [s] else [s[..n]] + Lines(s[n + 1..])
  }

  predicate Ignored(line: string) { line == "" || line[0] == ';' || line[0] == '#' }

  predicate IsHeading(line: string) { |line| >= 2 && line[0] == '[' && line[|line| - 1] == ']' }

  /** The key and value around the first unescaped equals sign. */
  function TagOf(line: string): Option<Tag> {
    var n := Until(line, '=');
    if n == |line| then None else Some(Tag(Unescape(line[..n]), Unescape(line[n + 1..])))
  }

  /** The open section `cur` and the sections that follow. */
  function Sections(lines: seq<string>, cur: Section): seq<Section> {
    if lines == [] then [cur]
    else if Ignored(lines[0]) then Sections(lines[1..], cur)
    else if IsHeading(lines[0]) then [cur] + Sections(lines[1..], Section(lines[0][1..|lines[0]| - 1], []))
    else
      match TagOf(lines[0])
      case None => Sections(lines[1..], cur)
      case Some(t) => Sections(lines[1..], cur.(tags := cur.tags + [t]))
  }

  /** A chapter section: an optional timebase, the start, the end, then its tags. */
  function MarkFrom(tags: seq<Tag>): Option<Mark> {
    var timed := tags != [] && tags[0].key == "TIMEBASE";
    var rest := if timed then tags[1..] else tags;
    if |rest| < 2 || rest[0].key != "START" || rest[1].key != "END" then None
    else
      var base := if timed then Fraction(tags[0].value) else Some((1, 1_000_000_000));
      match (base, ParseInt(rest[0].value), ParseInt(rest[1].value))
      case (Some(b), Some(start), Some(end)) => Some(Mark(b.0, b.1, start, end, rest[2..]))
      case _ => None
  }

  function Fraction(s: string): Option<(int, int)> {
    var n := Until(s, '/');
    if n == |s| then None
    else
      match (ParseInt(s[..n]), ParseInt(s[n + 1..]))
      case (Some(num), Some(den)) => Some((num, den))
      case _ => None
  }

  function Marks(sections: seq<Section>): Option<seq<Mark>> {
    if sections == [] then Some([])
    else if sections[0].name != "CHAPTER" then Marks(sections[1..])
    else
      match (MarkFrom(sections[0].tags), Marks(sections[1..]))
      case (Some(m), Some(rest)) => Some([m] + rest)
      case _ => None
  }

  /** The chapters of an ffmetadata document, or nothing when it is not one. */
  function Parse(doc: string): Option<seq<Mark>> {
    var lines := Lines(doc);
    if lines == [] || lines[0] != ";FFMETADATA1" then None else Marks(Sections(lines[1..], Section("", [])))
  }

  // ---- escaping is undone, and hides every special character ----

  lemma UnescapeStep(c: char, rest: string)
    ensures Unescape(EscapeChar(c) + rest) == Spaced([c]) + Unescape(rest)
  {
    var s := EscapeChar(c) + rest;
    assert s[|EscapeChar(c)|..] == rest;
  }

  lemma {:induction false} UnescapeEscape(s: string)
    ensures Unescape(Escape(s)) == Spaced(s)
  {
    if s != [] {
      UnescapeEscape(s[1..]);
      UnescapeStep(s[0], Escape(s[1..]));
      assert Spaced(s) == Spaced([s[0]]) + Spaced(s[1..]);
    }
  }

  predicate Special(c: char) { c == '\\' || c == '=' || c == ';' || c == '#' }

  /** Every special character stands behind a backslash of its own, which no other character does,
      and there is no line break. */
  predicate Guarded(t: string) {
    t == [] || if t[0] == '\\' then |t| > 1 && Special(t[1]) && Guarded(t[2..])
               else !Special(t[0]) && t[0] != '\n' && t[0] != '\r' && Guarded(t[1..])
  }

  /** With `UnescapeEscape` this leaves one way to escape. */
  lemma {:induction false} EscapeGuards(s: string)
    ensures Guarded(Escape(s))
  {
    if s != [] {
      EscapeGuards(s[1..]);
      assert Escape(s)[|EscapeChar(s[0])|..] == Escape(s[1..]);
    }
  }

  /** No unescaped `stop` and no dangling backslash. */
  predicate Closed(s: string, stop: char) {
    s == [] || (s[0] != stop && if s[0] == '\\' then |s| > 1 && Closed(s[2..], stop) else Closed(s[1..], stop))
  }

  lemma {:induction false} UntilClosed(a: string, stop: char, rest: string)
    requires Closed(a, stop)
    ensures Until(a + [stop] + rest, stop) == |a|
  {
    var s := a + [stop] + rest;
    if a != [] {
      var k := if a[0] == '\\' then 2 else 1;
      assert s[k..] == a[k..] + [stop] + rest;
      UntilClosed(a[k..], stop, rest);
    }
  }

  lemma {:induction false} PlainClosed(s: string, stop: char)
    requires stop !in s && '\\' !in s
    ensures Closed(s, stop) && Unescape(s) == s
  {
    if s != [] { PlainClosed(s[1..], stop); }
  }

  lemma {:induction false} ClosedConcat(a: string, b: string, stop: char)
    requires Closed(a, stop) && Closed(b, stop)
    ensures Closed(a + b, stop)
  {
    if a == [] {
      assert a + b == b;
    } else {
      var k := if a[0] == '\\' then 2 else 1;
      ClosedConcat(a[k..], b, stop);
      assert (a + b)[k..] == a[k..] + b;
    }
  }

  lemma {:induction false} EscapeClosed(s: string)
    ensures Closed(Escape(s), '\n')
  {
    if s != [] {
      EscapeClosed(s[1..]);
      var e := EscapeChar(s[0]);
      assert Escape(s)[|e|..] == Escape(s[1..]);
    }
  }

  lemma IntStringPlain(n: int, stop: char)
    requires stop == '\n' || stop == '=' || stop == '/'
    ensures Closed(IntString(n), stop) && Unescape(IntString(n)) == IntString(n)
  {
    PlainClosed(IntString(n), stop);
  }

  // ---- the lines come back ----

  predicate OneLine(s: string) { Closed(s, '\n') }

  predicate AllOneLine(ls: seq<string>) { forall i :: 0 <= i < |ls| ==> OneLine(ls[i]) }

  lemma {:induction false} LinesUnlines(ls: seq<string>, rest: string)
    requires AllOneLine(ls)
    ensures Lines(Unlines(ls) + rest) == ls + Lines(rest)
  {
    if ls == [] {
      assert Unlines(ls) + rest == rest;
    } else {
      var init, l := ls[..|ls| - 1], ls[|ls| - 1];
      var tail := l + "\n" + rest;
      assert Unlines(ls) + rest == Unlines(init) + tail;
      LinesUnlines(init, tail);
      UntilClosed(l, '\n', rest);
      assert tail[..|l|] == l && tail[|l| + 1..] == rest;
      assert ls == init + [l];
    }
  }

  /** A key as the printer writes them: nothing in it needs escaping. */
  predicate PlainKey(key: string) {
    key != "" && key[0] !in ";#[" && '=' !in key && '\\' !in key && '\n' !in key
  }

  lemma KeysArePlain()
    ensures forall i :: 0 <= i < 4 ==> PlainKey(KEYS[i])
  {
    assert PlainKey("TIMEBASE") && PlainKey("START") && PlainKey("END") && PlainKey("title");
  }

  lemma KeyLineClosed(key: string, value: string)
    requires PlainKey(key) && OneLine(value)
    ensures OneLine(KeyLine(key, value))
  {
    PlainClosed(key + "=", '\n');
    ClosedConcat(key + "=", value, '\n');
  }

  lemma ValuesClosed(c: Flat)
    ensures forall i :: 0 <= i < 4 ==> OneLine(Values(c)[i])
  {
    IntStringPlain(c.start, '\n');
    IntStringPlain(c.end, '\n');
    EscapeClosed(c.title);
    PlainClosed("1/1000", '\n');
  }

  lemma TagLinesClosed(c: Flat)
    ensures AllOneLine(TagLines(c))
  {
    KeysArePlain();
    ValuesClosed(c);
    forall i | 0 <= i < 4 ensures OneLine(TagLines(c)[i]) { KeyLineClosed(KEYS[i], Values(c)[i]); }
  }

  lemma PlainLines(ls: seq<string>)
    requires forall i :: 0 <= i < |ls| ==> '\n' !in ls[i] && '\\' !in ls[i]
    ensures AllOneLine(ls)
  {
    forall i | 0 <= i < |ls| ensures OneLine(ls[i]) { PlainClosed(ls[i], '\n'); }
  }

  lemma FixedLinesClosed()
    ensures AllOneLine([HEADER]) && AllOneLine(["", HEADING])
  {
    PlainLines([HEADER]);
    PlainLines(["", HEADING]);
  }

  lemma AllOneLineConcat(a: seq<string>, b: seq<string>)
    requires AllOneLine(a) && AllOneLine(b)
    ensures AllOneLine(a + b)
  {}

  lemma ChapterLinesClosed(c: Flat)
    ensures AllOneLine(ChapterLines(c))
  {
    FixedLinesClosed();
    TagLinesClosed(c);
    AllOneLineConcat(["", HEADING], TagLines(c));
  }

  lemma {:induction false} FlattenClosed(blocks: seq<seq<string>>)
    requires forall i :: 0 <= i < |blocks| ==> AllOneLine(blocks[i])
    ensures AllOneLine(Flatten(blocks))
  {
    if blocks != [] {
      FlattenClosed(blocks[..|blocks| - 1]);
      AllOneLineConcat(Flatten(blocks[..|blocks| - 1]), blocks[|blocks| - 1]);
    }
  }

  lemma AllLinesClosed(f: seq<Flat>)
    ensures AllOneLine(AllChapterLines(f))
  {
    forall i | 0 <= i < |f| ensures AllOneLine(Blocks(f)[i]) { ChapterLinesClosed(f[i]); }
    FlattenClosed(Blocks(f));
  }

  lemma DocumentLines(f: seq<Flat>)
    requires f != []
    ensures Lines(Document(f)) == [HEADER] + AllChapterLines(f)
  {
    FixedLinesClosed();
    AllLinesClosed(f);
    AllOneLineConcat([HEADER], AllChapterLines(f));
    LinesUnlines([HEADER] + AllChapterLines(f), "");
    assert Document(f) + "" == Document(f);
  }

  // ---- the sections come back ----

  predicate Reads(line: string, t: Tag) { !Ignored(line) && !IsHeading(line) && TagOf(line) == Some(t) }

  predicate AllRead(ls: seq<string>, tags: seq<Tag>) {
    |ls| == |tags| && forall i :: 0 <= i < |ls| ==> Reads(ls[i], tags[i])
  }

  lemma KeyLineTag(key: string, value: string)
    requires PlainKey(key)
    ensures Reads(KeyLine(key, value), Tag(key, Unescape(value)))
  {
    var line := KeyLine(key, value);
    PlainClosed(key, '=');
    UntilClosed(key, '=', value);
    assert line[..|key|] == key && line[|key| + 1..] == value && line[0] == key[0];
  }

  function SectionOf(c: Flat): Section {
    Section("CHAPTER", [Tag("TIMEBASE", "1/1000"), Tag("START", IntString(c.start)), Tag("END", IntString(c.end)),
                        Tag("title", Spaced(c.title))])
  }

  lemma TagLine(line: string, t: Tag, rest: seq<string>, cur: Section, next: Section)
    requires Reads(line, t)
    requires next.name == cur.name && next.tags == cur.tags + [t]
    ensures Sections([line] + rest, cur) == Sections(rest, next)
  {
    assert ([line] + rest)[1..] == rest;
  }

  lemma HeadingLines(rest: seq<string>, cur: Section)
    ensures Sections(["", HEADING] + rest, cur) == [cur] + Sections(rest, Section("CHAPTER", []))
  {
    var lines := ["", HEADING] + rest;
    assert lines[1..] == [HEADING] + rest && lines[1..][1..] == rest;
    assert HEADING[1..|HEADING| - 1] == "CHAPTER";
  }

  /** Four tag lines below a heading are one section. */
  lemma FourTags(ls: seq<string>, tags: seq<Tag>, rest: seq<string>, name: string)
    requires |ls| == 4 && AllRead(ls, tags)
    ensures Sections(ls + rest, Section(name, [])) == Sections(rest, Section(name, tags))
  {
    assert ls + rest == [ls[0]] + (ls[1..] + rest);
    assert ls[1..] + rest == [ls[1]] + (ls[2..] + rest);
    assert ls[2..] + rest == [ls[2]] + (ls[3..] + rest);
    assert ls[3..] + rest == [ls[3]] + rest;
    TagLine(ls[0], tags[0], ls[1..] + rest, Section(name, []), Section(name, tags[..1]));
    TagLine(ls[1], tags[1], ls[2..] + rest, Section(name, tags[..1]), Section(name, tags[..2]));
    TagLine(ls[2], tags[2], ls[3..] + rest, Section(name, tags[..2]), Section(name, tags[..3]));
    TagLine(ls[3], tags[3], rest, Section(name, tags[..3]), Section(name, tags));
  }

  lemma TimebaseReads()
    ensures Unescape("1/1000") == "1/1000"
  {
    PlainClosed("1/1000", '\n');
  }

  lemma NumberReads(n: int)
    ensures Unescape(IntString(n)) == IntString(n)
  {
    IntStringPlain(n, '=');
  }

  lemma ValuesRead(c: Flat)
    ensures forall i :: 0 <= i < 4 ==> SectionOf(c).tags[i] == Tag(KEYS[i], Unescape(Values(c)[i]))
  {
    TimebaseReads();
    NumberReads(c.start);
    NumberReads(c.end);
    UnescapeEscape(c.title);
  }

  lemma ChapterTags(c: Flat)
    ensures AllRead(TagLines(c), SectionOf(c).tags)
  {
    KeysArePlain();
    ValuesRead(c);
    forall i | 0 <= i < 4 ensures Reads(TagLines(c)[i], SectionOf(c).tags[i]) { KeyLineTag(KEYS[i], Values(c)[i]); }
  }

  lemma HeadedSection(ls: seq<string>, tags: seq<Tag>, rest: seq<string>, cur: Section)
    requires |ls| == 4 && AllRead(ls, tags)
    ensures Sections((["", HEADING] + ls) + rest, cur) == [cur] + Sections(rest, Section("CHAPTER", tags))
  {
    FourTags(ls, tags, rest, "CHAPTER");
    HeadingLines(ls + rest, cur);
    assert (["", HEADING] + ls) + rest == ["", HEADING] + (ls + rest);
  }

  lemma ChapterSection(c: Flat, rest: seq<string>, cur: Section)
    ensures Sections(ChapterLines(c) + rest, cur) == [cur] + Sections(rest, SectionOf(c))
  {
    ChapterTags(c);
    HeadedSection(TagLines(c), SectionOf(c).tags, rest, cur);
  }

  function SectionsOf(f: seq<Flat>): (r: seq<Section>)
    ensures |r| == |f|
  {
    Map(SectionOf, f)
  }

  lemma {:induction false} SectionsComeBack(f: seq<Flat>, cur: Section)
    ensures Sections(AllChapterLines(f), cur) == [cur] + SectionsOf(f)
  {
    if f != [] {
      BlocksCons(f);
      FlattenCons(ChapterLines(f[0]), Blocks(f[1..]));
      ChapterSection(f[0], AllChapterLines(f[1..]), cur);
      SectionsComeBack(f[1..], SectionOf(f[0]));
      SectionsCons(f);
    }
  }

  lemma SectionsCons(f: seq<Flat>)
    requires f != []
    ensures SectionsOf(f) == [SectionOf(f[0])] + SectionsOf(f[1..])
  {
    assert f == [f[0]] + f[1..];
    MapConcat(SectionOf, [f[0]], f[1..]);
  }

  // ---- the chapters come back ----

  function MarkFor(c: Flat): Mark { Mark(1, 1000, c.start, c.end, [Tag("title", Spaced(c.title))]) }

  lemma FractionReads(s: string, num: nat, den: nat)
    requires s == Digits(num) + "/" + Digits(den)
    ensures Fraction(s) == Some((num as int, den as int))
  {
    PlainClosed(Digits(num), '/');
    UntilClosed(Digits(num), '/', Digits(den));
    assert s[..|Digits(num)|] == IntString(num) && s[|Digits(num)| + 1..] == IntString(den);
    IntRoundTrip(num);
    IntRoundTrip(den);
  }

  lemma ThousandthParses()
    ensures Fraction("1/1000") == Some((1, 1000))
  {
    assert Digits(1) == "1";
    assert Digits(1000) == Digits(100) + "0" && Digits(100) == Digits(10) + "0" && Digits(10) == "10";
    FractionReads("1/1000", 1, 1000);
  }

  lemma MarkReads(tags: seq<Tag>, start: int, end: int, rest: seq<Tag>)
    requires |tags| == 3 + |rest| && tags[3..] == rest
    requires tags[0] == Tag("TIMEBASE", "1/1000")
    requires tags[1].key == "START" && ParseInt(tags[1].value) == Some(start)
    requires tags[2].key == "END" && ParseInt(tags[2].value) == Some(end)
    ensures MarkFrom(tags) == Some(Mark(1, 1000, start, end, rest))
  {
    ThousandthParses();
    assert tags[1..][2..] == rest;
  }

  lemma MarkComesBack(c: Flat)
    ensures MarkFrom(SectionOf(c).tags) == Some(MarkFor(c))
  {
    IntRoundTrip(c.start);
    IntRoundTrip(c.end);
    MarkReads(SectionOf(c).tags, c.start, c.end, [Tag("title", Spaced(c.title))]);
  }

  function MarksFor(f: seq<Flat>): (r: seq<Mark>)
    ensures |r| == |f| && forall i :: 0 <= i < |f| ==> r[i] == MarkFor(f[i])
  {
    Map(MarkFor, f)
  }

  lemma MarksCons(all: seq<Section>, s: Section, m: Mark, rest: seq<Section>, ms: seq<Mark>)
    requires all == [s] + rest && s.name == "CHAPTER" && MarkFrom(s.tags) == Some(m) && Marks(rest) == Some(ms)
    ensures Marks(all) == Some([m] + ms)
  {
    assert all[1..] == rest;
  }

  lemma MarksForCons(f: seq<Flat>)
    requires f != []
    ensures MarksFor(f) == [MarkFor(f[0])] + MarksFor(f[1..])
  {
    assert f == [f[0]] + f[1..];
    MapConcat(MarkFor, [f[0]], f[1..]);
  }

  lemma {:induction false} MarksComeBack(f: seq<Flat>)
    ensures Marks(SectionsOf(f)) == Some(MarksFor(f))
  {
    if f != [] {
      MarksComeBack(f[1..]);
      MarkComesBack(f[0]);
      SectionsCons(f);
      MarksForCons(f);
      MarksCons(SectionsOf(f), SectionOf(f[0]), MarkFor(f[0]), SectionsOf(f[1..]), MarksFor(f[1..]));
    }
  }

  lemma ParseSteps(doc: string, lines: seq<string>, sections: seq<Section>, ms: seq<Mark>)
    requires Lines(doc) == [HEADER] + lines
    requires Sections(lines, Section("", [])) == [Section("", [])] + sections
    requires Marks(sections) == Some(ms)
    ensures Parse(doc) == Some(ms)
  {
    assert ([HEADER] + lines)[1..] == lines;
    assert ([Section("", [])] + sections)[1..] == sections;
  }

  /** Any chapter list survives printing and reading: every time is exact, and every title is
      the original with its line breaks turned into spaces. */
  lemma DocumentRoundTrip(f: seq<Flat>)
    requires f != []
    ensures Parse(Document(f)) == Some(MarksFor(f))
  {
    DocumentLines(f);
    SectionsComeBack(f, Section("", []));
    MarksComeBack(f);
    ParseSteps(Document(f), AllChapterLines(f), SectionsOf(f), MarksFor(f));
  }

  // ---- what a reader of the printed tree sees ----

  lemma TitleNonempty(path: seq<string>, n: nat)
    ensures TitleOf(path, n) != ""
    ensures TitleOf(path, n) == if Parts(path) == [] then "Chapter " + Digits(n + 1) else Join(Parts(path))
  {
    JoinNonempty(path);
  }

  /** The mark is titled by the last leaf at its start: its nonempty trimmed titles joined, or
      its number when it has none. */
  ghost predicate TitledByPath(ls: seq<Leaf>, m: Mark) {
    && |m.tags| == 1 && m.tags[0].key == "title" && m.tags[0].value != ""
    && exists i: nat ::
         LastOfStart(ls, i) && ls[i].start == m.start && m.tags[0].value == Spaced(TitleOf(ls[i].path, i))
  }

  lemma MarkTitledByPath(ls: seq<Leaf>, c: Flat)
    requires TitledAsLastLeaf(ls, c)
    ensures TitledByPath(ls, MarkFor(c))
  {
    var i: nat :| LastOfStart(ls, i) && ls[i].start == c.start && c.title == TitleOf(ls[i].path, i);
    TitleNonempty(ls[i].path, i);
    assert MarkFor(c).tags[0].value == Spaced(TitleOf(ls[i].path, i));
  }

  /** Marks in milliseconds, each ending after it starts and where the next one starts. */
  predicate GaplessMarks(ms: seq<Mark>) {
    && (forall i :: 0 <= i < |ms| ==> ms[i].num == 1 && ms[i].den == 1000 && ms[i].start < ms[i].end)
    && (forall i :: 0 <= i < |ms| - 1 ==> ms[i].end == ms[i + 1].start)
  }

  ghost predicate AllTitledByPath(ls: seq<Leaf>, ms: seq<Mark>) {
    forall i :: 0 <= i < |ms| ==> TitledByPath(ls, ms[i])
  }

  lemma MarksGapless(f: seq<Flat>)
    requires Gapless(f)
    ensures GaplessMarks(MarksFor(f))
  {}

  lemma NoLeavesNoMarks(ci: ChapterInfo)
    requires Leaves(ci.chapters, []) == []
    ensures Flattened(ci) == []
  {
    WalkIsMarks(ci);
    assert MarksOf(Leaves(ci.chapters, []), 0) == [];
  }

  lemma FlattenedTitles(ci: ChapterInfo)
    requires Leaves(ci.chapters, []) != []
    ensures Gapless(Flattened(ci)) && AllTitledByPath(Leaves(ci.chapters, []), MarksFor(Flattened(ci)))
  {
    var f, ls := Flattened(ci), Leaves(ci.chapters, []);
    FlattenedForm(ci);
    forall i | 0 <= i < |f| ensures TitledByPath(ls, MarksFor(f)[i]) { MarkTitledByPath(ls, f[i]); }
  }

  /** The last mark ends at the declared runtime if that lies behind the final leaf's start. */
  ghost predicate EndsAtRuntime(ls: seq<Leaf>, runtime: int64, ms: seq<Mark>) {
    forall last: nat :: Final(ls, last) && runtime > ls[last].start ==> ms != [] && ms[|ms| - 1].end == runtime
  }

  lemma LastMarkAtRuntime(ci: ChapterInfo)
    ensures EndsAtRuntime(Leaves(ci.chapters, []), ci.runtime, MarksFor(Flattened(ci)))
  {
    var ls := Leaves(ci.chapters, []);
    forall last: nat | Final(ls, last) && ci.runtime > ls[last].start
      ensures Flattened(ci) != [] && Flattened(ci)[|Flattened(ci)| - 1].end == ci.runtime
    {
      LastMarkEnds(ci, last);
    }
  }

  /** From tree to document and back.  A reader of the printed document gets gap-free marks in
      milliseconds, each with one nonempty title that comes from the last leaf at its start; the
      last one ends at the declared runtime if that lies behind the final leaf's start. */
  lemma PrintedTreeReadsBack(ci: ChapterInfo)
    requires Flattened(ci) != []
    ensures Parse(Document(Flattened(ci))) == Some(MarksFor(Flattened(ci)))
    ensures GaplessMarks(MarksFor(Flattened(ci)))
    ensures AllTitledByPath(Leaves(ci.chapters, []), MarksFor(Flattened(ci)))
    ensures EndsAtRuntime(Leaves(ci.chapters, []), ci.runtime, MarksFor(Flattened(ci)))
  {
    LastMarkAtRuntime(ci);
    DocumentRoundTrip(Flattened(ci));
    if Leaves(ci.chapters, []) == [] { NoLeavesNoMarks(ci); }
    FlattenedTitles(ci);
    MarksGapless(Flattened(ci));
  }
}
