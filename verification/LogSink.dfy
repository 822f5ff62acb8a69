/** The job-log blob: one JSON object a line, written whole and read back even when its tail is
    missing (internal/jobs/logsink.go MarshalJobLogs and ReadJobLogs). */
module LogSink {
  import opened Rows

  type byte = x: int | 0 <= x < 256

  const NEWLINE: byte := 10
  const RETURN: byte := 13
  const OPEN: byte := 0x7B
  const CLOSE: byte := 0x7D

  /** The scanner's limit on a line, four mebibytes. */
  const CAP: nat := 4 * 1024 * 1024

  // ---- writing ----

  /** Every text on its own line. */
  function Blob(texts: seq<seq<byte>>): seq<byte> {
    if texts == [] then [] else texts[0] + [NEWLINE] + Blob(texts[1..])
  }

  lemma {:induction false} BlobSnoc(texts: seq<seq<byte>>, t: seq<byte>)
    ensures Blob(texts + [t]) == Blob(texts) + (t + [NEWLINE])
  {
    if texts == [] {
      assert (texts + [t])[1..] == [] && texts + [t] == [t];
    } else {
      BlobSnoc(texts[1..], t);
      assert (texts + [t])[1..] == texts[1..] + [t];
    }
  }

  /** Byte 10 ends every text, and nothing else is added. */
  lemma {:induction false} BlobIs(texts: seq<seq<byte>>, t: seq<byte>)
    ensures Blob([]) == [] && Blob(texts + [t]) == Blob(texts) + t + [10]
  {
    BlobSnoc(texts, t);
  }

  predicate AllEncode<T(!new)>(entries: seq<T>, encode: T -> Option<seq<byte>>) {
    forall i :: 0 <= i < |entries| ==> encode(entries[i]).Some?
  }

  function Texts<T(!new)>(entries: seq<T>, encode: T -> Option<seq<byte>>): (r: seq<seq<byte>>)
    requires AllEncode(entries, encode)
    ensures |r| == |entries|
  {
    seq(|entries|, i requires 0 <= i < |entries| => encode(entries[i]).value)
  }

  /** MarshalJobLogs: all entries or, when one cannot be encoded, an error. */
  method MarshalJobLogs<T(!new)>(entries: seq<T>, encode: T -> Option<seq<byte>>) returns (r: Option<seq<byte>>)
    ensures r.Some? <==> AllEncode(entries, encode)
    ensures r.Some? ==> r.value == Blob(Texts(entries, encode))
  {
    var buf := [];
    for i := 0 to |entries|
      invariant AllEncode(entries[..i], encode) && buf == Blob(Texts(entries[..i], encode))
    {
      var text := encode(entries[i]);
      if text.None? { return None; }
      buf := buf + (text.value + [NEWLINE]);
      BlobSnoc(Texts(entries[..i], encode), text.value);
      assert Texts(entries[..i + 1], encode) == Texts(entries[..i], encode) + [text.value];
    }
    assert entries[..|entries|] == entries;
    r := Some(buf);
  }

  // ---- reading ----

  /** The lines that a newline ends, and the bytes after the last newline. */
  datatype Scan = Scan(lines: seq<seq<byte>>, rest: seq<byte>)

  function Scanned(s: seq<byte>): Scan {
    if s == [] then Scan([], [])
    else
      var before, b := Scanned(s[..|s| - 1]), s[|s| - 1];
      if b == NEWLINE then Scan(before.lines + [before.rest], []) else before.(rest := before.rest + [b])
  }

  /** The lines of a blob; bytes after the last newline are a line too. */
  function Lines(s: seq<byte>): seq<seq<byte>> {
    if Scanned(s).rest == [] then Scanned(s).lines else Scanned(s).lines + [Scanned(s).rest]
  }

  function DropReturn(s: seq<byte>): seq<byte> {
    if s != [] && s[|s| - 1] == RETURN then s[..|s| - 1] else s
  }

  /** The UTF-8 forms of unicode.IsSpace, by length. */
  predicate Space1(a: byte) { 9 <= a <= 13 || a == 32 }

  predicate Space2(a: byte, b: byte) { a == 0xC2 && (b == 0x85 || b == 0xA0) }

  predicate Space3(a: byte, b: byte, c: byte) {
    || (a == 0xE1 && b == 0x9A && c == 0x80)
    || (a == 0xE2 && b == 0x80 && (0x80 <= c <= 0x8A || c == 0xA8 || c == 0xA9 || c == 0xAF))
    || (a == 0xE2 && b == 0x81 && c == 0x9F)
    || (a == 0xE3 && b == 0x80 && c == 0x80)
  }

  /** The length of the white space character that `s` begins with, or 0. */
  function SpaceBefore(s: seq<byte>): (n: nat)
    ensures n <= |s| && (s != [] && s[0] == OPEN ==> n == 0)
  {
    if |s| >= 1 && Space1(s[0]) then 1
    else if |s| >= 2 && Space2(s[0], s[1]) then 2
    else if |s| >= 3 && Space3(s[0], s[1], s[2]) then 3
    else 0
  }

  /** The length of the white space character that `s` ends with, or 0. */
  function SpaceAfter(s: seq<byte>): (n: nat)
    ensures n <= |s| && (s != [] && s[|s| - 1] == CLOSE ==> n == 0)
  {
    var k := |s|;
    if k >= 1 && Space1(s[k - 1]) then 1
    else if k >= 2 && Space2(s[k - 2], s[k - 1]) then 2
    else if k >= 3 && Space3(s[k - 3], s[k - 2], s[k - 1]) then 3
    else 0
  }

  function TrimLeft(s: seq<byte>): seq<byte> {
    var n := SpaceBefore(s);
    if n == 0 then s else TrimLeft(s[n..])
  }

  function TrimRight(s: seq<byte>): seq<byte> {
    var n := SpaceAfter(s);
    if n == 0 then s else TrimRight(s[..|s| - n])
  }

  /** What one scanned line contributes: an entry, or nothing when it is blank or corrupt. */
  function Decoded<T>(raw: seq<byte>, decode: seq<byte> -> Option<T>): seq<T> {
    var line := TrimRight(TrimLeft(DropReturn(raw)));
    if line == [] then [] else match decode(line) case None => [] case Some(e) => [e]
  }

  function DecodedAll<T>(raws: seq<seq<byte>>, decode: seq<byte> -> Option<T>): seq<T> {
    if raws == [] then [] else DecodedAll(raws[..|raws| - 1], decode) + Decoded(raws[|raws| - 1], decode)
  }

  predicate Scannable(raws: seq<seq<byte>>) { forall i :: 0 <= i < |raws| ==> |raws[i]| < CAP }

  /** The scanner takes lines of less than four mebibytes. */
  lemma ScannableIs(raws: seq<seq<byte>>)
    ensures Scannable(raws) <==> forall raw :: raw in raws ==> |raw| < 4_194_304
  {
    if i :| 0 <= i < |raws| && |raws[i]| >= CAP { assert raws[i] in raws; }
  }

  lemma TrimmedEntry(t: seq<byte>)
    requires t != [] && t[0] == OPEN && t[|t| - 1] == CLOSE
    ensures DropReturn(t) == t && DropReturn(t + [13]) == t && TrimRight(TrimLeft(t)) == t
  {
    assert (t + [13])[..|t|] == t;
  }

  lemma TrimmedPadding(t: seq<byte>)
    requires t != [] && t[0] == OPEN && t[|t| - 1] == CLOSE
    ensures TrimRight(TrimLeft([32] + t + [9])) == t
  {
    var padded := [32] + t + [9];
    assert padded[1..] == t + [9] && SpaceBefore(t + [9]) == 0 && (t + [9])[..|t|] == t;
    assert TrimLeft(padded) == TrimLeft(t + [9]) && TrimRight(t + [9]) == TrimRight(t);
  }

  lemma TrimmedBlank()
    ensures TrimRight(TrimLeft(DropReturn([32, 13]))) == []
  {
    assert [32, 13][..1] == [32] && TrimLeft([32]) == TrimLeft([32][1..]);
  }

  /** White space around an entry, and a carriage return before the newline, do not matter, and a
      line of nothing else is skipped. */
  lemma PaddingIsIgnored<T>(t: seq<byte>, decode: seq<byte> -> Option<T>)
    requires t != [] && t[0] == OPEN && t[|t| - 1] == CLOSE
    ensures Decoded(t, decode) == if decode(t).Some? then [decode(t).value] else []
    ensures Decoded(t + [13], decode) == Decoded([32] + t + [9], decode) == Decoded(t, decode)
    ensures Decoded([32, 13], decode) == []
  {
    TrimmedEntry(t);
    TrimmedPadding(t);
    TrimmedBlank();
  }

  /** What a token adds to the entries read so far. */
  method ReadLine<T>(raw: seq<byte>, decode: seq<byte> -> Option<T>, out: seq<T>) returns (r: seq<T>)
    ensures r == out + Decoded(raw, decode)
  {
    r := out;
    var line := TrimRight(TrimLeft(DropReturn(raw)));
    if |line| != 0 {
      var e := decode(line);
      if e.Some? { r := out + [e.value]; }
    }
  }

  lemma DecodedSnoc<T>(raws: seq<seq<byte>>, raw: seq<byte>, decode: seq<byte> -> Option<T>)
    ensures DecodedAll(raws + [raw], decode) == DecodedAll(raws, decode) + Decoded(raw, decode)
  {
    var all := raws + [raw];
    assert all[..|all| - 1] == raws && all[|all| - 1] == raw;
  }

  lemma ScannableSnoc(raws: seq<seq<byte>>, raw: seq<byte>)
    ensures Scannable(raws + [raw]) <==> Scannable(raws) && |raw| < CAP
  {
    var all := raws + [raw];
    assert all[|raws|] == raw && forall i :: 0 <= i < |raws| ==> all[i] == raws[i];
  }

  /** One more byte. */
  lemma ScannedSnoc(s: seq<byte>, b: byte)
    ensures Scanned(s + [b]) ==
              if b == NEWLINE then Scan(Scanned(s).lines + [Scanned(s).rest], [])
              else Scanned(s).(rest := Scanned(s).rest + [b])
  {
    var all := s + [b];
    assert all[..|all| - 1] == s && all[|all| - 1] == b;
  }

  lemma ScannedByte(s: seq<byte>, i: nat)
    requires i < |s|
    ensures Scanned(s[..i + 1]) ==
              if s[i] == NEWLINE then Scan(Scanned(s[..i]).lines + [Scanned(s[..i]).rest], [])
              else Scanned(s[..i]).(rest := Scanned(s[..i]).rest + [s[i]])
  {
    ScannedSnoc(s[..i], s[i]);
    assert s[..i + 1] == s[..i] + [s[i]];
  }

  lemma {:induction false} LinesGrow(s: seq<byte>, i: nat)
    requires i <= |s|
    ensures Scanned(s[..i]).lines <= Scanned(s).lines
  {
    if i < |s| {
      LinesGrow(s[..|s| - 1], i);
      assert s[..|s| - 1][..i] == s[..i];
    } else {
      assert s[..i] == s;
    }
  }

  /** A line that the scanner refuses is one of the blob's. */
  lemma RefusedLine(s: seq<byte>, i: nat)
    requires i < |s| && s[i] == NEWLINE && |Scanned(s[..i]).rest| >= CAP
    ensures !Scannable(Lines(s))
  {
    ScannedByte(s, i);
    LinesGrow(s, i + 1);
    var n := |Scanned(s[..i]).lines|;
    assert Lines(s)[n] == Scanned(s[..i + 1]).lines[n] == Scanned(s[..i]).rest;
  }

  /** After scanning `sc` and reading its lines: `token` is the line begun, `out` what was read. */
  predicate Reading<T(==)>(sc: Scan, token: seq<byte>, out: seq<T>, decode: seq<byte> -> Option<T>) {
    sc.rest == token && Scannable(sc.lines) && out == DecodedAll(sc.lines, decode)
  }

  lemma ReadOn<T>(blob: seq<byte>, i: nat, token: seq<byte>, out: seq<T>, decode: seq<byte> -> Option<T>)
    requires i < |blob| && Reading(Scanned(blob[..i]), token, out, decode)
    ensures blob[i] != NEWLINE ==> Reading(Scanned(blob[..i + 1]), token + [blob[i]], out, decode)
    ensures blob[i] == NEWLINE && |token| < CAP ==>
              Reading(Scanned(blob[..i + 1]), [], out + Decoded(token, decode), decode)
    ensures blob[i] == NEWLINE && |token| >= CAP ==> !Scannable(Lines(blob))
  {
    ScannedByte(blob, i);
    DecodedSnoc(Scanned(blob[..i]).lines, token, decode);
    ScannableSnoc(Scanned(blob[..i]).lines, token);
    if blob[i] == NEWLINE && |token| >= CAP { RefusedLine(blob, i); }
  }

  lemma ReadEnd<T>(blob: seq<byte>, token: seq<byte>, out: seq<T>, decode: seq<byte> -> Option<T>)
    requires Reading(Scanned(blob), token, out, decode)
    ensures Scannable(Lines(blob)) <==> |token| < CAP
    ensures DecodedAll(Lines(blob), decode) == if token == [] then out else out + Decoded(token, decode)
  {
    DecodedSnoc(Scanned(blob).lines, token, decode);
    ScannableSnoc(Scanned(blob).lines, token);
  }

  /** The first `i` bytes are scanned, those from `start` on are a line begun. */
  predicate ReadTo<T(==)>(blob: seq<byte>, i: nat, start: nat, out: seq<T>, decode: seq<byte> -> Option<T>) {
    start <= i <= |blob| && Reading(Scanned(blob[..i]), blob[start..i], out, decode)
  }

  /** The end of a line: it is read, or refused. */
  method EndLine<T(==)>(blob: seq<byte>, i: nat, start: nat, out: seq<T>, decode: seq<byte> -> Option<T>)
    returns (refused: bool, out': seq<T>)
    requires i < |blob| && blob[i] == NEWLINE && ReadTo(blob, i, start, out, decode)
    ensures refused ==> !Scannable(Lines(blob))
    ensures !refused ==> ReadTo(blob, i + 1, i + 1, out', decode)
  {
    ReadOn(blob, i, blob[start..i], out, decode);
    assert blob[i + 1..i + 1] == [];
    if i - start >= CAP { return true, out; }
    out' := ReadLine(blob[start..i], decode, out);
    refused := false;
  }

  lemma InLine<T>(blob: seq<byte>, i: nat, start: nat, out: seq<T>, decode: seq<byte> -> Option<T>)
    requires i < |blob| && blob[i] != NEWLINE && ReadTo(blob, i, start, out, decode)
    ensures ReadTo(blob, i + 1, start, out, decode)
  {
    ReadOn(blob, i, blob[start..i], out, decode);
    assert blob[start..i + 1] == blob[start..i] + [blob[i]];
  }

  lemma ReadStart<T>(blob: seq<byte>, decode: seq<byte> -> Option<T>)
    ensures ReadTo(blob, 0, 0, [], decode)
  {
    assert blob[..0] == [] && blob[0..0] == [];
  }

  /** ReadJobLogs: an error only when some line reaches the scanner's limit. */
  method ReadJobLogs<T(==)>(blob: seq<byte>, decode: seq<byte> -> Option<T>) returns (r: Option<seq<T>>)
    ensures r == if Scannable(Lines(blob)) then Some(DecodedAll(Lines(blob), decode)) else None
  {
    var out, start: nat := [], 0;
    ReadStart(blob, decode);
    for i := 0 to |blob|
      invariant ReadTo(blob, i, start, out, decode)
    {
      if blob[i] == NEWLINE {
        var refused;
        refused, out := EndLine(blob, i, start, out, decode);
        if refused { return None; }
        start := i + 1;
      } else {
        InLine(blob, i, start, out, decode);
      }
    }
    r := ReadRest(blob, start, out, decode);
  }

  /** The bytes after the last newline. */
  method ReadRest<T(==)>(blob: seq<byte>, start: nat, out: seq<T>, decode: seq<byte> -> Option<T>)
    returns (r: Option<seq<T>>)
    requires ReadTo(blob, |blob|, start, out, decode)
    ensures r == if Scannable(Lines(blob)) then Some(DecodedAll(Lines(blob), decode)) else None
  {
    assert blob[..|blob|] == blob && blob[start..] == blob[start..|blob|];
    ReadEnd(blob, blob[start..], out, decode);
    if |blob| - start >= CAP { return None; }
    if start < |blob| {
      var more := ReadLine(blob[start..], decode, out);
      return Some(more);
    }
    return Some(out);
  }

  // ---- truncation ----

  /** Reading JSON from the left: how many brackets are open, and whether inside a string and
      behind a backslash in it. */
  datatype Lexer = Lexer(depth: int, quoted: bool, escaped: bool)

  const QUOTE: byte := 0x22
  const BACKSLASH: byte := 0x5C

  function Lex(s: seq<byte>): Lexer {
    if s == [] then Lexer(0, false, false)
    else
      var l, b := Lex(s[..|s| - 1]), s[|s| - 1];
      if l.quoted then
        if l.escaped then l.(escaped := false)
        else if b == BACKSLASH then l.(escaped := true)
        else l.(quoted := b != QUOTE)
      else if b == QUOTE then l.(quoted := true)
      else if b == OPEN || b == 0x5B then l.(depth := l.depth + 1)
      else if b == CLOSE || b == 0x5D then l.(depth := l.depth - 1)
      else l
  }

  /** After some bytes every bracket is closed again. */
  predicate Returns(s: seq<byte>) { exists k :: 0 < k <= |s| && Lex(s[..k]).depth == 0 }

  predicate Braced(t: seq<byte>) { |t| >= 2 && t[0] == OPEN && t[|t| - 1] == CLOSE }

  predicate SingleLine(t: seq<byte>) { t != [] && NEWLINE !in t }

  /** The bracket that the text opens with is closed by its last byte and no earlier one. */
  predicate ClosesAtEnd(t: seq<byte>) {
    Lex(t).depth == 0 && forall k :: 0 < k < |t| ==> Lex(t[..k]).depth > 0
  }

  /** An object on one line; a raw newline inside a string is not JSON (section 7 of RFC 8259). */
  predicate ObjectText(t: seq<byte>) { Braced(t) && SingleLine(t) && ClosesAtEnd(t) }

  /** What the JSON codec promises: an encoded entry is an object on one line and decodes, and a
      text that opens an object decodes only if it also closes it. */
  ghost predicate Codec<T(!new)>(encode: T -> Option<seq<byte>>, decode: seq<byte> -> Option<T>) {
    && (forall e :: encode(e).Some? ==> ObjectText(encode(e).value) && decode(encode(e).value).Some?)
    && (forall s :: s != [] && s[0] == OPEN && decode(s).Some? ==> Returns(s))
  }

  predicate OnlyWholeDecodes<T(!new)>(t: seq<byte>, decode: seq<byte> -> Option<T>) {
    decode(t).Some? && forall k :: 0 < k < |t| ==> decode(t[..k]).None?
  }

  /** A torn object never closes. */
  lemma TornNeverReturns(t: seq<byte>, k: nat)
    requires ClosesAtEnd(t) && 0 < k < |t|
    ensures !Returns(t[..k])
  {
    forall i | 0 < i <= k ensures Lex(t[..k][..i]).depth != 0 { assert t[..k][..i] == t[..i]; }
  }

  /** So no proper prefix of an encoded entry decodes. */
  lemma OnlyWholeEntriesDecode<T(!new)>(e: T, encode: T -> Option<seq<byte>>, decode: seq<byte> -> Option<T>)
    requires Codec(encode, decode) && encode(e).Some?
    ensures ObjectText(encode(e).value) && OnlyWholeDecodes(encode(e).value, decode)
  {
    var t := encode(e).value;
    forall k | 0 < k < |t| ensures decode(t[..k]).None? { TornNeverReturns(t, k); }
  }

  predicate GoodTexts<T(!new)>(texts: seq<seq<byte>>, decode: seq<byte> -> Option<T>) {
    forall i :: 0 <= i < |texts| ==> Braced(texts[i]) && OnlyWholeDecodes(texts[i], decode)
  }

  predicate AllSingle(texts: seq<seq<byte>>) { forall i :: 0 <= i < |texts| ==> SingleLine(texts[i]) }

  /** How many texts lie wholly within the first `n` bytes of their blob. */
  function Inside(texts: seq<seq<byte>>, n: nat): (k: nat)
    ensures k <= |texts|
  {
    if texts == [] || n < |texts[0]| then 0
    else 1 + if n > |texts[0]| then Inside(texts[1..], n - |texts[0]| - 1) else 0
  }

  lemma PlainStep(s: seq<byte>, before: seq<byte>, b: byte, lines: seq<seq<byte>>, rest: seq<byte>)
    requires s == before + [b] && b != NEWLINE && Scanned(before) == Scan(lines, rest)
    ensures Scanned(s) == Scan(lines, rest + [b])
  {
    ScannedSnoc(before, b);
  }

  lemma {:induction false} ScannedPlain(s: seq<byte>, l: seq<byte>, lines: seq<seq<byte>>, rest: seq<byte>)
    requires NEWLINE !in l && Scanned(s) == Scan(lines, rest)
    ensures Scanned(s + l) == Scan(lines, rest + l)
  {
    if l == [] {
      assert s + l == s && rest + l == rest;
    } else {
      var init, b := l[..|l| - 1], l[|l| - 1];
      ScannedPlain(s, init, lines, rest);
      assert s + l == (s + init) + [b] && rest + l == (rest + init) + [b];
      PlainStep(s + l, s + init, b, lines, rest + init);
    }
  }

  lemma ScannedLine(s: seq<byte>, l: seq<byte>)
    requires NEWLINE !in l && Scanned(s).rest == []
    ensures Scanned(s + l + [NEWLINE]) == Scan(Scanned(s).lines + [l], [])
  {
    ScannedPlain(s, l, Scanned(s).lines, []);
    ScannedSnoc(s + l, NEWLINE);
    assert [] + l == l;
  }

  lemma {:induction false} ScannedBlob(texts: seq<seq<byte>>)
    requires AllSingle(texts)
    ensures Scanned(Blob(texts)) == Scan(texts, [])
  {
    if texts != [] {
      var n := |texts| - 1;
      ScannedBlob(texts[..n]);
      BlobSnoc(texts[..n], texts[n]);
      assert texts == texts[..n] + [texts[n]];
      ScannedLine(Blob(texts[..n]), texts[n]);
      assert Blob(texts) == Blob(texts[..n]) + texts[n] + [NEWLINE];
    }
  }

  /** Where a cut falls: after some whole lines, within the next text or at its end. */
  lemma {:induction false} CutPoint(texts: seq<seq<byte>>, n: nat) returns (j: nat, m: nat)
    requires n <= |Blob(texts)|
    ensures j <= |texts| && (j == |texts| ==> m == 0) && (j < |texts| ==> m <= |texts[j]|)
    ensures Blob(texts)[..n] == Blob(texts[..j]) + if j < |texts| then texts[j][..m] else []
    ensures (forall i :: 0 <= i < |texts| ==> texts[i] != []) ==>
              Inside(texts, n) == if j < |texts| && m == |texts[j]| then j + 1 else j
  {
    if texts == [] {
      j, m := 0, 0;
    } else if n <= |texts[0]| {
      j, m := 0, n;
      assert Blob(texts[..0]) == [];
    } else {
      var t := texts[0];
      j, m := CutPoint(texts[1..], n - |t| - 1);
      assert texts[..j + 1] == [t] + texts[1..][..j] && ([t] + texts[1..][..j])[1..] == texts[1..][..j];
      assert Blob(texts[..j + 1]) == t + [NEWLINE] + Blob(texts[1..][..j]);
      assert Blob(texts)[..n] == t + [NEWLINE] + Blob(texts[1..])[..n - |t| - 1];
      j := j + 1;
    }
  }

  /** What the scanner has seen at the cut. */
  lemma CutScanned(texts: seq<seq<byte>>, n: nat) returns (j: nat, m: nat)
    requires n <= |Blob(texts)| && AllSingle(texts)
    ensures j <= |texts| && (j == |texts| ==> m == 0) && (j < |texts| ==> m <= |texts[j]|)
    ensures Scanned(Blob(texts)[..n]) == Scan(texts[..j], if j < |texts| then texts[j][..m] else [])
    ensures Inside(texts, n) == if j < |texts| && m == |texts[j]| then j + 1 else j
  {
    j, m := CutPoint(texts, n);
    var head := Blob(texts[..j]);
    ScannedBlob(texts[..j]);
    if j == |texts| {
      assert Blob(texts)[..n] == head;
    } else {
      var part := texts[j][..m];
      ScannedPlain(head, part, texts[..j], []);
      assert [] + part == part;
    }
  }

  /** The lines of a truncated blob: the texts inside it, and perhaps a proper prefix of the next. */
  lemma TruncatedLines(texts: seq<seq<byte>>, n: nat) returns (tail: seq<seq<byte>>)
    requires n <= |Blob(texts)| && AllSingle(texts)
    ensures Lines(Blob(texts)[..n]) == texts[..Inside(texts, n)] + tail
    ensures |tail| <= 1
    ensures tail != [] ==> Inside(texts, n) < |texts| && tail[0] < texts[Inside(texts, n)]
  {
    var j, m := CutScanned(texts, n);
    if j < |texts| && 0 < m < |texts[j]| {
      tail := [texts[j][..m]];
      TornLines(Blob(texts)[..n], texts, j, m);
    } else {
      tail := [];
      if j < |texts| { TornLines(Blob(texts)[..n], texts, j, m); }
    }
  }

  lemma TornLines(s: seq<byte>, texts: seq<seq<byte>>, j: nat, m: nat)
    requires j < |texts| && m <= |texts[j]| && texts[j] != [] && Scanned(s) == Scan(texts[..j], texts[j][..m])
    ensures m == 0 ==> Lines(s) == texts[..j]
    ensures 0 < m < |texts[j]| ==> Lines(s) == texts[..j] + [texts[j][..m]]
    ensures m == |texts[j]| ==> Lines(s) == texts[..j + 1]
  {
    assert m == |texts[j]| ==> texts[j][..m] == texts[j];
    assert texts[..j + 1] == texts[..j] + [texts[j]];
  }

  lemma {:induction false} TrimRightPrefix(s: seq<byte>)
    ensures TrimRight(s) <= s
    ensures s != [] && s[|s| - 1] == CLOSE ==> TrimRight(s) == s
  {
    var n := SpaceAfter(s);
    if n != 0 { TrimRightPrefix(s[..|s| - n]); }
  }

  lemma OpenIsNoSpace(s: seq<byte>)
    requires s != [] ==> s[0] == OPEN
    ensures TrimLeft(s) == s
  {}

  lemma DecodedIs<T>(raw: seq<byte>, line: seq<byte>, decode: seq<byte> -> Option<T>)
    requires line == TrimRight(TrimLeft(DropReturn(raw)))
    ensures decode(line).None? || line == [] ==> Decoded(raw, decode) == []
    ensures decode(line).Some? && line != [] ==> Decoded(raw, decode) == [decode(line).value]
  {}

  /** What is left of a text after trimming: all of a whole one, less than all of a torn one. */
  lemma TrimmedText(t: seq<byte>, p: seq<byte>) returns (k: nat)
    requires Braced(t) && p <= t
    ensures k <= |p| && TrimRight(TrimLeft(DropReturn(p))) == t[..k]
    ensures p == t ==> k == |t|
  {
    var d := DropReturn(p);
    assert d == t[..|d|];
    OpenIsNoSpace(d);
    TrimRightPrefix(d);
    k := |TrimRight(d)|;
  }

  /** A whole text gives its entry; a proper prefix of one gives nothing. */
  lemma LineVerdict<T(!new)>(t: seq<byte>, p: seq<byte>, decode: seq<byte> -> Option<T>)
    requires Braced(t) && OnlyWholeDecodes(t, decode) && p <= t
    ensures Decoded(p, decode) == if p == t then [decode(t).value] else []
  {
    var k := TrimmedText(t, p);
    DecodedIs(p, t[..k], decode);
    assert p == t ==> t[..k] == t;
  }

  lemma {:induction false} WholeLines<T(!new)>(texts: seq<seq<byte>>, decode: seq<byte> -> Option<T>)
    requires GoodTexts(texts, decode)
    ensures |DecodedAll(texts, decode)| == |texts|
    ensures forall i :: 0 <= i < |texts| ==> DecodedAll(texts, decode)[i] == decode(texts[i]).value
  {
    if texts != [] {
      var n := |texts| - 1;
      var init, t := texts[..n], texts[n];
      WholeLines(init, decode);
      LineVerdict(t, t, decode);
      DecodedSnoc(init, t, decode);
      assert texts == init + [t];
    }
  }

  /** Reading the lines of a truncated blob ignores the torn tail. */
  lemma TailAddsNothing<T(!new)>(texts: seq<seq<byte>>, k: nat, tail: seq<seq<byte>>, decode: seq<byte> -> Option<T>)
    requires GoodTexts(texts, decode) && k <= |texts| && |tail| <= 1
    requires tail != [] ==> k < |texts| && tail[0] < texts[k]
    ensures DecodedAll(texts[..k] + tail, decode) == DecodedAll(texts[..k], decode)
  {
    if tail == [] {
      assert texts[..k] + tail == texts[..k];
    } else {
      LineVerdict(texts[k], tail[0], decode);
      assert (texts[..k] + tail)[..k] == texts[..k];
    }
  }

  /** What reading a blob cut after `n` bytes yields, given how its texts decode: the entries
      written whole, in order, and nothing else. */
  ghost predicate ReadsBack<T(!new)>(texts: seq<seq<byte>>, n: nat, read: seq<T>, decode: seq<byte> -> Option<T>) {
    && |read| == Inside(texts, n)
    && forall i :: 0 <= i < |read| ==> decode(texts[i]) == Some(read[i])
  }

  lemma TextsReadBack<T(!new)>(texts: seq<seq<byte>>, n: nat, decode: seq<byte> -> Option<T>)
    requires GoodTexts(texts, decode) && AllSingle(texts) && n <= |Blob(texts)|
    ensures ReadsBack(texts, n, DecodedAll(Lines(Blob(texts)[..n]), decode), decode)
  {
    var tail := TruncatedLines(texts, n);
    TailAddsNothing(texts, Inside(texts, n), tail, decode);
    WholeTextsReadBack(texts, n, decode);
  }

  lemma WholeTextsReadBack<T(!new)>(texts: seq<seq<byte>>, n: nat, decode: seq<byte> -> Option<T>)
    requires GoodTexts(texts, decode)
    ensures ReadsBack(texts, n, DecodedAll(texts[..Inside(texts, n)], decode), decode)
  {
    var whole := texts[..Inside(texts, n)];
    assert forall i :: 0 <= i < |whole| ==> whole[i] == texts[i];
    WholeLines(whole, decode);
  }

  lemma TruncatedScannable(texts: seq<seq<byte>>, n: nat)
    requires n <= |Blob(texts)| && AllSingle(texts) && Scannable(texts)
    ensures Scannable(Lines(Blob(texts)[..n]))
  {
    var tail := TruncatedLines(texts, n);
    TailScannable(texts, Inside(texts, n), tail);
  }

  lemma TailScannable(texts: seq<seq<byte>>, k: nat, tail: seq<seq<byte>>)
    requires Scannable(texts) && k <= |texts| && |tail| <= 1
    requires tail != [] ==> k < |texts| && tail[0] < texts[k]
    ensures Scannable(texts[..k] + tail)
  {}

  predicate EntryText<T(!new)>(t: seq<byte>, decode: seq<byte> -> Option<T>) {
    ObjectText(t) && OnlyWholeDecodes(t, decode)
  }

  lemma EntryTexts<T(!new)>(texts: seq<seq<byte>>, decode: seq<byte> -> Option<T>)
    requires forall i :: 0 <= i < |texts| ==> EntryText(texts[i], decode)
    ensures GoodTexts(texts, decode) && AllSingle(texts)
  {
    forall i | 0 <= i < |texts| ensures Braced(texts[i]) && SingleLine(texts[i]) && OnlyWholeDecodes(texts[i], decode) {
      assert EntryText(texts[i], decode);
    }
  }

  /** Truncation safety, for every cut of the blob of any entries: with every line below the
      scanner's limit reading succeeds, and it yields the entries written whole. */
  lemma TruncatedReadsBack<T(!new)>(entries: seq<T>, n: nat, encode: T -> Option<seq<byte>>,
      decode: seq<byte> -> Option<T>)
    requires Codec(encode, decode) && AllEncode(entries, encode) && n <= |Blob(Texts(entries, encode))|
    ensures ReadsBack(Texts(entries, encode), n, DecodedAll(Lines(Blob(Texts(entries, encode))[..n]), decode), decode)
    ensures Scannable(Texts(entries, encode)) ==> Scannable(Lines(Blob(Texts(entries, encode))[..n]))
  {
    forall i | 0 <= i < |entries| ensures EntryText(Texts(entries, encode)[i], decode) {
      OnlyWholeEntriesDecode(entries[i], encode, decode);
    }
    EntryTexts(Texts(entries, encode), decode);
    TextsReadBack(Texts(entries, encode), n, decode);
    if Scannable(Texts(entries, encode)) { TruncatedScannable(Texts(entries, encode), n); }
  }

  lemma {:induction false} InsideAll(texts: seq<seq<byte>>)
    ensures Inside(texts, |Blob(texts)|) == |texts|
  {
    if texts != [] { InsideAll(texts[1..]); }
  }

  /** A blob that is not cut yields an entry for each text. */
  lemma UncutReadsBack<T(!new)>(entries: seq<T>, encode: T -> Option<seq<byte>>, decode: seq<byte> -> Option<T>,
      texts: seq<seq<byte>>, read: seq<T>)
    requires Codec(encode, decode) && AllEncode(entries, encode) && texts == Texts(entries, encode)
    requires read == DecodedAll(Lines(Blob(texts)), decode)
    ensures |read| == |texts| && forall i :: 0 <= i < |read| ==> decode(texts[i]) == Some(read[i])
  {
    TruncatedReadsBack(entries, |Blob(texts)|, encode, decode);
    InsideAll(texts);
    assert Blob(texts)[..|Blob(texts)|] == Blob(texts);
  }

  /** An uncut blob reads back as all the entries when the codec is exact on them. */
  lemma WholeBlobRoundTrip<T(!new)>(entries: seq<T>, encode: T -> Option<seq<byte>>, decode: seq<byte> -> Option<T>)
    requires Codec(encode, decode) && AllEncode(entries, encode)
    requires forall i :: 0 <= i < |entries| ==> decode(encode(entries[i]).value) == Some(entries[i])
    ensures DecodedAll(Lines(Blob(Texts(entries, encode))), decode) == entries
  {
    var texts := Texts(entries, encode);
    var read := DecodedAll(Lines(Blob(texts)), decode);
    UncutReadsBack(entries, encode, decode, texts, read);
    forall i | 0 <= i < |entries| ensures read[i] == entries[i] {
      assert decode(texts[i]) == Some(read[i]);
    }
  }
}
