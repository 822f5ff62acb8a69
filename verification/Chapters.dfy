/** Flattening Audible's chapter tree into chapter marks
    (internal/books/liberate/chapters.go flattenChapters). */
module Chapters {
  import opened Decimal
  import opened Int64
  import opened StableSort

  datatype Chapter = Chapter(title: string, start: int64, length: int64, chapters: seq<Chapter>)

  /** The chapter tree and the declared runtime; the branding offsets are not consulted. */
  datatype ChapterInfo = ChapterInfo(runtime: int64, chapters: seq<Chapter>)

  datatype Flat = Flat(title: string, start: int64, end: int64)

  // ---- titles ----

  const SEPARATOR := " \U{00B7} "

  /** unicode.IsSpace. */
  predicate IsSpace(c: char) {
    || '\t' <= c <= '\r' || c == ' ' || c == '\U{0085}' || c == '\U{00A0}' || c == '\U{1680}'
    || '\U{2000}' <= c <= '\U{200A}' || '\U{2028}' <= c <= '\U{2029}'
    || c == '\U{202F}' || c == '\U{205F}' || c == '\U{3000}'
  }

  function TrimLeft(s: string): string {
    if s != [] && IsSpace(s[0]) then TrimLeft(s[1..]) else s
  }

  function TrimRight(s: string): string {
    if s != [] && IsSpace(s[|s| - 1]) then TrimRight(s[..|s| - 1]) else s
  }

  function TrimSpace(s: string): string { TrimRight(TrimLeft(s)) }

  predicate AllSpace(s: string) { forall i :: 0 <= i < |s| ==> IsSpace(s[i]) }

  lemma {:induction false} TrimLeftIs(s: string) returns (n: nat)
    ensures n <= |s| && TrimLeft(s) == s[n..] && (n < |s| ==> !IsSpace(s[n]))
    ensures forall i :: 0 <= i < n ==> IsSpace(s[i])
  {
    if s != [] && IsSpace(s[0]) {
      var m := TrimLeftIs(s[1..]);
      n := m + 1;
      assert s[1..][m..] == s[n..];
      forall i | 0 <= i < n ensures IsSpace(s[i]) { assert i > 0 ==> IsSpace(s[1..][i - 1]); }
    } else {
      n := 0;
    }
  }

  lemma {:induction false} TrimRightIs(s: string) returns (n: nat)
    ensures n <= |s| && TrimRight(s) == s[..n] && (n > 0 ==> !IsSpace(s[n - 1]))
    ensures forall i :: n <= i < |s| ==> IsSpace(s[i])
  {
    if s != [] && IsSpace(s[|s| - 1]) {
      n := TrimRightIs(s[..|s| - 1]);
      assert s[..|s| - 1][..n] == s[..n];
      forall i | n <= i < |s| ensures IsSpace(s[i]) { assert i < |s| - 1 ==> IsSpace(s[..|s| - 1][i]); }
    } else {
      n := |s|;
    }
  }

  /** Trimming takes exactly the white space at both ends: nothing is left of a blank title, and what
      is left of another begins and ends with its first and last character that is none. */
  lemma TrimSpaceIs(s: string) returns (i: nat, j: nat)
    ensures i <= j <= |s| && TrimSpace(s) == s[i..j] && (i == j <==> AllSpace(s))
    ensures forall k :: 0 <= k < i || j <= k < |s| ==> IsSpace(s[k])
    ensures i < j ==> !IsSpace(s[i]) && !IsSpace(s[j - 1])
  {
    i := TrimLeftIs(s);
    var n := TrimRightIs(s[i..]);
    j := i + n;
    assert s[i..][..n] == s[i..j];
    forall k | j <= k < |s| ensures IsSpace(s[k]) { assert IsSpace(s[i..][k - i]); }
  }

  /** What a part hands down to its children. */
  function ChildPrefix(prefix: string, title: string): string {
    if prefix != "" && title != "" then prefix + SEPARATOR + title
    else if title == "" then prefix
    else title
  }

  /** The title of a leaf that is the `n`-th mark, counted from zero. */
  function LeafTitle(prefix: string, title: string, n: nat): string {
    var full := if prefix == "" then title else if title == "" then prefix else prefix + SEPARATOR + title;
    if full == "" then "Chapter " + Digits(n + 1) else full
  }

  // ---- the walk ----

  /** The marks of the leaves below `nodes`, in tree order; `n` marks precede them. */
  function Walk(nodes: seq<Chapter>, prefix: string, n: nat): seq<Flat>
    decreases nodes, 1
  {
    if nodes == [] then []
    else
      var first := WalkNode(nodes[0], prefix, n);
      first + Walk(nodes[1..], prefix, n + |first|)
  }

  function WalkNode(node: Chapter, prefix: string, n: nat): seq<Flat>
    decreases node, 0
  {
    var title := TrimSpace(node.title);
    if node.chapters != [] then Walk(node.chapters, ChildPrefix(prefix, title), n)
    else [Flat(LeafTitle(prefix, title, n), node.start, Wrap(node.start + node.length))]
  }

  /** A leaf with the titles on its path from the root, itself included. */
  datatype Leaf = Leaf(path: seq<string>, start: int64, length: int64)

  /** The leaves of a forest in tree order. */
  function Leaves(nodes: seq<Chapter>, path: seq<string>): seq<Leaf>
    decreases nodes, 1
  {
    if nodes == [] then [] else LeavesOf(nodes[0], path) + Leaves(nodes[1..], path)
  }

  function LeavesOf(node: Chapter, path: seq<string>): seq<Leaf>
    decreases node, 0
  {
    if node.chapters != [] then Leaves(node.chapters, path + [node.title])
    else [Leaf(path + [node.title], node.start, node.length)]
  }

  /** The nonempty trimmed titles of a path. */
  function Parts(path: seq<string>): seq<string> {
    if path == [] then []
    else Parts(path[..|path| - 1]) + (if TrimSpace(path[|path| - 1]) == "" then [] else [TrimSpace(path[|path| - 1])])
  }

  function Join(parts: seq<string>): string {
    if parts == [] then ""
    else if |parts| == 1 then parts[0]
    else Join(parts[..|parts| - 1]) + SEPARATOR + parts[|parts| - 1]
  }

  /** The title a leaf should carry: its parts joined, or a number when it has none. */
  function TitleOf(path: seq<string>, n: nat): string {
    if Parts(path) == [] then "Chapter " + Digits(n + 1) else Join(Parts(path))
  }

  lemma {:induction false} JoinNonempty(path: seq<string>)
    ensures Join(Parts(path)) == "" <==> Parts(path) == []
    ensures forall i :: 0 <= i < |Parts(path)| ==> Parts(path)[i] != ""
  {
    if path != [] { JoinNonempty(path[..|path| - 1]); }
  }

  lemma JoinExtends(path: seq<string>, title: string)
    ensures ChildPrefix(Join(Parts(path)), TrimSpace(title)) == Join(Parts(path + [title]))
  {
    JoinNonempty(path);
    assert (path + [title])[..|path|] == path;
    var parts := Parts(path);
    if TrimSpace(title) != "" {
      assert Parts(path + [title]) == parts + [TrimSpace(title)];
      assert (parts + [TrimSpace(title)])[..|parts|] == parts;
    } else {
      assert Parts(path + [title]) == parts;
    }
  }

  lemma LeafTitleIsTitleOf(path: seq<string>, title: string, n: nat)
    ensures LeafTitle(Join(Parts(path)), TrimSpace(title), n) == TitleOf(path + [title], n)
  {
    JoinExtends(path, title);
    JoinNonempty(path + [title]);
  }

  function MarkOf(l: Leaf, n: nat): Flat { Flat(TitleOf(l.path, n), l.start, Wrap(l.start + l.length)) }

  /** The marks of the leaves `ls`, numbered from `n`. */
  function MarksOf(ls: seq<Leaf>, n: nat): (r: seq<Flat>)
    ensures |r| == |ls|
  {
    seq(|ls|, i requires 0 <= i < |ls| => MarkOf(ls[i], n + i))
  }

  lemma MarksConcat(a: seq<Leaf>, b: seq<Leaf>, n: nat)
    ensures MarksOf(a + b, n) == MarksOf(a, n) + MarksOf(b, n + |a|)
  {}

  lemma WalkCons(nodes: seq<Chapter>, prefix: string, n: nat)
    requires nodes != []
    ensures Walk(nodes, prefix, n) ==
              WalkNode(nodes[0], prefix, n) + Walk(nodes[1..], prefix, n + |WalkNode(nodes[0], prefix, n)|)
  {}

  lemma LeavesCons(nodes: seq<Chapter>, path: seq<string>)
    requires nodes != []
    ensures Leaves(nodes, path) == LeavesOf(nodes[0], path) + Leaves(nodes[1..], path)
  {}

  /** Joins the walk of the first node to the walk of the rest. */
  lemma WalkConsMarks(nodes: seq<Chapter>, prefix: string, n: nat, first: seq<Leaf>, rest: seq<Leaf>)
    requires nodes != [] && WalkNode(nodes[0], prefix, n) == MarksOf(first, n)
    requires Walk(nodes[1..], prefix, n + |first|) == MarksOf(rest, n + |first|)
    ensures Walk(nodes, prefix, n) == MarksOf(first + rest, n)
  {
    WalkCons(nodes, prefix, n);
    MarksConcat(first, rest, n);
  }

  /** The walk emits one mark per leaf, in tree order, titled by the path to it. */
  lemma {:induction false} WalkMarksLeaves(nodes: seq<Chapter>, path: seq<string>, n: nat)
    ensures Walk(nodes, Join(Parts(path)), n) == MarksOf(Leaves(nodes, path), n)
    decreases nodes, 1
  {
    if nodes != [] {
      var first, rest := LeavesOf(nodes[0], path), Leaves(nodes[1..], path);
      WalkNodeMarks(nodes[0], path, n);
      WalkMarksLeaves(nodes[1..], path, n + |first|);
      WalkConsMarks(nodes, Join(Parts(path)), n, first, rest);
      LeavesCons(nodes, path);
    }
  }

  lemma {:induction false} WalkNodeMarks(node: Chapter, path: seq<string>, n: nat)
    ensures WalkNode(node, Join(Parts(path)), n) == MarksOf(LeavesOf(node, path), n)
    decreases node, 0
  {
    if node.chapters != [] {
      JoinExtends(path, node.title);
      WalkMarksLeaves(node.chapters, path + [node.title], n);
    } else {
      LeafTitleIsTitleOf(path, node.title, n);
    }
  }

  ghost predicate Untitled(path: seq<string>) { forall i :: 0 <= i < |path| ==> TrimSpace(path[i]) == "" }

  lemma {:induction false} UntitledHasNoParts(path: seq<string>)
    ensures Parts(path) == [] <==> Untitled(path)
  {
    if path != [] {
      var init := path[..|path| - 1];
      UntitledHasNoParts(init);
      assert Untitled(path) <==> Untitled(init) && TrimSpace(path[|path| - 1]) == "" by {
        if Untitled(path) { forall i | 0 <= i < |init| ensures TrimSpace(init[i]) == "" { assert init[i] == path[i]; } }
        if Untitled(init) && TrimSpace(path[|path| - 1]) == "" {
          forall i | 0 <= i < |path| ensures TrimSpace(path[i]) == "" { assert i < |init| ==> init[i] == path[i]; }
        }
      }
    }
  }

  /** Titles from the root down: each nonblank one is put behind those above it, with a raised dot
      between spaces; a blank one changes nothing; without any, the mark has its number from one. */
  lemma TitleBelow(path: seq<string>, title: string, n: nat)
    ensures Untitled(path) && TrimSpace(title) == "" ==>
              TitleOf(path + [title], n) == "Chapter " + IntString(n + 1)
    ensures Untitled(path) && TrimSpace(title) != "" ==> TitleOf(path + [title], n) == TrimSpace(title)
    ensures !Untitled(path) && TrimSpace(title) == "" ==> TitleOf(path + [title], n) == TitleOf(path, n)
    ensures !Untitled(path) && TrimSpace(title) != "" ==>
              TitleOf(path + [title], n) == TitleOf(path, n) + [' ', '\U{00B7}', ' '] + TrimSpace(title)
  {
    UntitledHasNoParts(path);
    UntitledHasNoParts(path + [title]);
    JoinExtends(path, title);
    JoinNonempty(path);
    assert (path + [title])[..|path|] == path;
  }

  // ---- repairing the boundaries and dropping degenerate marks ----

  function StartOf(c: Flat): int { c.start }

  /** The end of the last mark: the runtime, else its own end, else a nominal second. */
  function LastEnd(c: Flat, runtime: int64): int64 {
    if runtime > c.start then runtime else if c.end <= c.start then Wrap(c.start + 1000) else c.end
  }

  /** Where mark `i` ends: where the next begins, or as the last one. */
  function EndAt(s: seq<Flat>, i: nat, runtime: int64): int64
    requires i < |s|
  {
    if i + 1 < |s| then s[i + 1].start else LastEnd(s[i], runtime)
  }

  function Repair(s: seq<Flat>, runtime: int64): (r: seq<Flat>)
    ensures |r| == |s|
  {
    seq(|s|, i requires 0 <= i < |s| => s[i].(end := EndAt(s, i, runtime)))
  }

  /** How the last mark ends: at the declared runtime if that lies behind its start, else where it
      ended before if that does, and else a nominal second after its start. */
  predicate EndsAs(was: Flat, end: int64, runtime: int64) {
    && (runtime > was.start ==> end == runtime)
    && (runtime <= was.start < was.end ==> end == was.end)
    && (runtime <= was.start && was.end <= was.start ==> end == Wrap(was.start + 1000))
  }

  lemma LastEndIs(c: Flat, runtime: int64)
    ensures EndsAs(c, LastEnd(c, runtime), runtime)
  {}

  /** Every other one ends where the next one starts; nothing else changes. */
  ghost predicate Repaired(s: seq<Flat>, t: seq<Flat>, runtime: int64) {
    && |t| == |s|
    && (forall i :: 0 <= i < |s| ==> t[i].title == s[i].title && t[i].start == s[i].start)
    && (forall i :: 0 <= i < |s| - 1 ==> t[i].end == s[i + 1].start)
    && (s != [] ==> EndsAs(s[|s| - 1], t[|s| - 1].end, runtime))
  }

  lemma EndAtIs(s: seq<Flat>, i: nat, runtime: int64)
    requires i < |s|
    ensures if i < |s| - 1 then EndAt(s, i, runtime) == s[i + 1].start else EndsAs(s[i], EndAt(s, i, runtime), runtime)
  {
    LastEndIs(s[i], runtime);
  }

  /** Whatever has these ends is repaired, and is the repair. */
  lemma RepairedBy(s: seq<Flat>, t: seq<Flat>, runtime: int64)
    requires |t| == |s| && forall i :: 0 <= i < |s| ==> t[i] == s[i].(end := EndAt(s, i, runtime))
    ensures Repaired(s, t, runtime) && t == Repair(s, runtime)
  {
    forall i | 0 <= i < |s| - 1 ensures t[i].end == s[i + 1].start { EndAtIs(s, i, runtime); }
    if s != [] { EndAtIs(s, |s| - 1, runtime); }
  }

  function Kept(s: seq<Flat>): seq<Flat> {
    if s == [] then []
    else Kept(s[..|s| - 1]) + (if s[|s| - 1].end > s[|s| - 1].start then [s[|s| - 1]] else [])
  }

  function Flattened(ci: ChapterInfo): seq<Flat> {
    Kept(Repair(Sort(Walk(ci.chapters, "", 0), StartOf), ci.runtime))
  }

  /** flattenChapters: walk, sort, then repair and filter in place. */
  method FlattenChapters(ci: ChapterInfo) returns (out: seq<Flat>)
    ensures out == Flattened(ci)
  {
    var sorted := Sort(Walk(ci.chapters, "", 0), StartOf);
    if sorted == [] { return []; }
    var a := new Flat[|sorted|](i requires 0 <= i < |sorted| => sorted[i]);
    assert a[..] == sorted;
    RepairInPlace(a, ci.runtime);
    var kept := FilterInPlace(a);
    out := a[..kept];
  }

  /** How one step of the loop ends its mark. */
  method EndOf(c: Flat, last: bool, next: int64, runtime: int64) returns (end: int64)
    ensures end == if last then LastEnd(c, runtime) else next
  {
    end := c.end;
    if !last {
      end := next;
    } else if runtime > c.start {
      end := runtime;
    } else if c.end <= c.start {
      end := Wrap(c.start + 1000);
    }
  }

  method RepairInPlace(a: array<Flat>, runtime: int64)
    modifies a
    ensures a[..] == Repair(old(a[..]), runtime)
    ensures Repaired(old(a[..]), a[..], runtime)
  {
    ghost var was := a[..];
    for i := 0 to a.Length
      invariant forall k :: 0 <= k < i ==> a[k] == was[k].(end := EndAt(was, k, runtime))
      invariant forall k :: i <= k < a.Length ==> a[k] == was[k]
    {
      var last := i + 1 == a.Length;
      var end := EndOf(a[i], last, if last then 0 else a[i + 1].start, runtime);
      a[i] := a[i].(end := end);
    }
    RepairedBy(was, a[..], runtime);
  }

  lemma KeptSnoc(s: seq<Flat>, i: nat)
    requires i < |s|
    ensures Kept(s[..i + 1]) == Kept(s[..i]) + (if s[i].end > s[i].start then [s[i]] else [])
  {
    assert s[..i + 1][..i] == s[..i];
  }

  /** Moves the marks that are not degenerate to the front and returns how many there are. */
  method FilterInPlace(a: array<Flat>) returns (kept: nat)
    modifies a
    ensures kept <= a.Length && a[..kept] == Kept(old(a[..]))
  {
    ghost var was := a[..];
    kept := 0;
    for i := 0 to a.Length
      invariant kept <= i
      invariant a[..kept] == Kept(was[..i])
      invariant forall k :: i <= k < a.Length ==> a[k] == was[k]
    {
      KeptSnoc(was, i);
      if a[i].end > a[i].start {
        ghost var front := a[..kept];
        a[kept] := a[i];
        kept := kept + 1;
        assert a[..kept] == front + [was[i]];
      }
    }
    assert was[..a.Length] == was;
  }
}
