/** The normal form of flattened chapters: strictly increasing, gap-free, one mark per distinct
    leaf start, and exactly when the last mark survives. */
module ChapterForm {
  import opened Int64
  import opened StableSort
  import opened Chapters

  const MAX64: int := 0x7FFF_FFFF_FFFF_FFFF

  // ---- one step of repair and filter, from the front ----

  function KeptOf(c: Flat): seq<Flat> { if c.end > c.start then [c] else [] }

  lemma KeptLast(s: seq<Flat>)
    requires s != []
    ensures Kept(s) == Kept(s[..|s| - 1]) + KeptOf(s[|s| - 1])
  {}

  lemma {:induction false} KeptCons(s: seq<Flat>)
    requires s != []
    ensures Kept(s) == KeptOf(s[0]) + Kept(s[1..])
  {
    KeptLast(s);
    if |s| > 1 {
      var n := |s| - 1;
      KeptCons(s[..n]);
      KeptLast(s[1..]);
      assert s[..n][1..] == s[1..][..n - 1] && s[1..][n - 1] == s[n];
    } else {
      assert s[1..] == [] && s[..0] == [];
    }
  }

  function Finished(s: seq<Flat>, runtime: int64): seq<Flat> { Kept(Repair(s, runtime)) }

  lemma FinishedCons(s: seq<Flat>, runtime: int64)
    requires |s| > 1
    ensures Finished(s, runtime) ==
              (if s[1].start > s[0].start then [s[0].(end := s[1].start)] else []) + Finished(s[1..], runtime)
  {
    KeptCons(Repair(s, runtime));
    assert Repair(s, runtime)[1..] == Repair(s[1..], runtime);
  }

  lemma FinishedOne(s: seq<Flat>, runtime: int64)
    requires |s| == 1
    ensures Finished(s, runtime) ==
              if LastEnd(s[0], runtime) > s[0].start then [s[0].(end := LastEnd(s[0], runtime))] else []
  {
    var r := Repair(s, runtime);
    KeptCons(r);
    assert r[1..] == [];
    assert Kept(r) == if r[0].end > r[0].start then [r[0]] else [];
  }

  // ---- gap-free ----

  predicate Gapless(f: seq<Flat>) {
    && (forall i :: 0 <= i < |f| ==> f[i].start < f[i].end)
    && (forall i :: 0 <= i < |f| - 1 ==> f[i].end == f[i + 1].start)
  }

  lemma {:induction false} FinishedGapless(s: seq<Flat>, runtime: int64)
    requires Sorted(s, StartOf) && s != []
    ensures Gapless(Finished(s, runtime))
    ensures Finished(s, runtime) != [] ==> Finished(s, runtime)[0].start == s[0].start
  {
    if |s| == 1 {
      FinishedOne(s, runtime);
    } else {
      FinishedCons(s, runtime);
      FinishedGapless(s[1..], runtime);
      assert StartOf(s[0]) <= StartOf(s[1]);
    }
  }

  lemma {:induction false} GaplessIncreases(f: seq<Flat>, i: nat, j: nat)
    requires Gapless(f) && i < j < |f|
    ensures f[i].start < f[j].start
    decreases j
  {
    if j > i + 1 { GaplessIncreases(f, i, j - 1); }
    assert f[j - 1].end == f[j].start;
  }

  // ---- which starts survive, and which mark at each ----

  predicate HasStart(s: seq<Flat>, k: int) { exists i :: 0 <= i < |s| && s[i].start == k }

  /** `s[i]` is the last mark at its start. */
  predicate LastAt(s: seq<Flat>, i: nat) {
    i < |s| && forall k :: i < k < |s| ==> s[k].start != s[i].start
  }

  lemma LastAtCons(s: seq<Flat>, i: nat)
    requires s != [] && LastAt(s[1..], i)
    ensures LastAt(s, i + 1) && s[i + 1] == s[1..][i]
  {
    forall k | i + 1 < k < |s| ensures s[k].start != s[i + 1].start { assert s[k] == s[1..][k - 1]; }
  }

  /** A first mark that starts before the second is the last at its start. */
  lemma HeadIsLast(s: seq<Flat>)
    requires Sorted(s, StartOf) && s != [] && (|s| > 1 ==> s[1].start > s[0].start)
    ensures LastAt(s, 0)
  {
    forall j | 0 < j < |s| ensures s[j].start != s[0].start { assert StartOf(s[1]) <= StartOf(s[j]); }
  }

  predicate Keeps(s: seq<Flat>) { |s| > 1 && s[1].start > s[0].start }

  /** A surviving mark is the first one, but for its end, or survives of the others. */
  lemma FinishedAt(s: seq<Flat>, runtime: int64, m: nat) returns (rest: nat)
    requires |s| > 1 && m < |Finished(s, runtime)|
    ensures Keeps(s) && m == 0 ==>
              Finished(s, runtime)[m].start == s[0].start && Finished(s, runtime)[m].title == s[0].title
    ensures !(Keeps(s) && m == 0) ==>
              rest < |Finished(s[1..], runtime)| && Finished(s, runtime)[m] == Finished(s[1..], runtime)[rest]
  {
    FinishedCons(s, runtime);
    rest := if Keeps(s) && m > 0 then m - 1 else m;
  }

  lemma SortedTail(s: seq<Flat>)
    requires s != [] && Sorted(s, StartOf)
    ensures Sorted(s[1..], StartOf)
  {}

  /** So it is the last of those sorted that share its start. */
  lemma {:induction false} FinishedTitles(s: seq<Flat>, runtime: int64, m: nat) returns (i: nat)
    requires Sorted(s, StartOf) && s != [] && m < |Finished(s, runtime)|
    ensures LastAt(s, i)
    ensures s[i].start == Finished(s, runtime)[m].start && s[i].title == Finished(s, runtime)[m].title
  {
    if |s| == 1 {
      FinishedOne(s, runtime);
      i := 0;
    } else {
      var rest := FinishedAt(s, runtime, m);
      if Keeps(s) && m == 0 {
        HeadIsLast(s);
        i := 0;
      } else {
        SortedTail(s);
        var j := FinishedTitles(s[1..], runtime, rest);
        LastAtCons(s, j);
        i := j + 1;
      }
    }
  }

  lemma HasStartHead(s: seq<Flat>, k: int)
    requires s != []
    ensures HasStart(s, k) <==> s[0].start == k || HasStart(s[1..], k)
  {
    if i :| 0 <= i < |s[1..]| && s[1..][i].start == k { assert s[i + 1].start == k; }
    if i :| 0 < i < |s| && s[i].start == k { assert s[1..][i - 1].start == k; }
  }

  /** Every start survives, except possibly the greatest. */
  lemma {:induction false} FinishedStarts(s: seq<Flat>, runtime: int64, k: int)
    requires Sorted(s, StartOf) && s != []
    ensures var last := s[|s| - 1];
            HasStart(Finished(s, runtime), k)
            <==> HasStart(s, k) && (k != last.start || LastEnd(last, runtime) > last.start)
  {
    HasStartHead(s, k);
    if |s| == 1 {
      FinishedOne(s, runtime);
      if LastEnd(s[0], runtime) > s[0].start { HasStartHead(Finished(s, runtime), k); }
    } else {
      FinishedCons(s, runtime);
      FinishedStarts(s[1..], runtime, k);
      assert s[1..][|s| - 2] == s[|s| - 1];
      assert StartOf(s[0]) <= StartOf(s[1]) <= StartOf(s[|s| - 1]);
      if s[1].start > s[0].start {
        HasStartHead(Finished(s, runtime), k);
        assert Finished(s, runtime)[1..] == Finished(s[1..], runtime);
      } else {
        HasStartHead(s[1..], k);
        assert Finished(s, runtime) == Finished(s[1..], runtime);
      }
    }
  }

  // ---- from the sorted marks back to the leaves ----

  /** `i` is the last of the leaves that share its start. */
  ghost predicate LastOfStart(ls: seq<Leaf>, i: nat) {
    i < |ls| && forall j :: i < j < |ls| ==> ls[j].start != ls[i].start
  }

  /** The leaf whose mark comes last: of the greatest start, and last in tree order there. */
  ghost predicate Final(ls: seq<Leaf>, i: nat) {
    LastOfStart(ls, i) && forall j :: 0 <= j < |ls| ==> ls[j].start <= ls[i].start
  }

  predicate HasLeafStart(ls: seq<Leaf>, k: int) { exists i :: 0 <= i < |ls| && ls[i].start == k }

  lemma {:induction false} FinalExists(ls: seq<Leaf>) returns (i: nat)
    requires ls != []
    ensures Final(ls, i)
  {
    if |ls| == 1 {
      i := 0;
    } else {
      i := FinalExists(ls[..|ls| - 1]);
      if ls[i].start <= ls[|ls| - 1].start { i := |ls| - 1; }
    }
  }

  /** The last element of `WithKey` is the last one at that start. */
  lemma {:induction false} LastWithKey(s: seq<Flat>, i: nat)
    requires i < |s| && forall j :: i < j < |s| ==> s[j].start != s[i].start
    ensures WithKey(s, StartOf, s[i].start) != []
        && WithKey(s, StartOf, s[i].start)[|WithKey(s, StartOf, s[i].start)| - 1] == s[i]
  {
    if i < |s| - 1 { LastWithKey(s[..|s| - 1], i); }
  }

  lemma {:induction false} WithKeyPresent(s: seq<Flat>, k: int)
    ensures WithKey(s, StartOf, k) != [] <==> HasStart(s, k)
  {
    WithKeyEmpty(s, StartOf, k);
    if HasStart(s, k) { var i :| 0 <= i < |s| && s[i].start == k; assert StartOf(s[i]) == k; }
    if i :| 0 <= i < |s| && StartOf(s[i]) == k { assert s[i].start == k; }
  }

  /** Stable sorting keeps the starts. */
  lemma SortStarts(s: seq<Flat>, t: seq<Flat>, k: int)
    requires StablySorted(s, t, StartOf)
    ensures HasStart(t, k) <==> HasStart(s, k)
  {
    WithKeyPresent(s, k);
    WithKeyPresent(t, k);
    assert WithKey(t, StartOf, k) == WithKey(s, StartOf, k);
  }

  /** And it keeps the last mark of each start. */
  lemma SortLast(s: seq<Flat>, t: seq<Flat>, i: nat, j: nat)
    requires StablySorted(s, t, StartOf) && LastAt(s, i) && LastAt(t, j) && t[j].start == s[i].start
    ensures t[j] == s[i]
  {
    LastWithKey(s, i);
    LastWithKey(t, j);
    assert WithKey(t, StartOf, s[i].start) == WithKey(s, StartOf, s[i].start);
  }

  lemma {:induction false} LastLeafAt(ls: seq<Leaf>, k: int) returns (i: nat)
    requires HasLeafStart(ls, k)
    ensures LastOfStart(ls, i) && ls[i].start == k
  {
    if ls[|ls| - 1].start == k {
      i := |ls| - 1;
    } else {
      assert HasLeafStart(ls[..|ls| - 1], k) by {
        var j :| 0 <= j < |ls| && ls[j].start == k;
        assert ls[..|ls| - 1][j].start == k;
      }
      i := LastLeafAt(ls[..|ls| - 1], k);
    }
  }

  lemma MarkStarts(ls: seq<Leaf>, k: int)
    ensures HasStart(MarksOf(ls, 0), k) <==> HasLeafStart(ls, k)
  {
    if i :| 0 <= i < |ls| && ls[i].start == k { assert MarksOf(ls, 0)[i].start == k; }
    if i :| 0 <= i < |ls| && MarksOf(ls, 0)[i].start == k { assert ls[i].start == k; }
  }

  lemma WalkIsMarks(ci: ChapterInfo)
    ensures Walk(ci.chapters, "", 0) == MarksOf(Leaves(ci.chapters, []), 0)
  {
    WalkMarksLeaves(ci.chapters, [], 0);
  }

  /** The title of a surviving mark is that of the last leaf at its start. */
  lemma TitleSurvives(ls: seq<Leaf>, sorted: seq<Flat>, j: nat) returns (i: nat)
    requires StablySorted(MarksOf(ls, 0), sorted, StartOf) && LastAt(sorted, j)
    ensures LastOfStart(ls, i) && ls[i].start == sorted[j].start && sorted[j].title == TitleOf(ls[i].path, i)
  {
    var s, k := MarksOf(ls, 0), sorted[j].start;
    assert HasStart(sorted, k);
    SortStarts(s, sorted, k);
    MarkStarts(ls, k);
    i := LastLeafAt(ls, k);
    assert LastAt(s, i);
    SortLast(s, sorted, i, j);
  }

  /** The greatest start comes last. */
  lemma GreatestIsLast(s: seq<Flat>, t: seq<Flat>, i: nat)
    requires StablySorted(s, t, StartOf) && i < |s| && forall j :: 0 <= j < |s| ==> s[j].start <= s[i].start
    ensures t != [] && t[|t| - 1].start == s[i].start
  {
    var top := s[i].start;
    SortStarts(s, t, top);
    var n :| 0 <= n < |t| && t[n].start == top;
    assert n < |t| - 1 ==> StartOf(t[n]) <= StartOf(t[|t| - 1]);
    SortStarts(s, t, t[|t| - 1].start);
    assert HasStart(t, t[|t| - 1].start);
  }

  /** The last of the sorted marks is the final leaf's. */
  lemma SortedEndsWithFinal(ls: seq<Leaf>, sorted: seq<Flat>, i: nat)
    requires StablySorted(MarksOf(ls, 0), sorted, StartOf) && Final(ls, i)
    ensures sorted != [] && sorted[|sorted| - 1] == MarkOf(ls[i], i)
  {
    var s := MarksOf(ls, 0);
    FinalMark(ls, i);
    GreatestIsLast(s, sorted, i);
    SortLast(s, sorted, i, |sorted| - 1);
  }

  lemma FinalMark(ls: seq<Leaf>, i: nat)
    requires Final(ls, i)
    ensures var s := MarksOf(ls, 0);
            s[i] == MarkOf(ls[i], i) && LastAt(s, i) && forall j :: 0 <= j < |s| ==> s[j].start <= s[i].start
  {}

  // ---- the normal form ----

  /** Whether the final leaf can end after it starts, in int64 arithmetic: the runtime lies
      beyond it, or its own end does, or there is room for the nominal second. */
  predicate Endable(l: Leaf, runtime: int64) {
    runtime > l.start || Wrap(l.start + l.length) > l.start || l.start + 1000 <= MAX64
  }

  lemma EndableMeansEndsLater(l: Leaf, i: nat, runtime: int64)
    ensures LastEnd(MarkOf(l, i), runtime) > l.start <==> Endable(l, runtime)
  {
    assert l.start + 1000 > MAX64 ==> Wrap(l.start + 1000) == l.start + 1000 - 0x1_0000_0000_0000_0000;
  }

  /** The mark carries the title of the last leaf, in tree order, that shares its start. */
  ghost predicate TitledAsLastLeaf(ls: seq<Leaf>, c: Flat) {
    exists i: nat :: LastOfStart(ls, i) && ls[i].start == c.start && c.title == TitleOf(ls[i].path, i)
  }

  lemma MarkTitles(ls: seq<Leaf>, runtime: int64, m: nat)
    requires ls != [] && m < |Finished(Sort(MarksOf(ls, 0), StartOf), runtime)|
    ensures TitledAsLastLeaf(ls, Finished(Sort(MarksOf(ls, 0), StartOf), runtime)[m])
  {
    var sorted := Sort(MarksOf(ls, 0), StartOf);
    SortSorts(MarksOf(ls, 0), StartOf);
    var j := FinishedTitles(sorted, runtime, m);
    var i := TitleSurvives(ls, sorted, j);
  }

  /** Chapter normal form.  Whatever the tree, the marks have strictly increasing starts and no
      gap between them, and every mark is titled as the last leaf at its start. */
  lemma FlattenedForm(ci: ChapterInfo)
    requires Leaves(ci.chapters, []) != []
    ensures Gapless(Flattened(ci))
    ensures forall i, j :: 0 <= i < j < |Flattened(ci)| ==> Flattened(ci)[i].start < Flattened(ci)[j].start
    ensures forall m :: 0 <= m < |Flattened(ci)| ==> TitledAsLastLeaf(Leaves(ci.chapters, []), Flattened(ci)[m])
  {
    var f, ls := Flattened(ci), Leaves(ci.chapters, []);
    WalkIsMarks(ci);
    SortSorts(MarksOf(ls, 0), StartOf);
    FinishedGapless(Sort(MarksOf(ls, 0), StartOf), ci.runtime);
    forall i, j | 0 <= i < j < |f| ensures f[i].start < f[j].start { GaplessIncreases(f, i, j); }
    forall m | 0 <= m < |f| ensures TitledAsLastLeaf(ls, f[m]) { MarkTitles(ls, ci.runtime, m); }
  }

  /** Every leaf start but the greatest has a mark, and the greatest has one exactly when the
      final leaf is endable; otherwise its nominal second wraps around and the mark is lost. */
  lemma StartsSurvive(ci: ChapterInfo, last: nat, k: int)
    requires Final(Leaves(ci.chapters, []), last)
    ensures var f, ls := Flattened(ci), Leaves(ci.chapters, []);
            HasStart(f, k) <==> HasLeafStart(ls, k) && (k != ls[last].start || Endable(ls[last], ci.runtime))
  {
    var ls := Leaves(ci.chapters, []);
    var sorted := Sort(MarksOf(ls, 0), StartOf);
    WalkIsMarks(ci);
    SortSorts(MarksOf(ls, 0), StartOf);
    SortedEndsWithFinal(ls, sorted, last);
    EndableMeansEndsLater(ls[last], last, ci.runtime);
    FinishedStarts(sorted, ci.runtime, k);
    SortStarts(MarksOf(ls, 0), sorted, k);
    MarkStarts(ls, k);
  }

  /** For a tree with a leaf, the marks start exactly where leaves do, and so there is at least
      one, precisely when the final leaf is endable. */
  lemma AllStartsSurvive(ci: ChapterInfo, last: nat)
    requires Final(Leaves(ci.chapters, []), last)
    ensures var f, ls := Flattened(ci), Leaves(ci.chapters, []);
            && ((forall k :: HasStart(f, k) <==> HasLeafStart(ls, k)) <==> Endable(ls[last], ci.runtime))
            && (Endable(ls[last], ci.runtime) ==> f != [])
  {
    var f, ls := Flattened(ci), Leaves(ci.chapters, []);
    forall k ensures HasStart(f, k) <==> HasLeafStart(ls, k) && (k != ls[last].start || Endable(ls[last], ci.runtime)) {
      StartsSurvive(ci, last, k);
    }
    assert HasLeafStart(ls, ls[last].start);
  }

  lemma {:induction false} FinishedLast(s: seq<Flat>, runtime: int64)
    requires s != [] && LastEnd(s[|s| - 1], runtime) > s[|s| - 1].start
    ensures var f := Finished(s, runtime);
            f != [] && f[|f| - 1] == s[|s| - 1].(end := LastEnd(s[|s| - 1], runtime))
  {
    if |s| == 1 {
      FinishedOne(s, runtime);
    } else {
      FinishedCons(s, runtime);
      FinishedLast(s[1..], runtime);
    }
  }

  /** The last mark is the final leaf's, but for its end. */
  lemma LastMarkIs(ci: ChapterInfo, last: nat)
    requires Final(Leaves(ci.chapters, []), last) && Endable(Leaves(ci.chapters, [])[last], ci.runtime)
    ensures var f, m := Flattened(ci), MarkOf(Leaves(ci.chapters, [])[last], last);
            f != [] && f[|f| - 1] == m.(end := LastEnd(m, ci.runtime))
  {
    var ls := Leaves(ci.chapters, []);
    var sorted := Sort(MarksOf(ls, 0), StartOf);
    WalkIsMarks(ci);
    SortSorts(MarksOf(ls, 0), StartOf);
    SortedEndsWithFinal(ls, sorted, last);
    EndableMeansEndsLater(ls[last], last, ci.runtime);
    FinishedLast(sorted, ci.runtime);
  }

  /** `end` is where the last mark ends when leaf `l` is the final one: at the declared runtime if that
      lies behind its start, else where the leaf ends if that does, else a second later. */
  predicate EndsLeaf(l: Leaf, runtime: int64, end: int64) {
    && (runtime > l.start ==> end == runtime)
    && (runtime <= l.start < Wrap(l.start + l.length) ==> end == Wrap(l.start + l.length))
    && (runtime <= l.start && Wrap(l.start + l.length) <= l.start ==> end == l.start + 1000)
  }

  lemma EndableEnds(l: Leaf, n: nat, runtime: int64)
    requires Endable(l, runtime)
    ensures EndsLeaf(l, runtime, LastEnd(MarkOf(l, n), runtime))
  {
    LastEndIs(MarkOf(l, n), runtime);
    var _ := WrapIs(l.start + 1000);
  }

  /** So it starts with that leaf and ends like it. */
  lemma LastMarkEnds(ci: ChapterInfo, last: nat)
    requires Final(Leaves(ci.chapters, []), last) && Endable(Leaves(ci.chapters, [])[last], ci.runtime)
    ensures Flattened(ci) != []
    ensures var l, m := Leaves(ci.chapters, [])[last], Flattened(ci)[|Flattened(ci)| - 1];
            m.start == l.start && EndsLeaf(l, ci.runtime, m.end)
  {
    LastMarkIs(ci, last);
    EndableEnds(Leaves(ci.chapters, [])[last], last, ci.runtime);
  }

  /** A tree whose one chapter starts at the very end of the int64 range has no mark at all. */
  lemma LastMarkCanVanish()
    ensures Flattened(ChapterInfo(0, [Chapter("a", MAX64, 0, [])])) == []
  {
    var node := Chapter("a", MAX64, 0, []);
    var ci := ChapterInfo(0, [node]);
    var ls, f := Leaves(ci.chapters, []), Flattened(ci);
    assert ci.chapters[1..] == [];
    assert Leaves(ci.chapters, []) == LeavesOf(ci.chapters[0], []) + Leaves(ci.chapters[1..], []);
    assert LeavesOf(node, []) == [Leaf([] + ["a"], MAX64, 0)];
    assert ls == LeavesOf(node, []);
    forall k ensures !HasStart(f, k) { StartsSurvive(ci, 0, k); }
    assert f != [] ==> HasStart(f, f[0].start);
  }
}
