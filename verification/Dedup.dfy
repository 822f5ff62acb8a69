/** Choosing which of a book's recorded reads to delete (internal/books/dedup_reads.go). */
module Dedup {
  import opened Basics
  import opened Rows
  import opened Int64
  import opened StableSort

  /** Instants are in milliseconds since the epoch. */
  datatype Read = Read(id: int64, started: Option<int>, finished: Option<int>)

  const DAY: int := 86_400 * SECOND

  /** The UTC days of a read, either of which may be missing. */
  datatype DateKey = DateKey(start: Option<int>, finish: Option<int>)

  function DayOf(t: Option<int>): Option<int> {
    match t case None => None case Some(at) => Some(at / DAY)
  }

  function KeyOf(r: Read): DateKey { DateKey(DayOf(r.started), DayOf(r.finished)) }

  /** Day `d` of UTC, counted from the epoch. */
  predicate OnDay(d: int, at: int) { d * 86_400_000 <= at < (d + 1) * 86_400_000 }

  /** Both dates are missing, or both lie in one day. */
  ghost predicate SameDay(a: Option<int>, b: Option<int>) {
    && (a.None? <==> b.None?)
    && (a.Some? && b.Some? ==> exists d :: OnDay(d, a.value) && OnDay(d, b.value))
  }

  lemma DayOfIs(at: int, d: int)
    ensures DayOf(Some(at)) == Some(d) <==> OnDay(d, at)
  {}

  lemma SameDayOf(a: Option<int>, b: Option<int>)
    ensures DayOf(a) == DayOf(b) <==> SameDay(a, b)
  {
    if a.Some? && b.Some? {
      var d := DayOf(a).value;
      DayOfIs(a.value, d);
      DayOfIs(b.value, d);
      if e :| OnDay(e, a.value) && OnDay(e, b.value) {
        DayOfIs(a.value, e);
        DayOfIs(b.value, e);
      }
    }
  }

  /** Reads are duplicates when both of their dates agree. */
  lemma KeyOfIs(q: Read, r: Read)
    ensures KeyOf(q) == KeyOf(r) <==> SameDay(q.started, r.started) && SameDay(q.finished, r.finished)
  {
    SameDayOf(q.started, r.started);
    SameDayOf(q.finished, r.finished);
  }

  predicate IsDated(r: Read) { r.started.Some? || r.finished.Some? }

  predicate DistinctIds(rs: seq<Read>) {
    forall i, j :: 0 <= i < j < |rs| ==> rs[i].id != rs[j].id
  }

  lemma NoRepeatsConcat(a: seq<int64>, b: seq<int64>)
    requires NoRepeats(a) && NoRepeats(b) && forall x :: x in a ==> x !in b
    ensures NoRepeats(a + b)
  {
    forall i, j | 0 <= i < j < |a + b| ensures (a + b)[i] != (a + b)[j] {
      assert i < |a| <= j ==> a[i] in a && b[j - |a|] in b;
    }
  }

  // ---- the keep-policy ----

  /** `q` makes `r` superfluous. */
  predicate Beats(q: Read, r: Read) {
    if IsDated(q) then !IsDated(r) || (KeyOf(q) == KeyOf(r) && q.id < r.id)
    else !IsDated(r) && q.id < r.id
  }

  predicate Beaten(rs: seq<Read>, r: Read) { exists q :: q in rs && Beats(q, r) }

  function ToDelete(rs: seq<Read>): set<int64> {
    set r | r in rs && Beaten(rs, r) :: r.id
  }

  /** The policy spelled out: with a dated read around, what stays is the lowest id of each pair
      of days among the dated reads; without one, the single lowest id. */
  ghost predicate Stays(rs: seq<Read>, r: Read) {
    if exists q :: q in rs && (q.started.Some? || q.finished.Some?) then
      && (r.started.Some? || r.finished.Some?)
      && forall q :: q in rs && SameDay(q.started, r.started) && SameDay(q.finished, r.finished) ==> r.id <= q.id
    else forall q :: q in rs ==> r.id <= q.id
  }

  lemma KeepPolicy(rs: seq<Read>, r: Read)
    requires DistinctIds(rs) && r in rs
    ensures r.id !in ToDelete(rs) <==> Stays(rs, r)
  {
    DeletedMeansBeaten(rs, r);
    forall q
      ensures KeyOf(q) == KeyOf(r) <==> SameDay(q.started, r.started) && SameDay(q.finished, r.finished)
    {
      KeyOfIs(q, r);
    }
    if Beaten(rs, r) {
      var q :| q in rs && Beats(q, r);
      assert q.started.Some? || q.finished.Some? || !IsDated(q);
    } else {
      forall q | q in rs ensures !Beats(q, r) {}
    }
  }

  lemma DeletedMeansBeaten(rs: seq<Read>, r: Read)
    requires DistinctIds(rs) && r in rs
    ensures r.id in ToDelete(rs) <==> Beaten(rs, r)
  {
    if r.id in ToDelete(rs) {
      var q :| q in rs && Beaten(rs, q) && q.id == r.id;
      assert q == r;
    }
  }

  /** The order of the reads does not matter. */
  lemma OrderDoesNotMatter(a: seq<Read>, b: seq<Read>)
    requires multiset(a) == multiset(b)
    ensures ToDelete(a) == ToDelete(b)
  {
    assert forall r :: r in a <==> r in multiset(a);
    assert forall r :: r in b <==> r in multiset(b);
    assert forall r :: r in a <==> r in b;
    assert forall r :: Beaten(a, r) <==> Beaten(b, r);
  }

  /** The read with the lowest id among those of `r`'s class. */
  lemma {:induction false} Unbeaten(rs: seq<Read>, r: Read) returns (s: Read)
    requires r in rs
    ensures s in rs && (s == r || Beats(s, r)) && !Beaten(rs, s)
    decreases Beaters(rs, r)
  {
    if Beaten(rs, r) {
      var q :| q in rs && Beats(q, r);
      assert q !in Beaters(rs, q) && q in Beaters(rs, r);
      assert Beaters(rs, q) < Beaters(rs, r);
      s := Unbeaten(rs, q);
    } else {
      s := r;
    }
  }

  ghost function Beaters(rs: seq<Read>, r: Read): set<Read> { set q | q in rs && Beats(q, r) }

  /** Nothing is lost for good: whatever is deleted, a read that beats it stays. */
  lemma DeletedHaveAKeeper(rs: seq<Read>, r: Read)
    requires DistinctIds(rs) && r in rs && r.id in ToDelete(rs)
    ensures exists s :: s in rs && s.id !in ToDelete(rs) && Beats(s, r)
  {
    DeletedMeansBeaten(rs, r);
    var s := Unbeaten(rs, r);
    DeletedMeansBeaten(rs, s);
  }

  /** A second pass over what is left deletes nothing, and something is left. */
  lemma SecondPassDeletesNothing(rs: seq<Read>, rest: seq<Read>)
    requires DistinctIds(rs) && rs != []
    requires forall r :: r in rest <==> r in rs && r.id !in ToDelete(rs)
    ensures rest != [] && ToDelete(rest) == {}
  {
    var s := Unbeaten(rs, rs[0]);
    DeletedMeansBeaten(rs, s);
    assert s in rest;
    forall r | r in rest ensures !Beaten(rest, r) {
      DeletedMeansBeaten(rs, r);
      assert forall q :: q in rest ==> q in rs;
    }
  }

  // ---- readsToDelete ----

  ghost predicate Lowest(d: seq<Read>, k: DateKey, id: int64) {
    && (exists r :: r in d && KeyOf(r) == k && r.id == id)
    && (forall r :: r in d && KeyOf(r) == k ==> id <= r.id)
  }

  /** `seen` holds the lowest id of each key among the dated reads `d`. */
  ghost predicate Tracks(d: seq<Read>, seen: map<DateKey, int64>) {
    && (forall r :: r in d ==> KeyOf(r) in seen)
    && (forall k <- seen.Keys :: Lowest(d, k, seen[k]))
  }

  predicate HasId(d: seq<Read>, x: int64) { exists r :: r in d && r.id == x }

  /** `del` holds the other ids, each once. */
  ghost predicate Drops(d: seq<Read>, del: seq<int64>, seen: map<DateKey, int64>)
    requires Tracks(d, seen)
  {
    && (forall r :: r in d ==> (r.id in del <==> r.id != seen[KeyOf(r)]))
    && (forall x :: x in del ==> HasId(d, x))
    && NoRepeats(del)
  }

  lemma NewId(d: seq<Read>, r: Read)
    requires DistinctIds(d + [r])
    ensures DistinctIds(d) && !HasId(d, r.id)
  {
    var all := d + [r];
    assert forall i :: 0 <= i < |d| ==> all[i] == d[i];
    assert all[|d|] == r;
  }

  /** Scanning one more read keeps the lowest id of each key. */
  lemma TracksOne(d: seq<Read>, r: Read, seen: map<DateKey, int64>, low: int64)
    requires Tracks(d, seen)
    requires low == if KeyOf(r) in seen && seen[KeyOf(r)] <= r.id then seen[KeyOf(r)] else r.id
    ensures Tracks(d + [r], seen[KeyOf(r) := low])
  {
    var all, seen' := d + [r], seen[KeyOf(r) := low];
    assert r in all && forall q :: q in d ==> q in all;
    forall k | k in seen'.Keys ensures Lowest(all, k, seen'[k]) {
      if k in seen {
        assert Lowest(d, k, seen[k]);
        var q :| q in d && KeyOf(q) == k && q.id == seen[k];
        assert q in all;
      }
    }
  }

  /** The first read of its key is kept. */
  lemma DropsFirst(d: seq<Read>, r: Read, del: seq<int64>, seen: map<DateKey, int64>)
    requires DistinctIds(d + [r]) && Tracks(d, seen) && Drops(d, del, seen) && KeyOf(r) !in seen
    ensures Tracks(d + [r], seen[KeyOf(r) := r.id]) && Drops(d + [r], del, seen[KeyOf(r) := r.id])
  {
    NewId(d, r);
    TracksOne(d, r, seen, r.id);
    forall x | x in del ensures HasId(d + [r], x) { Widen(d, r, x); }
  }

  lemma Widen(d: seq<Read>, r: Read, x: int64)
    requires HasId(d, x)
    ensures HasId(d + [r], x)
  {
    var q :| q in d && q.id == x;
    assert q in d + [r];
  }

  lemma SameId(d: seq<Read>, p: Read, q: Read)
    requires DistinctIds(d) && p in d && q in d && p.id == q.id
    ensures p == q
  {}

  /** Of two reads of one key, the one with the higher id goes. */
  lemma DropsRepeat(d: seq<Read>, r: Read, del: seq<int64>, seen: map<DateKey, int64>, gone: int64, low: int64)
    requires DistinctIds(d + [r]) && Tracks(d, seen) && Drops(d, del, seen) && KeyOf(r) in seen
    requires low == if seen[KeyOf(r)] <= r.id then seen[KeyOf(r)] else r.id
    requires gone == if seen[KeyOf(r)] <= r.id then r.id else seen[KeyOf(r)]
    ensures Tracks(d + [r], seen[KeyOf(r) := low]) && Drops(d + [r], del + [gone], seen[KeyOf(r) := low])
  {
    NewId(d, r);
    TracksOne(d, r, seen, low);
    var p := RepeatFacts(d, r, del, seen);
    var all, del', seen' := d + [r], del + [gone], seen[KeyOf(r) := low];
    forall q | q in all ensures q.id in del' <==> q.id != seen'[KeyOf(q)] {
      if q in d {
        assert HasId(d, q.id);
        RepeatVerdict(d, q, p, r, del, seen, gone, low);
      }
    }
    assert p in all && r in all;
    forall x | x in del' ensures HasId(all, x) {
      if x in del { Widen(d, r, x); }
    }
  }

  lemma RepeatVerdict(d: seq<Read>, q: Read, p: Read, r: Read, del: seq<int64>, seen: map<DateKey, int64>,
                      gone: int64, low: int64)
    requires DistinctIds(d) && q in d && p in d && q.id != r.id
    requires KeyOf(p) == KeyOf(r) && KeyOf(r) in seen && seen[KeyOf(r)] == p.id && KeyOf(q) in seen
    requires q.id in del <==> q.id != seen[KeyOf(q)]
    requires (gone, low) == if p.id <= r.id then (r.id, p.id) else (p.id, r.id)
    ensures q.id in del + [gone] <==> q.id != seen[KeyOf(r) := low][KeyOf(q)]
  {
    if q.id == p.id { SameId(d, p, q); }
  }

  /** The read that `seen` keeps for the key of `r`; neither it nor `r` is on the list yet. */
  lemma RepeatFacts(d: seq<Read>, r: Read, del: seq<int64>, seen: map<DateKey, int64>) returns (p: Read)
    requires Tracks(d, seen) && Drops(d, del, seen) && KeyOf(r) in seen && !HasId(d, r.id)
    ensures p in d && KeyOf(p) == KeyOf(r) && p.id == seen[KeyOf(r)] && r.id !in del && p.id !in del
  {
    assert Lowest(d, KeyOf(r), seen[KeyOf(r)]);
    p :| p in d && KeyOf(p) == KeyOf(r) && p.id == seen[KeyOf(r)];
  }

  function IdsOf(rs: seq<Read>): (r: seq<int64>)
    ensures |r| == |rs|
  {
    seq(|rs|, i requires 0 <= i < |rs| => rs[i].id)
  }

  function Filter(rs: seq<Read>, dated: bool): seq<Read> {
    if rs == [] then []
    else Filter(rs[..|rs| - 1], dated) +
         (if IsDated(rs[|rs| - 1]) == dated then [rs[|rs| - 1]] else [])
  }

  lemma {:induction false} FilterFacts(rs: seq<Read>, dated: bool)
    ensures forall r :: r in Filter(rs, dated) <==> r in rs && IsDated(r) == dated
    ensures DistinctIds(rs) ==> DistinctIds(Filter(rs, dated))
  {
    if rs != [] {
      var init, last := rs[..|rs| - 1], rs[|rs| - 1];
      FilterFacts(init, dated);
      assert rs == init + [last];
      assert DistinctIds(rs) ==> DistinctIds(init) && forall r :: r in init ==> r.id != last.id;
    }
  }

  /** Separates the dated reads from the dateless ones. */
  method Split(rs: seq<Read>) returns (dated: seq<Read>, dateless: seq<Read>)
    ensures dated == Filter(rs, true) && dateless == Filter(rs, false)
  {
    dated, dateless := [], [];
    for i := 0 to |rs|
      invariant dated == Filter(rs[..i], true) && dateless == Filter(rs[..i], false)
    {
      assert rs[..i + 1][..i] == rs[..i];
      if rs[i].started.Some? || rs[i].finished.Some? {
        dated := dated + [rs[i]];
      } else {
        dateless := dateless + [rs[i]];
      }
    }
    assert rs[..|rs|] == rs;
  }

  ghost predicate Scanned(d: seq<Read>, del: seq<int64>, seen: map<DateKey, int64>) {
    Tracks(d, seen) && Drops(d, del, seen)
  }

  /** What one more read does to the list and to the lowest ids. */
  predicate Turn(r: Read, del: seq<int64>, seen: map<DateKey, int64>, del': seq<int64>, seen': map<DateKey, int64>) {
    var k := KeyOf(r);
    if k !in seen then del' == del && seen' == seen[k := r.id]
    else if r.id < seen[k] then del' == del + [seen[k]] && seen' == seen[k := r.id]
    else del' == del + [r.id] && seen' == seen
  }

  lemma ScanOne(d: seq<Read>, r: Read, del: seq<int64>, seen: map<DateKey, int64>, del': seq<int64>,
      seen': map<DateKey, int64>)
    requires DistinctIds(d + [r]) && Scanned(d, del, seen) && Turn(r, del, seen, del', seen')
    ensures Scanned(d + [r], del', seen')
  {
    var k := KeyOf(r);
    if k !in seen {
      DropsFirst(d, r, del, seen);
    } else if r.id < seen[k] {
      DropsRepeat(d, r, del, seen, seen[k], r.id);
    } else {
      DropsRepeat(d, r, del, seen, r.id, seen[k]);
      assert seen[k := seen[k]] == seen;
    }
  }

  lemma PrefixDistinct(rs: seq<Read>, i: nat)
    requires DistinctIds(rs) && i < |rs|
    ensures rs[..i + 1] == rs[..i] + [rs[i]] && DistinctIds(rs[..i] + [rs[i]])
  {}

  method ScanRead(r: Read, del0: seq<int64>, seen0: map<DateKey, int64>)
    returns (del: seq<int64>, seen: map<DateKey, int64>)
    ensures Turn(r, del0, seen0, del, seen)
  {
    del, seen := del0, seen0;
    var key := KeyOf(r);
    if key in seen {
      if r.id < seen[key] {
        del := del + [seen[key]];
        seen := seen[key := r.id];
      } else {
        del := del + [r.id];
      }
    } else {
      seen := seen[key := r.id];
    }
  }

  /** Keeps the lowest id of each pair of days and returns the other ids. */
  method CollapseDated(dated: seq<Read>) returns (del: seq<int64>, seen: map<DateKey, int64>)
    ensures DistinctIds(dated) ==> Scanned(dated, del, seen)
  {
    del, seen := [], map[];
    for i := 0 to |dated|
      invariant DistinctIds(dated) ==> Scanned(dated[..i], del, seen)
    {
      ghost var del0, seen0 := del, seen;
      del, seen := ScanRead(dated[i], del, seen);
      if DistinctIds(dated) {
        PrefixDistinct(dated, i);
        ScanOne(dated[..i], dated[i], del0, seen0, del, seen);
      }
    }
    assert dated[..|dated|] == dated;
  }

  function Self(x: int64): int { x }

  predicate IsLower(dateless: seq<Read>, r: Read) { exists q :: q in dateless && q.id < r.id }

  /** `del` holds every id but the lowest, each once. */
  ghost predicate KeepsLowest(dateless: seq<Read>, del: seq<int64>) {
    && NoRepeats(del)
    && (forall r :: r in dateless ==> (r.id in del <==> IsLower(dateless, r)))
    && (forall x :: x in del ==> HasId(dateless, x))
  }

  method SortInts(s: seq<int64>) returns (r: seq<int64>)
    ensures Sorted(r, Self) && multiset(r) == multiset(s) && |r| == |s|
  {
    r := Sort(s, Self);
    SortSorts(s, Self);
    SortMultiset(s);
  }

  /** All of the ids but the lowest. */
  method AllButLowest(dateless: seq<Read>) returns (del: seq<int64>)
    requires dateless != []
    ensures DistinctIds(dateless) ==> KeepsLowest(dateless, del)
  {
    var ids := SortInts(IdsOf(dateless));
    del := AllButFirst(ids);
    if DistinctIds(dateless) { SortedIds(dateless, ids); }
  }

  method AllButFirst(ids: seq<int64>) returns (del: seq<int64>)
    requires ids != []
    ensures del == ids[1..]
  {
    del := [];
    for i := 1 to |ids|
      invariant del == ids[1..i]
    {
      del := del + [ids[i]];
    }
  }

  lemma LastOut(s: seq<int64>)
    requires s != []
    ensures multiset(s) == multiset(s[..|s| - 1]) + multiset{s[|s| - 1]}
  {
    assert s == s[..|s| - 1] + [s[|s| - 1]];
  }

  lemma {:induction false} InsertMultiset(s: seq<int64>, x: int64)
    ensures multiset(Insert(s, x, Self)) == multiset(s) + multiset{x}
  {
    if s != [] && s[|s| - 1] > x {
      InsertMultiset(s[..|s| - 1], x);
      LastOut(s);
    }
  }

  lemma {:induction false} SortMultiset(s: seq<int64>)
    ensures multiset(Sort(s, Self)) == multiset(s)
  {
    if s != [] {
      SortMultiset(s[..|s| - 1]);
      InsertMultiset(Sort(s[..|s| - 1], Self), s[|s| - 1]);
      LastOut(s);
    }
  }

  lemma {:induction false} NoRepeatsCounts(s: seq<int64>)
    ensures NoRepeats(s) <==> forall x :: x in s ==> multiset(s)[x] == 1
  {
    if s != [] {
      var init, last := s[..|s| - 1], s[|s| - 1];
      NoRepeatsCounts(init);
      assert s == init + [last];
      assert last in init <==> last in multiset(init);
      if NoRepeats(s) {
        assert last !in init;
      } else if last !in init {
        assert !NoRepeats(init);
        var x :| x in init && multiset(init)[x] != 1;
        assert x in s && multiset(s)[x] != 1;
      } else {
        assert last in s && multiset(s)[last] != 1;
      }
    }
  }

  lemma SortedIds(dateless: seq<Read>, ids: seq<int64>)
    requires dateless != [] && multiset(ids) == multiset(IdsOf(dateless)) && Sorted(ids, Self) && DistinctIds(dateless)
    ensures ids != [] && KeepsLowest(dateless, ids[1..])
  {
    NoRepeatsCounts(IdsOf(dateless));
    NoRepeatsCounts(ids);
    forall x ensures x in ids <==> x in IdsOf(dateless) {
      assert x in ids <==> x in multiset(ids);
      assert x in IdsOf(dateless) <==> x in multiset(IdsOf(dateless));
    }
    assert ids != [] by { assert IdsOf(dateless)[0] in ids; }
    SortedIdsKeep(dateless, ids);
  }

  lemma SortedIdsKeep(dateless: seq<Read>, ids: seq<int64>)
    requires ids != [] && Sorted(ids, Self) && NoRepeats(ids)
    requires forall x :: x in ids <==> x in IdsOf(dateless)
    ensures KeepsLowest(dateless, ids[1..])
  {
    forall x | x in ids ensures HasId(dateless, x) {
      var i :| 0 <= i < |dateless| && IdsOf(dateless)[i] == x;
      assert dateless[i] in dateless;
    }
    forall r | r in dateless ensures r.id in ids[1..] <==> IsLower(dateless, r) { IdBeyondLowest(dateless, ids, r); }
  }

  lemma IdBeyondLowest(dateless: seq<Read>, ids: seq<int64>, r: Read)
    requires Sorted(ids, Self) && NoRepeats(ids) && r in dateless
    requires (forall x :: x in ids <==> x in IdsOf(dateless)) && forall x :: x in ids ==> HasId(dateless, x)
    ensures r.id in ids && (r.id in ids[1..] <==> IsLower(dateless, r))
  {
    forall q | q in dateless ensures q.id in ids {
      var i :| 0 <= i < |dateless| && dateless[i] == q;
      assert IdsOf(dateless)[i] == q.id;
    }
    var n :| 0 <= n < |ids| && ids[n] == r.id;
    assert HasId(dateless, ids[0]);
    if n > 0 {
      assert Self(ids[0]) <= Self(ids[n]);
      var q :| q in dateless && q.id == ids[0];
      assert ids[1..][n - 1] == r.id;
    } else {
      forall q | q in dateless ensures q.id >= r.id {
        var m :| 0 <= m < |ids| && ids[m] == q.id;
        assert m > 0 ==> Self(ids[0]) <= Self(ids[m]);
      }
    }
  }

  /** readsToDelete: with distinct ids it returns exactly the superfluous ones, each once. */
  method ReadsToDelete(rs: seq<Read>) returns (del: seq<int64>)
    requires rs != []
    ensures DistinctIds(rs) ==> NoRepeats(del) && forall x :: x in del <==> x in ToDelete(rs)
    ensures DistinctIds(rs) ==> forall r :: r in rs ==> (r.id !in del <==> Stays(rs, r))
  {
    forall r | DistinctIds(rs) && r in rs ensures r.id !in ToDelete(rs) <==> Stays(rs, r) { KeepPolicy(rs, r); }
    var dated, dateless := Split(rs);
    FilterFacts(rs, true);
    FilterFacts(rs, false);
    if |dated| > 0 {
      del := [];
      for i := 0 to |dateless|
        invariant del == IdsOf(dateless[..i])
      {
        del := del + [dateless[i].id];
        assert dateless[..i + 1] == dateless[..i] + [dateless[i]];
      }
      assert dateless[..|dateless|] == dateless;
      var more, seen := CollapseDated(dated);
      if DistinctIds(rs) { DatedVerdict(rs, dated, dateless, more, seen); }
      del := del + more;
    } else {
      assert dateless != [] by { assert rs[0] in dateless; }
      del := AllButLowest(dateless);
      if DistinctIds(rs) { DatelessVerdict(rs, dateless, del); }
    }
  }

  lemma DatelessVerdict(rs: seq<Read>, dateless: seq<Read>, del: seq<int64>)
    requires DistinctIds(rs) && (forall r :: r in dateless <==> r in rs) && forall r :: r in rs ==> !IsDated(r)
    requires KeepsLowest(dateless, del)
    ensures forall x :: x in del <==> x in ToDelete(rs)
  {
    forall r | r in rs ensures r.id in del <==> r.id in ToDelete(rs) {
      DeletedMeansBeaten(rs, r);
      assert r in dateless;
    }
    forall x | x in del ensures x in ToDelete(rs) {
      assert HasId(dateless, x);
      var r :| r in dateless && r.id == x;
      assert r in rs;
    }
  }

  lemma DatedVerdict(rs: seq<Read>, dated: seq<Read>, dateless: seq<Read>, more: seq<int64>, seen: map<DateKey, int64>)
    requires DistinctIds(rs) && DistinctIds(dated) && DistinctIds(dateless) && dated != []
    requires forall r :: r in dated <==> r in rs && IsDated(r)
    requires forall r :: r in dateless <==> r in rs && !IsDated(r)
    requires Scanned(dated, more, seen)
    ensures NoRepeats(IdsOf(dateless) + more)
    ensures forall x :: x in IdsOf(dateless) + more <==> x in ToDelete(rs)
  {
    var gone := IdsOf(dateless);
    assert NoRepeats(gone);
    forall x | x in gone ensures x !in more {
      var i :| 0 <= i < |gone| && gone[i] == x;
      assert dateless[i] in dateless;
      if x in more {
        assert HasId(dated, x);
        var q :| q in dated && q.id == x;
        SameId(rs, dateless[i], q);
      }
    }
    NoRepeatsConcat(gone, more);
    forall r | r in rs ensures r.id in gone + more <==> r.id in ToDelete(rs) {
      DeletedMeansBeaten(rs, r);
      if IsDated(r) { DatedGoes(rs, dated, more, seen, r); } else { DatelessGoes(rs, dated, dateless, r); }
      assert r.id in gone ==> !IsDated(r) by {
        if i :| 0 <= i < |gone| && gone[i] == r.id { SameId(rs, dateless[i], r); }
      }
    }
    forall x | x in gone + more ensures x in ToDelete(rs) {
      if x in gone {
        var i :| 0 <= i < |gone| && gone[i] == x;
        assert dateless[i] in rs;
      } else {
        assert HasId(dated, x);
        var q :| q in dated && q.id == x;
        assert q in rs;
      }
    }
  }

  lemma DatelessGoes(rs: seq<Read>, dated: seq<Read>, dateless: seq<Read>, r: Read)
    requires r in dateless && !IsDated(r) && dated != [] && forall q :: q in dated ==> q in rs && IsDated(q)
    ensures r.id in IdsOf(dateless) && Beaten(rs, r)
  {
    var i :| 0 <= i < |dateless| && dateless[i] == r;
    assert IdsOf(dateless)[i] == r.id;
    assert dated[0] in dated;
    assert Beats(dated[0], r);
  }

  lemma DatedGoes(rs: seq<Read>, dated: seq<Read>, more: seq<int64>, seen: map<DateKey, int64>, r: Read)
    requires forall q :: q in dated <==> q in rs && IsDated(q)
    requires Scanned(dated, more, seen) && r in dated
    ensures r.id in more <==> Beaten(rs, r)
  {
    assert Lowest(dated, KeyOf(r), seen[KeyOf(r)]);
    if r.id in more {
      var q :| q in dated && KeyOf(q) == KeyOf(r) && q.id == seen[KeyOf(r)];
      assert Beats(q, r);
    }
  }

  // ---- RunDedupReads: over all books, in chunks ----

  ghost predicate DistinctBooks(books: seq<seq<Read>>) {
    && (forall i :: 0 <= i < |books| ==> DistinctIds(books[i]))
    && (forall i, j, x :: 0 <= i < j < |books| && HasId(books[i], x) ==> !HasId(books[j], x))
  }

  /** Some book's policy deletes `x`. */
  predicate ToGo(books: seq<seq<Read>>, x: int64) { exists i :: 0 <= i < |books| && x in ToDelete(books[i]) }

  lemma ShortBooksLoseNothing(b: seq<Read>)
    requires |b| < 2
    ensures ToDelete(b) == {}
  {}

  lemma DeletedAreRead(b: seq<Read>, x: int64)
    requires x in ToDelete(b)
    ensures HasId(b, x)
  {}

  lemma ToGoOneMore(books: seq<seq<Read>>, i: nat, x: int64)
    requires i < |books|
    ensures ToGo(books[..i + 1], x) <==> ToGo(books[..i], x) || x in ToDelete(books[i])
  {
    if ToGo(books[..i], x) {
      var j :| 0 <= j < i && x in ToDelete(books[..i][j]);
      assert books[..i + 1][j] == books[j];
    }
    if ToGo(books[..i + 1], x) {
      var j :| 0 <= j < i + 1 && x in ToDelete(books[..i + 1][j]);
      assert j < i ==> books[..i][j] == books[j];
    }
    assert books[..i + 1][i] == books[i];
  }

  lemma NewDeletions(books: seq<seq<Read>>, i: nat, x: int64)
    requires DistinctBooks(books) && i < |books| && ToGo(books[..i], x)
    ensures x !in ToDelete(books[i])
  {
    var j :| 0 <= j < i && x in ToDelete(books[..i][j]);
    DeletedAreRead(books[j], x);
    if x in ToDelete(books[i]) { DeletedAreRead(books[i], x); }
  }

  ghost predicate Collected(books: seq<seq<Read>>, ids: seq<int64>) {
    NoRepeats(ids) && forall x :: x in ids <==> ToGo(books, x)
  }

  lemma CollectOne(books: seq<seq<Read>>, i: nat, ids: seq<int64>, more: seq<int64>)
    requires DistinctBooks(books) && i < |books| && Collected(books[..i], ids)
    requires NoRepeats(more) && forall x :: x in more <==> x in ToDelete(books[i])
    ensures Collected(books[..i + 1], ids + more)
  {
    forall x ensures x in ids + more <==> ToGo(books[..i + 1], x) { ToGoOneMore(books, i, x); }
    forall x | x in ids ensures x !in more { NewDeletions(books, i, x); }
    NoRepeatsConcat(ids, more);
  }

  /** Collects the ids that any book's policy deletes, each once. */
  method CollectDeletes(books: seq<seq<Read>>) returns (ids: seq<int64>)
    ensures DistinctBooks(books) ==> Collected(books, ids)
  {
    ids := [];
    for i := 0 to |books|
      invariant DistinctBooks(books) ==> Collected(books[..i], ids)
    {
      var more := [];
      if |books[i]| >= 2 {
        more := ReadsToDelete(books[i]);
      } else {
        ShortBooksLoseNothing(books[i]);
      }
      if DistinctBooks(books) { CollectOne(books, i, ids, more); }
      ids := ids + more;
    }
    assert books[..|books|] == books;
  }

  const CHUNK: nat := 50

  function Concat(chunks: seq<seq<int64>>): seq<int64> {
    if chunks == [] then [] else Concat(chunks[..|chunks| - 1]) + chunks[|chunks| - 1]
  }

  /** Chunks that were sent: nonempty, and none of them refused. */
  predicate Accepted(sent: seq<seq<int64>>, refuses: nat -> bool) {
    forall k: nat :: k < |sent| ==> !refuses(CHUNK * k) && 0 < |sent[k]| <= CHUNK
  }

  predicate AllFull(sent: seq<seq<int64>>) { forall k: nat :: k < |sent| ==> |sent[k]| == CHUNK }

  predicate FullButLast(sent: seq<seq<int64>>) { forall k: nat :: k < |sent| - 1 ==> |sent[k]| == CHUNK }

  lemma SentOne(ids: seq<int64>, refuses: nat -> bool, sent: seq<seq<int64>>, start: nat, end: nat)
    requires start == CHUNK * |sent| < |ids| && end == if start + CHUNK > |ids| then |ids| else start + CHUNK
    requires Concat(sent) == ids[..start] && Accepted(sent, refuses) && AllFull(sent) && !refuses(start)
    ensures var more := sent + [ids[start..end]];
            && Concat(more) == ids[..end] && Accepted(more, refuses) && FullButLast(more)
            && (end == start + CHUNK ==> AllFull(more))
  {
    var more := sent + [ids[start..end]];
    assert more[..|more| - 1] == sent;
    assert ids[..start] + ids[start..end] == ids[..end];
  }

  /** The deletion loop.  `refuses(n)` says that the request for the chunk at `n` is cancelled or
      fails.  Chunks partition a prefix of the list, all of them full but perhaps the last, and
      the prefix ends at the first refusal or at the end of the list. */
  method SendChunks(ids: seq<int64>, refuses: nat -> bool) returns (sent: seq<seq<int64>>, done: bool)
    ensures Concat(sent) <= ids && Accepted(sent, refuses) && FullButLast(sent)
    ensures if done then Concat(sent) == ids else |Concat(sent)| == 50 * |sent| < |ids| && refuses(50 * |sent|)
    ensures forall k :: 0 <= k < |sent| ==> 0 < |sent[k]| <= 50 && (k < |sent| - 1 ==> |sent[k]| == 50)
  {
    sent, done := [], true;
    var start := 0;
    while start < |ids|
      invariant start == CHUNK * |sent| && Accepted(sent, refuses) && FullButLast(sent)
      invariant Concat(sent) == ids[..if start < |ids| then start else |ids|]
      invariant start < |ids| ==> AllFull(sent)
    {
      if refuses(start) {
        done := false;
        return;
      }
      var end := start + CHUNK;
      if end > |ids| { end := |ids|; }
      SentOne(ids, refuses, sent, start, end);
      sent := sent + [ids[start..end]];
      start := start + CHUNK;
    }
  }
}
