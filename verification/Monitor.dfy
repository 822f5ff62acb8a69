/** The live reading monitor (internal/books/admin/monitor.go): which books it polls, and the
    frames it streams about them. */
module Monitor {
  import opened Rows
  import opened Int64
  import opened StableSort

  // ---- the poll set ----

  /** A Kindle book; an empty ASIN cannot be polled. */
  datatype Item = Item(asin: string, derived: string, curated: Option<string>, synced: int)

  function EffectiveStatus(it: Item): string {
    match it.curated case Some(s) => s case None => it.derived
  }

  predicate InProgress(it: Item) { EffectiveStatus(it) == "reading" && it.asin != "" }

  function InProgressOf(items: seq<Item>): seq<Item> {
    if items == [] then []
    else InProgressOf(items[..|items| - 1]) + (if InProgress(items[|items| - 1]) then [items[|items| - 1]] else [])
  }

  /** Ascending in this key is most recently synced first. */
  function Newest(it: Item): int { -it.synced }

  /** Where insertion stops, the element belongs. */
  lemma {:induction false} InsertAt(s: seq<Item>, x: Item, j: nat)
    requires j <= |s| && (j > 0 ==> Newest(s[j - 1]) <= Newest(x))
    requires forall k :: j <= k < |s| ==> Newest(s[k]) > Newest(x)
    ensures Insert(s, x, Newest) == s[..j] + [x] + s[j..]
  {
    if j < |s| {
      InsertAt(s[..|s| - 1], x, j);
      assert s[..|s| - 1][..j] == s[..j] && s[j..] == s[..|s| - 1][j..] + [s[|s| - 1]];
    } else {
      assert s[..j] == s;
    }
  }

  /** sortBySyncedDesc: the hand-written insertion sort is the stable sort. */
  method SortBySyncedDesc(a: array<Item>)
    modifies a
    ensures a[..] == Sort(old(a[..]), Newest)
  {
    if a.Length == 0 { return; }
    ghost var was := a[..];
    OneIsSorted(was);
    for i := 1 to a.Length
      invariant a[..i] == Sort(was[..i], Newest)
      invariant forall k :: i <= k < a.Length ==> a[k] == was[k]
    {
      SortOneMore(was, i);
      InsertLast(a, i);
    }
    assert was[..a.Length] == was && a[..a.Length] == a[..];
  }

  lemma OneIsSorted(s: seq<Item>)
    requires s != []
    ensures Sort(s[..1], Newest) == s[..1]
  {
    assert s[..1][..0] == [];
  }

  lemma SortOneMore(s: seq<Item>, i: nat)
    requires i < |s|
    ensures Sort(s[..i + 1], Newest) == Insert(Sort(s[..i], Newest), s[i], Newest)
  {
    assert s[..i + 1][..i] == s[..i];
  }

  /** The inner loop. */
  method InsertLast(a: array<Item>, i: nat)
    requires i < a.Length
    modifies a
    ensures a[..i + 1] == Insert(old(a[..i]), old(a[i]), Newest)
    ensures forall k :: i < k < a.Length ==> a[k] == old(a[k])
  {
    ghost var s, x := a[..i], a[i];
    var j := i;
    while j > 0 && a[j].synced > a[j - 1].synced
      invariant j <= i && a[j] == x
      invariant forall k :: 0 <= k < j ==> a[k] == s[k]
      invariant forall k :: j <= k < i ==> a[k + 1] == s[k] && Newest(s[k]) > Newest(x)
      invariant forall k :: i < k < a.Length ==> a[k] == old(a[k])
    {
      a[j], a[j - 1] := a[j - 1], a[j];
      j := j - 1;
    }
    Inserted(s, x, j, a[..i + 1]);
  }

  lemma Inserted(s: seq<Item>, x: Item, j: nat, r: seq<Item>)
    requires j <= |s| && |r| == |s| + 1 && r[j] == x && (j > 0 ==> Newest(s[j - 1]) <= Newest(x))
    requires forall k :: 0 <= k < j ==> r[k] == s[k]
    requires forall k :: j <= k < |s| ==> r[k + 1] == s[k] && Newest(s[k]) > Newest(x)
    ensures r == Insert(s, x, Newest)
  {
    InsertAt(s, x, j);
    forall k | j < k < |r| ensures r[k] == s[k - 1] { assert r[k - 1 + 1] == s[k - 1]; }
    assert r == s[..j] + [x] + s[j..];
  }

  /** A book that can be polled and that its curated status, or failing one its derived status, calls
      in progress. */
  predicate Reads(it: Item) {
    && it.asin != ""
    && (it.curated.Some? ==> it.curated.value == "reading")
    && (it.curated.None? ==> it.derived == "reading")
  }

  lemma {:induction false} InProgressMembers(items: seq<Item>, it: Item)
    ensures it in InProgressOf(items) <==> it in items && Reads(it)
  {
    if items != [] {
      InProgressMembers(items[..|items| - 1], it);
      assert items == items[..|items| - 1] + [items[|items| - 1]];
    }
  }

  /** listInProgressKindle, given what the store lists. */
  method ListInProgressKindle(items: seq<Item>, limit: nat) returns (r: seq<Item>)
    ensures r <= Sort(InProgressOf(items), Newest)
    ensures |r| == if |InProgressOf(items)| > limit then limit else |InProgressOf(items)|
    ensures forall it :: it in InProgressOf(items) <==> it in items && Reads(it)
  {
    forall it ensures it in InProgressOf(items) <==> it in items && Reads(it) { InProgressMembers(items, it); }
    var inProgress := [];
    for i := 0 to |items|
      invariant inProgress == InProgressOf(items[..i])
    {
      assert items[..i + 1][..i] == items[..i];
      if EffectiveStatus(items[i]) == "reading" && items[i].asin != "" {
        inProgress := inProgress + [items[i]];
      }
    }
    assert items[..|items|] == items;
    SortSorts(inProgress, Newest);
    if inProgress == [] { return []; }
    var a := new Item[|inProgress|](i requires 0 <= i < |inProgress| => inProgress[i]);
    assert a[..] == inProgress;
    SortBySyncedDesc(a);
    r := a[..];
    if |r| > limit { r := r[..limit]; }
  }

  /** The poll set: however the books are sorted, as long as it is most recently synced first and
      stable, its first `n` are the first `n` the monitor polls; they are in progress, and no
      in-progress book left out was synced after one of them. */
  lemma PollSetIsMostRecent(items: seq<Item>, t: seq<Item>, n: nat, i: nat, j: nat)
    requires StablySorted(InProgressOf(items), t, Newest) && n <= |t|
    requires i < n <= j < |t|
    ensures t[..n] <= Sort(InProgressOf(items), Newest)
    ensures Reads(t[i]) && t[i] in items && t[i].synced >= t[j].synced
  {
    var s := InProgressOf(items);
    SortSorts(s, Newest);
    StablySortedIsUnique(s, t, Sort(s, Newest), Newest);
    assert Newest(t[i]) <= Newest(t[j]);
    SortedMember(s, t, t[i]);
    InProgressMembers(items, t[i]);
  }

  lemma {:induction false} WithKeyMember(s: seq<Item>, it: Item)
    ensures it in WithKey(s, Newest, Newest(it)) <==> it in s
  {
    if s != [] {
      WithKeyMember(s[..|s| - 1], it);
      assert s == s[..|s| - 1] + [s[|s| - 1]];
    }
  }

  lemma SortedMember(s: seq<Item>, t: seq<Item>, it: Item)
    requires StablySorted(s, t, Newest)
    ensures it in t <==> it in s
  {
    WithKeyMember(s, it);
    WithKeyMember(t, it);
    assert WithKey(t, Newest, Newest(it)) == WithKey(s, Newest, Newest(it));
  }

  // ---- the stream ----

  datatype Frame =
    | Sample(asin: string, location: int64)
    | FetchError(asin: string)
    | ListError
    | Heartbeat(books: nat, polled: nat)

  /** What the sidecar answers about one book: an error, no recorded position, or a position. */
  datatype Answer = Failed | Missing | At(location: int64)

  /** One poll: the books listed, unless listing failed, and the answers about the first of them.
      The context was cancelled before the first book without an answer. */
  datatype Poll = Poll(listing: Option<seq<string>>, answers: seq<Answer>)

  function BooksOf(p: Poll): seq<string> {
    match p.listing case Some(b) => b case None => []
  }

  predicate Proper(p: Poll) { |p.answers| <= |BooksOf(p)| }

  predicate Completes(p: Poll) { |p.answers| == |BooksOf(p)| }

  /** The frames so far, and the last position seen of each book. */
  datatype Streamed = Streamed(frames: seq<Frame>, last: map<string, int64>)

  function Answered(asin: string, answer: Answer, s: Streamed): Streamed {
    match answer
    case Failed => s.(frames := s.frames + [FetchError(asin)])
    case Missing => s
    case At(pos) =>
      if asin in s.last && s.last[asin] == pos then s
      else Streamed(s.frames + [Sample(asin, pos)], s.last[asin := pos])
  }

  function AllAnswered(books: seq<string>, answers: seq<Answer>, s: Streamed): Streamed
    requires |answers| <= |books|
  {
    if answers == [] then s
    else
      var n := |answers| - 1;
      Answered(books[n], answers[n], AllAnswered(books, answers[..n], s))
  }

  function Positions(answers: seq<Answer>): nat {
    if answers == [] then 0 else Positions(answers[..|answers| - 1]) + if answers[|answers| - 1].At? then 1 else 0
  }

  function HeartbeatOf(p: Poll): Frame { Heartbeat(|BooksOf(p)|, Positions(p.answers)) }

  function Listed(p: Poll, s: Streamed): Streamed {
    if p.listing.None? then s.(frames := s.frames + [ListError]) else s
  }

  function Polled(p: Poll, s: Streamed): Streamed
    requires Proper(p)
  {
    var t := AllAnswered(BooksOf(p), p.answers, Listed(p, s));
    if Completes(p) then t.(frames := t.frames + [HeartbeatOf(p)]) else t
  }

  predicate AllProper(polls: seq<Poll>) { forall i :: 0 <= i < |polls| ==> Proper(polls[i]) }

  predicate AllComplete(polls: seq<Poll>) { forall i :: 0 <= i < |polls| ==> Completes(polls[i]) }

  /** What a sink that takes every frame receives; a cancelled poll is the last one. */
  function Stream(polls: seq<Poll>): Streamed
    requires AllProper(polls)
  {
    if polls == [] then Streamed([], map[])
    else
      var before := polls[..|polls| - 1];
      if AllComplete(before) then Polled(polls[|polls| - 1], Stream(before)) else Stream(before)
  }

  /** What a sink with `room` for frames receives of `whole`. */
  predicate Cut(got: seq<Frame>, whole: seq<Frame>, room: nat) {
    got <= whole && |got| <= room && (|got| == room || got == whole)
  }

  lemma AnsweredGrows(books: seq<string>, answers: seq<Answer>, i: nat, s: Streamed)
    requires i <= |answers| <= |books|
    ensures s.frames <= AllAnswered(books, answers[..i], s).frames <= AllAnswered(books, answers, s).frames
  {
    if i < |answers| {
      var n := |answers| - 1;
      AnsweredGrows(books, answers[..n], i, s);
      assert answers[..n][..i] == answers[..i];
    } else {
      assert answers[..i] == answers;
      if i > 0 {
        AnsweredGrows(books, answers[..i - 1], i - 1, s);
        assert answers[..i - 1][..i - 1] == answers[..i - 1];
      }
    }
  }

  lemma PolledGrows(p: Poll, i: nat, s: Streamed)
    requires Proper(p) && i <= |p.answers|
    ensures s.frames <= Listed(p, s).frames
    ensures AllAnswered(BooksOf(p), p.answers[..i], Listed(p, s)).frames <= Polled(p, s).frames
    ensures Listed(p, s).frames <= Polled(p, s).frames
  {
    AnsweredGrows(BooksOf(p), p.answers, i, Listed(p, s));
  }

  lemma {:induction false} StreamGrows(polls: seq<Poll>, i: nat)
    requires AllProper(polls) && i <= |polls|
    ensures Stream(polls[..i]).frames <= Stream(polls).frames
    ensures !AllComplete(polls[..i]) ==> Stream(polls[..i]) == Stream(polls)
  {
    if i == |polls| {
      assert polls[..i] == polls;
    } else {
      var before := polls[..|polls| - 1];
      StreamGrows(before, i);
      assert before[..i] == polls[..i];
      if AllComplete(before) {
        PolledGrows(polls[|polls| - 1], 0, Stream(before));
        assert forall k :: 0 <= k < i ==> polls[..i][k] == before[k];
      }
    }
  }

  lemma StreamStep(polls: seq<Poll>, i: nat)
    requires AllProper(polls) && i < |polls| && AllComplete(polls[..i])
    ensures Stream(polls[..i + 1]) == Polled(polls[i], Stream(polls[..i]))
  {
    var now := polls[..i + 1];
    assert now[..|now| - 1] == polls[..i] && now[|now| - 1] == polls[i];
  }

  lemma CompleteStep(polls: seq<Poll>, i: nat)
    requires i < |polls| && AllComplete(polls[..i])
    ensures AllComplete(polls[..i + 1]) <==> Completes(polls[i])
    ensures !Completes(polls[i]) ==> !AllComplete(polls)
  {
    forall k | 0 <= k < i ensures Completes(polls[k]) { assert polls[..i][k] == polls[k]; }
    assert polls[..i + 1][i] == polls[i];
  }

  lemma CutShort(got: seq<Frame>, part: seq<Frame>, whole: seq<Frame>, room: nat)
    requires Cut(got, part, room) && part <= whole && (|part| > room || part == whole)
    ensures Cut(got, whole, room)
  {}

  /** streamReadingMonitor, with a sink that takes `room` frames and then fails. */
  class ReadingMonitor {
    var lastLoc: map<string, int64>
    var frames: seq<Frame>
    const room: nat

    constructor (room: nat)
      ensures frames == [] && lastLoc == map[] && this.room == room
    {
      lastLoc, frames, this.room := map[], [], room;
    }

    method Emit(f: Frame) returns (ok: bool)
      requires |frames| <= room
      modifies this`frames
      ensures |frames| <= room && ok == (|old(frames)| < room)
      ensures frames == if ok then old(frames) + [f] else old(frames)
    {
      ok := |frames| < room;
      if ok { frames := frames + [f]; }
    }

    /** One answer: the state moves on, or the sink is full and would have had to take more. */
    method Handle(asin: string, answer: Answer) returns (ok: bool)
      requires |frames| <= room
      modifies this
      ensures var t := Answered(asin, answer, Streamed(old(frames), old(lastLoc)));
              if ok then Streamed(frames, lastLoc) == t && |t.frames| <= room
              else frames == old(frames) && |frames| == room && frames < t.frames
    {
      ok := true;
      match answer {
        case Failed => ok := Emit(FetchError(asin));
        case Missing =>
        case At(pos) =>
          if !(asin in lastLoc && lastLoc[asin] == pos) {
            lastLoc := lastLoc[asin := pos];
            ok := Emit(Sample(asin, pos));
          }
      }
    }

    /** The poll closure. */
    method PollOnce(p: Poll) returns (ok: bool)
      requires Proper(p) && |frames| <= room
      modifies this
      ensures var t := Polled(p, Streamed(old(frames), old(lastLoc)));
              && Cut(frames, t.frames, room)
              && (ok <==> Completes(p) && |t.frames| <= room)
              && (ok ==> Streamed(frames, lastLoc) == t)
    {
      ghost var s := Streamed(frames, lastLoc);
      PolledGrows(p, 0, s);
      if p.listing.None? {
        ok := Emit(ListError);
        if !ok { return; }
      }
      var books := BooksOf(p);
      var polled := 0;
      var i := 0;
      while i < |books|
        invariant i <= |books| && i <= |p.answers| && |frames| <= room
        invariant Streamed(frames, lastLoc) == AllAnswered(books, p.answers[..i], Listed(p, s))
        invariant polled == Positions(p.answers[..i])
      {
        if i == |p.answers| {
          assert p.answers[..i] == p.answers;
          return false;
        }
        assert p.answers[..i + 1][..i] == p.answers[..i];
        PolledGrows(p, i + 1, s);
        ok := Handle(books[i], p.answers[i]);
        if !ok { return; }
        if p.answers[i].At? { polled := polled + 1; }
        i := i + 1;
      }
      assert p.answers[..i] == p.answers;
      ok := Emit(Heartbeat(|books|, polled));
    }

    /** The polls of one connection: the first at once, then one a tick. */
    method Run(polls: seq<Poll>) returns (ok: bool)
      requires AllProper(polls) && frames == [] && lastLoc == map[]
      modifies this
      ensures Cut(frames, Stream(polls).frames, room)
      ensures ok <==> AllComplete(polls) && |Stream(polls).frames| <= room
    {
      for i := 0 to |polls|
        invariant AllComplete(polls[..i]) && |frames| <= room
        invariant Streamed(frames, lastLoc) == Stream(polls[..i])
      {
        StreamStep(polls, i);
        StreamGrows(polls, i + 1);
        CompleteStep(polls, i);
        ok := PollOnce(polls[i]);
        if !ok {
          CutShort(frames, Stream(polls[..i + 1]).frames, Stream(polls).frames, room);
          return;
        }
      }
      assert polls[..|polls|] == polls;
      ok := true;
    }
  }

  // ---- what the client sees ----

  /** The locations streamed for book `a`. */
  function Samples(f: seq<Frame>, a: string): seq<int64> {
    if f == [] then []
    else
      var l := f[|f| - 1];
      Samples(f[..|f| - 1], a) + (if l.Sample? && l.asin == a then [l.location] else [])
  }

  /** The positions read for book `a`. */
  function Observed(books: seq<string>, answers: seq<Answer>, a: string): seq<int64>
    requires |answers| <= |books|
  {
    if answers == [] then []
    else
      var n := |answers| - 1;
      Observed(books, answers[..n], a) + (if books[n] == a && answers[n].At? then [answers[n].location] else [])
  }

  function AllObserved(polls: seq<Poll>, a: string): seq<int64>
    requires AllProper(polls)
  {
    if polls == [] then []
    else
      var before, p := polls[..|polls| - 1], polls[|polls| - 1];
      AllObserved(before, a) + (if AllComplete(before) then Observed(BooksOf(p), p.answers, a) else [])
  }

  /** A sequence without its consecutive repeats. */
  function Changes(s: seq<int64>): seq<int64> {
    if s == [] then []
    else
      var n := |s| - 1;
      if n > 0 && s[n] == s[n - 1] then Changes(s[..n]) else Changes(s[..n]) + [s[n]]
  }

  predicate Tracks(s: Streamed, a: string, seen: seq<int64>) {
    && Samples(s.frames, a) == Changes(seen)
    && (a in s.last <==> seen != [])
    && (seen != [] ==> s.last[a] == seen[|seen| - 1])
  }

  lemma SamplesOne(f: seq<Frame>, l: Frame, a: string)
    ensures Samples(f + [l], a) == Samples(f, a) + (if l.Sample? && l.asin == a then [l.location] else [])
  {
    assert (f + [l])[..|f|] == f;
  }

  lemma ChangesOne(s: seq<int64>, x: int64)
    ensures Changes(s + [x]) == Changes(s) + (if s != [] && s[|s| - 1] == x then [] else [x])
  {
    assert (s + [x])[..|s|] == s;
  }

  lemma AnsweredTracks(asin: string, answer: Answer, s: Streamed, a: string, seen: seq<int64>)
    requires Tracks(s, a, seen)
    ensures Tracks(Answered(asin, answer, s), a, seen + (if asin == a && answer.At? then [answer.location] else []))
  {
    assert seen + [] == seen;
    match answer
    case Failed => SamplesOne(s.frames, FetchError(asin), a);
    case Missing =>
    case At(pos) =>
      SamplesOne(s.frames, Sample(asin, pos), a);
      ChangesOne(seen, pos);
  }

  lemma {:induction false} AllAnsweredTracks(books: seq<string>, answers: seq<Answer>, s: Streamed, a: string,
      seen: seq<int64>)
    requires |answers| <= |books| && Tracks(s, a, seen)
    ensures Tracks(AllAnswered(books, answers, s), a, seen + Observed(books, answers, a))
  {
    if answers == [] {
      assert seen + [] == seen;
    } else {
      var n := |answers| - 1;
      AllAnsweredTracks(books, answers[..n], s, a, seen);
      var now := seen + Observed(books, answers[..n], a);
      AnsweredTracks(books[n], answers[n], AllAnswered(books, answers[..n], s), a, now);
      assert seen + Observed(books, answers, a) ==
             now + (if books[n] == a && answers[n].At? then [answers[n].location] else []);
    }
  }

  lemma PolledTracks(p: Poll, s: Streamed, a: string, seen: seq<int64>)
    requires Proper(p) && Tracks(s, a, seen)
    ensures Tracks(Polled(p, s), a, seen + Observed(BooksOf(p), p.answers, a))
  {
    SamplesOne(s.frames, ListError, a);
    assert Tracks(Listed(p, s), a, seen);
    AllAnsweredTracks(BooksOf(p), p.answers, Listed(p, s), a, seen);
    var t := AllAnswered(BooksOf(p), p.answers, Listed(p, s));
    SamplesOne(t.frames, HeartbeatOf(p), a);
  }

  lemma {:induction false} StreamTracks(polls: seq<Poll>, a: string)
    requires AllProper(polls)
    ensures Tracks(Stream(polls), a, AllObserved(polls, a))
  {
    if polls != [] {
      var before, p := polls[..|polls| - 1], polls[|polls| - 1];
      StreamTracks(before, a);
      if AllComplete(before) { PolledTracks(p, Stream(before), a, AllObserved(before, a)); }
      assert AllObserved(before, a) + [] == AllObserved(before, a);
    }
  }

  lemma {:induction false} SamplesPrefix(f: seq<Frame>, g: seq<Frame>, a: string)
    requires f <= g
    ensures Samples(f, a) <= Samples(g, a)
  {
    if |f| < |g| {
      SamplesPrefix(f, g[..|g| - 1], a);
    } else {
      assert f == g;
    }
  }

  /** The change stream.  For every book the locations a client receives are the positions that
      were read, in order, without consecutive repeats; if the sink gives out, a prefix of them. */
  lemma SamplesAreChanges(polls: seq<Poll>, got: seq<Frame>, room: nat, a: string)
    requires AllProper(polls) && Cut(got, Stream(polls).frames, room)
    ensures Samples(got, a) <= Changes(AllObserved(polls, a))
    ensures |Stream(polls).frames| <= room ==> Samples(got, a) == Changes(AllObserved(polls, a))
  {
    StreamTracks(polls, a);
    SamplesPrefix(got, Stream(polls).frames, a);
    assert |got| == |Stream(polls).frames| ==> got == Stream(polls).frames;
  }

  /** `Changes` drops repeats only: neighbours differ, and the last element is still the last. */
  lemma {:induction false} ChangesDiffer(s: seq<int64>)
    ensures s != [] ==> Changes(s) != [] && Changes(s)[|Changes(s)| - 1] == s[|s| - 1]
    ensures forall i :: 0 <= i < |Changes(s)| - 1 ==> Changes(s)[i] != Changes(s)[i + 1]
  {
    if s != [] { ChangesDiffer(s[..|s| - 1]); }
  }

  // ---- heartbeats ----

  predicate Quiet(f: seq<Frame>, from: nat) { forall i :: from <= i < |f| ==> !f[i].Heartbeat? }

  lemma {:induction false} AnswersAreQuiet(books: seq<string>, answers: seq<Answer>, s: Streamed, from: nat)
    requires |answers| <= |books| && from <= |s.frames| && Quiet(s.frames, from)
    ensures s.frames <= AllAnswered(books, answers, s).frames && Quiet(AllAnswered(books, answers, s).frames, from)
  {
    if answers != [] { AnswersAreQuiet(books, answers[..|answers| - 1], s, from); }
  }

  lemma {:induction false} PositionsCounts(answers: seq<Answer>)
    ensures Positions(answers) == |set i: nat | i < |answers| && answers[i].At?|
  {
    if answers != [] {
      var n := |answers| - 1;
      var init := answers[..n];
      PositionsCounts(init);
      var before, now := set i: nat | i < n && init[i].At?, set i: nat | i < |answers| && answers[i].At?;
      assert now == before + if answers[n].At? then {n} else {};
    }
  }

  /** A poll that is not cancelled adds exactly one heartbeat, as its last frame, and it counts
      the books listed, none when that failed, and the positions read; a cancelled poll adds none. */
  lemma OneHeartbeatPerPoll(p: Poll, s: Streamed)
    requires Proper(p)
    ensures var f := Polled(p, s).frames;
            && s.frames <= f
            && if Completes(p) then |f| > |s.frames| && f[|f| - 1] == HeartbeatOf(p) && Quiet(f[..|f| - 1], |s.frames|)
               else Quiet(f, |s.frames|)
    ensures var h := HeartbeatOf(p);
            && h.Heartbeat? && h.books == (if p.listing.Some? then |p.listing.value| else 0)
            && h.polled == |set i: nat | i < |p.answers| && p.answers[i].At?|
  {
    PositionsCounts(p.answers);
    AnswersAreQuiet(BooksOf(p), p.answers, Listed(p, s), |s.frames|);
    var t := AllAnswered(BooksOf(p), p.answers, Listed(p, s));
    assert (t.frames + [HeartbeatOf(p)])[..|t.frames|] == t.frames;
  }

  function Heartbeats(f: seq<Frame>): seq<Frame> {
    if f == [] then []
    else Heartbeats(f[..|f| - 1]) + (if f[|f| - 1].Heartbeat? then [f[|f| - 1]] else [])
  }

  function HeartbeatsOf(polls: seq<Poll>): (r: seq<Frame>)
    ensures |r| == |polls|
  {
    seq(|polls|, i requires 0 <= i < |polls| => HeartbeatOf(polls[i]))
  }

  lemma {:induction false} QuietAddsNone(f: seq<Frame>, from: nat)
    requires from <= |f| && Quiet(f, from)
    ensures Heartbeats(f) == Heartbeats(f[..from])
  {
    if from < |f| {
      QuietAddsNone(f[..|f| - 1], from);
      assert f[..|f| - 1][..from] == f[..from];
    } else {
      assert f[..from] == f;
    }
  }

  lemma PolledHeartbeats(p: Poll, s: Streamed)
    requires Proper(p)
    ensures Heartbeats(Polled(p, s).frames) == Heartbeats(s.frames) + (if Completes(p) then [HeartbeatOf(p)] else [])
  {
    OneHeartbeatPerPoll(p, s);
    var f := Polled(p, s).frames;
    var quiet := if Completes(p) then f[..|f| - 1] else f;
    QuietAddsNone(quiet, |s.frames|);
    assert quiet[..|s.frames|] == s.frames;
    assert Heartbeats(s.frames) + [] == Heartbeats(s.frames);
  }

  /** Over a connection: one heartbeat per poll, in order. */
  lemma {:induction false} HeartbeatsMatchPolls(polls: seq<Poll>)
    requires AllProper(polls) && AllComplete(polls)
    ensures Heartbeats(Stream(polls).frames) == HeartbeatsOf(polls)
  {
    if polls != [] {
      var before, p := polls[..|polls| - 1], polls[|polls| - 1];
      HeartbeatsMatchPolls(before);
      PolledHeartbeats(p, Stream(before));
      assert HeartbeatsOf(polls) == HeartbeatsOf(before) + [HeartbeatOf(p)];
    }
  }

  // ---- errors ----

  /** The errors streamed, in order. */
  function Errors(f: seq<Frame>): seq<Frame> {
    if f == [] then []
    else
      var l := f[|f| - 1];
      Errors(f[..|f| - 1]) + (if l.FetchError? || l.ListError? then [l] else [])
  }

  /** The errors met in answers about books. */
  function Met(books: seq<string>, answers: seq<Answer>): seq<Frame>
    requires |answers| <= |books|
  {
    if answers == [] then []
    else
      var n := |answers| - 1;
      Met(books, answers[..n]) + (if answers[n].Failed? then [FetchError(books[n])] else [])
  }

  function AllMet(polls: seq<Poll>): seq<Frame>
    requires AllProper(polls)
  {
    if polls == [] then []
    else
      var before, p := polls[..|polls| - 1], polls[|polls| - 1];
      AllMet(before)
      + (if AllComplete(before) then (if p.listing.None? then [ListError] else []) + Met(BooksOf(p), p.answers) else [])
  }

  lemma ErrorsOne(f: seq<Frame>, l: Frame)
    ensures Errors(f + [l]) == Errors(f) + (if l.FetchError? || l.ListError? then [l] else [])
  {
    assert (f + [l])[..|f|] == f;
  }

  lemma AnswerError(asin: string, answer: Answer, s: Streamed)
    ensures Errors(Answered(asin, answer, s).frames) ==
              Errors(s.frames) + (if answer.Failed? then [FetchError(asin)] else [])
  {
    match answer
    case Failed => ErrorsOne(s.frames, FetchError(asin));
    case Missing =>
    case At(pos) => ErrorsOne(s.frames, Sample(asin, pos));
  }

  lemma {:induction false} AnswerErrors(books: seq<string>, answers: seq<Answer>, s: Streamed)
    requires |answers| <= |books|
    ensures Errors(AllAnswered(books, answers, s).frames) == Errors(s.frames) + Met(books, answers)
  {
    if answers == [] {
      assert Errors(s.frames) + [] == Errors(s.frames);
    } else {
      var n := |answers| - 1;
      AnswerErrors(books, answers[..n], s);
      AnswerError(books[n], answers[n], AllAnswered(books, answers[..n], s));
      Associates(Errors(s.frames), Met(books, answers[..n]), if answers[n].Failed? then [FetchError(books[n])] else []);
    }
  }

  lemma Associates(a: seq<Frame>, b: seq<Frame>, c: seq<Frame>)
    ensures (a + b) + c == a + (b + c)
  {}

  lemma PollErrors(p: Poll, s: Streamed)
    requires Proper(p)
    ensures Errors(Polled(p, s).frames) ==
              Errors(s.frames) + ((if p.listing.None? then [ListError] else []) + Met(BooksOf(p), p.answers))
  {
    var t := AllAnswered(BooksOf(p), p.answers, Listed(p, s));
    ErrorsOne(s.frames, ListError);
    AnswerErrors(BooksOf(p), p.answers, Listed(p, s));
    ErrorsOne(t.frames, HeartbeatOf(p));
  }

  /** No error goes unreported: the errors of a connection are the failed listings and the failed
      answers, each at its place. */
  lemma {:induction false} ErrorsAreReported(polls: seq<Poll>)
    requires AllProper(polls)
    ensures Errors(Stream(polls).frames) == AllMet(polls)
  {
    if polls != [] {
      var before, p := polls[..|polls| - 1], polls[|polls| - 1];
      ErrorsAreReported(before);
      if AllComplete(before) { PollErrors(p, Stream(before)); }
    }
  }
}
