/** What the presumptions of the fleet-wide cap are for: how recent stamps must be, when names
    matter, and where an acquisition can meet a member name that is still outstanding. */
module FleetLimits {
  import opened Basics
  import opened Rows
  import opened Decimal
  import opened Protocol
  import opened Limiter
  import opened Fleet
  import L = Lease

  // ---- building runs ----

  /** Runs can be extended at the end. */
  lemma {:induction false} Extend(cfg: Config, f: System, ms: seq<Move>, g: System, m: Move, kind: string, gap: int)
    requires Moves(cfg, f, ms, g) && AllRecent(cfg, f, ms, kind, gap)
    requires Possible(cfg, g, m) && Recent(Do(cfg, g, m), kind, gap)
    ensures Moves(cfg, f, ms + [m], Do(cfg, g, m)) && AllRecent(cfg, f, ms + [m], kind, gap)
    ensures AllDistinct(cfg, f, ms, kind) && Distinct(cfg, g, m, kind) ==> AllDistinct(cfg, f, ms + [m], kind)
    decreases |ms|
  {
    if ms != [] {
      Extend(cfg, Do(cfg, f, ms[0]), ms[1..], g, m, kind, gap);
      assert (ms + [m])[1..] == ms[1..] + [m];
    } else {
      assert [m][1..] == [] && ms + [m] == [m];
      assert Moves(cfg, Do(cfg, g, m), [m][1..], Do(cfg, g, m));
    }
  }

  /** A run from the start, with its assumptions on one kind. */
  datatype Trail = Trail(start: System, ms: seq<Move>, end: System)

  predicate FromStart(cfg: Config, t: Trail) {
    Start(t.start) && Moves(cfg, t.start, t.ms, t.end)
  }

  /** The limiter has answered every run. */
  predicate Built(cfg: Config, t: Trail, kind: string, gap: int) {
    FromStart(cfg, t) && AllRecent(cfg, t.start, t.ms, kind, gap) && t.end.loose == {}
  }

  predicate BuiltDistinct(cfg: Config, t: Trail, kind: string, gap: int) {
    Built(cfg, t, kind, gap) && AllDistinct(cfg, t.start, t.ms, kind)
  }

  function Then(cfg: Config, t: Trail, m: Move): Trail
    requires Possible(cfg, t.end, m)
  {
    Trail(t.start, t.ms + [m], Do(cfg, t.end, m))
  }

  lemma Step(cfg: Config, t: Trail, m: Move, kind: string, gap: int)
    requires Built(cfg, t, kind, gap) && Possible(cfg, t.end, m) && !m.AcquireError?
    requires Recent(Do(cfg, t.end, m), kind, gap)
    ensures Built(cfg, Then(cfg, t, m), kind, gap)
    ensures BuiltDistinct(cfg, t, kind, gap) && Distinct(cfg, t.end, m, kind) ==>
              BuiltDistinct(cfg, Then(cfg, t, m), kind, gap)
  {
    Extend(cfg, t.start, t.ms, t.end, m, kind, gap);
  }

  // ---- one slot taking one job from the queue to its handler ----

  /** Slot `w` may take job `id` of a limited kind and finds room for it. */
  ghost predicate Ready(cfg: Config, g: System, w: string, id: nat, kind: string) {
    && w in g.q.slots && g.q.slots[w].Idle? && w !in g.holds && w !in g.loose
    && id in g.q.jobs && id in g.q.hist && g.q.jobs[id].status.Queued? && g.q.jobs[id].kind == kind
    && 0 < CapOf(cfg.cap, kind)
    && |Prune(SetOf(g.sets, kind), Cutoff(g.q.now, cfg.ttl))| < CapOf(cfg.cap, kind)
  }

  /** The kind's set after an admission under a name. */
  function Joined(cfg: Config, g: System, kind: string, holder: string): ZSet {
    Prune(SetOf(g.sets, kind), Cutoff(g.q.now, cfg.ttl))[holder := Stamp(g.q.now)]
  }

  /** `h` is `g` after slot `w` has claimed job `id`, acquired its name and started its handler. */
  ghost predicate Taken(cfg: Config, g: System, h: System, w: string, id: nat, kind: string) {
    && h.q.now == g.q.now && h.q.hist.Keys == g.q.hist.Keys
    && h.q.slots.Keys == g.q.slots.Keys + {w} && h.q.slots[w].Handling? && h.q.slots[w].c.id == id
    && (forall v :: v in g.q.slots && v != w ==> h.q.slots[v] == g.q.slots[v])
    && id in g.q.jobs && h.q.jobs == g.q.jobs[id := ClaimRow(g.q.jobs[id], w, g.q.now)]
    && h.q.slots[w].c.attempts == g.q.jobs[id].attempts + 1 && h.q.slots[w].c.maxAttempts == g.q.jobs[id].maxAttempts
    && h.sets == g.sets[kind := Joined(cfg, g, kind, Holder(cfg, w, id))]
    && h.holds == g.holds[w := Hold(kind, Holder(cfg, w, id), g.q.now)]
  }

  lemma ClaimMove(cfg: Config, g: System, w: string, id: nat, kind: string) returns (h: System)
    requires Ready(cfg, g, w, id, kind)
    ensures Possible(cfg, g, Queue(ClaimJob(w, id))) && h == Do(cfg, g, Queue(ClaimJob(w, id)))
    ensures h.sets == g.sets && h.holds == g.holds && h.q.now == g.q.now && h.q.hist.Keys == g.q.hist.Keys
    ensures w !in h.loose
    ensures h.q.jobs == g.q.jobs[id := ClaimRow(g.q.jobs[id], w, g.q.now)] && w in h.q.slots && h.q.slots[w].Claimed?
    ensures h.q.slots == g.q.slots[w := h.q.slots[w]] && h.q.slots[w].c.id == id
    ensures h.q.slots[w].c.attempts == g.q.jobs[id].attempts + 1
    ensures h.q.slots[w].c.maxAttempts == g.q.jobs[id].maxAttempts
  {
    h := Do(cfg, g, Queue(ClaimJob(w, id)));
  }

  lemma AcquireMove(cfg: Config, g: System, w: string, kind: string, holder: string) returns (h: System)
    requires w in g.q.slots && g.q.slots[w].Claimed? && w !in g.holds && w !in g.loose && 0 < CapOf(cfg.cap, kind)
    requires kind == KindOf(g, g.q.slots[w]) && holder == HolderOf(cfg, g, w) && Room(cfg, g, w)
    ensures Possible(cfg, g, Acquire(w)) && h == Do(cfg, g, Acquire(w)) && h.q == g.q
    ensures h.sets == g.sets[kind := Joined(cfg, g, kind, holder)]
    ensures h.holds == g.holds[w := Hold(kind, holder, g.q.now)]
  {
    h := Do(cfg, g, Acquire(w));
  }

  lemma StartMove(cfg: Config, g: System, w: string) returns (h: System)
    requires w in g.q.slots && g.q.slots[w].Claimed? && g.q.slots[w].c.id in g.q.hist && w in g.holds
    ensures Possible(cfg, g, Queue(StartHandler(w))) && h == Do(cfg, g, Queue(StartHandler(w)))
    ensures h.sets == g.sets && h.holds == g.holds && h.q.now == g.q.now && h.q.jobs == g.q.jobs
    ensures h.q.hist.Keys == g.q.hist.Keys && h.q.slots == g.q.slots[w := Handling(g.q.slots[w].c)]
  {
    h := Do(cfg, g, Queue(StartHandler(w)));
  }

  lemma Take(cfg: Config, t: Trail, w: string, id: nat, kind: string, gap: int) returns (t': Trail)
    requires Built(cfg, t, kind, gap) && Ready(cfg, t.end, w, id, kind) && gap >= 0 && Recent(t.end, kind, gap)
    ensures Built(cfg, t', kind, gap) && Taken(cfg, t.end, t'.end, w, id, kind) && Recent(t'.end, kind, gap)
    ensures BuiltDistinct(cfg, t, kind, gap) && Unused(t.end, kind, Holder(cfg, w, id)) ==>
              BuiltDistinct(cfg, t', kind, gap)
  {
    var g := t.end;
    var a := ClaimMove(cfg, g, w, id, kind);
    Step(cfg, t, Queue(ClaimJob(w, id)), kind, gap);
    var t1 := Then(cfg, t, Queue(ClaimJob(w, id)));
    var b := AcquireMove(cfg, a, w, kind, Holder(cfg, w, id));
    Step(cfg, t1, Acquire(w), kind, gap);
    var t2 := Then(cfg, t1, Acquire(w));
    var c := StartMove(cfg, b, w);
    Step(cfg, t2, Queue(StartHandler(w)), kind, gap);
    t' := Then(cfg, t2, Queue(StartHandler(w)));
  }

  lemma HolderInjective(cfg: Config, v: string, i: nat, w: string, j: nat)
    requires Holder(cfg, v, i) == Holder(cfg, w, j)
    ensures i == j
  {
    var p, q := if v in cfg.pod then cfg.pod[v] else "", if w in cfg.pod then cfg.pod[w] else "";
    SplitAtLastColon(p, q, Digits(i), Digits(j));
    DigitsInjective(i, j);
  }

  function UpTo(n: nat): (ids: set<nat>)
    ensures forall i: nat :: i in ids <==> i < n
  {
    if n == 0 then {} else UpTo(n - 1) + {n - 1}
  }

  function Names(ws: seq<string>): (names: set<string>)
    ensures forall w :: w in names <==> w in ws
  {
    if ws == [] then {} else Names(ws[..|ws| - 1]) + {ws[|ws| - 1]}
  }

  /** A system at time `now` with these slots, all idle, and the first `n` jobs of one kind queued. */
  ghost predicate Loaded(g: System, now: int, ws: set<string>, n: nat) {
    && g.q.now == now && g.q.slots.Keys == ws && (forall w :: w in ws ==> g.q.slots[w].Idle?)
    && g.q.jobs.Keys == UpTo(n) && g.q.hist.Keys == UpTo(n)
    && (forall id :: id in UpTo(n) ==> g.q.jobs[id] == NewRow("k", "", 3, now))
    && g.sets == map[] && g.holds == map[]
  }

  lemma {:induction false} Load(cfg: Config, now: int, ws: set<string>, n: nat, gap: int) returns (t: Trail)
    requires "" !in ws
    ensures BuiltDistinct(cfg, t, "k", gap) && Loaded(t.end, now, ws, n)
  {
    if n == 0 {
      var f := System(State(now, map[], map w | w in ws :: Idle, map[]), map[], map[], {});
      t := Trail(f, [], f);
    } else {
      t := Load(cfg, now, ws, n - 1, gap);
      var m := Queue(Enqueue(n - 1, "k", "", 3, now));
      Step(cfg, t, m, "k", gap);
      t := Then(cfg, t, m);
    }
  }

  lemma Wait(cfg: Config, t: Trail, elapsed: nat, kind: string, gap: int) returns (t': Trail)
    requires Built(cfg, t, kind, gap) && Recent(t.end, kind, gap - elapsed)
    ensures Built(cfg, t', kind, gap) && (BuiltDistinct(cfg, t, kind, gap) ==> BuiltDistinct(cfg, t', kind, gap))
    ensures t'.end == t.end.(q := t.end.q.(now := t.end.q.now + elapsed))
  {
    Step(cfg, t, Queue(Tick(elapsed)), kind, gap);
    t' := Then(cfg, t, Queue(Tick(elapsed)));
  }

  // ---- filling a fleet ----

  /** With `n` jobs taken, slot number `i` runs job `i` or is idle. */
  ghost predicate SlotAt(g: System, w: string, i: nat, n: nat) {
    && w in g.q.slots
    && if i < n then g.q.slots[w].Handling? && g.q.slots[w].c.id == i else g.q.slots[w].Idle?
  }

  ghost predicate JobAt(jobs: Table, hist: map<nat, Hist>, i: nat, n: nat) {
    i in jobs && i in hist && jobs[i].kind == "k" && (i >= n ==> jobs[i].status.Queued?)
  }

  /** Of the slots `ws`, the first `n` run the jobs 0 to n - 1 and the others are idle; of the jobs,
      one fewer than the slots, the others are queued. */
  ghost predicate Stage(g: System, ws: seq<string>, n: nat) {
    && (forall i: nat :: i < |ws| ==> SlotAt(g, ws[i], i, n))
    && (forall i: nat :: i < |ws| - 1 ==> JobAt(g.q.jobs, g.q.hist, i, n))
  }

  lemma StageTaken(cfg: Config, g: System, h: System, ws: seq<string>, n: nat)
    requires Stage(g, ws, n) && NoRepeats(ws) && n < |ws| - 1 && Taken(cfg, g, h, ws[n], n, "k")
    ensures Stage(h, ws, n + 1)
  {
    var m := n + 1;
    forall i: nat | i < |ws| ensures SlotAt(h, ws[i], i, m) {
      assert SlotAt(g, ws[i], i, n) && (i != n ==> ws[i] != ws[n]);
    }
    forall i: nat | i < |ws| - 1 ensures JobAt(h.q.jobs, h.q.hist, i, m) { assert JobAt(g.q.jobs, g.q.hist, i, n); }
  }

  lemma SetTaken(cfg: Config, g: System, h: System, w: string, id: nat)
    requires Taken(cfg, g, h, w, id, "k")
    ensures |SetOf(h.sets, "k")| <= |SetOf(g.sets, "k")| + 1
    ensures SetOf(g.sets, "k").Keys <= {Holder(cfg, w, id)} ==> SetOf(h.sets, "k").Keys == {Holder(cfg, w, id)}
  {
    var live := Prune(SetOf(g.sets, "k"), Cutoff(g.q.now, cfg.ttl));
    PruneSmaller(SetOf(g.sets, "k"), Cutoff(g.q.now, cfg.ttl));
    assert |live[Holder(cfg, w, id) := Stamp(g.q.now)]| <= |live| + 1;
  }

  /** Two slots more than the cap. */
  ghost predicate Crew(cfg: Config, ws: seq<string>) {
    NoRepeats(ws) && "" !in ws && 0 < CapOf(cfg.cap, "k") == |ws| - 2
  }

  /** The outstanding holds bear names of the first `n` slots, each with its job. */
  ghost predicate HeldBy(cfg: Config, g: System, ws: seq<string>, n: nat)
    requires n <= |ws|
  {
    forall v :: v in g.holds ==>
      exists i: nat :: i < n && ws[i] == v && g.holds[v].holder == Holder(cfg, v, i)
  }

  lemma HeldByTaken(cfg: Config, g: System, h: System, ws: seq<string>, n: nat)
    requires n < |ws| && HeldBy(cfg, g, ws, n) && Taken(cfg, g, h, ws[n], n, "k")
    ensures HeldBy(cfg, h, ws, n + 1)
    ensures Unused(g, "k", Holder(cfg, ws[n], n))
  {
    forall v | v in h.holds ensures exists i: nat :: i < n + 1 && ws[i] == v && h.holds[v].holder == Holder(cfg, v, i) {
      if v == ws[n] { assert h.holds[ws[n]].holder == Holder(cfg, v, n); }
    }
    forall v | v in g.holds ensures g.holds[v].holder != Holder(cfg, ws[n], n) {
      var i: nat :| i < n && ws[i] == v && g.holds[v].holder == Holder(cfg, v, i);
      if Holder(cfg, v, i) == Holder(cfg, ws[n], n) { HolderInjective(cfg, v, i, ws[n], n); }
    }
  }

  /** The kind's set: room for as many more, and no stamp after now. */
  ghost predicate RoomFor(cfg: Config, g: System, more: nat) {
    && |SetOf(g.sets, "k")| + more <= CapOf(cfg.cap, "k")
    && forall h :: h in SetOf(g.sets, "k") ==> SetOf(g.sets, "k")[h] <= Stamp(g.q.now)
  }

  lemma NextTaken(cfg: Config, t: Trail, ws: seq<string>, n: nat, gap: int) returns (t': Trail)
    requires Crew(cfg, ws) && n < |ws| - 1 && Stage(t.end, ws, n) && HeldBy(cfg, t.end, ws, n)
    requires Built(cfg, t, "k", gap) && Recent(t.end, "k", gap) && gap >= 0
    requires |Prune(SetOf(t.end.sets, "k"), Cutoff(t.end.q.now, cfg.ttl))| < CapOf(cfg.cap, "k")
    ensures Built(cfg, t', "k", gap) && (BuiltDistinct(cfg, t, "k", gap) ==> BuiltDistinct(cfg, t', "k", gap))
    ensures Stage(t'.end, ws, n + 1) && HeldBy(cfg, t'.end, ws, n + 1) && Recent(t'.end, "k", gap)
    ensures Taken(cfg, t.end, t'.end, ws[n], n, "k")
  {
    assert ws[n] !in t.end.holds && JobAt(t.end.q.jobs, t.end.q.hist, n, n);
    t' := Take(cfg, t, ws[n], n, "k", gap);
    StageTaken(cfg, t.end, t'.end, ws, n);
    HeldByTaken(cfg, t.end, t'.end, ws, n);
  }

  lemma RoomTaken(cfg: Config, g: System, h: System, more: nat, w: string, id: nat)
    requires RoomFor(cfg, g, more) && more > 0 && Taken(cfg, g, h, w, id, "k")
    ensures RoomFor(cfg, h, more - 1)
  {
    SetTaken(cfg, g, h, w, id);
  }

  /** As long as there is room, slot after slot takes its job. */
  lemma {:induction false} Fill(cfg: Config, t: Trail, ws: seq<string>, n: nat, m: nat, gap: nat) returns (t': Trail)
    requires Crew(cfg, ws) && n <= m <= |ws| - 1 && Stage(t.end, ws, n) && HeldBy(cfg, t.end, ws, n)
    requires Built(cfg, t, "k", gap) && Recent(t.end, "k", gap) && RoomFor(cfg, t.end, m - n)
    ensures Built(cfg, t', "k", gap) && (BuiltDistinct(cfg, t, "k", gap) ==> BuiltDistinct(cfg, t', "k", gap))
    ensures Stage(t'.end, ws, m) && HeldBy(cfg, t'.end, ws, m) && RoomFor(cfg, t'.end, 0)
    ensures t'.end.q.now == t.end.q.now && (Recent(t.end, "k", 0) ==> Recent(t'.end, "k", 0))
    decreases m - n
  {
    if n == m {
      t' := t;
    } else {
      PruneSmaller(SetOf(t.end.sets, "k"), Cutoff(t.end.q.now, cfg.ttl));
      var u := NextTaken(cfg, t, ws, n, gap);
      RoomTaken(cfg, t.end, u.end, m - n, ws[n], n);
      t' := Fill(cfg, u, ws, n + 1, m, gap);
    }
  }

  lemma {:induction false} NamesCard(ws: seq<string>)
    requires NoRepeats(ws)
    ensures |Names(ws)| == |ws|
  {
    if ws != [] { NamesCard(ws[..|ws| - 1]); }
  }

  lemma StageRuns(g: System, ws: seq<string>, n: nat)
    requires Stage(g, ws, n) && NoRepeats(ws) && n < |ws|
    ensures |Runners(g, "k")| >= n
  {
    NamesCard(ws[..n]);
    forall w | w in Names(ws[..n]) ensures w in Runners(g, "k") {
      var i: nat :| i < n && ws[..n][i] == w;
      assert SlotAt(g, ws[i], i, n) && JobAt(g.q.jobs, g.q.hist, i, n);
    }
    SubsetCard(Names(ws[..n]), Runners(g, "k"));
  }

  // ---- how recent stamps must be ----

  /** All slots but two run, stamped at 999 ms. */
  lemma FullHouse(cfg: Config, ws: seq<string>, gap: nat) returns (t: Trail)
    requires Crew(cfg, ws)
    ensures BuiltDistinct(cfg, t, "k", gap) && Recent(t.end, "k", 0) && t.end.q.now == 999
    ensures Stage(t.end, ws, |ws| - 2) && HeldBy(cfg, t.end, ws, |ws| - 2) && RoomFor(cfg, t.end, 0)
  {
    var t0 := Load(cfg, 999, Names(ws), |ws| - 1, gap);
    LoadedStage(t0.end, 999, ws);
    t := Fill(cfg, t0, ws, 0, |ws| - 2, gap);
  }

  lemma LatePrune(z: ZSet, gap: nat, ttl: int)
    requires gap > ttl - SECOND && forall h :: h in z ==> z[h] <= Stamp(999)
    ensures Prune(z, Cutoff(999 + gap, ttl)) == map[]
  {
    assert 999 + gap - ttl >= 0;
  }

  /** At any cap.  As many slots as the cap stamp at 999 ms, which counts as second 0.  `gap` later,
      with less than a second of the TTL left, the cutoff has reached second 0 as well: one more
      slot, under another name, prunes the live holds and is admitted beside them. */
  lemma LateSecondBreaksCap(cfg: Config, ws: seq<string>, gap: nat) returns (t: Trail)
    requires Crew(cfg, ws) && gap > cfg.ttl - SECOND
    ensures BuiltDistinct(cfg, t, "k", gap)
    ensures |Throttled(t.end, "k")| > CapOf(cfg.cap, "k")
  {
    var t0 := FullHouse(cfg, ws, gap);
    var t1 := Wait(cfg, t0, gap, "k", gap);
    LatePrune(SetOf(t1.end.sets, "k"), gap, cfg.ttl);
    t := NextTaken(cfg, t1, ws, |ws| - 2, gap);
    StageRuns(t.end, ws, |ws| - 1);
  }

  lemma SomeCrew(cap: nat, ttl: int) returns (cfg: Config, ws: seq<string>)
    requires cap > 0
    ensures Crew(cfg, ws) && CapOf(cfg.cap, "k") == cap && cfg.ttl == ttl && cfg.pod == map[]
  {
    cfg := Config(map["k" := cap], ttl, map[]);
    ws := seq(cap + 2, i requires 0 <= i < cap + 2 => Digits(i));
    forall i, j | 0 <= i < j < |ws| ensures ws[i] != ws[j] {
      if ws[i] == ws[j] { DigitsInjective(i, j); }
    }
  }

  /** Refreshing within `gap` is enough for any kind with this cap, in every run in which its
      names are distinct or, at a cap of one, in every run. */
  ghost predicate GapSuffices(cap: int, ttl: int, gap: int) {
    forall cfg: Config, t: Trail, kind: string ::
      && cfg.ttl == ttl && CapOf(cfg.cap, kind) == cap && FromStart(cfg, t)
      && AllRecent(cfg, t.start, t.ms, kind, gap) && NamesOk(cfg, t.start, t.ms, kind) ==>
        |Throttled(t.end, kind)| <= cap
  }

  /** The exact refresh condition, cap by cap: a gap suffices if and only if it leaves a whole
      second of the TTL; merely staying below the TTL is not enough. */
  lemma GapSufficesExactly(cap: nat, ttl: int, gap: nat)
    requires cap > 0
    ensures GapSuffices(cap, ttl, gap) <==> gap <= ttl - SECOND
  {
    if gap <= ttl - SECOND {
      forall cfg: Config, t: Trail, kind: string |
        && cfg.ttl == ttl && CapOf(cfg.cap, kind) == cap && FromStart(cfg, t)
        && AllRecent(cfg, t.start, t.ms, kind, gap) && NamesOk(cfg, t.start, t.ms, kind)
        ensures |Throttled(t.end, kind)| <= cap
      {
        FleetCapByRefreshing(cfg, t.start, t.ms, t.end, kind, gap);
      }
    } else {
      var cfg, ws := SomeCrew(cap, ttl);
      var t := LateSecondBreaksCap(cfg, ws, gap);
      assert AllRecent(cfg, t.start, t.ms, "k", gap);
    }
  }

  // ---- where names can meet ----

  /** A fleet run whose queue is timely for a job. */
  predicate AllTimely(cfg: Config, f: System, ms: seq<Move>, id: nat, lease: int)
    decreases |ms|
  {
    && L.Timely(f.q, id, lease)
    && (ms != [] && Possible(cfg, f, ms[0]) ==>
          && (ms[0].Queue? && ms[0].a.Reap? ==> lease <= ms[0].a.ttl)
          && AllTimely(cfg, Do(cfg, f, ms[0]), ms[1..], id, lease))
  }

  lemma LeaseKept(cfg: Config, f: System, m: Move, id: nat, lease: int)
    requires L.LeaseInv(f.q, id) && L.Timely(f.q, id, lease) && Possible(cfg, f, m)
    requires m.Queue? && m.a.Reap? ==> lease <= m.a.ttl
    ensures L.LeaseInv(Do(cfg, f, m).q, id)
  {
    match m
    case Queue(a) => L.LeaseStep(f.q, a, id, lease);
    case Crash(w) => if Enabled(f.q, Abandon(w)) { L.LeaseStep(f.q, Abandon(w), id, lease); }
    case _ =>
  }

  lemma {:induction false} LeaseKeptAlong(cfg: Config, f: System, ms: seq<Move>, g: System, id: nat, lease: int)
    requires L.LeaseInv(f.q, id) && Moves(cfg, f, ms, g) && AllTimely(cfg, f, ms, id, lease)
    ensures L.LeaseInv(g.q, id)
    decreases |ms|
  {
    if ms != [] {
      LeaseKept(cfg, f, ms[0], id, lease);
      LeaseKeptAlong(cfg, Do(cfg, f, ms[0]), ms[1..], g, id, lease);
    }
  }

  lemma SameJob(cfg: Config, f: System, w: string, v: string)
    requires Tied(cfg, f) && v in f.holds && v in f.q.slots && !f.q.slots[v].Idle?
    requires w in f.q.slots && !f.q.slots[w].Idle? && f.holds[v].holder == HolderOf(cfg, f, w)
    ensures f.q.slots[v].c.id == f.q.slots[w].c.id
  {
    assert HoldTied(cfg, f, v, f.holds[v]);
    HolderInjective(cfg, v, f.q.slots[v].c.id, w, f.q.slots[w].c.id);
  }

  lemma NoOtherLive(q: State, id: nat, w: string, v: string)
    requires L.Exclusive(q, id) && L.LiveOn(q, w, id) && v != w
    ensures !L.LiveOn(q, v, id)
  {}

  lemma MetNames(cfg: Config, g: System, w: string, v: string)
    requires Tied(cfg, g) && Possible(cfg, g, Acquire(w)) && L.Exclusive(g.q, g.q.slots[w].c.id)
    requires v in g.holds && g.holds[v].holder == HolderOf(cfg, g, w)
    ensures v in g.q.slots ==> g.q.slots[v].Returned? || g.q.slots[v].Idle?
  {
    NoOtherLive(g.q, g.q.slots[w].c.id, w, v);
    if v in g.q.slots && !g.q.slots[v].Idle? { SameJob(cfg, g, w, v); }
  }

  lemma StartsTied(cfg: Config, f: System, id: nat)
    requires Start(f)
    ensures Tied(cfg, f) && L.LeaseInv(f.q, id)
  {}

  /** In every run whose beats for the job are timely, whatever the stamps and names, a slot about
      to acquire for it can meet its member name only where an earlier run of the same job has
      returned but not released. */
  lemma CollisionsAreUnreleased(cfg: Config, f: System, ms: seq<Move>, g: System, lease: int, w: string, v: string)
    requires Start(f) && Moves(cfg, f, ms, g) && Possible(cfg, g, Acquire(w))
    requires AllTimely(cfg, f, ms, g.q.slots[w].c.id, lease)
    requires v in g.holds && g.holds[v].holder == HolderOf(cfg, g, w)
    ensures v in g.q.slots ==> g.q.slots[v].Returned? || g.q.slots[v].Idle?
  {
    StartsTied(cfg, f, g.q.slots[w].c.id);
    TiedRun(cfg, f, ms, g);
    LeaseKeptAlong(cfg, f, ms, g, g.q.slots[w].c.id, lease);
    MetNames(cfg, g, w, v);
  }

  // ---- and what happens then ----

  /** The handler fails and the failure is recorded, with a retry to come. */
  lemma FailTaken(cfg: Config, t: Trail, w: string, id: nat, kind: string, gap: int) returns (t': Trail)
    requires Built(cfg, t, kind, gap) && Recent(t.end, kind, gap)
    requires w in t.end.q.slots && t.end.q.slots[w].Handling? && t.end.q.slots[w].c.id == id
    requires id in t.end.q.jobs && id in t.end.q.hist && OwnedBy(t.end.q.jobs[id], w)
    requires t.end.q.slots[w].c.attempts < t.end.q.slots[w].c.maxAttempts
    ensures Built(cfg, t', kind, gap) && t'.end.sets == t.end.sets && t'.end.holds == t.end.holds
    ensures t'.end.q.slots == t.end.q.slots[w := Idle] && t'.end.q.hist.Keys == t.end.q.hist.Keys
    ensures t'.end.q.jobs.Keys == t.end.q.jobs.Keys && t'.end.q.jobs[id].status.Queued?
    ensures t'.end.q.jobs[id].kind == t.end.q.jobs[id].kind && t'.end.q.now == t.end.q.now
    ensures forall i :: i in t.end.q.jobs && i != id ==> t'.end.q.jobs[i] == t.end.q.jobs[i]
  {
    var back, note := Queue(HandlerReturn(w, false)), Queue(Action.Record(w, false));
    Step(cfg, t, back, kind, gap);
    var t1 := Then(cfg, t, back);
    assert t1.end.q.slots[w] == Returned(t.end.q.slots[w].c, false);
    Step(cfg, t1, note, kind, gap);
    t' := Then(cfg, t1, note);
  }

  /** A crew for more than one job at a time, the first and the last slot on one pod. */
  ghost predicate Mates(cfg: Config, ws: seq<string>) {
    Crew(cfg, ws) && CapOf(cfg.cap, "k") > 1 && Holder(cfg, ws[0], 0) == Holder(cfg, ws[|ws| - 1], 0)
  }

  /** Nothing runs, and one hold of the last slot is outstanding for job 0. */
  ghost predicate Left(cfg: Config, g: System, ws: seq<string>, now: int)
    requires ws != []
  {
    && Stage(g, ws, 0) && g.q.now == now
    && g.holds == map[ws[|ws| - 1] := Hold("k", Holder(cfg, ws[|ws| - 1], 0), 0)]
    && SetOf(g.sets, "k").Keys == {Holder(cfg, ws[|ws| - 1], 0)}
  }

  lemma LoadedStage(g: System, now: int, ws: seq<string>)
    requires ws != [] && Loaded(g, now, Names(ws), |ws| - 1)
    ensures Stage(g, ws, 0)
  {
    forall i: nat | i < |ws| ensures SlotAt(g, ws[i], i, 0) {}
    forall i: nat | i < |ws| - 1 ensures JobAt(g.q.jobs, g.q.hist, i, 0) { assert i in UpTo(|ws| - 1); }
  }

  /** A slot that took a job and failed leaves the stage as it was. */
  lemma StageRestored(cfg: Config, g: System, h: System, k: System, ws: seq<string>, w: string)
    requires Stage(g, ws, 0) && Taken(cfg, g, h, w, 0, "k") && w in g.q.slots && g.q.slots[w].Idle?
    requires k.q.slots == h.q.slots[w := Idle] && k.q.jobs.Keys == h.q.jobs.Keys && k.q.hist.Keys == h.q.hist.Keys
    requires 0 in h.q.jobs && k.q.jobs[0].status.Queued? && k.q.jobs[0].kind == h.q.jobs[0].kind
    requires forall i :: i in h.q.jobs && i != 0 ==> k.q.jobs[i] == h.q.jobs[i]
    ensures Stage(k, ws, 0)
  {
    forall i: nat | i < |ws| ensures SlotAt(k, ws[i], i, 0) { assert SlotAt(g, ws[i], i, 0); }
    forall i: nat | i < |ws| - 1 ensures JobAt(k.q.jobs, k.q.hist, i, 0) { assert JobAt(g.q.jobs, g.q.hist, i, 0); }
  }

  /** The last slot takes job 0. */
  lemma LastTaken(cfg: Config, ws: seq<string>, gap: nat) returns (t0: Trail, t: Trail)
    requires Mates(cfg, ws)
    ensures Loaded(t0.end, 0, Names(ws), |ws| - 1) && Taken(cfg, t0.end, t.end, ws[|ws| - 1], 0, "k")
    ensures Built(cfg, t, "k", gap) && Recent(t.end, "k", gap)
  {
    t0 := Load(cfg, 0, Names(ws), |ws| - 1, gap);
    t := Take(cfg, t0, ws[|ws| - 1], 0, "k", gap);
  }

  lemma LastRuns(cfg: Config, g: System, h: System, ws: seq<string>)
    requires Mates(cfg, ws) && Loaded(g, 0, Names(ws), |ws| - 1) && Taken(cfg, g, h, ws[|ws| - 1], 0, "k")
    ensures 0 in h.q.jobs && 0 in h.q.hist && OwnedBy(h.q.jobs[0], ws[|ws| - 1])
    ensures h.q.slots[ws[|ws| - 1]].c.attempts < h.q.slots[ws[|ws| - 1]].c.maxAttempts
  {
    assert g.q.jobs[0] == NewRow("k", "", 3, 0);
  }

  lemma LastFailed(cfg: Config, ws: seq<string>, gap: nat) returns (t: Trail)
    requires Mates(cfg, ws)
    ensures Built(cfg, t, "k", gap) && Left(cfg, t.end, ws, 0)
  {
    var t0, t1 := LastTaken(cfg, ws, gap);
    LastRuns(cfg, t0.end, t1.end, ws);
    t := FailTaken(cfg, t1, ws[|ws| - 1], 0, "k", gap);
    LoadedStage(t0.end, 0, ws);
    StageRestored(cfg, t0.end, t1.end, t.end, ws, ws[|ws| - 1]);
    SetTaken(cfg, t0.end, t1.end, ws[|ws| - 1], 0);
  }

  /** Its run fails, and the slot has not released yet when the retry is due. */
  lemma FailedUnreleased(cfg: Config, ws: seq<string>, gap: int) returns (t: Trail)
    requires Mates(cfg, ws) && gap >= 30 * SECOND
    ensures Built(cfg, t, "k", gap) && Left(cfg, t.end, ws, 30 * SECOND) && Recent(t.end, "k", gap)
  {
    var t0 := LastFailed(cfg, ws, gap);
    t := Wait(cfg, t0, 30 * SECOND, "k", gap);
  }

  /** The first slot takes it under the same name. */
  lemma NameMet(cfg: Config, ws: seq<string>, gap: int) returns (t: Trail)
    requires Mates(cfg, ws) && gap >= 30 * SECOND
    ensures Built(cfg, t, "k", gap) && Recent(t.end, "k", gap) && Stage(t.end, ws, 1)
    ensures t.end.holds.Keys == {ws[0], ws[|ws| - 1]} && t.end.holds[ws[0]].holder == Holder(cfg, ws[0], 0)
    ensures t.end.holds[ws[|ws| - 1]].kind == "k" && t.end.holds[ws[|ws| - 1]].holder == Holder(cfg, ws[0], 0)
    ensures SetOf(t.end.sets, "k").Keys == {Holder(cfg, ws[0], 0)}
  {
    var t0 := FailedUnreleased(cfg, ws, gap);
    PruneSmaller(SetOf(t0.end.sets, "k"), Cutoff(t0.end.q.now, cfg.ttl));
    assert JobAt(t0.end.q.jobs, t0.end.q.hist, 0, 0);
    t := Take(cfg, t0, ws[0], 0, "k", gap);
    StageTaken(cfg, t0.end, t.end, ws, 0);
    SetTaken(cfg, t0.end, t.end, ws[0], 0);
  }

  /** The release of the last slot then removes the member of the first. */
  lemma MemberGone(cfg: Config, ws: seq<string>, gap: int) returns (t: Trail)
    requires Mates(cfg, ws) && gap >= 30 * SECOND
    ensures Built(cfg, t, "k", gap) && Recent(t.end, "k", gap) && Stage(t.end, ws, 1)
    ensures t.end.holds.Keys == {ws[0]} && t.end.holds[ws[0]].holder == Holder(cfg, ws[0], 0)
    ensures SetOf(t.end.sets, "k") == map[]
  {
    var last := ws[|ws| - 1];
    var t0 := NameMet(cfg, ws, gap);
    Step(cfg, t0, Release(last), "k", gap);
    t := Then(cfg, t0, Release(last));
    assert SetOf(t.end.sets, "k") == map[];
    assert t.end.holds.Keys == {ws[0], last} - {last};
  }

  /** Names that meet break every cap above one.  A run of job 0 on the last slot has failed but
      not released; when the retry is due, another slot of the pod acquires the same name; the
      release then removes the member of that run, and a full cap of slots is admitted beside it.
      All stamps are fresh throughout. */
  lemma CollisionBreaksCap(cfg: Config, ws: seq<string>) returns (t: Trail)
    requires Mates(cfg, ws) && cfg.ttl >= 31 * SECOND
    ensures FromStart(cfg, t) && AllFresh(cfg, t.start, t.ms, "k")
    ensures |Throttled(t.end, "k")| > CapOf(cfg.cap, "k")
  {
    var t0 := MemberGone(cfg, ws, 30 * SECOND);
    t := Fill(cfg, t0, ws, 1, |ws| - 1, 30 * SECOND);
    RecentIsFresh(cfg, t.start, t.ms, "k", 30 * SECOND);
    StageRuns(t.end, ws, |ws| - 1);
  }

  /** A kind with this cap keeps it in every run with fresh stamps, whatever names meet. */
  ghost predicate AnyNamesWillDo(cap: int) {
    forall cfg: Config, t: Trail, kind: string ::
      CapOf(cfg.cap, kind) == cap && FromStart(cfg, t) && AllFresh(cfg, t.start, t.ms, kind) ==>
        |Throttled(t.end, kind)| <= cap
  }

  /** When names matter: of all limited kinds, exactly those with a cap of one are safe from names
      that meet. */
  lemma NamesMatterExactly(cap: nat)
    requires cap > 0
    ensures AnyNamesWillDo(cap) <==> cap == 1
  {
    if cap == 1 {
      forall cfg: Config, t: Trail, kind: string |
        CapOf(cfg.cap, kind) == cap && FromStart(cfg, t) && AllFresh(cfg, t.start, t.ms, kind)
        ensures |Throttled(t.end, kind)| <= cap
      {
        FleetCap(cfg, t.start, t.ms, t.end, kind);
      }
    } else {
      var cfg, ws := SomeCrew(cap, 120 * SECOND);
      var t := CollisionBreaksCap(cfg, ws);
    }
  }
}
