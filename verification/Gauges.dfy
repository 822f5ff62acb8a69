/** The queue-depth gauges (internal/jobs/metrics.go QueueDepth) against the state machine. */
module Gauges {
  import opened Rows
  import opened Protocol

  /** The lease the gauge applies: two minutes when none is configured. */
  function GaugeLease(ttl: int): int { if ttl <= 0 then 120 * SECOND else ttl }

  datatype Level = DueNow | Scheduled | Alive | Lapsed

  /** The four FILTER clauses of the query. */
  predicate At(r: Row, level: Level, now: int, ttl: int) {
    match level
    case DueNow => r.status.Queued? && r.runAt <= now
    case Scheduled => r.status.Queued? && r.runAt > now
    case Alive => r.status.Running? && Liveness(r).Some? && Liveness(r).value > now - GaugeLease(ttl)
    case Lapsed => r.status.Running? && Liveness(r).Some? && Liveness(r).value <= now - GaugeLease(ttl)
  }

  /** Whether `at` is the last sign of life of a row: its heartbeat, else its claim, else its start. */
  predicate LastSign(r: Row, at: int) {
    || r.heartbeatAt == Some(at)
    || (r.heartbeatAt.None? && r.lockedAt == Some(at))
    || (r.heartbeatAt.None? && r.lockedAt.None? && r.startedAt == Some(at))
  }

  /** What each level counts: queued rows by their due time, running rows by how long ago they last
      gave a sign of life, where no lease means two minutes. */
  lemma CountedExactly(r: Row, now: int, ttl: int, at: int)
    ensures At(r, DueNow, now, ttl) <==> r.status.Queued? && r.runAt <= now
    ensures At(r, Scheduled, now, ttl) <==> r.status.Queued? && r.runAt > now
    ensures LastSign(r, at) ==>
              && (At(r, Alive, now, ttl) <==> r.status.Running? && now - at < if ttl > 0 then ttl else 120_000)
              && (At(r, Lapsed, now, ttl) <==> r.status.Running? && now - at >= if ttl > 0 then ttl else 120_000)
  {}

  /** For a lease of at least a second the gauge and the reaper differ in one instant: when the lease
      has just run out the row is counted stale and not reaped yet. */
  lemma ReapedOneInstantLater(r: Row, now: int, ttl: int)
    requires r.status.Running? && ttl >= 1000
    ensures At(r, Lapsed, now, ttl) && !Stale(r, now, ttl) <==> LastSign(r, now - ttl)
    ensures Stale(r, now, ttl) ==> At(r, Lapsed, now, ttl)
  {}

  function Counted(jobs: Table, kind: string, level: Level, now: int, ttl: int): set<nat> {
    set id | id in jobs && jobs[id].kind == kind && At(jobs[id], level, now, ttl)
  }

  function PendingIds(jobs: Table, kind: string): set<nat> {
    set id | id in jobs && jobs[id].kind == kind && jobs[id].status.Pending()
  }

  datatype Levels = Levels(queued: int, scheduled: int, running: int, stale: int)

  function LevelsOf(jobs: Table, kind: string, now: int, ttl: int): Levels {
    Levels(|Counted(jobs, kind, DueNow, now, ttl)|, |Counted(jobs, kind, Scheduled, now, ttl)|,
           |Counted(jobs, kind, Alive, now, ttl)|, |Counted(jobs, kind, Lapsed, now, ttl)|)
  }

  /** The four counts, and for how long the oldest due row has been due. */
  datatype Sample = Sample(levels: Levels, oldestAge: int)

  /** Zero when nothing is due, otherwise the greatest time since a due row became due. */
  ghost predicate IsOldestAge(jobs: Table, kind: string, now: int, ttl: int, age: int) {
    var due := Counted(jobs, kind, DueNow, now, ttl);
    && (due == {} ==> age == 0)
    && (due != {} ==> exists id :: id in due && age == now - jobs[id].runAt)
    && (forall id :: id in due ==> now - jobs[id].runAt <= age)
  }

  method OldestAge(jobs: Table, kind: string, now: int, ttl: int) returns (age: int)
    ensures IsOldestAge(jobs, kind, now, ttl, age) && age >= 0
  {
    age := 0;
    var due := Counted(jobs, kind, DueNow, now, ttl);
    var rest := due;
    while rest != {}
      invariant rest <= due && age >= 0
      invariant rest == due ==> age == 0
      invariant rest < due ==> exists id :: id in due && age == now - jobs[id].runAt
      invariant forall id :: id in due && id !in rest ==> now - jobs[id].runAt <= age
      decreases |rest|
    {
      var id :| id in rest;
      if rest == due || now - jobs[id].runAt > age { age := now - jobs[id].runAt; }
      rest := rest - {id};
    }
  }

  /** QueueDepth: one sample per kind that has a pending row. */
  method QueueDepth(jobs: Table, now: int, ttl: int) returns (out: map<string, Sample>)
    ensures forall k :: k in out <==> PendingIds(jobs, k) != {}
    ensures forall k :: k in out ==> out[k].levels == LevelsOf(jobs, k, now, ttl)
    ensures forall k :: k in out ==>
              && out[k].levels.queued == |Counted(jobs, k, DueNow, now, ttl)|
              && out[k].levels.scheduled == |Counted(jobs, k, Scheduled, now, ttl)|
              && out[k].levels.running == |Counted(jobs, k, Alive, now, ttl)|
              && out[k].levels.stale == |Counted(jobs, k, Lapsed, now, ttl)|
    ensures forall k :: k in out ==> IsOldestAge(jobs, k, now, ttl, out[k].oldestAge)
  {
    out := map[];
    var kinds := set id | id in jobs && jobs[id].status.Pending() :: jobs[id].kind;
    ghost var all := kinds;
    while kinds != {}
      invariant kinds <= all && out.Keys == all - kinds
      invariant forall k :: k in out ==> out[k].levels == LevelsOf(jobs, k, now, ttl)
      invariant forall k :: k in out ==> IsOldestAge(jobs, k, now, ttl, out[k].oldestAge)
      decreases |kinds|
    {
      var k :| k in kinds;
      var age := OldestAge(jobs, k, now, ttl);
      out := out[k := Sample(LevelsOf(jobs, k, now, ttl), age)];
      kinds := kinds - {k};
    }
    forall k ensures k in all <==> PendingIds(jobs, k) != {} { PendingKind(jobs, k, all); }
  }

  lemma PendingKind(jobs: Table, k: string, all: set<string>)
    requires all == set id | id in jobs && jobs[id].status.Pending() :: jobs[id].kind
    ensures k in all <==> PendingIds(jobs, k) != {}
  {
    var pending := PendingIds(jobs, k);
    if k in all {
      var id :| id in jobs && jobs[id].status.Pending() && jobs[id].kind == k;
      assert id in pending;
    }
    if id :| id in pending {
      assert jobs[id].kind in all;
    }
  }

  lemma Disjoint4(a: set<nat>, b: set<nat>, c: set<nat>, d: set<nat>)
    requires a !! b && a !! c && a !! d && b !! c && b !! d && c !! d
    ensures |a + b + c + d| == |a| + |b| + |c| + |d|
  {
    assert (a + b) !! c && (a + b + c) !! d;
  }

  /** The filters are disjoint, and cover every pending row once running rows carry a stamp. */
  lemma FiltersPartition(jobs: Table, kind: string, now: int, ttl: int)
    requires forall id :: id in jobs && jobs[id].status.Running? ==> Liveness(jobs[id]).Some?
    ensures var m := LevelsOf(jobs, kind, now, ttl);
            m.queued + m.scheduled + m.running + m.stale == |PendingIds(jobs, kind)|
  {
    var due := Counted(jobs, kind, DueNow, now, ttl);
    var later := Counted(jobs, kind, Scheduled, now, ttl);
    var alive := Counted(jobs, kind, Alive, now, ttl);
    var lapsed := Counted(jobs, kind, Lapsed, now, ttl);
    forall id | id in jobs && jobs[id].kind == kind
      ensures id in PendingIds(jobs, kind) <==> id in due + later + alive + lapsed
    {
      assert jobs[id].status.Running? ==> Liveness(jobs[id]).Some?;
    }
    assert PendingIds(jobs, kind) == due + later + alive + lapsed;
    Disjoint4(due, later, alive, lapsed);
  }

  /** In every reachable state the four counts of a kind partition its queued and running
      rows: a running row always has a liveness stamp, so none falls through the filters. */
  lemma GaugesPartition(s: State, acts: seq<Action>, t: State, kind: string, ttl: int)
    requires Init(s) && Run(s, acts, t)
    ensures var m := LevelsOf(t.jobs, kind, t.now, ttl);
            m.queued + m.scheduled + m.running + m.stale == |PendingIds(t.jobs, kind)|
  {
    InvReachable(s, acts, t);
    forall id | id in t.jobs && t.jobs[id].status.Running? ensures Liveness(t.jobs[id]).Some? {
      assert Accounted(t.jobs[id], t.hist[id], t.now);
    }
    FiltersPartition(t.jobs, kind, t.now, ttl);
  }

  /** Every row the reaper would take is counted stale, for every row and clock, exactly when a
      positive lease is configured: without one the gauge waits two minutes, the reaper one second. */
  lemma ReapedIsCountedStale(ttl: int)
    ensures (forall r: Row, now: int :: Stale(r, now, ttl) ==> At(r, Lapsed, now, ttl)) <==> ttl > 0
  {
    if ttl <= 0 {
      var r := ClaimRow(NewRow("k", "", 1, 0), "pod", 0);
      assert Stale(r, 2000, ttl) && !At(r, Lapsed, 2000, ttl);
    }
  }
}
