/** Periodic coalescing: the scheduler of every replica runs beside the whole queue.

    `Scheduler.fire` claims the due kinds in one statement and then, kind by kind, checks for
    a pending row and enqueues; everything else of the queue may happen in between. */
module Coalescing {
  import opened Rows
  import opened Protocol
  import opened Schedules

  datatype PassKey = PassKey(replica: string, kind: string)

  /** Where a fire pass stands with one of its kinds. */
  datatype Stage = ToCheck | ToEnqueue

  /** `periodic` are the ids of the rows that schedulers enqueued. */
  datatype System = System(q: State, table: ScheduleTable, passes: map<PassKey, Stage>, periodic: set<nat>)

  datatype Move =
    | Queue(a: Action)
    | Registration(kind: string, duration: int)
    | BeginFire(replica: string)
    | Check(key: PassKey, failed: bool)
    | EnqueuePeriodic(key: PassKey, id: nat, failed: bool)

  predicate Possible(c: System, m: Move) {
    match m
    case Queue(a) => Enabled(c.q, a)
    case Registration(_, _) => true
    case BeginFire(r) => forall key :: key in c.passes ==> key.replica != r
    case Check(key, _) => key in c.passes && c.passes[key] == ToCheck
    case EnqueuePeriodic(key, id, _) => key in c.passes && c.passes[key] == ToEnqueue && id !in c.q.jobs
  }

  function DuePasses(c: System, replica: string): map<PassKey, Stage> {
    map k | k in c.table && Due(c.table, k, c.q.now) :: PassKey(replica, k) := ToCheck
  }

  function Do(c: System, m: Move): System
    requires Possible(c, m)
  {
    match m
    case Queue(a) => c.(q := Apply(c.q, a))
    case Registration(kind, duration) => c.(table := UpsertIn(c.table, kind, duration, c.q.now))
    case BeginFire(r) => c.(table := AdvanceDue(c.table, c.q.now), passes := c.passes + DuePasses(c, r))
    case Check(key, failed) =>
      // a failed check enqueues anyway
      if !failed && PendingKind(c.q.jobs, key.kind) then c.(passes := c.passes - {key})
      else c.(passes := c.passes[key := ToEnqueue])
    case EnqueuePeriodic(key, id, failed) =>
      if failed then c.(passes := c.passes - {key})
      else c.(q := Apply(c.q, Enqueue(id, key.kind, "", PERIODIC_ATTEMPTS, c.q.now)),
              passes := c.passes - {key}, periodic := c.periodic + {id})
  }

  predicate Start(c: System) {
    Init(c.q) && c.table == map[] && c.passes == map[] && c.periodic == {}
  }

  predicate Moves(c: System, ms: seq<Move>, d: System)
    decreases |ms|
  {
    if ms == [] then c == d else Possible(c, ms[0]) && Moves(Do(c, ms[0]), ms[1..], d)
  }

  predicate PeriodicPending(c: System, id: nat, kind: string) {
    id in c.periodic && id in c.q.jobs && c.q.jobs[id].kind == kind && c.q.jobs[id].status.Pending()
  }

  /** What the property presumes of a move, for one kind: a check of it fails only while no
      periodic row of the kind is pending, and the kind comes due only when every earlier pass over
      it, on whichever replica, is finished. */
  ghost predicate Disciplined(c: System, m: Move, kind: string) {
    && (m.Check? && m.key.kind == kind && m.failed ==> forall id :: !PeriodicPending(c, id, kind))
    && (m.BeginFire? && Due(c.table, kind, c.q.now) ==> forall key :: key in c.passes ==> key.kind != kind)
  }

  ghost predicate DisciplinedMoves(c: System, ms: seq<Move>, d: System, kind: string)
    decreases |ms|
  {
    if ms == [] then c == d
    else Possible(c, ms[0]) && Disciplined(c, ms[0], kind) && DisciplinedMoves(Do(c, ms[0]), ms[1..], d, kind)
  }

  /** At most one periodic row of the kind is queued or running. */
  ghost predicate Coalesced(c: System, kind: string) {
    forall i, j :: PeriodicPending(c, i, kind) && PeriodicPending(c, j, kind) ==> i == j
  }

  ghost predicate CoalesceInv(c: System, kind: string) {
    && Coalesced(c, kind)
    && c.periodic <= c.q.jobs.Keys
    // at most one pass over the kind
    && (forall k, l :: k in c.passes && l in c.passes && k.kind == kind && l.kind == kind ==> k == l)
    // nothing periodic is pending once a pass has decided to enqueue
    && (forall key, id :: key in c.passes && key.kind == kind && c.passes[key] == ToEnqueue ==>
          !PeriodicPending(c, id, kind))
  }

  /** No step of the queue makes a row pending that was not, or changes its kind. */
  lemma PendingOnlyFromPending(q: State, a: Action, id: nat)
    requires Enabled(q, a) && id in q.jobs
    ensures id in Apply(q, a).jobs && Apply(q, a).jobs[id].kind == q.jobs[id].kind
    ensures Apply(q, a).jobs[id].status.Pending() ==> q.jobs[id].status.Pending()
  {
    StepRow(q, a, id);
    StepKind(q, a, id);
  }

  /** So none becomes pending by a step of the queue, periodic rows included. */
  lemma QueueKeepsCoalesced(c: System, a: Action, kind: string)
    requires CoalesceInv(c, kind) && Enabled(c.q, a)
    ensures CoalesceInv(Do(c, Queue(a)), kind)
  {
    var d := Do(c, Queue(a));
    forall id | PeriodicPending(d, id, kind) ensures PeriodicPending(c, id, kind) {
      PendingOnlyFromPending(c.q, a, id);
    }
    forall id | id in c.periodic ensures id in d.q.jobs { PendingOnlyFromPending(c.q, a, id); }
  }

  /** Enqueuing one row touches no other. */
  lemma EnqueueKeepsOthers(c: System, m: Move, i: nat, kind: string)
    requires m.EnqueuePeriodic? && !m.failed && Possible(c, m) && PeriodicPending(Do(c, m), i, kind)
    ensures (i == m.id && kind == m.key.kind) || PeriodicPending(c, i, kind)
  {
  }

  lemma EnqueueKeepsCoalesced(c: System, m: Move, kind: string)
    requires CoalesceInv(c, kind) && m.EnqueuePeriodic? && Possible(c, m)
    ensures CoalesceInv(Do(c, m), kind)
  {
    var d := Do(c, m);
    if !m.failed {
      forall i, j | PeriodicPending(d, i, kind) && PeriodicPending(d, j, kind) ensures i == j {
        EnqueueKeepsOthers(c, m, i, kind);
        EnqueueKeepsOthers(c, m, j, kind);
      }
      forall key, id | key in d.passes && key.kind == kind && d.passes[key] == ToEnqueue
        ensures !PeriodicPending(d, id, kind)
      {
        if PeriodicPending(d, id, kind) { EnqueueKeepsOthers(c, m, id, kind); }
      }
    } else {
      forall id | PeriodicPending(d, id, kind) ensures PeriodicPending(c, id, kind) {}
    }
  }

  lemma SchedulerKeepsCoalesced(c: System, m: Move, kind: string)
    requires CoalesceInv(c, kind) && Possible(c, m) && Disciplined(c, m, kind) && !m.Queue? && !m.EnqueuePeriodic?
    ensures CoalesceInv(Do(c, m), kind)
  {
    var d := Do(c, m);
    forall id | PeriodicPending(d, id, kind) ensures PeriodicPending(c, id, kind) {}
  }

  lemma StepKeepsCoalesced(c: System, m: Move, kind: string)
    requires CoalesceInv(c, kind) && Possible(c, m) && Disciplined(c, m, kind)
    ensures CoalesceInv(Do(c, m), kind)
  {
    if m.Queue? { QueueKeepsCoalesced(c, m.a, kind); }
    else if m.EnqueuePeriodic? { EnqueueKeepsCoalesced(c, m, kind); }
    else { SchedulerKeepsCoalesced(c, m, kind); }
  }

  /** Periodic coalescing, for every interleaving of any number of schedulers with the whole queue
      that is disciplined for a kind, however undisciplined for others: never two periodic rows of
      the kind queued or running. */
  lemma {:induction false} PeriodicCoalesces(c: System, ms: seq<Move>, d: System, kind: string)
    requires CoalesceInv(c, kind) && DisciplinedMoves(c, ms, d, kind)
    ensures CoalesceInv(d, kind)
    decreases |ms|
  {
    if ms != [] {
      StepKeepsCoalesced(c, ms[0], kind);
      PeriodicCoalesces(Do(c, ms[0]), ms[1..], d, kind);
    }
  }

  lemma CoalescedFromStart(c: System, ms: seq<Move>, d: System, kind: string)
    requires Start(c) && DisciplinedMoves(c, ms, d, kind)
    ensures Coalesced(d, kind)
  {
    PeriodicCoalesces(c, ms, d, kind);
  }

  // ---- the discipline is exact ----

  lemma {:induction false} Bound(ids: set<nat>) returns (n: nat)
    ensures forall id :: id in ids ==> id < n
  {
    n := 0;
    if id :| id in ids {
      var m := Bound(ids - {id});
      n := if id < m then m else id + 1;
      forall x | x in ids ensures x < n { assert x == id || x in ids - {id}; }
    }
  }

  function PendingOf(c: System, kind: string): set<nat> {
    set id | id in c.q.jobs && c.q.jobs[id].kind == kind && c.q.jobs[id].status.Pending()
  }

  lemma PendingListed(c: System, kind: string)
    ensures PendingKind(c.q.jobs, kind) ==> PendingOf(c, kind) != {}
  {
    if id :| id in c.q.jobs && c.q.jobs[id].kind == kind && c.q.jobs[id].status.Pending() {
      assert id in PendingOf(c, kind);
    }
  }

  /** Admins can always cancel everything pending of a kind; the passes stay as they are. */
  lemma {:induction false} CancelAll(c: System, kind: string) returns (ms: seq<Move>, d: System)
    ensures DisciplinedMoves(c, ms, d, kind) && !PendingKind(d.q.jobs, kind) && d.passes == c.passes
    decreases |PendingOf(c, kind)|
  {
    if PendingOf(c, kind) == {} {
      ms, d := [], c;
      PendingListed(c, kind);
    } else {
      var id :| id in PendingOf(c, kind);
      var m := Queue(Cancel(id));
      var e := Do(c, m);
      assert PendingOf(e, kind) == PendingOf(c, kind) - {id};
      var rest;
      rest, d := CancelAll(e, kind);
      ms := [m] + rest;
      assert ms[1..] == rest;
    }
  }

  /** A pass that has not enqueued yet gets there, as long as nothing of the kind is pending. */
  lemma Decide(c: System, key: PassKey) returns (ms: seq<Move>, d: System)
    requires key in c.passes && !PendingKind(c.q.jobs, key.kind)
    ensures DisciplinedMoves(c, ms, d, key.kind) && d == c.(passes := c.passes[key := ToEnqueue])
  {
    if c.passes[key] == ToEnqueue {
      ms, d := [], c;
      assert c.passes == c.passes[key := ToEnqueue];
    } else {
      ms, d := [Check(key, false)], Do(c, Check(key, false));
      assert ms[1..] == [];
    }
  }

  lemma {:induction false} Concatenate(c: System, ms: seq<Move>, d: System, ns: seq<Move>, e: System, kind: string)
    requires DisciplinedMoves(c, ms, d, kind) && DisciplinedMoves(d, ns, e, kind)
    ensures DisciplinedMoves(c, ms + ns, e, kind)
    decreases |ms|
  {
    if ms == [] {
      assert ms + ns == ns;
    } else {
      Concatenate(Do(c, ms[0]), ms[1..], d, ns, e, kind);
      assert (ms + ns)[1..] == ms[1..] + ns;
    }
  }

  /** Two passes over one kind that have both decided stack two rows. */
  lemma BothEnqueue(c: System, k: PassKey, l: PassKey) returns (ms: seq<Move>, d: System)
    requires k != l && k.kind == l.kind && k in c.passes && l in c.passes
    requires c.passes[k] == ToEnqueue && c.passes[l] == ToEnqueue
    ensures DisciplinedMoves(c, ms, d, k.kind) && !Coalesced(d, k.kind)
  {
    var n := Bound(c.q.jobs.Keys);
    var first, second := EnqueuePeriodic(k, n, false), EnqueuePeriodic(l, n + 1, false);
    var e := Do(c, first);
    d := Do(e, second);
    ms := [first, second];
    assert ms[1..] == [second] && [second][1..] == [];
    assert DisciplinedMoves(e, [second], d, k.kind);
    assert PeriodicPending(d, n, k.kind) && PeriodicPending(d, n + 1, k.kind);
  }

  /** From two passes over one kind, disciplined moves alone lead to two pending rows. */
  lemma TwoPassesStack(c: System, k: PassKey, l: PassKey) returns (ms: seq<Move>, d: System)
    requires k != l && k.kind == l.kind && k in c.passes && l in c.passes
    ensures DisciplinedMoves(c, ms, d, k.kind) && !Coalesced(d, k.kind)
  {
    var ms1, c1 := CancelAll(c, k.kind);
    var ms2, c2 := Decide(c1, k);
    var ms3, c3 := Decide(c2, l);
    var ms4, c4 := BothEnqueue(c3, k, l);
    Concatenate(c2, ms3, c3, ms4, c4, k.kind);
    Concatenate(c1, ms2, c2, ms3 + ms4, c4, k.kind);
    Concatenate(c, ms1, c1, ms2 + (ms3 + ms4), c4, k.kind);
    ms, d := ms1 + (ms2 + (ms3 + ms4)), c4;
  }

  /** A fire pass that begins while another pass over a due kind is outstanding can stack rows. */
  lemma OverlapCanStack(c: System, replica: string, key: PassKey) returns (ms: seq<Move>, d: System)
    requires Possible(c, BeginFire(replica)) && key in c.passes && Due(c.table, key.kind, c.q.now)
    ensures DisciplinedMoves(Do(c, BeginFire(replica)), ms, d, key.kind) && !Coalesced(d, key.kind)
  {
    var e := Do(c, BeginFire(replica));
    var l := PassKey(replica, key.kind);
    assert l in DuePasses(c, replica) && l in e.passes && key in e.passes;
    ms, d := TwoPassesStack(e, key, l);
  }

  /** A check that fails while a periodic row of the kind is pending stacks another. */
  lemma FailedCheckStacks(c: System, key: PassKey, id: nat) returns (ms: seq<Move>, d: System)
    requires Possible(c, Check(key, true)) && PeriodicPending(c, id, key.kind)
    ensures DisciplinedMoves(Do(c, Check(key, true)), ms, d, key.kind) && !Coalesced(d, key.kind)
  {
    var e := Do(c, Check(key, true));
    var n := Bound(e.q.jobs.Keys);
    var m := EnqueuePeriodic(key, n, false);
    ms, d := [m], Do(e, m);
    assert ms[1..] == [];
    assert PeriodicPending(d, id, key.kind) && PeriodicPending(d, n, key.kind);
  }

  /** Whatever moves follow that are disciplined for the kind, its rows never stack. */
  ghost predicate StaysCoalesced(c: System, kind: string) {
    forall ms, d :: DisciplinedMoves(c, ms, d, kind) ==> Coalesced(d, kind)
  }

  /** The exact condition, kind by kind and move by move: in every state of the invariant, a move
      is safe for all that may follow if and only if it is disciplined. */
  lemma DisciplineIsExact(c: System, m: Move, kind: string)
    requires CoalesceInv(c, kind) && Possible(c, m)
    ensures Disciplined(c, m, kind) <==> StaysCoalesced(Do(c, m), kind)
  {
    if Disciplined(c, m, kind) {
      StepKeepsCoalesced(c, m, kind);
      forall ms, d | DisciplinedMoves(Do(c, m), ms, d, kind) ensures Coalesced(d, kind) {
        PeriodicCoalesces(Do(c, m), ms, d, kind);
      }
    } else if m.BeginFire? {
      var key :| key in c.passes && key.kind == kind;
      var ms, d := OverlapCanStack(c, m.replica, key);
    } else {
      var id :| PeriodicPending(c, id, kind);
      var ms, d := FailedCheckStacks(c, m.key, id);
    }
  }

  // ---- a run in which passes overlap ----

  lemma {:induction false} MovesExtend(c: System, ms: seq<Move>, d: System, m: Move)
    requires Moves(c, ms, d) && Possible(d, m)
    ensures Moves(c, ms + [m], Do(d, m))
    decreases |ms|
  {
    if ms != [] {
      MovesExtend(Do(c, ms[0]), ms[1..], d, m);
      assert (ms + [m])[1..] == ms[1..] + [m];
    } else {
      assert Moves(Do(d, m), [m][1..], Do(d, m));
    }
  }

  /** Replica "a" has fired kind "k" and checked it, but not enqueued yet. */
  lemma OnePass() returns (c: System, ms: seq<Move>, d: System)
    ensures Start(c) && Moves(c, ms, d) && d.q == State(1000, map[], map[], map[]) && d.periodic == {}
    ensures d.passes == map[PassKey("a", "k") := ToEnqueue] && d.table == map["k" := Schedule(1, 2000, Some(1000))]
  {
    c := System(State(0, map[], map[], map[]), map[], map[], {});
    d, ms := c, [];
    MovesExtend(c, ms, d, Registration("k", 1000));
    d, ms := Do(d, Registration("k", 1000)), ms + [Registration("k", 1000)];
    MovesExtend(c, ms, d, Queue(Tick(1000)));
    d, ms := Do(d, Queue(Tick(1000))), ms + [Queue(Tick(1000))];
    assert d.table == map["k" := Schedule(1, 1000, None)];
    MovesExtend(c, ms, d, BeginFire("a"));
    d, ms := Do(d, BeginFire("a")), ms + [BeginFire("a")];
    assert d.passes == map[PassKey("a", "k") := ToCheck];
    MovesExtend(c, ms, d, Check(PassKey("a", "k"), false));
    d, ms := Do(d, Check(PassKey("a", "k"), false)), ms + [Check(PassKey("a", "k"), false)];
  }

  /** The kind comes due again. */
  lemma DueAgain() returns (c: System, ms: seq<Move>, d: System)
    ensures Start(c) && Moves(c, ms, d) && d.q == State(2000, map[], map[], map[]) && d.periodic == {}
    ensures d.passes == map[PassKey("a", "k") := ToEnqueue] && d.table == map["k" := Schedule(1, 2000, Some(1000))]
  {
    c, ms, d := OnePass();
    MovesExtend(c, ms, d, Queue(Tick(1000)));
    d, ms := Do(d, Queue(Tick(1000))), ms + [Queue(Tick(1000))];
  }

  /** And replica "b" fires it. */
  lemma OverlappingPasses() returns (c: System, ms: seq<Move>, d: System)
    ensures Start(c) && Moves(c, ms, d) && d.q.jobs == map[] && d.periodic == {}
    ensures d.passes == map[PassKey("a", "k") := ToEnqueue, PassKey("b", "k") := ToCheck]
  {
    c, ms, d := DueAgain();
    assert DuePasses(d, "b") == map[PassKey("b", "k") := ToCheck];
    MovesExtend(c, ms, d, BeginFire("b"));
    d, ms := Do(d, BeginFire("b")), ms + [BeginFire("b")];
  }

  /** Without the discipline rows do stack: two overlapping passes both enqueue. */
  lemma OverlapStacks() returns (c: System, ms: seq<Move>, d: System)
    ensures Start(c) && Moves(c, ms, d) && !Coalesced(d, "k")
  {
    c, ms, d := OverlappingPasses();
    MovesExtend(c, ms, d, Check(PassKey("b", "k"), false));
    d, ms := Do(d, Check(PassKey("b", "k"), false)), ms + [Check(PassKey("b", "k"), false)];
    var first := EnqueuePeriodic(PassKey("a", "k"), 1, false);
    MovesExtend(c, ms, d, first);
    d, ms := Do(d, first), ms + [first];
    var second := EnqueuePeriodic(PassKey("b", "k"), 2, false);
    MovesExtend(c, ms, d, second);
    d, ms := Do(d, second), ms + [second];
    assert PeriodicPending(d, 1, "k") && PeriodicPending(d, 2, "k");
  }
}
