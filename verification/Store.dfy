/** The store as the program sees it: one object whose methods are the SQL statements of
    internal/jobs/store.go, each changing the two tables in place, and on top of them
    `execute` (internal/jobs/exec.go) and the scheduler's fire pass. */
module Store {
  import opened Rows
  import opened Schedules

  /** Only the row of `id` may differ. */
  ghost predicate OthersKept(before: Table, after: Table, id: nat) {
    after.Keys == before.Keys && forall i :: i in before && i != id ==> after[i] == before[i]
  }

  /** What the reaper does to one row: nothing unless it is running and its last sign of life, by
      heartbeat, else claim, else start, is older than the lease of at least a second. */
  ghost predicate Reaped(r: Row, r': Row, now: int, ttl: int) {
    var sign := if r.heartbeatAt.Some? then r.heartbeatAt else if r.lockedAt.Some? then r.lockedAt else r.startedAt;
    var lapsed := r.status.Running? && sign.Some? && now - sign.value > ttl && now - sign.value > 1000;
    && (!lapsed ==> r' == r)
    && (lapsed && r.attempts < r.maxAttempts ==>
          && r'.status.Queued? && r'.runAt == now && r'.error == "reclaimed: worker lost (pod restart)"
          && r'.startedAt == r'.lockedAt == r'.heartbeatAt == None && r'.lockedBy == ""
          && (r'.kind, r'.owner, r'.attempts, r'.maxAttempts, r'.finishedAt) ==
             (r.kind, r.owner, r.attempts, r.maxAttempts, r.finishedAt))
    && (lapsed && r.attempts >= r.maxAttempts ==>
          && r'.status.Failed? && r'.finishedAt == Some(now) && r'.error == "worker lost (pod restart)"
          && r' == r.(status := r'.status, finishedAt := r'.finishedAt, error := r'.error))
  }

  class JobStore {
    var jobs: Table
    var nextId: nat
    var schedules: ScheduleTable

    /** Ids come from a sequence: none at or above `nextId` is in use. */
    ghost predicate Valid()
      reads this
    {
      forall id :: id in jobs ==> id < nextId
    }

    constructor ()
      ensures Valid() && jobs == map[] && schedules == map[]
    {
      jobs, nextId, schedules := map[], 0, map[];
    }

    /** A missing run time means now; attempts below one are raised to one. */
    method Enqueue(now: int, kind: string, owner: string, maxAttempts: int, runAt: Option<int>) returns (id: nat)
      requires Valid()
      modifies this`jobs, this`nextId
      ensures Valid() && id == old(nextId) && id !in old(jobs)
      ensures jobs == old(jobs)[id := NewRow(kind, owner, maxAttempts, if runAt.Some? then runAt.value else now)]
      ensures var r := jobs[id];
              && r.kind == kind && r.owner == owner && r.status.Queued? && r.error == ""
              && r.attempts == 0 && r.maxAttempts == (if maxAttempts < 1 then 1 else maxAttempts)
              && r.runAt == (if runAt.Some? then runAt.value else now)
              && r.startedAt == r.finishedAt == r.lockedAt == r.heartbeatAt == None && r.lockedBy == ""
    {
      id := nextId;
      var due := if runAt.Some? then runAt.value else now;
      jobs := jobs[id := NewRow(kind, owner, maxAttempts, due)];
      nextId := nextId + 1;
    }

    /** Claims an oldest due row that the kind filter admits; fails only when there is none. */
    method ClaimNext(now: int, worker: string, only: seq<string>, skip: seq<string>) returns (claimed: Option<nat>)
      requires Valid()
      modifies this`jobs
      ensures Valid()
      ensures claimed.None? ==> jobs == old(jobs) && forall id :: !Claimable(jobs, id, now, only, skip)
      ensures claimed.None? ==> forall id :: id in jobs && jobs[id].status.Queued? && jobs[id].runAt <= now ==>
                (only != [] && jobs[id].kind !in only) || jobs[id].kind in skip
      ensures claimed.Some? ==>
                && OldestClaimable(old(jobs), claimed.value, now, only, skip)
                && jobs == old(jobs)[claimed.value := ClaimRow(old(jobs)[claimed.value], worker, now)]
      ensures claimed.Some? ==> claimed.value in old(jobs) && OthersKept(old(jobs), jobs, claimed.value)
      ensures claimed.Some? ==>
                var r, r' := old(jobs)[claimed.value], jobs[claimed.value];
                && r.status.Queued? && r.runAt <= now && (only == [] || r.kind in only) && r.kind !in skip
                && (forall i :: i in old(jobs) && old(jobs)[i].status.Queued? && old(jobs)[i].runAt < r.runAt ==>
                      (only != [] && old(jobs)[i].kind !in only) || old(jobs)[i].kind in skip)
                && r'.status.Running? && r'.attempts == r.attempts + 1 && r'.lockedBy == worker
                && r'.startedAt == r'.lockedAt == r'.heartbeatAt == Some(now)
                && (r'.kind, r'.owner, r'.maxAttempts, r'.error, r'.runAt, r'.finishedAt) ==
                   (r.kind, r.owner, r.maxAttempts, r.error, r.runAt, r.finishedAt)
    {
      var candidates := set id | id in jobs && Claimable(jobs, id, now, only, skip);
      if candidates == {} {
        forall id ensures !Claimable(jobs, id, now, only, skip) {
          assert id !in candidates;
        }
        forall id | id in jobs && jobs[id].status.Queued? && jobs[id].runAt <= now
          ensures (only != [] && jobs[id].kind !in only) || jobs[id].kind in skip
        {
          assert !Claimable(jobs, id, now, only, skip);
        }
        return None;
      }
      var best :| best in candidates;
      var rest := candidates - {best};
      while rest != {}
        invariant rest <= candidates && best in candidates
        invariant forall id :: id in candidates && id !in rest ==> jobs[best].runAt <= jobs[id].runAt
        decreases |rest|
      {
        var id :| id in rest;
        if jobs[id].runAt < jobs[best].runAt { best := id; }
        rest := rest - {id};
      }
      forall other | Claimable(jobs, other, now, only, skip) ensures jobs[best].runAt <= jobs[other].runAt {
        assert other in candidates;
      }
      forall i | i in jobs && jobs[i].status.Queued? && jobs[i].runAt < jobs[best].runAt
        ensures (only != [] && jobs[i].kind !in only) || jobs[i].kind in skip
      {
        assert jobs[best].runAt <= now && !Claimable(jobs, i, now, only, skip);
      }
      jobs := jobs[best := ClaimRow(jobs[best], worker, now)];
      return Some(best);
    }

    /** Claims one given row if it is still queued, due or not. */
    method ClaimByID(now: int, id: nat, worker: string) returns (claimed: bool)
      requires Valid()
      modifies this`jobs
      ensures Valid() && (claimed <==> id in old(jobs) && old(jobs)[id].status.Queued?)
      ensures jobs == if claimed then old(jobs)[id := ClaimRow(old(jobs)[id], worker, now)] else old(jobs)
      ensures claimed ==>
                var r, r' := old(jobs)[id], jobs[id];
                && r'.status.Running? && r'.attempts == r.attempts + 1 && r'.lockedBy == worker
                && r'.startedAt == r'.lockedAt == r'.heartbeatAt == Some(now)
    {
      claimed := id in jobs && jobs[id].status.Queued?;
      if claimed { jobs := jobs[id := ClaimRow(jobs[id], worker, now)]; }
    }

    method Requeue(id: nat, worker: string) returns (changed: bool)
      requires Valid()
      modifies this`jobs
      ensures Valid() && jobs == RequeueIn(old(jobs), id, worker) && OthersKept(old(jobs), jobs, id)
      ensures changed <==> id in old(jobs) && old(jobs)[id].status.Running? && old(jobs)[id].lockedBy == worker
      ensures changed <==> jobs != old(jobs)
      ensures changed ==>
                var r, r' := old(jobs)[id], jobs[id];
                && r'.status.Queued? && r'.attempts == (if r.attempts >= 1 then r.attempts - 1 else 0)
                && r'.startedAt == r'.lockedAt == None && r'.lockedBy == ""
                && (r'.kind, r'.owner, r'.maxAttempts, r'.error, r'.runAt, r'.finishedAt, r'.heartbeatAt) ==
                   (r.kind, r.owner, r.maxAttempts, r.error, r.runAt, r.finishedAt, r.heartbeatAt)
    {
      changed := id in jobs && OwnedBy(jobs[id], worker);
      if changed {
        var r := RequeueRow(jobs[id]);
        assert r.status != jobs[id].status;
        jobs := jobs[id := r];
      }
    }

    method Complete(now: int, id: nat, worker: string) returns (changed: bool)
      requires Valid()
      modifies this`jobs
      ensures Valid() && jobs == CompleteIn(old(jobs), id, worker, now) && OthersKept(old(jobs), jobs, id)
      ensures changed <==> id in old(jobs) && old(jobs)[id].status.Running? && old(jobs)[id].lockedBy == worker
      ensures changed <==> jobs != old(jobs)
      ensures changed ==> jobs[id].status.Done? && jobs[id].finishedAt == Some(now) && jobs[id].error == ""
      ensures changed ==>
                var r, r' := old(jobs)[id], jobs[id];
                r' == r.(status := r'.status, finishedAt := r'.finishedAt, error := r'.error)
    {
      changed := id in jobs && OwnedBy(jobs[id], worker);
      if changed {
        var r := CompleteRow(jobs[id], now);
        assert r.status != jobs[id].status;
        jobs := jobs[id := r];
      }
    }

    method Fail(now: int, id: nat, worker: string, error: string, retryAt: Option<int>) returns (changed: bool)
      requires Valid()
      modifies this`jobs
      ensures Valid() && jobs == FailIn(old(jobs), id, worker, now, error, retryAt) && OthersKept(old(jobs), jobs, id)
      ensures changed <==> id in old(jobs) && old(jobs)[id].status.Running? && old(jobs)[id].lockedBy == worker
      ensures changed <==> jobs != old(jobs)
      ensures changed ==> jobs[id].error == error
      ensures changed && retryAt.Some? ==>
                var r, r' := old(jobs)[id], jobs[id];
                && r'.status.Queued? && r'.runAt == retryAt.value && r'.lockedBy == "" && r'.lockedAt == None
                && r' == r.(status := r'.status, runAt := r'.runAt, error := r'.error, lockedBy := r'.lockedBy,
                            lockedAt := r'.lockedAt)
      ensures changed && retryAt.None? ==>
                var r, r' := old(jobs)[id], jobs[id];
                && r'.status.Failed? && r'.finishedAt == Some(now)
                && r' == r.(status := r'.status, finishedAt := r'.finishedAt, error := r'.error)
    {
      changed := id in jobs && OwnedBy(jobs[id], worker);
      if changed {
        var r := if retryAt.Some? then RetryRow(jobs[id], retryAt.value, error) else FailRow(jobs[id], now, error);
        assert r.status != jobs[id].status;
        jobs := jobs[id := r];
      }
    }

    method MarkCancelled(now: int, id: nat) returns (changed: bool)
      requires Valid()
      modifies this`jobs
      ensures Valid() && jobs == CancelIn(old(jobs), id, now) && OthersKept(old(jobs), jobs, id)
      ensures changed <==> id in old(jobs) && (old(jobs)[id].status.Queued? || old(jobs)[id].status.Running?)
      ensures changed <==> jobs != old(jobs)
      ensures changed ==>
                var r, r' := old(jobs)[id], jobs[id];
                && r'.status.Cancelled? && r'.finishedAt == Some(now) && r'.error == "cancelled by admin"
                && r'.lockedBy == "" && r'.lockedAt == None
                && r' == r.(status := r'.status, finishedAt := r'.finishedAt, error := r'.error,
                            lockedBy := r'.lockedBy, lockedAt := r'.lockedAt)
    {
      changed := id in jobs && jobs[id].status.Pending();
      if changed {
        var r := CancelRow(jobs[id], now);
        assert r.status != jobs[id].status;
        jobs := jobs[id := r];
      }
    }

    /** Only the holder of a running row keeps it alive, and then no reaper takes it now. */
    method Heartbeat(now: int, id: nat, worker: string)
      requires Valid()
      modifies this`jobs
      ensures Valid() && jobs == BeatIn(old(jobs), id, worker, now)
      ensures OthersKept(old(jobs), jobs, id)
      ensures id in jobs ==> jobs[id] == old(jobs)[id].(heartbeatAt := jobs[id].heartbeatAt)
      ensures id in jobs ==>
                if jobs[id].status.Running? && jobs[id].lockedBy == worker then jobs[id].heartbeatAt == Some(now)
                else jobs[id] == old(jobs)[id]
      ensures id in jobs && OwnedBy(jobs[id], worker) ==> forall ttl :: !Stale(jobs[id], now, ttl)
    {
      if id in jobs && OwnedBy(jobs[id], worker) { jobs := jobs[id := BeatRow(jobs[id], now)]; }
    }

    /** Returns how many rows were reclaimed; a second sweep at the same instant finds none. */
    method ReapStaleRunning(now: int, ttl: int) returns (count: nat)
      requires Valid()
      modifies this`jobs
      ensures Valid() && jobs == ReapTable(old(jobs), now, ttl)
      ensures count == |set id | id in old(jobs) && Stale(old(jobs)[id], now, ttl)|
      ensures forall id :: id in jobs ==> !Stale(jobs[id], now, ttl)
      ensures jobs.Keys == old(jobs).Keys && forall id :: id in jobs ==> Reaped(old(jobs)[id], jobs[id], now, ttl)
    {
      var stale := set id | id in jobs && Stale(jobs[id], now, ttl);
      count := |stale|;
      jobs := ReapTable(jobs, now, ttl);
    }

    method HasPendingKind(kind: string) returns (pending: bool)
      ensures pending <==> PendingKind(jobs, kind)
      ensures pending <==>
                exists id ::
                  id in jobs && jobs[id].kind == kind && (jobs[id].status.Queued? || jobs[id].status.Running?)
    {
      pending := exists id :: id in jobs && jobs[id].kind == kind && jobs[id].status.Pending();
    }

    /** The interval is stored in whole seconds, at least one; the next run is at most one
        interval away and never later than before; other kinds are untouched. */
    method UpsertSchedule(now: int, kind: string, duration: int)
      modifies this`schedules
      ensures schedules == UpsertIn(old(schedules), kind, duration, now)
      ensures schedules.Keys == old(schedules).Keys + {kind}
      ensures var s := schedules[kind];
              && (duration < 1000 ==> s.interval == 1)
              && (duration >= 1000 ==> s.interval * 1000 <= duration < (s.interval + 1) * 1000)
              && s.nextRun <= now + s.interval * SECOND
              && (kind !in old(schedules) ==> s.nextRun == now + s.interval * SECOND && s.lastRun == None)
              && (kind in old(schedules) ==>
                    s.lastRun == old(schedules)[kind].lastRun && s.nextRun <= old(schedules)[kind].nextRun)
              && (kind in old(schedules) && s.nextRun < old(schedules)[kind].nextRun ==>
                    s.nextRun == now + s.interval * SECOND)
      ensures forall k :: k in old(schedules) && k != kind ==> schedules[k] == old(schedules)[k]
    {
      schedules := UpsertIn(schedules, kind, duration, now);
    }

    /** Advances every due schedule and returns the kinds that came due, each once. */
    method ClaimDueSchedules(now: int) returns (kinds: seq<string>)
      modifies this`schedules
      ensures schedules == AdvanceDue(old(schedules), now)
      ensures forall k :: k in kinds <==> k in old(schedules) && old(schedules)[k].nextRun <= now
      ensures schedules.Keys == old(schedules).Keys
      ensures forall k :: k in schedules ==>
                if k in kinds then
                  && schedules[k].interval == old(schedules)[k].interval
                  && schedules[k].nextRun == now + 1000 * schedules[k].interval
                  && schedules[k].lastRun == Some(now)
                else schedules[k] == old(schedules)[k]
      ensures forall i, j :: 0 <= i < j < |kinds| ==> kinds[i] != kinds[j]
    {
      kinds := [];
      var rest := schedules.Keys;
      while rest != {}
        invariant rest <= schedules.Keys
        invariant forall k :: k in kinds <==> k !in rest && Due(schedules, k, now)
        invariant forall i, j :: 0 <= i < j < |kinds| ==> kinds[i] != kinds[j]
        decreases |rest|
      {
        var k :| k in rest;
        if Due(schedules, k, now) { kinds := kinds + [k]; }
        rest := rest - {k};
      }
      schedules := AdvanceDue(schedules, now);
    }
  }

  // ---- execute ----

  datatype Outcome = OutcomeDone | OutcomeRetry | OutcomeFailed

  /** What a handled job leaves in the table. */
  function Recorded(jobs: Table, now: int, id: nat, job: Row, hasHandler: bool, cancelled: bool, ok: bool,
      error: string, storeErr: bool): Table {
    if storeErr || (hasHandler && cancelled) then jobs
    else if !hasHandler then FailIn(jobs, id, job.lockedBy, now, "no handler registered for kind " + job.kind, None)
    else RecordIn(jobs, id, job.lockedBy, now, ok, job.attempts, job.maxAttempts, error)
  }

  /** The announcements: none for a cancelled run, a lost claim or a retry. */
  function Said(hasHandler: bool, cancelled: bool, kept: bool, ok: bool, attempts: int, maxAttempts: int): seq<Status> {
    if !hasHandler then [Failed]
    else if !cancelled && kept then Announced(ok, attempts, maxAttempts) else []
  }

  /** The outcome, by which a pushing provider decides whether to deliver again: a retry is told
      exactly when a handled, uncancelled run failed with attempts left and its write was not
      refused; done exactly when such a run succeeded. */
  function Told(hasHandler: bool, cancelled: bool, kept: bool, ok: bool, attempts: int, maxAttempts: int): (o: Outcome)
    ensures o.OutcomeRetry? <==> hasHandler && !cancelled && kept && !ok && attempts < maxAttempts
    ensures o.OutcomeDone? <==> hasHandler && !cancelled && kept && ok
    ensures o.OutcomeDone? <==> Said(hasHandler, cancelled, kept, ok, attempts, maxAttempts) == [Done]
    ensures o.OutcomeRetry? ==> Said(hasHandler, cancelled, kept, ok, attempts, maxAttempts) == []
  {
    if !hasHandler || cancelled || !kept then OutcomeFailed
    else if ok then OutcomeDone
    else if attempts < maxAttempts then OutcomeRetry else OutcomeFailed
  }

  /** `execute` after the handler of an already claimed job has returned (or was not found).
      `job` is the row as it was claimed.  The result is written under the guard; a cancelled
      context writes nothing, and a write that matched no row announces nothing. */
  method Execute(store: JobStore, now: int, id: nat, job: Row, hasHandler: bool, cancelled: bool, ok: bool,
      error: string, storeErr: bool)
    returns (outcome: Outcome, notified: seq<Status>)
    requires store.Valid()
    modifies store`jobs
    ensures store.Valid()
    ensures store.jobs == Recorded(old(store.jobs), now, id, job, hasHandler, cancelled, ok, error, storeErr)
    ensures var landed := storeErr || store.jobs != old(store.jobs);
            && outcome == Told(hasHandler, cancelled, landed, ok, job.attempts, job.maxAttempts)
            && notified == Said(hasHandler, cancelled, landed, ok, job.attempts, job.maxAttempts)
    // the same column by column
    ensures OthersKept(old(store.jobs), store.jobs, id)
    ensures storeErr || (hasHandler && cancelled) ==> store.jobs == old(store.jobs)
    ensures id in store.jobs ==>
              var r, r' := old(store.jobs)[id], store.jobs[id];
              if storeErr || (hasHandler && cancelled) || !r.status.Running? || r.lockedBy != job.lockedBy then r' == r
              else if !hasHandler then
                && r'.status.Failed? && r'.finishedAt == Some(now)
                && r'.error == "no handler registered for kind " + job.kind
              else if ok then r'.status.Done? && r'.finishedAt == Some(now) && r'.error == ""
              else if job.attempts < job.maxAttempts then
                && r'.status.Queued? && r'.lockedBy == "" && r'.error == error
                && r'.runAt == now + (if job.attempts <= 20 then 30_000 * job.attempts else 600_000)
              else r'.status.Failed? && r'.finishedAt == Some(now) && r'.error == error
    ensures id in store.jobs && store.jobs[id] != old(store.jobs)[id] ==>
              notified == if store.jobs[id].status.Queued? then [] else [store.jobs[id].status]
    ensures store.jobs == old(store.jobs) && !storeErr ==> notified == if hasHandler then [] else [Failed]
  {
    if !hasHandler {
      if !storeErr { var _ := store.Fail(now, id, job.lockedBy, "no handler registered for kind " + job.kind, None); }
      return OutcomeFailed, [Failed];
    }
    if cancelled { return OutcomeFailed, []; }
    var matched := true;
    if ok {
      if !storeErr { matched := store.Complete(now, id, job.lockedBy); }
      if !matched { return OutcomeFailed, []; }
      return OutcomeDone, [Done];
    }
    if job.attempts < job.maxAttempts {
      if !storeErr { matched := store.Fail(now, id, job.lockedBy, error, Some(now + RetryDelay(job.attempts))); }
      if !matched { return OutcomeFailed, []; }
      return OutcomeRetry, [];
    }
    if !storeErr { matched := store.Fail(now, id, job.lockedBy, error, None); }
    if !matched { return OutcomeFailed, []; }
    return OutcomeFailed, [Failed];
  }

  /** The backoff grows with the attempt, from half a minute up to its cap of ten. */
  lemma RetryDelayBounds(a: int, b: int)
    requires 1 <= a <= b
    ensures 30 * SECOND <= RetryDelay(a) <= RetryDelay(b) <= 600 * SECOND
    ensures RetryDelay(a) == RetryDelay(b) <==> a == b || a >= 20
    ensures b <= 20 ==> RetryDelay(b) - RetryDelay(a) == (b - a) * 30 * SECOND
  {
  }

  // ---- the scheduler's fire pass, undisturbed ----

  /** The rows present after a pass that has handled `kinds`: every earlier row as it was, and
      for each kind without a pending row exactly one new queued row. */
  ghost predicate Fired(before: Table, after: Table, kinds: seq<string>, now: int) {
    && (forall id :: id in before ==> id in after && after[id] == before[id])
    && (forall id :: id in after && id !in before ==>
          after[id] == NewRow(after[id].kind, "", PERIODIC_ATTEMPTS, now) && after[id].kind in kinds
              && !PendingKind(before, after[id].kind))
    && (forall k :: k in kinds && !PendingKind(before, k) ==>
          exists id :: id in after && id !in before && after[id].kind == k)
    && (forall i, j ::
          i in after && j in after && i !in before && j !in before && after[i].kind == after[j].kind ==> i == j)
  }

  lemma PendingAfter(before: Table, after: Table, kinds: seq<string>, now: int, k: string)
    requires Fired(before, after, kinds, now) && k !in kinds
    ensures PendingKind(after, k) <==> PendingKind(before, k)
  {
    if id :| id in after && after[id].kind == k && after[id].status.Pending() {
      assert id in before && before[id] == after[id];
    }
    if id :| id in before && before[id].kind == k && before[id].status.Pending() {
      assert after[id] == before[id];
    }
  }

  method Fire(store: JobStore, now: int)
    requires store.Valid()
    modifies store
    ensures store.Valid() && store.schedules == AdvanceDue(old(store.schedules), now)
    ensures exists kinds ::
              && Fired(old(store.jobs), store.jobs, kinds, now)
              && forall k :: k in kinds <==> k in old(store.schedules) && old(store.schedules)[k].nextRun <= now
    ensures forall id :: id in store.jobs && id !in old(store.jobs) ==>
              var r := store.jobs[id];
              && r.status.Queued? && r.owner == "" && r.attempts == 0 && r.maxAttempts == 3 && r.runAt == now
  {
    var kinds := store.ClaimDueSchedules(now);
    var i := 0;
    while i < |kinds|
      invariant 0 <= i <= |kinds| && store.Valid()
      invariant store.schedules == AdvanceDue(old(store.schedules), now)
      invariant Fired(old(store.jobs), store.jobs, kinds[..i], now)
    {
      ghost var before := store.jobs;
      var k := kinds[i];
      assert k !in kinds[..i];
      PendingAfter(old(store.jobs), before, kinds[..i], now, k);
      var pending := store.HasPendingKind(k);
      if !pending {
        var id := store.Enqueue(now, k, "", PERIODIC_ATTEMPTS, None);
        FireOne(old(store.jobs), before, kinds[..i], now, k, id);
      }
      assert kinds[..i + 1] == kinds[..i] + [k];
      i := i + 1;
    }
    assert kinds[..i] == kinds;
  }

  lemma FireOne(start: Table, before: Table, kinds: seq<string>, now: int, k: string, id: nat)
    requires Fired(start, before, kinds, now) && k !in kinds && !PendingKind(start, k) && id !in before
    ensures Fired(start, before[id := NewRow(k, "", PERIODIC_ATTEMPTS, now)], kinds + [k], now)
  {
    var after := before[id := NewRow(k, "", PERIODIC_ATTEMPTS, now)];
    forall j | j in kinds + [k] && !PendingKind(start, j)
      ensures exists n :: n in after && n !in start && after[n].kind == j
    {
      if j in kinds {
        var n :| n in before && n !in start && before[n].kind == j;
        assert after[n].kind == j;
      } else {
        assert after[id].kind == j;
      }
    }
  }
}
