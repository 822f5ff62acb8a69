/** One worker on its own, as code: `runJob` and `drainLoop` of internal/jobs/local.go over the
    store and the in-process limiter, with nobody else around.  The interleaved versions are the
    steps of `Drain`. */
module Worker {
  import opened Attempts
  import opened Rows
  import opened Limiter
  import opened Store

  /** runJob: at the cap the row goes back to the queue with its attempt refunded; otherwise, and
      also when asking the limiter failed, the job is handled, and whatever was acquired for it is
      released again. */
  method RunJob(store: JobStore, lim: MemLimiter, caps: map<string, int>, now: int, id: nat, job: Row,
      limiterErr: bool, hasHandler: bool, cancelled: bool, ok: bool, error: string, storeErr: bool)
    returns (ran: bool, outcome: Outcome, notified: seq<Status>)
    requires store.Valid() && lim.Valid()
    modifies store`jobs, lim
    ensures store.Valid() && lim.Valid()
    ensures ran <==>
              || limiterErr || job.kind !in caps || caps[job.kind] <= 0
              || |old(lim.Held(job.kind))| < caps[job.kind]
    ensures forall k :: lim.Held(k) == old(lim.Held(k))
    ensures ran ==> store.jobs == Recorded(old(store.jobs), now, id, job, hasHandler, cancelled, ok, error, storeErr)
    ensures ran ==>
              var kept := storeErr || store.jobs != old(store.jobs);
              && outcome == Told(hasHandler, cancelled, kept, ok, job.attempts, job.maxAttempts)
              && notified == Said(hasHandler, cancelled, kept, ok, job.attempts, job.maxAttempts)
    ensures !ran ==> notified == []
    ensures !ran ==> store.jobs == if storeErr then old(store.jobs) else RequeueIn(old(store.jobs), id, job.lockedBy)
  {
    var max := CapOf(caps, job.kind);
    var ticket := None;
    if max > 0 && !limiterErr {
      var acquired;
      acquired, ticket := lim.Acquire(job.kind, max);
      if !acquired {
        if !storeErr { var _ := store.Requeue(id, job.lockedBy); }
        return false, OutcomeFailed, [];
      }
    }
    outcome, notified := Execute(store, now, id, job, hasHandler, cancelled, ok, error, storeErr);
    if ticket.Some? { lim.Release(ticket.value); }
    ran := true;
  }

  /** A queued row has an attempt left, as `Protocol` shows of every reachable state. */
  ghost predicate Payable(jobs: Table) {
    forall id :: id in jobs && jobs[id].status.Queued? ==> jobs[id].attempts < jobs[id].maxAttempts
  }

  /** Rows a drain may claim: routed, and of a kind that is not saturated. */
  predicate Open(kind: string, only: seq<string>, skip: seq<string>, full: set<string>) {
    Routed(kind, only, skip) && kind !in full
  }

  /** What the loop is run with: the kinds that have a handler, what the handlers answer to an
      attempt of a job, the slot's id, and the clock at each of its statements. */
  datatype Setting = Setting(handlers: set<string>, answer: (nat, int) -> bool, worker: string, clock: nat -> int)

  /** How the `n`-th claim of the loop, of job `id`, leaves its row: done exactly when the kind has
      a handler and that succeeded; failed exactly when it has none, or its last attempt failed;
      else due again after the delay of its attempt. */
  ghost predicate Settled(r: Row, id: nat, n: nat, x: Setting) {
    && (r.status.Done? <==> r.kind in x.handlers && x.answer(id, r.attempts))
    && (r.status.Failed? <==>
          r.kind !in x.handlers || (!x.answer(id, r.attempts) && r.attempts == r.maxAttempts))
    && (r.status.Done? || r.status.Failed? || r.status.Queued?)
    && r.startedAt == Some(x.clock(2 * n))
    && (if r.status.Queued? then
          && r.runAt == x.clock(2 * n + 1) + (if r.attempts <= 20 then 30_000 * r.attempts else 600_000)
          && r.lockedBy == "" && r.attempts < r.maxAttempts
        else r.finishedAt == Some(x.clock(2 * n + 1)) && r.lockedBy == x.worker)
  }

  /** The `n`-th claim and its handled run, on the table. */
  ghost predicate Round(before: Table, after: Table, id: nat, n: nat, x: Setting) {
    && id in before && before[id].status.Queued? && after.Keys == before.Keys
    && (forall i :: i in before && i != id ==> after[i] == before[i])
    && after[id].kind == before[id].kind && after[id].maxAttempts == before[id].maxAttempts
    && after[id].attempts == before[id].attempts + 1 && Settled(after[id], id, n, x)
  }

  lemma RecordedRound(before: Table, id: nat, n: nat, x: Setting)
    requires id in before && before[id].status.Queued? && before[id].attempts < before[id].maxAttempts
    ensures var job := ClaimRow(before[id], x.worker, x.clock(2 * n));
            var hasHandler, ok := job.kind in x.handlers, x.answer(id, job.attempts);
            var now := x.clock(2 * n + 1);
            var after := Recorded(before[id := job], now, id, job, hasHandler, false, ok, "handler error", false);
            Round(before, after, id, n, x)
  {}

  lemma RoundSpends(before: Table, after: Table, id: nat, n: nat, x: Setting, ids: seq<nat>)
    requires Round(before, after, id, n, x) && Payable(before) && Lists(ids, before)
    ensures Payable(after) && Lists(ids, after) && Budget(ids, after) == Budget(ids, before) - 1
  {
    forall i: nat | i != id ensures Left(after, i) == Left(before, i) {}
    BudgetOne(ids, before, after, id);
  }

  /** What a drain has done to the table: it ran `n` attempts, only of open kinds, and each row it
      changed is as the last of them left it. */
  ghost predicate Progress(start: Table, jobs: Table, ids: seq<nat>, n: nat, only: seq<string>, skip: seq<string>,
      full: set<string>, x: Setting) {
    && Payable(jobs) && jobs.Keys == start.Keys && Lists(ids, jobs)
    && Budget(ids, jobs) + n == Budget(ids, start)
    && forall id :: id in start && jobs[id] != start[id] ==>
         && Open(start[id].kind, only, skip, full) && start[id].status.Queued?
         && jobs[id].kind == start[id].kind && jobs[id].maxAttempts == start[id].maxAttempts
         && exists k: nat :: k < n && Settled(jobs[id], id, k, x)
  }

  lemma ProgressRound(start: Table, before: Table, after: Table, ids: seq<nat>, n: nat,
      only: seq<string>, skip: seq<string>, full: set<string>, id: nat, x: Setting)
    requires Progress(start, before, ids, n, only, skip, full, x) && Round(before, after, id, n, x)
    requires Open(before[id].kind, only, skip, full)
    ensures Progress(start, after, ids, n + 1, only, skip, full, x)
  {
    RoundSpends(before, after, id, n, x, ids);
    forall i | i in start && after[i] != start[i]
      ensures Open(start[i].kind, only, skip, full) && start[i].status.Queued?
      ensures after[i].kind == start[i].kind && after[i].maxAttempts == start[i].maxAttempts
      ensures exists k: nat :: k < n + 1 && Settled(after[i], i, k, x)
    {
      if i != id {
        assert after[i] == before[i];
        var k: nat :| k < n && Settled(before[i], i, k, x);
        assert Settled(after[i], i, k, x);
      } else {
        assert Settled(after[i], i, n, x);
      }
    }
  }

  /** The kinds that the limiter has no slot left for. */
  ghost predicate Saturated(lim: MemLimiter, caps: map<string, int>, full: set<string>)
    reads lim
  {
    forall k :: k in full <==> Refused(|lim.Held(k)|, CapOf(caps, k))
  }

  /** drainLoop with one worker, whatever the handlers answer and however the clock reads: it
      ends, every claim ran and used up exactly one attempt, each row it changed is as the last run
      of the job left it, nothing claimable is left but in saturated kinds, and the limiter is as it
      was. */
  method DrainLoop(store: JobStore, lim: MemLimiter, caps: map<string, int>, only: seq<string>, skip: seq<string>,
      x: Setting, ghost full: set<string>, ghost ids: seq<nat>)
    returns (n: nat)
    requires store.Valid() && lim.Valid() && Payable(store.jobs) && Saturated(lim, caps, full) && Lists(ids, store.jobs)
    modifies store`jobs, lim
    ensures store.Valid() && lim.Valid() && forall k :: lim.Held(k) == old(lim.Held(k))
    ensures forall id :: !Claimable(store.jobs, id, x.clock(2 * n), only, skip) || store.jobs[id].kind in full
    ensures Progress(old(store.jobs), store.jobs, ids, n, only, skip, full, x)
    ensures forall id :: id in store.jobs && store.jobs[id] != old(store.jobs)[id] ==>
              var r := store.jobs[id];
              if r.kind !in x.handlers then r.status.Failed?
              else if x.answer(id, r.attempts) then r.status.Done?
              else if r.attempts == r.maxAttempts then r.status.Failed? else r.status.Queued?
  {
    n := 0;
    while true
      invariant store.Valid() && lim.Valid() && forall k :: lim.Held(k) == old(lim.Held(k))
      invariant Progress(old(store.jobs), store.jobs, ids, n, only, skip, full, x)
      decreases Budget(ids, store.jobs)
    {
      var busy := lim.Excluded(caps);
      assert forall k :: k in busy <==> k in full;
      ghost var before := store.jobs;
      var claimed := store.ClaimNext(x.clock(2 * n), x.worker, only, skip + busy);
      if claimed.None? {
        forall id ensures !Claimable(store.jobs, id, x.clock(2 * n), only, skip) || store.jobs[id].kind in full {
          assert !Claimable(store.jobs, id, x.clock(2 * n), only, skip + busy);
        }
        return;
      }
      var id := claimed.value;
      var job := store.jobs[id];
      var hasHandler, ok := job.kind in x.handlers, x.answer(id, job.attempts);
      var _, _, _ :=
        RunJob(store, lim, caps, x.clock(2 * n + 1), id, job, false, hasHandler, false, ok, "handler error", false);
      RecordedRound(before, id, n, x);
      ProgressRound(old(store.jobs), before, store.jobs, ids, n, only, skip, full, id, x);
      n := n + 1;
    }
  }
}
