/** One row of the `jobs` table and what each SQL statement of the store does to it.

    Every statement of internal/jobs/store.go is a guarded update of single rows, so each
    is given here as a function from row to row.  `Store` applies them to a whole table and
    `Protocol` interleaves them.  Times are integers in milliseconds on one clock, and an
    empty `lockedBy` means that nobody holds the row's claim. */
module Rows {

  datatype Option<+T> = None | Some(value: T)

  datatype Status = Queued | Running | Done | Failed | Cancelled {
    predicate Terminal() { Done? || Failed? || Cancelled? }

    predicate Pending() { Queued? || Running? }
  }

  datatype Row = Row(
    kind: string,
    owner: string,
    status: Status,
    attempts: int,
    maxAttempts: int,
    error: string,
    runAt: int,
    startedAt: Option<int>,
    finishedAt: Option<int>,
    lockedBy: string,
    lockedAt: Option<int>,
    heartbeatAt: Option<int>
  )

  type Table = map<nat, Row>

  /** The compare-and-set guard carried by Requeue, Complete, Fail and Heartbeat. */
  predicate OwnedBy(r: Row, worker: string) {
    r.status.Running? && r.lockedBy == worker
  }

  function NewRow(kind: string, owner: string, maxAttempts: int, runAt: int): Row {
    Row(kind, owner, Queued, 0, if maxAttempts < 1 then 1 else maxAttempts, "", runAt, None, None, "", None, None)
  }

  function ClaimRow(r: Row, worker: string, now: int): Row {
    r.(status := Running, attempts := r.attempts + 1, startedAt := Some(now),
       lockedBy := worker, lockedAt := Some(now), heartbeatAt := Some(now))
  }

  /** The refund of a lost slot race, clipped at zero as GREATEST(attempts - 1, 0) does. */
  function RequeueRow(r: Row): Row {
    r.(status := Queued, attempts := if r.attempts - 1 < 0 then 0 else r.attempts - 1,
       startedAt := None, lockedBy := "", lockedAt := None)
  }

  function CompleteRow(r: Row, now: int): Row {
    r.(status := Done, finishedAt := Some(now), error := "")
  }

  function RetryRow(r: Row, retryAt: int, error: string): Row {
    r.(status := Queued, runAt := retryAt, error := error, lockedBy := "", lockedAt := None)
  }

  function FailRow(r: Row, now: int, error: string): Row {
    r.(status := Failed, finishedAt := Some(now), error := error)
  }

  function CancelRow(r: Row, now: int): Row {
    r.(status := Cancelled, finishedAt := Some(now), error := "cancelled by admin", lockedBy := "", lockedAt := None)
  }

  function BeatRow(r: Row, now: int): Row {
    r.(heartbeatAt := Some(now))
  }

  // ---- the reaper ----

  const SECOND: int := 1000

  /** The lease the reaper applies: never below one second. */
  function ReapLease(ttl: int): int { if ttl < SECOND then SECOND else ttl }

  /** COALESCE(heartbeat_at, locked_at, started_at). */
  function Liveness(r: Row): Option<int> {
    if r.heartbeatAt.Some? then r.heartbeatAt
    else if r.lockedAt.Some? then r.lockedAt
    else r.startedAt
  }

  /** A row the reaper takes.  A NULL liveness stamp compares as unknown, so it is not taken. */
  predicate Stale(r: Row, now: int, ttl: int) {
    r.status.Running? && Liveness(r).Some? && Liveness(r).value < now - ReapLease(ttl)
  }

  function ReapRow(r: Row, now: int): Row {
    if r.attempts < r.maxAttempts then
      r.(status := Queued, error := "reclaimed: worker lost (pod restart)", runAt := now, startedAt := None,
         lockedBy := "", lockedAt := None, heartbeatAt := None)
    else
      r.(status := Failed, error := "worker lost (pod restart)", finishedAt := Some(now))
  }

  /** ReapStaleRunning over the whole table, in one statement. */
  function ReapTable(jobs: Table, now: int, ttl: int): Table {
    map id | id in jobs :: if Stale(jobs[id], now, ttl) then ReapRow(jobs[id], now) else jobs[id]
  }

  // ---- guarded single-row statements on a table ----

  /** Requeue: `RequeueRow` under the guard, nothing otherwise. */
  function RequeueIn(jobs: Table, id: nat, worker: string): Table {
    if id in jobs && OwnedBy(jobs[id], worker) then jobs[id := RequeueRow(jobs[id])] else jobs
  }

  function CompleteIn(jobs: Table, id: nat, worker: string, now: int): Table {
    if id in jobs && OwnedBy(jobs[id], worker) then jobs[id := CompleteRow(jobs[id], now)] else jobs
  }

  /** Fail: back to the queue when a retry time is given, terminal otherwise. */
  function FailIn(jobs: Table, id: nat, worker: string, now: int, error: string, retryAt: Option<int>): Table {
    if id in jobs && OwnedBy(jobs[id], worker) then
      jobs[id := if retryAt.Some? then RetryRow(jobs[id], retryAt.value, error) else FailRow(jobs[id], now, error)]
    else jobs
  }

  function BeatIn(jobs: Table, id: nat, worker: string, now: int): Table {
    if id in jobs && OwnedBy(jobs[id], worker) then jobs[id := BeatRow(jobs[id], now)] else jobs
  }

  function CancelIn(jobs: Table, id: nat, now: int): Table {
    if id in jobs && jobs[id].status.Pending() then jobs[id := CancelRow(jobs[id], now)] else jobs
  }

  // ---- kind routing and the claim order ----

  /** The kind filter of ClaimNext: an empty `only` list admits every kind. */
  predicate Routed(kind: string, only: seq<string>, skip: seq<string>) {
    (only == [] || kind in only) && kind !in skip
  }

  predicate Claimable(jobs: Table, id: nat, now: int, only: seq<string>, skip: seq<string>) {
    id in jobs && jobs[id].status.Queued? && jobs[id].runAt <= now && Routed(jobs[id].kind, only, skip)
  }

  ghost predicate OldestClaimable(jobs: Table, id: nat, now: int, only: seq<string>, skip: seq<string>) {
    && Claimable(jobs, id, now, only, skip)
    && forall other :: Claimable(jobs, other, now, only, skip) ==> jobs[id].runAt <= jobs[other].runAt
  }

  // ---- concurrency policy ----

  /** The cap of a kind; at or below zero it is unlimited. */
  function CapOf(caps: map<string, int>, kind: string): int { if kind in caps then caps[kind] else 0 }

  // ---- retry policy ----

  /** Linear backoff, capped at ten minutes. */
  function RetryDelay(attempt: int): int {
    var d := attempt * 30 * SECOND;
    if d > 600 * SECOND then 600 * SECOND else d
  }

  /** The retry time `execute` passes to Fail: none once the attempts copied at claim time are used up. */
  function RetryAt(attempts: int, maxAttempts: int, now: int): Option<int> {
    if attempts < maxAttempts then Some(now + RetryDelay(attempts)) else None
  }

  /** What `execute` writes once the handler has returned: Complete on success, Fail otherwise. */
  function RecordIn(jobs: Table, id: nat, worker: string, now: int, ok: bool, attempts: int, maxAttempts: int,
      error: string): Table {
    if ok then CompleteIn(jobs, id, worker, now)
    else FailIn(jobs, id, worker, now, error, RetryAt(attempts, maxAttempts, now))
  }

  /** The terminal status `execute` announces for a handled run: none when it schedules a retry. */
  function Announced(ok: bool, attempts: int, maxAttempts: int): seq<Status> {
    if ok then [Done] else if attempts < maxAttempts then [] else [Failed]
  }

  // ---- periodic work ----

  /** HasPendingKind. */
  predicate PendingKind(jobs: Table, kind: string) {
    exists id :: id in jobs && jobs[id].kind == kind && jobs[id].status.Pending()
  }

  /** The attempts of a row that a scheduler enqueues. */
  const PERIODIC_ATTEMPTS := 3
}
