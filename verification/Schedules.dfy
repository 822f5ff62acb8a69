/** Periodic schedules: the `job_schedules` table, its two statements, and how far apart the
    firings of one kind are when any number of replicas register and tick. */
module Schedules {
  import opened Rows

  /** `interval` in whole seconds, as stored. */
  datatype Schedule = Schedule(interval: int, nextRun: int, lastRun: Option<int>)

  type ScheduleTable = map<string, Schedule>

  /** A duration in milliseconds as whole seconds, truncated and never below one. */
  function WholeSeconds(duration: int): int {
    if duration < SECOND then 1 else duration / SECOND
  }

  /** UpsertSchedule: insert one interval out, or on conflict pull `nextRun` in to the new cadence. */
  function UpsertIn(table: ScheduleTable, kind: string, duration: int, now: int): ScheduleTable {
    var secs := WholeSeconds(duration);
    var next := now + secs * SECOND;
    if kind in table then
      var s := table[kind];
      table[kind := s.(interval := secs, nextRun := if s.nextRun < next then s.nextRun else next)]
    else
      table[kind := Schedule(secs, next, None)]
  }

  predicate Due(table: ScheduleTable, kind: string, now: int) {
    kind in table && table[kind].nextRun <= now
  }

  /** ClaimDueSchedules: every due row advances by its own interval. */
  function AdvanceDue(table: ScheduleTable, now: int): ScheduleTable {
    map k | k in table ::
      if Due(table, k, now) then Schedule(table[k].interval, now + table[k].interval * SECOND, Some(now)) else table[k]
  }

  // ---- runs of registrations and scheduler passes ----

  /** A registration by some replica, or a scheduler pass (ClaimDueSchedules) of some replica. */
  datatype Event =
    | Register(at: int, kind: string, duration: int)
    | Pass(at: int)

  function Next(table: ScheduleTable, e: Event): ScheduleTable {
    match e
    case Register(at, kind, duration) => UpsertIn(table, kind, duration, at)
    case Pass(at) => AdvanceDue(table, at)
  }

  /** The table after the first `n` events. */
  function After(evs: seq<Event>, n: nat): ScheduleTable
    requires n <= |evs|
  {
    if n == 0 then map[] else Next(After(evs, n - 1), evs[n - 1])
  }

  predicate InOrder(evs: seq<Event>) {
    forall i, j :: 0 <= i < j < |evs| ==> evs[i].at <= evs[j].at
  }

  /** Event `i` is a pass that fires `kind`. */
  predicate Fires(evs: seq<Event>, i: nat, kind: string)
    requires i < |evs|
  {
    evs[i].Pass? && Due(After(evs, i), kind, evs[i].at)
  }

  predicate Registers(e: Event, kind: string) { e.Register? && e.kind == kind }

  /** The interval of the last registration of `kind` among the first `n` events, in seconds. */
  function InForce(evs: seq<Event>, n: nat, kind: string): Option<int>
    requires n <= |evs|
  {
    if n == 0 then None
    else if Registers(evs[n - 1], kind) then Some(WholeSeconds(evs[n - 1].duration))
    else InForce(evs, n - 1, kind)
  }

  /** The smallest interval in force at any time from event `i` until just before event `j`. */
  function SmallestInForce(evs: seq<Event>, i: nat, j: nat, kind: string): int
    requires i < j <= |evs| && InForce(evs, i, kind).Some?
  {
    if j == i + 1 then InForce(evs, i, kind).value
    else
      var before := SmallestInForce(evs, i, j - 1, kind);
      if Registers(evs[j - 1], kind) && WholeSeconds(evs[j - 1].duration) < before
      then WholeSeconds(evs[j - 1].duration) else before
  }

  lemma {:induction false} StoredIsInForce(evs: seq<Event>, n: nat, kind: string)
    requires n <= |evs|
    ensures kind in After(evs, n) <==> InForce(evs, n, kind).Some?
    ensures kind in After(evs, n) ==> After(evs, n)[kind].interval == InForce(evs, n, kind).value >= 1
  {
    if n > 0 { StoredIsInForce(evs, n - 1, kind); }
  }

  /** After a firing and until the next one, `nextRun` stays beyond the smallest interval. */
  lemma {:induction false} NextRunAfterFiring(evs: seq<Event>, i: nat, j: nat, kind: string)
    requires InOrder(evs) && i < j <= |evs| && Fires(evs, i, kind)
    requires forall m :: i < m < j ==> !Fires(evs, m, kind)
    ensures InForce(evs, i, kind).Some? && kind in After(evs, j)
    ensures After(evs, j)[kind].nextRun >= evs[i].at + SmallestInForce(evs, i, j, kind) * SECOND
  {
    StoredIsInForce(evs, i, kind);
    if j > i + 1 {
      NextRunAfterFiring(evs, i, j - 1, kind);
      assert !Fires(evs, j - 1, kind);
      assert evs[i].at <= evs[j - 1].at;
    }
  }

  /** Schedule spacing.  However many replicas register and tick, two consecutive firings of a
      kind are at least the smallest interval apart that was in force since the earlier one. */
  lemma FiringsAreSpaced(evs: seq<Event>, i: nat, j: nat, kind: string)
    requires InOrder(evs) && i < j < |evs| && Fires(evs, i, kind) && Fires(evs, j, kind)
    requires forall m :: i < m < j ==> !Fires(evs, m, kind)
    ensures InForce(evs, i, kind).Some?
    ensures evs[j].at - evs[i].at >= SmallestInForce(evs, i, j, kind) * SECOND
  {
    NextRunAfterFiring(evs, i, j, kind);
  }

  lemma {:induction false} SmallestIsPositive(evs: seq<Event>, i: nat, j: nat, kind: string)
    requires i < j <= |evs| && InForce(evs, i, kind).Some?
    ensures SmallestInForce(evs, i, j, kind) >= 1
  {
    StoredIsInForce(evs, i, kind);
    if j > i + 1 { SmallestIsPositive(evs, i, j - 1, kind); }
  }

  /** Each due time is claimed once: no two passes less than a second apart fire the same kind. */
  lemma {:induction false} FiresOnce(evs: seq<Event>, i: nat, j: nat, kind: string)
    requires InOrder(evs) && i < j < |evs| && evs[j].at - evs[i].at < SECOND
    requires Fires(evs, i, kind)
    ensures !Fires(evs, j, kind)
    decreases j
  {
    if Fires(evs, j, kind) {
      if m: nat :| i < m < j && Fires(evs, m, kind) {
        assert evs[m].at <= evs[j].at && evs[i].at <= evs[m].at;
        FiresOnce(evs, i, m, kind);
      } else {
        FiringsAreSpaced(evs, i, j, kind);
        SmallestIsPositive(evs, i, j, kind);
      }
    }
  }

  // ---- and no further apart ----

  /** Event `i` sets the kind's next run anew: it fires the kind or registers it first. */
  predicate Sets(evs: seq<Event>, i: nat, kind: string)
    requires i < |evs|
  {
    Fires(evs, i, kind) || (Registers(evs[i], kind) && kind !in After(evs, i))
  }

  /** When the kind is due before event `j`, counted from event `i`: one interval after it, unless a
      registration since then has pulled the next run in to one of its own intervals. */
  function DueTime(evs: seq<Event>, i: nat, j: nat, kind: string): int
    requires i < j <= |evs| && InForce(evs, i + 1, kind).Some?
  {
    if j == i + 1 then evs[i].at + 1000 * InForce(evs, i + 1, kind).value
    else
      var before := DueTime(evs, i, j - 1, kind);
      if Registers(evs[j - 1], kind) && evs[j - 1].at + 1000 * WholeSeconds(evs[j - 1].duration) < before
      then evs[j - 1].at + 1000 * WholeSeconds(evs[j - 1].duration) else before
  }

  lemma {:induction false} NextRunIsDueTime(evs: seq<Event>, i: nat, j: nat, kind: string)
    requires i < j <= |evs| && Sets(evs, i, kind) && forall m :: i < m < j ==> !Fires(evs, m, kind)
    ensures InForce(evs, i + 1, kind).Some? && kind in After(evs, j)
    ensures After(evs, j)[kind].nextRun == DueTime(evs, i, j, kind)
  {
    StoredIsInForce(evs, i + 1, kind);
    StoredIsInForce(evs, i, kind);
    if j > i + 1 {
      NextRunIsDueTime(evs, i, j - 1, kind);
      assert !Fires(evs, j - 1, kind);
    }
  }

  /** The exact law.  Since the kind last fired, or was first registered, a pass fires it if and
      only if its time has come. */
  lemma FiresExactly(evs: seq<Event>, i: nat, j: nat, kind: string)
    requires i < j < |evs| && Sets(evs, i, kind) && forall m :: i < m < j ==> !Fires(evs, m, kind)
    ensures InForce(evs, i + 1, kind).Some?
    ensures Fires(evs, j, kind) <==> evs[j].Pass? && DueTime(evs, i, j, kind) <= evs[j].at
  {
    NextRunIsDueTime(evs, i, j, kind);
  }

  lemma {:induction false} DueWithinInterval(evs: seq<Event>, i: nat, j: nat, kind: string)
    requires i < j <= |evs| && InForce(evs, i + 1, kind).Some?
    ensures DueTime(evs, i, j, kind) <= evs[i].at + 1000 * InForce(evs, i + 1, kind).value
    ensures forall r :: i < r < j && Registers(evs[r], kind) ==>
              DueTime(evs, i, j, kind) <= evs[r].at + 1000 * WholeSeconds(evs[r].duration)
  {
    if j > i + 1 { DueWithinInterval(evs, i, j - 1, kind); }
  }

  /** The other half of the spacing.  A pass at least the interval in force after a firing, or at
      least its own interval after a later registration, finds that the kind has fired again, or
      fires it itself. */
  lemma FiresAgain(evs: seq<Event>, i: nat, j: nat, kind: string)
    requires i < j < |evs| && Sets(evs, i, kind) && evs[j].Pass?
    requires InForce(evs, i + 1, kind).Some? ==>
               || evs[j].at >= evs[i].at + 1000 * InForce(evs, i + 1, kind).value
               || exists r :: i < r < j && Registers(evs[r], kind)
                              && evs[j].at >= evs[r].at + 1000 * WholeSeconds(evs[r].duration)
    ensures exists m :: i < m <= j && Fires(evs, m, kind)
  {
    if forall m :: i < m < j ==> !Fires(evs, m, kind) {
      FiresExactly(evs, i, j, kind);
      DueWithinInterval(evs, i, j, kind);
    }
  }

  /** Registering again never moves the next run later, and never past one new interval from now;
      it touches no other kind. */
  lemma RegisteringPullsIn(table: ScheduleTable, kind: string, duration: int, now: int)
    ensures var t := UpsertIn(table, kind, duration, now);
            && kind in t && t[kind].nextRun <= now + WholeSeconds(duration) * SECOND
            && (kind in table ==> t[kind].nextRun <= table[kind].nextRun)
            && (kind in table && now + WholeSeconds(duration) * SECOND >= table[kind].nextRun
                ==> t[kind].nextRun == table[kind].nextRun)
            && forall k :: k in table && k != kind ==> k in t && t[k] == table[k]
  {
  }
}
