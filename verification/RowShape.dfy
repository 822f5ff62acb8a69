/** What the columns of a row say together in every reachable state: each statement of the store
    leaves claim, stamps and status consistent. */
module RowShape {
  import opened Rows
  import opened Protocol

  /** `ws` are the slots of the fleet. */
  predicate Shaped(r: Row, now: int, ws: set<string>) {
    && (r.status.Queued? ==> r.lockedBy == "" && r.lockedAt == None && r.finishedAt == None)
    && (r.status.Running? ==> HeldSince(r, now) && r.lockedBy in ws && r.finishedAt == None)
    && (r.status.Terminal() ==> r.finishedAt.Some? && r.finishedAt.value <= now)
    && (r.status.Done? || r.status.Failed? ==> r.lockedBy in ws && HeldSince(r, r.finishedAt.value))
    && (r.status.Done? ==> r.error == "")
    && (r.status.Cancelled? ==> r.error == "cancelled by admin" && r.lockedBy == "" && r.lockedAt == None)
  }

  /** Claimed at one instant, and last heard of between then and `until`. */
  predicate HeldSince(r: Row, until: int) {
    && r.lockedAt.Some? && r.startedAt == r.lockedAt && r.heartbeatAt.Some?
    && r.lockedAt.value <= r.heartbeatAt.value <= until
  }

  lemma NewShaped(kind: string, owner: string, max: int, runAt: int, now: int, ws: set<string>)
    ensures Shaped(NewRow(kind, owner, max, runAt), now, ws)
  {}

  /** Each guarded write, and each statement of the reaper and the admin. */
  lemma WritesShaped(r: Row, now: int, ws: set<string>, error: string, retryAt: int)
    requires Shaped(r, now, ws) && r.status.Running?
    ensures Shaped(RequeueRow(r), now, ws) && Shaped(CompleteRow(r, now), now, ws)
    ensures Shaped(RetryRow(r, retryAt, error), now, ws) && Shaped(FailRow(r, now, error), now, ws)
    ensures Shaped(BeatRow(r, now), now, ws) && Shaped(ReapRow(r, now), now, ws)
  {}

  lemma CancelShaped(r: Row, now: int, ws: set<string>)
    requires r.status.Pending()
    ensures Shaped(CancelRow(r, now), now, ws)
  {}

  /** The rows a guarded write can leave. */
  ghost predicate Written(r: Row, r': Row, now: int) {
    || r' == r
    || r' == RequeueRow(r) || r' == CompleteRow(r, now)
    || (exists at, error :: r' == RetryRow(r, at, error)) || (exists error :: r' == FailRow(r, now, error))
  }

  lemma RequeueWrites(jobs: Table, id: nat, w: string, now: int)
    requires id in jobs
    ensures Written(jobs[id], RequeueIn(jobs, id, w)[id], now)
  {}

  lemma RecordWrites(jobs: Table, id: nat, w: string, now: int, ok: bool, attempts: int, max: int, error: string)
    requires id in jobs
    ensures Written(jobs[id], RecordIn(jobs, id, w, now, ok, attempts, max, error)[id], now)
  {}

  lemma FailWrites(jobs: Table, id: nat, w: string, now: int, error: string)
    requires id in jobs
    ensures Written(jobs[id], FailIn(jobs, id, w, now, error, None)[id], now)
  {}

  /** A guarded write of a slot, in terms of the row it is about. */
  lemma WriteIs(s: State, a: Action, id: nat)
    requires Enabled(s, a) && IsWrite(a) && id in s.jobs
    ensures id in Apply(s, a).jobs && Written(s.jobs[id], Apply(s, a).jobs[id], s.now)
    ensures Apply(s, a).jobs[id] != s.jobs[id] ==> s.jobs[id].status.Running?
  {
    var c := s.slots[a.w].c;
    if id == c.id {
      match a
      case LoseRace(w, e) => RequeueWrites(s.jobs, id, w, s.now);
      case NoHandler(w, e) => FailWrites(s.jobs, id, w, s.now, NoHandlerError(s, w));
      case Record(w, e) =>
        RecordWrites(s.jobs, id, w, s.now, s.slots[w].ok, c.attempts, c.maxAttempts, "handler error");
    } else {
      StepRow(s, a, id);
    }
  }

  lemma WrittenShaped(r: Row, r': Row, now: int, ws: set<string>)
    requires Shaped(r, now, ws) && Written(r, r', now) && (r' != r ==> r.status.Running?)
    ensures Shaped(r', now, ws)
  {
    if r' != r {
      WritesShaped(r, now, ws, "", 0);
      if at, error :| r' == RetryRow(r, at, error) { WritesShaped(r, now, ws, error, at); }
      if error :| r' == FailRow(r, now, error) { WritesShaped(r, now, ws, error, 0); }
    }
  }

  lemma StepShaped(s: State, a: Action, id: nat)
    requires Enabled(s, a) && id in s.jobs && Shaped(s.jobs[id], s.now, s.slots.Keys)
    ensures id in Apply(s, a).jobs && Shaped(Apply(s, a).jobs[id], Apply(s, a).now, Apply(s, a).slots.Keys)
  {
    var t := Apply(s, a);
    forall w ensures w in t.slots <==> w in s.slots { StepSlot(s, a, w); }
    assert t.slots.Keys == s.slots.Keys;
    if IsWrite(a) {
      WriteIs(s, a, id);
      WrittenShaped(s.jobs[id], t.jobs[id], s.now, s.slots.Keys);
    } else {
      StepRow(s, a, id);
      OtherSteps(s, a, id, s.jobs[id], t.jobs[id]);
    }
  }

  lemma OtherSteps(s: State, a: Action, id: nat, r: Row, r': Row)
    requires Enabled(s, a) && !IsWrite(a) && RowStep(s, a, id, r, r') && Shaped(r, s.now, s.slots.Keys)
    ensures Shaped(r', if a.Tick? then s.now + a.elapsed else s.now, s.slots.Keys)
  {
    if r.status.Running? { WritesShaped(r, s.now, s.slots.Keys, "", 0); }
    if r.status.Pending() { CancelShaped(r, s.now, s.slots.Keys); }
  }

  ghost predicate AllShaped(s: State) {
    forall id :: id in s.jobs ==> Shaped(s.jobs[id], s.now, s.slots.Keys)
  }

  lemma AllShapedStep(s: State, a: Action)
    requires AllShaped(s) && Enabled(s, a)
    ensures AllShaped(Apply(s, a))
  {
    var t := Apply(s, a);
    forall id | id in t.jobs ensures Shaped(t.jobs[id], t.now, t.slots.Keys) {
      if id in s.jobs {
        StepShaped(s, a, id);
      } else {
        NewShaped(a.kind, a.owner, a.maxAttempts, a.runAt, t.now, t.slots.Keys);
      }
    }
  }

  /** In every reachable state of every run, every row is consistent: a queued row is unclaimed
      and unfinished, a running row is held by a slot of the fleet since one instant, a done or
      failed row still names its last claimer, and a cancelled row names none. */
  lemma {:induction false} ReachableRowsShaped(s: State, acts: seq<Action>, t: State)
    requires AllShaped(s) && Run(s, acts, t)
    ensures AllShaped(t)
    decreases |acts|
  {
    if acts != [] {
      AllShapedStep(s, acts[0]);
      ReachableRowsShaped(Apply(s, acts[0]), acts[1..], t);
    }
  }
}
