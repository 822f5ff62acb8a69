/** Drain completeness: no due job is left behind, despite stale saturated-kinds lists and lost
    slot races. */
module DrainComplete {
  import opened Rows
  import opened Protocol
  import opened Drain

  /** A slot that will not claim the kind before it exits or reads again. */
  predicate Hopeless(pc: Pc, kind: string) {
    pc.Exited? || (pc.Read? && kind in pc.full)
  }

  ghost predicate Hope(d: System, kind: string) {
    exists w :: w in d.pc && !Hopeless(d.pc[w], kind)
  }

  predicate DueAtStart(cfg: Config, d: System, id: nat) {
    Claimable(d.q.jobs, id, d.q.now, cfg.only, cfg.skip)
  }

  /** A running row is in the hands of the slot that its `lockedBy` names. */
  ghost predicate InHand(q: State, id: nat) {
    id in q.jobs && q.jobs[id].status.Running? ==>
      var w := q.jobs[id].lockedBy;
      w in q.slots && !q.slots[w].Idle? && q.slots[w].c.id == id
  }

  /** What is known of a job that was due at the start: unless it was retried, it stays due
      while queued and some slot may still claim it; while running some slot has it. */
  ghost predicate Watched(cfg: Config, d: System, id: nat) {
    && id in d.q.jobs
    && (id !in d.retried ==>
          && InHand(d.q, id)
          && (d.q.jobs[id].status.Pending() ==>
                d.q.jobs[id].runAt <= d.q.now && Routed(d.q.jobs[id].kind, cfg.only, cfg.skip))
          && (d.q.jobs[id].status.Queued? ==> Hope(d, d.q.jobs[id].kind)))
  }

  /** A saturated kind is held by a slot that will come back to the top. */
  lemma SaturatedIsHeld(cfg: Config, d: System, kind: string) returns (v: string)
    requires Fits(cfg, d) && AtCap(cfg, d, kind)
    ensures v in d.pc && (d.pc[v].Busy? || d.pc[v].Freeing?)
  {
    assert Holding(d.held, kind) != {};
    v :| v in Holding(d.held, kind);
    assert SlotOk(d.pc[v], d.q.slots[v], v in d.held);
  }

  /** After any other move of its own a slot may still claim the kind. */
  lemma MoverIsHopeful(cfg: Config, d: System, m: Move, kind: string)
    requires Guard(cfg, d, m) && !m.Env? && !m.FindNone? && (m.ReadFull? ==> kind !in m.full)
    requires m.TryAcquire? || m.Return? ==> d.pc[m.w].Busy?
    ensures m.w in PcAfter(cfg, d, m) && !Hopeless(PcAfter(cfg, d, m)[m.w], kind)
  {}

  /** A move takes hope away from no slot but the mover. */
  lemma OthersStayHopeful(cfg: Config, d: System, m: Move, kind: string, v: string)
    requires Guard(cfg, d, m) && v in d.pc && !Hopeless(d.pc[v], kind) && (!m.Env? ==> m.w != v)
    ensures v in PcAfter(cfg, d, m) && !Hopeless(PcAfter(cfg, d, m)[v], kind)
  {}

  /** Hope for a kind is lost only when the last hopeful slot finds nothing of it. */
  lemma HopeStep(cfg: Config, d: System, m: Move, kind: string)
    requires Fits(cfg, d) && Guard(cfg, d, m) && Hope(d, kind)
    requires m.FindNone? ==> kind in d.pc[m.w].full
    ensures exists w :: w in PcAfter(cfg, d, m) && !Hopeless(PcAfter(cfg, d, m)[w], kind)
  {
    if m.Env? || m.FindNone? {
      var v :| v in d.pc && !Hopeless(d.pc[v], kind);
      OthersStayHopeful(cfg, d, m, kind, v);
    } else if m.ReadFull? && kind in m.full {
      var u := SaturatedIsHeld(cfg, d, kind);
      OthersStayHopeful(cfg, d, m, kind, u);
    } else {
      MoverIsHopeful(cfg, d, m, kind);
    }
  }

  /** While a due job is queued, a slot that finds nothing had its kind on its list. */
  lemma FoundNothing(cfg: Config, d: System, m: Move, id: nat)
    requires Guard(cfg, d, m) && m.FindNone? && DueAtStart(cfg, d, id)
    ensures d.q.jobs[id].kind in d.pc[m.w].full
  {
    assert !Claimable(d.q.jobs, id, d.q.now, cfg.only, cfg.skip + d.pc[m.w].full);
  }

  /** A guarded write of the slot that holds the row takes it out of `running`. */
  lemma WriteReleases(q: State, a: Action, id: nat)
    requires Enabled(q, a) && IsWrite(a) && !a.storeErr
    requires id in q.jobs && OwnedBy(q.jobs[id], a.w) && q.slots[a.w].c.id == id
    ensures id in Apply(q, a).jobs && !Apply(q, a).jobs[id].status.Running?
  {}

  /** `r'` and `x'` are the row and its owner's slot after `a`. */
  lemma StillInHand(q: State, a: Action, id: nat, r': Row, w: string, x': Slot)
    requires InHand(q, id) && id in q.jobs && RowStep(q, a, id, q.jobs[id], r')
    requires OwnedBy(r', w) && w in q.slots && SlotStep(a, w, q.slots[w], x')
    requires a.ClaimJob? && a.w == w ==> x'.Claimed? && x'.c.id == a.id
    requires IsWrite(a) && a.w == w && OwnedBy(q.jobs[id], w) && !q.slots[w].Idle? && q.slots[w].c.id == id ==>
               !r'.status.Running?
    requires a.Abandon? && a.w == w && !q.slots[w].Idle? && q.slots[w].c.id == id ==> !OwnedBy(q.jobs[id], w)
    ensures !x'.Idle? && x'.c.id == id
  {
  }

  lemma ClaimerExists(q: State, a: Action, id: nat)
    requires Enabled(q, a) && InHand(q, id) && id in q.jobs && id in Apply(q, a).jobs
    requires RowStep(q, a, id, q.jobs[id], Apply(q, a).jobs[id]) && Apply(q, a).jobs[id].status.Running?
    ensures Apply(q, a).jobs[id].lockedBy in q.slots
  {
  }

  /** A row in hand stays in hand, or leaves `running`. */
  lemma InHandStep(q: State, a: Action, id: nat)
    requires Enabled(q, a) && InHand(q, id) && id in q.jobs
    requires IsWrite(a) ==> !a.storeErr
    requires a.Abandon? ==> !Matches(q, a.w, q.slots[a.w].c)
    ensures InHand(Apply(q, a), id)
  {
    StepRow(q, a, id);
    var r' := Apply(q, a).jobs[id];
    if r'.status.Running? {
      ClaimerExists(q, a, id);
      var w := r'.lockedBy;
      StepSlot(q, a, w);
      if IsWrite(a) && a.w == w && OwnedBy(q.jobs[id], w) && q.slots[w].c.id == id { WriteReleases(q, a, id); }
      StillInHand(q, a, id, r', w, Apply(q, a).slots[w]);
    }
  }

  /** A slot-race requeue leaves the run time alone. */
  lemma RequeueKeepsDue(q: State, a: Action, id: nat)
    requires Enabled(q, a) && a.LoseRace? && id in q.jobs
    ensures id in Apply(q, a).jobs
    ensures Apply(q, a).jobs[id] == q.jobs[id] || Apply(q, a).jobs[id] == RequeueRow(q.jobs[id])
  {}

  /** A row that is pending after an action was pending before, and is due as before unless it
      came back to the queue from running by a retry or a reap. */
  lemma DueKept(q: State, a: Action, id: nat)
    requires Enabled(q, a) && id in q.jobs
    ensures var r, r' := q.jobs[id], Apply(q, a).jobs[id];
            && id in Apply(q, a).jobs && r'.kind == r.kind
            && (r'.status.Pending() ==> r.status.Pending())
            && (r'.status.Pending() ==> r'.runAt == r.runAt || (r.status.Running? && r'.status.Queued? && !a.LoseRace?))
            && (r'.status.Queued? ==> r.status.Queued? || r.status.Running?)
  {
    StepRow(q, a, id);
    StepKind(q, a, id);
    if a.LoseRace? { RequeueKeepsDue(q, a, id); }
  }

  lemma ClockForward(q: State, a: Action)
    requires Enabled(q, a)
    ensures Apply(q, a).now >= q.now
  {}

  /** The actions of a drain run: writes do not fail, and a slot abandons only a row it has lost. */
  lemma ActionShape(cfg: Config, d: System, m: Move)
    requires Possible(cfg, d, m) && ActionOf(cfg, d, m).Some?
    ensures var a := ActionOf(cfg, d, m).value;
            && (IsWrite(a) ==> !a.storeErr)
            && (a.Abandon? ==> !Matches(d.q, a.w, d.q.slots[a.w].c))
            && (a.LoseRace? <==> m.Requeue?)
  {
  }

  /** The row part of `Watched`. */
  lemma WatchedRow(cfg: Config, d: System, m: Move, id: nat)
    requires Possible(cfg, d, m) && Watched(cfg, d, id)
    ensures var q' := QueueAfter(cfg, d, m);
            && id in q'.jobs && q'.jobs[id].kind == d.q.jobs[id].kind
            && (id !in RetriedAfter(cfg, d, m) ==>
                  && InHand(q', id)
                  && (q'.jobs[id].status.Pending() ==>
                        q'.jobs[id].runAt <= q'.now && Routed(q'.jobs[id].kind, cfg.only, cfg.skip))
                  && (q'.jobs[id].status.Queued? ==> d.q.jobs[id].status.Queued? || m.Requeue?))
  {
    if ActionOf(cfg, d, m).Some? {
      var a := ActionOf(cfg, d, m).value;
      ActionShape(cfg, d, m);
      DueKept(d.q, a, id);
      ClockForward(d.q, a);
      if id !in d.retried { InHandStep(d.q, a, id); }
    }
  }

  /** While the job is queued, or being put back, some slot may still claim it. */
  lemma WatchedHope(cfg: Config, d: System, m: Move, id: nat)
    requires Fits(cfg, d) && Guard(cfg, d, m) && Watched(cfg, d, id) && id !in d.retried
    requires d.q.jobs[id].status.Queued? || m.Requeue?
    ensures exists w :: w in PcAfter(cfg, d, m) && !Hopeless(PcAfter(cfg, d, m)[w], d.q.jobs[id].kind)
  {
    var kind := d.q.jobs[id].kind;
    if m.Requeue? {
      assert !Hopeless(PcAfter(cfg, d, m)[m.w], kind);
    } else {
      if m.FindNone? { FoundNothing(cfg, d, m, id); }
      HopeStep(cfg, d, m, kind);
    }
  }

  lemma RetriedGrows(cfg: Config, d: System, m: Move)
    requires Possible(cfg, d, m)
    ensures d.retried <= RetriedAfter(cfg, d, m)
  {}

  lemma WatchedStep(cfg: Config, d: System, m: Move, id: nat)
    requires Fits(cfg, d) && Possible(cfg, d, m) && Watched(cfg, d, id)
    ensures Watched(cfg, Do(cfg, d, m), id)
  {
    WatchedRow(cfg, d, m, id);
    RetriedGrows(cfg, d, m);
    if id !in d.retried && (d.q.jobs[id].status.Queued? || m.Requeue?) { WatchedHope(cfg, d, m, id); }
  }

  lemma {:induction false} DrainRun(cfg: Config, d: System, ms: seq<Move>, e: System)
    requires Fits(cfg, d) && Moves(cfg, d, ms, e)
    ensures Fits(cfg, e)
    ensures forall id :: Watched(cfg, d, id) ==> Watched(cfg, e, id)
    decreases |ms|
  {
    if ms != [] {
      FitsStep(cfg, d, ms[0]);
      forall id | Watched(cfg, d, id) ensures Watched(cfg, Do(cfg, d, ms[0]), id) { WatchedStep(cfg, d, ms[0], id); }
      DrainRun(cfg, Do(cfg, d, ms[0]), ms[1..], e);
    }
  }

  lemma StartWatched(cfg: Config, d: System, id: nat)
    requires Start(cfg, d) && DueAtStart(cfg, d, id)
    ensures Fits(cfg, d) && Watched(cfg, d, id)
  {
    assert cfg.ws[0] in d.pc && !Hopeless(d.pc[cfg.ws[0]], d.q.jobs[id].kind);
  }

  lemma ExitedLeavesNothing(cfg: Config, e: System, id: nat)
    requires Fits(cfg, e) && Watched(cfg, e, id) && forall w :: w in e.pc ==> e.pc[w].Exited?
    ensures id in e.retried || (id in e.q.jobs && e.q.jobs[id].status.Terminal())
  {
    forall w | w in e.pc ensures e.q.slots[w].Idle? {
      assert SlotOk(e.pc[w], e.q.slots[w], w in e.held);
    }
  }

  /** Drain completeness.  Once every slot has exited, each job that was due at the start and
      passes the kind filter has reached a terminal status, unless one of its runs failed and
      was queued again, or was reaped: none was left behind. */
  lemma DrainLeavesNothing(cfg: Config, d: System, ms: seq<Move>, e: System, id: nat)
    requires Start(cfg, d) && Moves(cfg, d, ms, e) && (forall w :: w in e.pc ==> e.pc[w].Exited?)
    requires DueAtStart(cfg, d, id)
    ensures id in e.retried || (id in e.q.jobs && e.q.jobs[id].status.Terminal())
  {
    StartWatched(cfg, d, id);
    DrainRun(cfg, d, ms, e);
    ExitedLeavesNothing(cfg, e, id);
  }
}
