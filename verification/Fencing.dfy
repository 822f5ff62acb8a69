/** Safety of the queue over every run: the locked_by guard is a fencing token, attempts are
    conserved, terminal states absorb, and notifications agree with them. */
module Fencing {
  import opened Rows
  import opened Protocol

  // ---- the guard refines a fencing token ----

  /** What a fencing token would check: the row is running under exactly this claim epoch. */
  ghost predicate FenceAt(s: State, id: nat, epoch: nat) {
    id in s.jobs && id in s.hist && s.jobs[id].status.Running? && s.hist[id].claims == epoch
  }

  ghost predicate FenceOpen(s: State, c: Claim) { FenceAt(s, c.id, c.epoch) }

  lemma WriteTakesRow(s: State, a: Action)
    requires Inv(s) && IsWrite(a) && Enabled(s, a)
    ensures var c := s.slots[a.w].c;
            Apply(s, a).jobs != s.jobs <==> !a.storeErr && Matches(s, a.w, c)
  {
    var c := s.slots[a.w].c;
    if !a.storeErr && Matches(s, a.w, c) {
      assert Apply(s, a).jobs[c.id].status != s.jobs[c.id].status;
    }
  }

  lemma GuardMatchesFence(s: State, w: string)
    requires Inv(s) && w in s.slots && !s.slots[w].Idle?
    ensures Matches(s, w, s.slots[w].c) <==> FenceOpen(s, s.slots[w].c)
  {
    assert Anchored(s, w, s.slots[w]);
  }

  /** In every reachable state and for every slot, a guarded write changes the table exactly
      when the statement runs and the row is still running under the slot's own claim epoch,
      and then it changes that row alone. */
  lemma GuardIsFence(s: State, acts: seq<Action>, t: State, a: Action)
    requires Init(s) && Run(s, acts, t) && IsWrite(a) && Enabled(t, a)
    ensures var c := t.slots[a.w].c;
            && (Apply(t, a).jobs != t.jobs <==> !a.storeErr && FenceOpen(t, c))
            && forall id :: id in t.jobs && id != c.id ==> id in Apply(t, a).jobs && Apply(t, a).jobs[id] == t.jobs[id]
  {
    InvReachable(s, acts, t);
    WriteTakesRow(t, a);
    GuardMatchesFence(t, a.w);
    forall id | id in t.jobs && id != t.slots[a.w].c.id
      ensures id in Apply(t, a).jobs && Apply(t, a).jobs[id] == t.jobs[id]
    {
      StepRow(t, a, id);
    }
  }

  // ---- attempt conservation ----

  function HistOf(s: State, id: nat): Hist {
    if id in s.hist then s.hist[id] else Hist(0, {}, {}, [])
  }

  /** Claims of `id` along a run, read off the actions. */
  function ClaimCount(acts: seq<Action>, id: nat): nat {
    if acts == [] then 0
    else (if acts[0].ClaimJob? && acts[0].id == id then 1 else 0) + ClaimCount(acts[1..], id)
  }

  /** Handler starts of `id` along a run. */
  function StartCount(s: State, acts: seq<Action>, id: nat, t: State): nat
    requires Run(s, acts, t)
    decreases |acts|
  {
    if acts == [] then 0
    else (if acts[0].StartHandler? && s.slots[acts[0].w].c.id == id then 1 else 0)
         + StartCount(Apply(s, acts[0]), acts[1..], id, t)
  }

  /** Slot-race requeues along a run that put the row of `id` back. */
  function RefundCount(s: State, acts: seq<Action>, id: nat, t: State): nat
    requires Run(s, acts, t)
    decreases |acts|
  {
    if acts == [] then 0
    else (if acts[0].LoseRace? && s.slots[acts[0].w].c.id == id && Apply(s, acts[0]).jobs != s.jobs then 1 else 0)
         + RefundCount(Apply(s, acts[0]), acts[1..], id, t)
  }

  lemma ClaimStep(s: State, a: Action, id: nat)
    requires Inv(s) && Enabled(s, a)
    ensures HistOf(Apply(s, a), id).claims == HistOf(s, id).claims + (if a.ClaimJob? && a.id == id then 1 else 0)
  {}

  lemma StartStep(s: State, a: Action, id: nat)
    requires Inv(s) && Enabled(s, a)
    ensures |HistOf(Apply(s, a), id).started| == |HistOf(s, id).started|
            + (if a.StartHandler? && s.slots[a.w].c.id == id then 1 else 0)
  {
    if a.StartHandler? { assert Anchored(s, a.w, s.slots[a.w]); }
  }

  lemma RefundStep(s: State, a: Action, id: nat)
    requires Inv(s) && Enabled(s, a)
    ensures |HistOf(Apply(s, a), id).refunded| == |HistOf(s, id).refunded|
            + (if a.LoseRace? && s.slots[a.w].c.id == id && Apply(s, a).jobs != s.jobs then 1 else 0)
  {
    if a.LoseRace? {
      assert Anchored(s, a.w, s.slots[a.w]);
      var c := s.slots[a.w].c;
      if !a.storeErr && Matches(s, a.w, c) {
        assert Apply(s, a).jobs[c.id].status != s.jobs[c.id].status;
      }
    }
  }

  lemma {:induction false} HistCounts(s: State, acts: seq<Action>, t: State, id: nat)
    requires Inv(s) && Run(s, acts, t)
    ensures HistOf(t, id).claims == HistOf(s, id).claims + ClaimCount(acts, id)
    ensures |HistOf(t, id).started| == |HistOf(s, id).started| + StartCount(s, acts, id, t)
    ensures |HistOf(t, id).refunded| == |HistOf(s, id).refunded| + RefundCount(s, acts, id, t)
    decreases |acts|
  {
    if acts != [] {
      ClaimStep(s, acts[0], id);
      StartStep(s, acts[0], id);
      RefundStep(s, acts[0], id);
      InvStep(s, acts[0]);
      HistCounts(Apply(s, acts[0]), acts[1..], t, id);
    }
  }

  lemma {:induction false} CardinalityBound(es: set<nat>, n: nat)
    requires forall e :: e in es ==> 1 <= e <= n
    ensures |es| <= n
  {
    if n == 0 {
      assert es == {};
    } else {
      CardinalityBound(es - {n}, n - 1);
      assert es <= (es - {n}) + {n};
      if n in es { assert es == (es - {n}) + {n}; } else { assert es == es - {n}; }
    }
  }

  /** Attempt conservation, for every job of every run: the attempts column counts claims
      less slot-race refunds, so every start was paid for by an attempt, and the budget is
      never exceeded. */
  lemma AttemptConservation(s: State, acts: seq<Action>, t: State, id: nat)
    requires Init(s) && Run(s, acts, t) && id in t.jobs
    ensures t.jobs[id].attempts == ClaimCount(acts, id) - RefundCount(s, acts, id, t)
    ensures StartCount(s, acts, id, t) <= t.jobs[id].attempts <= t.jobs[id].maxAttempts
    ensures t.jobs[id].status.Queued? ==> t.jobs[id].attempts < t.jobs[id].maxAttempts
    ensures t.jobs[id].status.Running? ==> 1 <= t.jobs[id].attempts
  {
    InvReachable(s, acts, t);
    HistCounts(s, acts, t, id);
    var h := t.hist[id];
    assert Accounted(t.jobs[id], h, t.now);
    CardinalityBound(h.refunded + h.started, h.claims);
  }

  /** The GREATEST clip of Requeue never fires: the refund is always one whole attempt. */
  lemma RefundNeverClips(s: State, acts: seq<Action>, t: State, w: string)
    requires Init(s) && Run(s, acts, t) && Enabled(t, LoseRace(w, false)) && Matches(t, w, t.slots[w].c)
    ensures var id := t.slots[w].c.id;
            Apply(t, LoseRace(w, false)).jobs[id].attempts == t.jobs[id].attempts - 1
  {
    InvReachable(s, acts, t);
    assert Accounted(t.jobs[t.slots[w].c.id], t.hist[t.slots[w].c.id], t.now);
  }

  // ---- terminal states and notifications ----

  /** A terminal row is never written again: no reaper, cancel, late write or heartbeat touches it. */
  lemma {:induction false} TerminalAbsorbs(s: State, acts: seq<Action>, t: State, id: nat)
    requires Run(s, acts, t) && id in s.jobs && s.jobs[id].status.Terminal()
    ensures id in t.jobs && t.jobs[id] == s.jobs[id]
    decreases |acts|
  {
    if acts != [] {
      TerminalAbsorbs(Apply(s, acts[0]), acts[1..], t, id);
    }
  }

  /** At most one notification of a job, naming the terminal status its row has. */
  ghost predicate Agrees(s: State, id: nat) {
    var n := HistOf(s, id).notified;
    n == [] || (|n| == 1 && id in s.jobs && s.jobs[id].status == n[0] && n[0].Terminal())
  }

  /** The action announces something of the job, or would if its write allowed. */
  predicate Speaks(s: State, a: Action, id: nat) {
    (a.Record? || a.NoHandler?) && a.w in s.slots && !s.slots[a.w].Idle? && s.slots[a.w].c.id == id
  }

  /** What agreement presumes of an action, for one job: a result of the job to announce is stored
      without an error, and the Fail of its missing handler takes the row. */
  predicate Clean(s: State, a: Action, id: nat)
    requires Enabled(s, a)
  {
    Speaks(s, a, id) ==>
      if a.Record? then a.storeErr ==> Announces(s.slots[a.w].c, s.slots[a.w].ok) == []
      else !a.storeErr && Matches(s, a.w, s.slots[a.w].c)
  }

  predicate CleanRun(s: State, acts: seq<Action>, id: nat)
    decreases |acts|
  {
    acts != [] && Enabled(s, acts[0]) ==> Clean(s, acts[0], id) && CleanRun(Apply(s, acts[0]), acts[1..], id)
  }

  lemma SameNotified(s: State, a: Action, id: nat)
    requires Inv(s) && Enabled(s, a) && !Speaks(s, a, id)
    ensures HistOf(Apply(s, a), id).notified == HistOf(s, id).notified
  {}

  lemma AgreeUnspoken(s: State, a: Action, id: nat)
    requires Inv(s) && Enabled(s, a) && !Speaks(s, a, id) && Agrees(s, id)
    ensures Agrees(Apply(s, a), id)
  {
    SameNotified(s, a, id);
    if id in s.jobs { StepRow(s, a, id); }
  }

  /** When a result is recorded, agreement on its job survives exactly unless the write errored and
      the announced status is not already the row's unannounced one: `execute` announces a result
      it could not store. */
  lemma RecordAgreesExactly(s: State, w: string, storeErr: bool)
    requires Inv(s) && Enabled(s, Record(w, storeErr)) && Agrees(s, s.slots[w].c.id)
    ensures var Returned(c, ok) := s.slots[w]; var said := Announces(c, ok);
            Agrees(Apply(s, Record(w, storeErr)), c.id) <==>
            (storeErr && said != [] ==> s.hist[c.id].notified == [] && s.jobs[c.id].status == said[0])
  {
    assert Anchored(s, w, s.slots[w]);
  }

  /** The same for a kind with no handler: `execute` announces a failure whether or not its
      Fail matched, so agreement survives exactly when that Fail takes the row, or finds it
      failed and unannounced. */
  lemma NoHandlerAgreesExactly(s: State, w: string, storeErr: bool)
    requires Inv(s) && Enabled(s, NoHandler(w, storeErr)) && Agrees(s, s.slots[w].c.id)
    ensures var c := s.slots[w].c;
            Agrees(Apply(s, NoHandler(w, storeErr)), c.id) <==>
            (!storeErr && FenceOpen(s, c)) || (s.hist[c.id].notified == [] && s.jobs[c.id].status == Failed)
  {
    assert Anchored(s, w, s.slots[w]);
  }

  lemma AgreeStep(s: State, a: Action, id: nat)
    requires Inv(s) && Enabled(s, a) && Agrees(s, id) && Clean(s, a, id)
    ensures Agrees(Apply(s, a), id)
  {
    if !Speaks(s, a, id) {
      AgreeUnspoken(s, a, id);
    } else if a.Record? {
      RecordAgreesExactly(s, a.w, a.storeErr);
    } else {
      GuardMatchesFence(s, a.w);
      NoHandlerAgreesExactly(s, a.w, a.storeErr);
    }
  }

  lemma {:induction false} AgreeRun(s: State, acts: seq<Action>, t: State, id: nat)
    requires Inv(s) && Agrees(s, id) && Run(s, acts, t) && CleanRun(s, acts, id)
    ensures Agrees(t, id)
    decreases |acts|
  {
    if acts != [] {
      AgreeStep(s, acts[0], id);
      InvStep(s, acts[0]);
      AgreeRun(Apply(s, acts[0]), acts[1..], t, id);
    }
  }

  lemma NotifiedStep(s: State, a: Action, id: nat)
    requires Inv(s) && Enabled(s, a)
    ensures HistOf(s, id).notified <= HistOf(Apply(s, a), id).notified
  {
    if !Speaks(s, a, id) { SameNotified(s, a, id); }
  }

  lemma {:induction false} NotifiedGrows(s: State, acts: seq<Action>, t: State, id: nat)
    requires Inv(s) && Run(s, acts, t)
    ensures HistOf(s, id).notified <= HistOf(t, id).notified
    decreases |acts|
  {
    if acts != [] {
      InvStep(s, acts[0]);
      NotifiedStep(s, acts[0], id);
      NotifiedGrows(Apply(s, acts[0]), acts[1..], t, id);
    }
  }

  /** Over every run that is clean for a job, whatever happens to others, the job gets at most one
      terminal notification; once it is out, the row has the announced status and keeps it, and
      nothing more is announced of it, however the run goes on. */
  lemma NotificationsAgree(s: State, acts: seq<Action>, t: State, more: seq<Action>, u: State, id: nat)
    requires Init(s) && Run(s, acts, t) && Run(t, more, u)
    requires CleanRun(s, acts, id) && CleanRun(t, more, id)
    ensures |HistOf(t, id).notified| <= 1
    ensures HistOf(t, id).notified != [] ==>
              id in t.jobs && id in u.jobs && u.jobs[id] == t.jobs[id]
                  && [u.jobs[id].status] == HistOf(u, id).notified == HistOf(t, id).notified
  {
    InvReachable(s, acts, t);
    AgreeRun(s, acts, t, id);
    AgreeRun(t, more, u, id);
    NotifiedGrows(t, more, u, id);
    if HistOf(t, id).notified != [] {
      TerminalAbsorbs(t, more, u, id);
    }
  }

  // ---- and where agreement is lost ----

  /** An example run: slot "pod" claims job 7 and starts its handler. */
  lemma FirstClaim() returns (s: State, acts: seq<Action>, t: State)
    ensures Init(s) && Run(s, acts, t)
    ensures t.now == 0 && "pod" in t.slots && 7 in t.jobs && 7 in t.hist && t.hist[7] == Hist(1, {}, {1}, [])
    ensures t.jobs[7] == Row("k", "", Running, 1, 3, "", 0, Some(0), None, "pod", Some(0), Some(0))
    ensures t.slots["pod"] == Handling(Claim(7, 1, 1, 3, 0))
  {
    s, acts := State(0, map[], map["pod" := Idle], map[]), [];
    t := s;
    RunExtend(s, acts, t, Enqueue(7, "k", "", 3, 0));
    acts, t := acts + [Enqueue(7, "k", "", 3, 0)], Apply(t, Enqueue(7, "k", "", 3, 0));
    RunExtend(s, acts, t, ClaimJob("pod", 7));
    acts, t := acts + [ClaimJob("pod", 7)], Apply(t, ClaimJob("pod", 7));
    RunExtend(s, acts, t, StartHandler("pod"));
    acts, t := acts + [StartHandler("pod")], Apply(t, StartHandler("pod"));
  }

  /** Its handler succeeds and the write of the result errors: "done" is announced of a row that
      is still running. */
  lemma UnstoredResultAnnounced() returns (s: State, acts: seq<Action>, t: State)
    ensures Init(s) && Run(s, acts, t) && !Agrees(t, 7)
    ensures HistOf(t, 7).notified == [Done] && 7 in t.jobs && t.jobs[7].status.Running?
  {
    s, acts, t := FirstClaim();
    RunExtend(s, acts, t, HandlerReturn("pod", true));
    acts, t := acts + [HandlerReturn("pod", true)], Apply(t, HandlerReturn("pod", true));
    RunExtend(s, acts, t, Action.Record("pod", true));
    acts, t := acts + [Action.Record("pod", true)], Apply(t, Action.Record("pod", true));
  }

  /** A claimed job that an admin cancels. */
  lemma CancelledClaim() returns (s: State, acts: seq<Action>, t: State)
    ensures Init(s) && Run(s, acts, t)
    ensures 7 in t.jobs && t.jobs[7].status.Cancelled? && t.hist == map[7 := Hist(1, {}, {}, [])]
    ensures t.slots == map["pod" := Claimed(Claim(7, 1, 1, 3, 0))]
  {
    s, acts := State(0, map[], map["pod" := Idle], map[]), [];
    t := s;
    RunExtend(s, acts, t, Enqueue(7, "k", "", 3, 0));
    acts, t := acts + [Enqueue(7, "k", "", 3, 0)], Apply(t, Enqueue(7, "k", "", 3, 0));
    RunExtend(s, acts, t, ClaimJob("pod", 7));
    acts, t := acts + [ClaimJob("pod", 7)], Apply(t, ClaimJob("pod", 7));
    RunExtend(s, acts, t, Cancel(7));
    acts, t := acts + [Cancel(7)], Apply(t, Cancel(7));
  }

  /** Its slot then finds that the kind has no handler: "failed" is announced of a cancelled row. */
  lemma CancelledAnnouncedAsFailed() returns (s: State, acts: seq<Action>, t: State)
    ensures Init(s) && Run(s, acts, t) && !Agrees(t, 7)
    ensures HistOf(t, 7).notified == [Failed] && 7 in t.jobs && t.jobs[7].status.Cancelled?
  {
    s, acts, t := CancelledClaim();
    RunExtend(s, acts, t, NoHandler("pod", false));
    acts, t := acts + [NoHandler("pod", false)], Apply(t, NoHandler("pod", false));
  }
}
