/** The queue as a state machine: any number of worker slots on any number of pods, the
    reaper, admin cancels and straggling heartbeats, interleaved over one table.

    Every SQL statement is one atomic action.  A slot is a small program-counter machine
    (internal/jobs/local.go runLoop and runJob, internal/jobs/exec.go execute):

      Idle -> Claimed -> Handling -> Returned -> Idle

    The limiter is not part of this machine: a claimed slot either starts its handler or has
    lost the slot race, in every order, so what is proved here holds for every limiter.
    `Hist` is bookkeeping that no statement reads: how often a job was claimed (its claim
    epoch), which of these claims were refunded or started a handler, and which terminal
    notifications went out. */
module Protocol {
  import opened Rows

  /** What a slot remembers of the job it claimed: the Job value copied at claim time, and
      the time of this run's last successful heartbeat, counted from the claim. */
  datatype Claim = Claim(id: nat, epoch: nat, attempts: int, maxAttempts: int, beat: int)

  datatype Slot =
    | Idle
    | Claimed(c: Claim)
    | Handling(c: Claim)
    | Returned(c: Claim, ok: bool)

  datatype Hist = Hist(claims: nat, refunded: set<nat>, started: set<nat>, notified: seq<Status>)

  datatype State = State(now: int, jobs: Table, slots: map<string, Slot>, hist: map<nat, Hist>)

  /** `storeErr` marks a statement that failed: the slot goes on, the table is unchanged.  A
      stray beat is a heartbeat of slot `w` for its claim `epoch` of job `id` that lands after
      the run has stopped beating; the statement does not carry the epoch. */
  datatype Action =
    | Tick(elapsed: nat)
    | Enqueue(id: nat, kind: string, owner: string, maxAttempts: int, runAt: int)
    | ClaimJob(w: string, id: nat)
    | StartHandler(w: string)
    | LoseRace(w: string, storeErr: bool)
    | NoHandler(w: string, storeErr: bool)
    | HandlerReturn(w: string, ok: bool)
    | Record(w: string, storeErr: bool)
    | Abandon(w: string)
    | Beat(w: string)
    | StrayBeat(w: string, id: nat, epoch: nat)
    | Cancel(id: nat)
    | Reap(ttl: int)

  predicate Enabled(s: State, a: Action) {
    match a
    case Tick(_) => true
    case Enqueue(id, _, _, _, _) => id !in s.jobs
    case ClaimJob(w, id) =>
      w in s.slots && s.slots[w].Idle? && id in s.jobs && s.jobs[id].status.Queued? && id in s.hist
    case StartHandler(w) => w in s.slots && s.slots[w].Claimed? && s.slots[w].c.id in s.hist
    case LoseRace(w, _) => w in s.slots && s.slots[w].Claimed? && s.slots[w].c.id in s.hist
    case NoHandler(w, _) => w in s.slots && s.slots[w].Claimed? && s.slots[w].c.id in s.hist
    case HandlerReturn(w, _) => w in s.slots && s.slots[w].Handling?
    case Record(w, _) => w in s.slots && s.slots[w].Returned? && s.slots[w].c.id in s.hist
    case Abandon(w) => w in s.slots && !s.slots[w].Idle?
    case Beat(w) => w in s.slots && s.slots[w].Handling?
    case StrayBeat(w, _, _) => w in s.slots
    case Cancel(_) => true
    case Reap(_) => true
  }

  /** Whether the guarded write of slot `w` for claim `c` matches its row. */
  predicate Matches(s: State, w: string, c: Claim) {
    c.id in s.jobs && OwnedBy(s.jobs[c.id], w)
  }

  /** The terminal status `execute` announces for a returned run, if any. */
  function Announces(c: Claim, ok: bool): seq<Status> {
    Announced(ok, c.attempts, c.maxAttempts)
  }

  function NoHandlerError(s: State, w: string): string
    requires w in s.slots && !s.slots[w].Idle?
  {
    var id := s.slots[w].c.id;
    "no handler registered for kind " + if id in s.jobs then s.jobs[id].kind else ""
  }

  /** What an action writes to the table. */
  function JobsAfter(s: State, a: Action): Table
    requires Enabled(s, a)
  {
    match a
    case Enqueue(id, kind, owner, max, runAt) => s.jobs[id := NewRow(kind, owner, max, runAt)]
    case ClaimJob(w, id) => s.jobs[id := ClaimRow(s.jobs[id], w, s.now)]
    case LoseRace(w, storeErr) => if storeErr then s.jobs else RequeueIn(s.jobs, s.slots[w].c.id, w)
    case NoHandler(w, storeErr) =>
      if storeErr then s.jobs else FailIn(s.jobs, s.slots[w].c.id, w, s.now, NoHandlerError(s, w), None)
    case Record(w, storeErr) =>
      var Returned(c, ok) := s.slots[w];
      if storeErr then s.jobs else RecordIn(s.jobs, c.id, w, s.now, ok, c.attempts, c.maxAttempts, "handler error")
    case Beat(w) => BeatIn(s.jobs, s.slots[w].c.id, w, s.now)
    case StrayBeat(w, id, _) => BeatIn(s.jobs, id, w, s.now)
    case Cancel(id) => CancelIn(s.jobs, id, s.now)
    case Reap(ttl) => ReapTable(s.jobs, s.now, ttl)
    case _ => s.jobs
  }

  /** How an action moves the slots. */
  function SlotsAfter(s: State, a: Action): map<string, Slot>
    requires Enabled(s, a)
  {
    match a
    case ClaimJob(w, id) =>
      var r := s.jobs[id];
      s.slots[w := Claimed(Claim(id, s.hist[id].claims + 1, r.attempts + 1, r.maxAttempts, s.now))]
    case StartHandler(w) => s.slots[w := Handling(s.slots[w].c)]
    case HandlerReturn(w, ok) => s.slots[w := Returned(s.slots[w].c, ok)]
    case LoseRace(w, _) => s.slots[w := Idle]
    case NoHandler(w, _) => s.slots[w := Idle]
    case Record(w, _) => s.slots[w := Idle]
    case Abandon(w) => s.slots[w := Idle]
    case Beat(w) =>
      var c := s.slots[w].c;
      s.slots[w := Handling(if Matches(s, w, c) then c.(beat := s.now) else c)]
    case _ => s.slots
  }

  /** The bookkeeping.  `execute` announces a result after a write that matched its row, and
      also after one that errored; for a kind without a handler it announces in any case. */
  function HistAfter(s: State, a: Action): map<nat, Hist>
    requires Enabled(s, a)
  {
    match a
    case Enqueue(id, _, _, _, _) => s.hist[id := Hist(0, {}, {}, [])]
    case ClaimJob(_, id) => s.hist[id := s.hist[id].(claims := s.hist[id].claims + 1)]
    case StartHandler(w) =>
      var c := s.slots[w].c;
      s.hist[c.id := s.hist[c.id].(started := s.hist[c.id].started + {c.epoch})]
    case LoseRace(w, storeErr) =>
      var c := s.slots[w].c;
      if storeErr || !Matches(s, w, c) then s.hist
      else s.hist[c.id := s.hist[c.id].(refunded := s.hist[c.id].refunded + {c.epoch})]
    case NoHandler(w, _) =>
      var c := s.slots[w].c;
      s.hist[c.id := s.hist[c.id].(notified := s.hist[c.id].notified + [Failed])]
    case Record(w, storeErr) =>
      var Returned(c, ok) := s.slots[w];
      if !storeErr && !Matches(s, w, c) then s.hist
      else s.hist[c.id := s.hist[c.id].(notified := s.hist[c.id].notified + Announces(c, ok))]
    case _ => s.hist
  }

  function Apply(s: State, a: Action): State
    requires Enabled(s, a)
  {
    State(if a.Tick? then s.now + a.elapsed else s.now, JobsAfter(s, a), SlotsAfter(s, a), HistAfter(s, a))
  }

  /** An empty table and idle slots, none of them named by the empty string. */
  predicate Init(s: State) {
    && s.jobs == map[] && s.hist == map[]
    && "" !in s.slots
    && forall w :: w in s.slots ==> s.slots[w].Idle?
  }

  /** `acts` is a run from `s` to `t`. */
  predicate Run(s: State, acts: seq<Action>, t: State)
    decreases |acts|
  {
    if acts == [] then s == t
    else Enabled(s, acts[0]) && Run(Apply(s, acts[0]), acts[1..], t)
  }

  /** All an action can do to one row: nothing, a claim of a queued row, a guarded write of the
      acting slot, a heartbeat of the acting slot, an admin cancel, or a reap. */
  predicate RowStep(s: State, a: Action, id: nat, r: Row, r': Row) {
    || r' == r
    || (a.ClaimJob? && a.id == id && r.status.Queued? && r' == ClaimRow(r, a.w, s.now))
    || (IsWrite(a) && a.w in s.slots && !s.slots[a.w].Idle? && s.slots[a.w].c.id == id && OwnedBy(r, a.w)
        && !r'.status.Running?)
    || ((a.Beat? || a.StrayBeat?) && OwnedBy(r, a.w) && r' == BeatRow(r, s.now))
    || (a.Cancel? && r.status.Pending() && r' == CancelRow(r, s.now))
    || (a.Reap? && Stale(r, s.now, a.ttl) && r' == ReapRow(r, s.now))
  }

  /** A guarded write of a slot: Requeue, Complete or Fail. */
  predicate IsWrite(a: Action) { a.LoseRace? || a.Record? || a.NoHandler? }

  /** How one slot can move: the edges of the slot machine. */
  predicate SlotStep(a: Action, w: string, x: Slot, x': Slot) {
    || x' == x
    || (a.ClaimJob? && a.w == w && x.Idle? && x'.Claimed? && x'.c.id == a.id)
    || (a.StartHandler? && a.w == w && x.Claimed? && x' == Handling(x.c))
    || (a.HandlerReturn? && a.w == w && x.Handling? && x' == Returned(x.c, a.ok))
    || (a.Beat? && a.w == w && x.Handling? && x'.Handling? && x'.c.id == x.c.id && x'.c.epoch == x.c.epoch)
    || ((IsWrite(a) || a.Abandon?) && a.w == w && !x.Idle? && x'.Idle?)
  }

  lemma StepSlot(s: State, a: Action, w: string)
    requires Enabled(s, a)
    ensures w in Apply(s, a).slots <==> w in s.slots
    ensures w in s.slots ==> SlotStep(a, w, s.slots[w], Apply(s, a).slots[w])
  {}

  /** A row never changes its kind. */
  lemma StepKind(s: State, a: Action, id: nat)
    requires Enabled(s, a) && id in s.jobs
    ensures id in Apply(s, a).jobs && Apply(s, a).jobs[id].kind == s.jobs[id].kind
  {}

  lemma StepRow(s: State, a: Action, id: nat)
    requires Enabled(s, a) && id in s.jobs
    ensures id in Apply(s, a).jobs && RowStep(s, a, id, s.jobs[id], Apply(s, a).jobs[id])
  {}

  // ------------------------------------------------------------------------------------
  // The invariant
  // ------------------------------------------------------------------------------------

  /** Attempt accounting of one job. */
  ghost predicate Accounted(r: Row, h: Hist, now: int) {
    && r.attempts == h.claims - |h.refunded|
    && h.refunded !! h.started
    && (forall e :: e in h.refunded + h.started ==> 1 <= e <= h.claims)
    && r.maxAttempts >= 1
    && 0 <= r.attempts <= r.maxAttempts
    && (r.status.Queued? ==> r.attempts < r.maxAttempts)
    && (r.status.Running? ==> 1 <= r.attempts && r.heartbeatAt.Some? && r.heartbeatAt.value <= now)
  }

  /** What an occupied slot knows about the row it claimed. */
  ghost predicate Anchored(s: State, w: string, slot: Slot)
    requires !slot.Idle?
  {
    var c := slot.c;
    && c.id in s.jobs && c.id in s.hist
    && 1 <= c.epoch <= s.hist[c.id].claims
    && c.beat <= s.now
    && (OwnedBy(s.jobs[c.id], w) ==> c.epoch == s.hist[c.id].claims)
    && (s.jobs[c.id].status.Running? && c.epoch == s.hist[c.id].claims ==>
          && s.jobs[c.id].lockedBy == w
          && s.jobs[c.id].attempts == c.attempts && s.jobs[c.id].maxAttempts == c.maxAttempts)
    && (if slot.Claimed? then c.epoch !in s.hist[c.id].refunded + s.hist[c.id].started
        else c.epoch in s.hist[c.id].started)
  }

  /** Two slots never hold the same claim of the same job. */
  ghost predicate Apart(a: Slot, b: Slot) {
    a.Idle? || b.Idle? || a.c.id != b.c.id || a.c.epoch != b.c.epoch
  }

  ghost predicate Inv(s: State) {
    && s.jobs.Keys == s.hist.Keys
    && "" !in s.slots
    && (forall id :: id in s.jobs ==> Accounted(s.jobs[id], s.hist[id], s.now))
    && (forall w :: w in s.slots && !s.slots[w].Idle? ==> Anchored(s, w, s.slots[w]))
    && (forall v, w :: v in s.slots && w in s.slots && v != w ==> Apart(s.slots[v], s.slots[w]))
  }

  /** The invariant of `t`, a step of slot `w` away from `s`, follows slot by slot. */
  lemma Pointwise(s: State, w: string, t: State)
    requires Inv(s) && t.now == s.now && t.slots.Keys == s.slots.Keys && t.jobs.Keys == s.jobs.Keys == t.hist.Keys
    requires w in s.slots
    requires forall id :: id in s.jobs ==> Accounted(t.jobs[id], t.hist[id], t.now)
    requires forall v :: v in s.slots && v != w ==> t.slots[v] == s.slots[v]
    requires forall v :: v in s.slots && !t.slots[v].Idle? ==> Anchored(t, v, t.slots[v])
    requires forall v :: v in s.slots && v != w ==> Apart(t.slots[v], t.slots[w])
    ensures Inv(t)
  {
    forall v, u | v in t.slots && u in t.slots && v != u ensures Apart(t.slots[v], t.slots[u]) {
      if v == w { assert Apart(t.slots[u], t.slots[w]); }
      else if u == w { assert Apart(t.slots[v], t.slots[w]); }
      else { assert Apart(s.slots[v], s.slots[u]); }
    }
  }

  /** A slot gives its job up: its row is left alone, or, if still owned, leaves `running`. */
  lemma FreedSlot(s: State, w: string, t: State)
    requires Inv(s) && w in s.slots && !s.slots[w].Idle?
    requires t.now == s.now && t.slots == s.slots[w := Idle] && t.jobs.Keys == s.jobs.Keys == t.hist.Keys
    requires forall id :: id in s.jobs && id != s.slots[w].c.id ==> t.jobs[id] == s.jobs[id] && t.hist[id] == s.hist[id]
    requires var c := s.slots[w].c;
             && c.id in t.jobs && c.id in s.jobs
             && Accounted(t.jobs[c.id], t.hist[c.id], t.now)
             && (t.jobs[c.id] == s.jobs[c.id] || (OwnedBy(s.jobs[c.id], w) && !t.jobs[c.id].status.Running?))
             && t.hist[c.id].claims == s.hist[c.id].claims && t.hist[c.id].started == s.hist[c.id].started
             && t.hist[c.id].refunded <= s.hist[c.id].refunded + {c.epoch}
    ensures Inv(t)
  {
    forall v | v in s.slots && !t.slots[v].Idle? ensures Anchored(t, v, t.slots[v]) {
      assert Anchored(s, v, s.slots[v]);
      assert Apart(s.slots[v], s.slots[w]);
    }
    forall id | id in s.jobs ensures Accounted(t.jobs[id], t.hist[id], t.now) {
      assert Accounted(s.jobs[id], s.hist[id], s.now);
    }
    Pointwise(s, w, t);
  }

  lemma InvTick(s: State, d: nat)
    requires Inv(s) && Enabled(s, Tick(d))
    ensures Inv(Apply(s, Tick(d)))
  {}

  lemma InvEnqueue(s: State, id: nat, kind: string, owner: string, max: int, runAt: int)
    requires Inv(s) && Enabled(s, Enqueue(id, kind, owner, max, runAt))
    ensures Inv(Apply(s, Enqueue(id, kind, owner, max, runAt)))
  {}

  lemma InvClaimJob(s: State, w: string, id: nat)
    requires Inv(s) && Enabled(s, ClaimJob(w, id))
    ensures Inv(Apply(s, ClaimJob(w, id)))
  {
    Pointwise(s, w, Apply(s, ClaimJob(w, id)));
  }

  lemma InvStartHandler(s: State, w: string)
    requires Inv(s) && Enabled(s, StartHandler(w))
    ensures Inv(Apply(s, StartHandler(w)))
  {
    var t := Apply(s, StartHandler(w));
    forall v | v in s.slots && !t.slots[v].Idle? ensures Anchored(t, v, t.slots[v]) {
      assert Anchored(s, v, s.slots[v]) && Anchored(s, w, s.slots[w]);
      if v != w { assert Apart(s.slots[v], s.slots[w]); }
    }
    forall id | id in s.jobs ensures Accounted(t.jobs[id], t.hist[id], t.now) {
      assert Accounted(s.jobs[id], s.hist[id], s.now) && Anchored(s, w, s.slots[w]);
    }
    Pointwise(s, w, t);
  }

  /** The row and the books of a job that a slot requeues, if the write matches. */
  lemma RequeuedRow(s: State, w: string)
    requires Inv(s) && Enabled(s, LoseRace(w, false)) && Matches(s, w, s.slots[w].c)
    ensures var c, t := s.slots[w].c, Apply(s, LoseRace(w, false));
            && c.id in t.jobs && c.id in t.hist && !t.jobs[c.id].status.Running?
            && Accounted(t.jobs[c.id], t.hist[c.id], t.now)
  {
    assert Anchored(s, w, s.slots[w]);
    assert Accounted(s.jobs[s.slots[w].c.id], s.hist[s.slots[w].c.id], s.now);
  }

  lemma InvLoseRace(s: State, w: string, e: bool)
    requires Inv(s) && Enabled(s, LoseRace(w, e))
    ensures Inv(Apply(s, LoseRace(w, e)))
  {
    assert Anchored(s, w, s.slots[w]);
    if !e && Matches(s, w, s.slots[w].c) {
      RequeuedRow(s, w);
    } else {
      assert Apply(s, LoseRace(w, e)) == s.(slots := s.slots[w := Idle]);
      assert Accounted(s.jobs[s.slots[w].c.id], s.hist[s.slots[w].c.id], s.now);
    }
    FreedSlot(s, w, Apply(s, LoseRace(w, e)));
  }

  lemma InvNoHandler(s: State, w: string, e: bool)
    requires Inv(s) && Enabled(s, NoHandler(w, e))
    ensures Inv(Apply(s, NoHandler(w, e)))
  {
    assert Anchored(s, w, s.slots[w]);
    assert Accounted(s.jobs[s.slots[w].c.id], s.hist[s.slots[w].c.id], s.now);
    FreedSlot(s, w, Apply(s, NoHandler(w, e)));
  }

  lemma InvHandlerReturn(s: State, w: string, ok: bool)
    requires Inv(s) && Enabled(s, HandlerReturn(w, ok))
    ensures Inv(Apply(s, HandlerReturn(w, ok)))
  {}

  lemma InvRecord(s: State, w: string, e: bool)
    requires Inv(s) && Enabled(s, Record(w, e))
    ensures Inv(Apply(s, Record(w, e)))
  {
    assert Anchored(s, w, s.slots[w]);
    assert Accounted(s.jobs[s.slots[w].c.id], s.hist[s.slots[w].c.id], s.now);
    FreedSlot(s, w, Apply(s, Record(w, e)));
  }

  lemma InvAbandon(s: State, w: string)
    requires Inv(s) && Enabled(s, Abandon(w))
    ensures Inv(Apply(s, Abandon(w)))
  {}

  lemma InvBeat(s: State, w: string)
    requires Inv(s) && Enabled(s, Beat(w))
    ensures Inv(Apply(s, Beat(w)))
  {}

  lemma InvStrayBeat(s: State, w: string, id: nat, epoch: nat)
    requires Inv(s) && Enabled(s, StrayBeat(w, id, epoch))
    ensures Inv(Apply(s, StrayBeat(w, id, epoch)))
  {}

  lemma InvCancel(s: State, id: nat)
    requires Inv(s) && Enabled(s, Cancel(id))
    ensures Inv(Apply(s, Cancel(id)))
  {}

  lemma InvReap(s: State, ttl: int)
    requires Inv(s) && Enabled(s, Reap(ttl))
    ensures Inv(Apply(s, Reap(ttl)))
  {}

  /** Every action keeps the invariant. */
  lemma InvStep(s: State, a: Action)
    requires Inv(s) && Enabled(s, a)
    ensures Inv(Apply(s, a))
  {
    match a
    case Tick(d) => InvTick(s, d);
    case Enqueue(id, kind, owner, max, runAt) => InvEnqueue(s, id, kind, owner, max, runAt);
    case ClaimJob(w, id) => InvClaimJob(s, w, id);
    case StartHandler(w) => InvStartHandler(s, w);
    case LoseRace(w, e) => InvLoseRace(s, w, e);
    case NoHandler(w, e) => InvNoHandler(s, w, e);
    case HandlerReturn(w, ok) => InvHandlerReturn(s, w, ok);
    case Record(w, e) => InvRecord(s, w, e);
    case Abandon(w) => InvAbandon(s, w);
    case Beat(w) => InvBeat(s, w);
    case StrayBeat(w, id, e) => InvStrayBeat(s, w, id, e);
    case Cancel(id) => InvCancel(s, id);
    case Reap(ttl) => InvReap(s, ttl);
  }

  /** The invariant holds along every run. */
  lemma {:induction false} InvRun(s: State, acts: seq<Action>, t: State)
    requires Inv(s) && Run(s, acts, t)
    ensures Inv(t)
    decreases |acts|
  {
    if acts != [] {
      InvStep(s, acts[0]);
      InvRun(Apply(s, acts[0]), acts[1..], t);
    }
  }

  lemma InvInit(s: State)
    requires Init(s)
    ensures Inv(s)
  {}

  /** So it holds in every reachable state. */
  lemma InvReachable(s: State, acts: seq<Action>, t: State)
    requires Init(s) && Run(s, acts, t)
    ensures Inv(t)
  {
    InvInit(s);
    InvRun(s, acts, t);
  }

  /** Runs can be extended at the end. */
  lemma {:induction false} RunExtend(s: State, acts: seq<Action>, t: State, a: Action)
    requires Run(s, acts, t) && Enabled(t, a)
    ensures Run(s, acts + [a], Apply(t, a))
    decreases |acts|
  {
    if acts != [] {
      RunExtend(Apply(s, acts[0]), acts[1..], t, a);
      assert (acts + [a])[1..] == acts[1..] + [a];
    } else {
      assert Run(Apply(t, a), [a][1..], Apply(t, a));
    }
  }

  lemma {:induction false} RunSplit(s: State, acts: seq<Action>, t: State, n: nat) returns (u: State)
    requires Run(s, acts, t) && n <= |acts|
    ensures Run(s, acts[..n], u) && Run(u, acts[n..], t)
    decreases n
  {
    if n == 0 {
      u := s;
    } else {
      u := RunSplit(Apply(s, acts[0]), acts[1..], t, n - 1);
      assert acts[..n][1..] == acts[1..][..n - 1] && acts[n..] == acts[1..][n - 1..];
    }
  }
}
