/** Drain mode: one process with several drain loops and the in-process limiter is the only
    claimer (internal/jobs/local.go Drain, drainLoop and runJob).

    Each slot reads the saturated kinds, claims the oldest due job of another kind, tries to
    acquire a concurrency slot for it, runs or requeues it (or fails it for good, if its kind has
    no handler), and starts over; it exits the first time it finds nothing to claim.  The
    saturated-kinds list is stale by the time of the claim.  Ticks, heartbeats, enqueues, admin
    cancels and reapers happen at any moment.  The limiter is the set of unreleased acquisitions,
    which `Limiter.MemLimiter` refines.  Store errors and a cancelled process context are left
    out. */
module Drain {
  import opened Rows
  import opened Protocol
  import L = Limiter

  /** The slots of the process, the cap of each limited kind, and the static kind filter. */
  datatype Config = Config(ws: seq<string>, cap: map<string, int>, only: seq<string>, skip: seq<string>)

  datatype Pc =
    | Top
    | Read(full: seq<string>)
    | Busy
    | Lost
    | Freeing
    | Exited

  /** Counts per slot; `seen` is what the others had acquired when the slot last read the
      saturated kinds. */
  datatype Tally = Tally(claims: nat, acquired: nat, lost: nat, refunds: nat, seen: nat, steps: nat)

  /** `held` is the kind each slot has acquired and not released; `retried` are the jobs that
      went back to the queue from running other than by a lost slot race. */
  datatype System = System(q: State, pc: map<string, Pc>, held: map<string, string>, tally: map<string, Tally>,
      retried: set<nat>)

  datatype Move =
    | Env(a: Action)
    | ReadFull(w: string, full: seq<string>)
    | Claim(w: string, id: nat)
    | FindNone(w: string)
    | TryAcquire(w: string, handled: bool)
    | Requeue(w: string)
    | Return(w: string, ok: bool)
    | Record(w: string)
    | SkipRecord(w: string)
    | Release(w: string)

  function Holding(held: map<string, string>, kind: string): set<string> {
    set w | w in held && held[w] == kind
  }

  predicate AtCap(cfg: Config, d: System, kind: string) {
    L.Refused(|Holding(d.held, kind)|, CapOf(cfg.cap, kind))
  }

  function KindOf(q: State, w: string): string {
    if w in q.slots && !q.slots[w].Idle? && q.slots[w].c.id in q.jobs then q.jobs[q.slots[w].c.id].kind else ""
  }

  predicate Environment(a: Action) {
    a.Tick? || a.Enqueue? || a.Cancel? || a.Reap? || a.Beat? || a.StrayBeat?
  }

  /** The queue action a move performs, if any. */
  function ActionOf(cfg: Config, d: System, m: Move): Option<Action> {
    match m
    case Env(a) => Some(a)
    case Claim(w, id) => Some(ClaimJob(w, id))
    case TryAcquire(w, handled) =>
      if AtCap(cfg, d, KindOf(d.q, w)) then None else Some(if handled then StartHandler(w) else NoHandler(w, false))
    case Requeue(w) => Some(LoseRace(w, false))
    case Return(w, ok) => Some(HandlerReturn(w, ok))
    case Record(w) => Some(Action.Record(w, false))
    case SkipRecord(w) => Some(Abandon(w))
    case _ => None
  }

  /** What a move asks of the slot machine itself. */
  ghost predicate Guard(cfg: Config, d: System, m: Move) {
    && (m.Env? ==> Environment(m.a))
    && (!m.Env? ==> m.w in d.pc && m.w in d.tally && m.w in d.q.slots)
    && match m
       case Env(_) => true
       case ReadFull(w, full) => d.pc[w].Top? && forall k :: k in full <==> AtCap(cfg, d, k)
       case Claim(w, id) => d.pc[w].Read? && OldestClaimable(d.q.jobs, id, d.q.now, cfg.only, cfg.skip + d.pc[w].full)
       case FindNone(w) =>
         && d.pc[w].Read?
         && forall id :: !Claimable(d.q.jobs, id, d.q.now, cfg.only, cfg.skip + d.pc[w].full)
       case TryAcquire(w, _) => d.pc[w].Busy? && d.q.slots[w].Claimed?
       case Requeue(w) => d.pc[w].Lost?
       case Return(w, _) => d.pc[w].Busy? && d.q.slots[w].Handling?
       case Record(w) => d.pc[w].Busy? && d.q.slots[w].Returned?
       // the handler was interrupted by an admin cancel, which stamps the row first
       case SkipRecord(w) => d.pc[w].Busy? && d.q.slots[w].Returned? && !Matches(d.q, w, d.q.slots[w].c)
       case Release(w) => d.pc[w].Freeing?
  }

  ghost predicate Possible(cfg: Config, d: System, m: Move) {
    && (ActionOf(cfg, d, m).Some? ==> Enabled(d.q, ActionOf(cfg, d, m).value))
    && Guard(cfg, d, m)
  }

  function QueueAfter(cfg: Config, d: System, m: Move): State
    requires ActionOf(cfg, d, m).Some? ==> Enabled(d.q, ActionOf(cfg, d, m).value)
  {
    if ActionOf(cfg, d, m).Some? then Apply(d.q, ActionOf(cfg, d, m).value) else d.q
  }

  function PcAfter(cfg: Config, d: System, m: Move): map<string, Pc> {
    match m
    case Env(_) => d.pc
    case ReadFull(w, full) => d.pc[w := Read(full)]
    case Claim(w, _) => d.pc[w := Busy]
    case FindNone(w) => d.pc[w := Exited]
    case TryAcquire(w, handled) =>
      if AtCap(cfg, d, KindOf(d.q, w)) then d.pc[w := Lost] else if handled then d.pc else d.pc[w := Freeing]
    case Requeue(w) => d.pc[w := Top]
    case Return(_, _) => d.pc
    case Record(w) => d.pc[w := Freeing]
    case SkipRecord(w) => d.pc[w := Freeing]
    case Release(w) => d.pc[w := Top]
  }

  function HeldAfter(cfg: Config, d: System, m: Move): map<string, string> {
    match m
    case TryAcquire(w, _) =>
      if CapOf(cfg.cap, KindOf(d.q, w)) > 0 && !AtCap(cfg, d, KindOf(d.q, w)) then d.held[w := KindOf(d.q, w)]
      else d.held
    case Release(w) => d.held - {w}
    case _ => d.held
  }

  /** The sum of one part of the tallies over the slots. */
  function Sum(ws: seq<string>, f: map<string, Tally>, part: Tally -> int): int {
    if ws == [] then 0 else (if ws[0] in f then part(f[ws[0]]) else 0) + Sum(ws[1..], f, part)
  }

  function AcquiredOf(t: Tally): int { t.acquired }

  /** What every slot but `w` has acquired so far. */
  function OthersAcquired(cfg: Config, d: System, w: string): int {
    Sum(cfg.ws, d.tally, AcquiredOf) - (if w in d.tally then d.tally[w].acquired else 0)
  }

  function TallyAfter(cfg: Config, d: System, m: Move): map<string, Tally>
    requires !m.Env? ==> m.w in d.tally
  {
    if m.Env? then d.tally else
      var t := d.tally[m.w].(steps := d.tally[m.w].steps + 1);
      d.tally[m.w :=
        match m
        case ReadFull(w, _) => var n := OthersAcquired(cfg, d, w); t.(seen := if n < 0 then 0 else n)
        case Claim(_, _) => t.(claims := t.claims + 1)
        case TryAcquire(w, _) =>
          if AtCap(cfg, d, KindOf(d.q, w)) then t.(lost := t.lost + 1)
          else if CapOf(cfg.cap, KindOf(d.q, w)) > 0 then t.(acquired := t.acquired + 1)
          else t
        case Requeue(w) =>
          if w in d.q.slots && !d.q.slots[w].Idle? && Matches(d.q, w, d.q.slots[w].c) then t.(refunds := t.refunds + 1)
          else t
        case _ => t]
  }

  function RetriedAfter(cfg: Config, d: System, m: Move): set<nat>
    requires ActionOf(cfg, d, m).Some? ==> Enabled(d.q, ActionOf(cfg, d, m).value)
  {
    if m.Requeue? then d.retried
    else d.retried + set id | id in d.q.jobs && d.q.jobs[id].status.Running?
                              && id in QueueAfter(cfg, d, m).jobs && QueueAfter(cfg, d, m).jobs[id].status.Queued?
  }

  function Do(cfg: Config, d: System, m: Move): System
    requires ActionOf(cfg, d, m).Some? ==> Enabled(d.q, ActionOf(cfg, d, m).value)
    requires !m.Env? ==> m.w in d.tally
  {
    System(QueueAfter(cfg, d, m), PcAfter(cfg, d, m), HeldAfter(cfg, d, m), TallyAfter(cfg, d, m),
           RetriedAfter(cfg, d, m))
  }

  /** Drain begins over any reachable queue, all its slots idle at the top of their loop. */
  ghost predicate Start(cfg: Config, d: System) {
    && Inv(d.q)
    && cfg.ws != [] && (forall i, j :: 0 <= i < j < |cfg.ws| ==> cfg.ws[i] != cfg.ws[j])
    && (forall w :: w in d.q.slots <==> w in cfg.ws)
    && d.pc.Keys == d.tally.Keys == d.q.slots.Keys
    && (forall w :: w in d.q.slots ==> d.q.slots[w].Idle? && d.pc[w].Top? && d.tally[w] == Tally(0, 0, 0, 0, 0, 0))
    && d.held == map[] && d.retried == {}
  }

  ghost predicate Moves(cfg: Config, d: System, ms: seq<Move>, e: System)
    decreases |ms|
  {
    if ms == [] then d == e else Possible(cfg, d, ms[0]) && Moves(cfg, Do(cfg, d, ms[0]), ms[1..], e)
  }

  // ---- how slots, program counters and acquisitions fit together ----

  predicate SlotOk(pc: Pc, slot: Slot, holds: bool) {
    match pc
    case Top => slot.Idle? && !holds
    case Read(_) => slot.Idle? && !holds
    case Busy => !slot.Idle? && (slot.Claimed? ==> !holds)
    case Lost => slot.Claimed? && !holds
    case Freeing => slot.Idle?
    case Exited => slot.Idle? && !holds
  }

  ghost predicate Fits(cfg: Config, d: System) {
    && Inv(d.q)
    && d.pc.Keys == d.tally.Keys == d.q.slots.Keys
    && d.held.Keys <= d.pc.Keys
    && (forall w :: w in d.q.slots <==> w in cfg.ws)
    && forall w :: w in d.pc ==> SlotOk(d.pc[w], d.q.slots[w], w in d.held)
  }

  /** What a move does to one slot of the queue machine. */
  predicate Effect(m: Move, w: string, x: Slot, x': Slot) {
    if m.Env? || m.w != w then x' == x || (x.Handling? && x'.Handling?)
    else
      match m
      case Claim(_, _) => x'.Claimed?
      case TryAcquire(_, handled) => x' == x || if handled then x'.Handling? else x'.Idle?
      case Requeue(_) => x'.Idle?
      case Return(_, _) => x'.Returned?
      case Record(_) => x'.Idle?
      case SkipRecord(_) => x'.Idle?
      case _ => x' == x
  }

  lemma SlotEffect(cfg: Config, d: System, m: Move, w: string)
    requires Possible(cfg, d, m) && w in d.q.slots
    ensures w in QueueAfter(cfg, d, m).slots && Effect(m, w, d.q.slots[w], QueueAfter(cfg, d, m).slots[w])
  {
    if ActionOf(cfg, d, m).Some? {
      StepSlot(d.q, ActionOf(cfg, d, m).value, w);
    }
  }

  lemma SlotFits(cfg: Config, d: System, m: Move, w: string, x': Slot)
    requires Guard(cfg, d, m) && w in d.pc && w in d.q.slots && SlotOk(d.pc[w], d.q.slots[w], w in d.held)
    requires Effect(m, w, d.q.slots[w], x')
    requires m.TryAcquire? && m.w == w ==> (AtCap(cfg, d, KindOf(d.q, w)) <==> x' == d.q.slots[w])
    ensures w in PcAfter(cfg, d, m) && SlotOk(PcAfter(cfg, d, m)[w], x', w in HeldAfter(cfg, d, m))
  {
  }

  lemma AcquireEffect(cfg: Config, d: System, m: Move)
    requires Possible(cfg, d, m) && m.TryAcquire?
    ensures m.w in QueueAfter(cfg, d, m).slots
    ensures AtCap(cfg, d, KindOf(d.q, m.w)) <==> QueueAfter(cfg, d, m).slots[m.w] == d.q.slots[m.w]
  {
  }

  lemma KeysKept(cfg: Config, d: System, m: Move)
    requires Possible(cfg, d, m) && d.pc.Keys == d.tally.Keys == d.q.slots.Keys && d.held.Keys <= d.pc.Keys
    ensures QueueAfter(cfg, d, m).slots.Keys == d.q.slots.Keys
    ensures PcAfter(cfg, d, m).Keys == d.pc.Keys == TallyAfter(cfg, d, m).Keys
    ensures HeldAfter(cfg, d, m).Keys <= d.pc.Keys
  {
    forall w ensures w in QueueAfter(cfg, d, m).slots <==> w in d.q.slots {
      if ActionOf(cfg, d, m).Some? { StepSlot(d.q, ActionOf(cfg, d, m).value, w); }
    }
  }

  lemma FitsStep(cfg: Config, d: System, m: Move)
    requires Fits(cfg, d) && Possible(cfg, d, m)
    ensures Fits(cfg, Do(cfg, d, m))
  {
    if ActionOf(cfg, d, m).Some? {
      InvStep(d.q, ActionOf(cfg, d, m).value);
    }
    KeysKept(cfg, d, m);
    if m.TryAcquire? { AcquireEffect(cfg, d, m); }
    forall w | w in d.pc
      ensures SlotOk(PcAfter(cfg, d, m)[w], QueueAfter(cfg, d, m).slots[w], w in HeldAfter(cfg, d, m))
    {
      SlotEffect(cfg, d, m, w);
      SlotFits(cfg, d, m, w, QueueAfter(cfg, d, m).slots[w]);
    }
  }
}
