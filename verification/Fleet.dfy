/** The fleet-wide cap: the queue of `Protocol` with the shared sorted-set limiter in front.

    A claimed slot of a limited kind first acquires a member of the kind's sorted set.  It then
    runs its job (or finds no handler for it), re-stamping the member, and releases it after the
    result is written; the refresher is stopped and awaited before the release
    (internal/jobs/local.go startSlotRefresh and runJob).  When the limiter does not answer, the
    job runs unthrottled.  Time is in milliseconds, stamps are in whole seconds. */
module Fleet {
  import opened Basics
  import opened Rows
  import opened Decimal
  import opened Protocol
  import opened Limiter

  /** Constant caps per kind, the slot TTL, and which pod each slot belongs to. */
  datatype Config = Config(cap: map<string, int>, ttl: int, pod: map<string, string>)

  /** An outstanding acquisition and the time at which it was last stamped. */
  datatype Hold = Hold(kind: string, holder: string, at: int)

  /** `loose` are the slots whose acquisition for the job at hand got no answer. */
  datatype System = System(q: State, sets: map<string, ZSet>, holds: map<string, Hold>, loose: set<string>)

  /** The member name: pod and job id. */
  function Holder(cfg: Config, w: string, id: nat): string {
    (if w in cfg.pod then cfg.pod[w] else "") + ":" + Digits(id)
  }

  /** An acquisition without an answer may have `landed` all the same.  A refresh or a reading of
      the saturated kinds that fails is none; a release that fails is a `Crash` of its slot. */
  datatype Move =
    | Queue(a: Action)
    | Acquire(w: string)
    | AcquireError(w: string, landed: bool)
    | Refresh(w: string)
    | ReadExcluded
    | Release(w: string)
    | Crash(w: string)

  function KindOf(f: System, slot: Slot): string {
    if !slot.Idle? && slot.c.id in f.q.jobs then f.q.jobs[slot.c.id].kind else ""
  }

  predicate Limited(cfg: Config, f: System, w: string) {
    w in f.q.slots && CapOf(cfg.cap, KindOf(f, f.q.slots[w])) > 0
  }

  /** Queue actions that runJob orders around the limiter: `execute` of a limited kind comes after
      the acquisition, a requeue instead of it, and the next claim after the release. */
  predicate Ordered(cfg: Config, f: System, a: Action) {
    && ((a.StartHandler? || a.NoHandler?) && Limited(cfg, f, a.w) ==> a.w in f.holds || a.w in f.loose)
    && (a.LoseRace? ==> a.w !in f.holds && a.w !in f.loose)
    && (a.ClaimJob? ==> a.w !in f.holds)
  }

  predicate MayAcquire(cfg: Config, f: System, w: string) {
    Limited(cfg, f, w) && f.q.slots[w].Claimed? && w !in f.holds && w !in f.loose
  }

  predicate Possible(cfg: Config, f: System, m: Move) {
    match m
    case Queue(a) => Enabled(f.q, a) && Ordered(cfg, f, a)
    case Acquire(w) => MayAcquire(cfg, f, w)
    case AcquireError(w, _) => MayAcquire(cfg, f, w)
    case Refresh(w) => w in f.holds
    case ReadExcluded => true
    case Release(w) => w in f.holds && w in f.q.slots && f.q.slots[w].Idle?
    // a process can also die between recording its result and releasing
    case Crash(w) => Enabled(f.q, Abandon(w)) || w in f.holds
  }

  /** The member a slot acquires under. */
  function HolderOf(cfg: Config, f: System, w: string): string {
    if w in f.q.slots && !f.q.slots[w].Idle? then Holder(cfg, w, f.q.slots[w].c.id) else ""
  }

  function Do(cfg: Config, f: System, m: Move): System
    requires Possible(cfg, f, m)
  {
    match m
    case Queue(a) => f.(q := Apply(f.q, a), loose := if a.ClaimJob? then f.loose - {a.w} else f.loose)
    case AcquireError(w, landed) =>
      var kind, holder := KindOf(f, f.q.slots[w]), HolderOf(cfg, f, w);
      var z := Reserve(SetOf(f.sets, kind), f.q.now, cfg.ttl, CapOf(cfg.cap, kind), holder).0;
      f.(sets := if landed then f.sets[kind := z] else f.sets, loose := f.loose + {w})
    case Acquire(w) =>
      var kind, holder := KindOf(f, f.q.slots[w]), HolderOf(cfg, f, w);
      var (z, ok) := Reserve(SetOf(f.sets, kind), f.q.now, cfg.ttl, CapOf(cfg.cap, kind), holder);
      f.(sets := f.sets[kind := z], holds := if ok then f.holds[w := Hold(kind, holder, f.q.now)] else f.holds)
    case Refresh(w) =>
      var h := f.holds[w];
      f.(sets := f.sets[h.kind := Restamp(SetOf(f.sets, h.kind), f.q.now, h.holder)],
         holds := if h.holder in SetOf(f.sets, h.kind) then f.holds[w := h.(at := f.q.now)] else f.holds)
    case ReadExcluded => f.(sets := map k | k in f.sets :: Prune(f.sets[k], Cutoff(f.q.now, cfg.ttl)))
    case Release(w) =>
      var h := f.holds[w];
      f.(sets := f.sets[h.kind := SetOf(f.sets, h.kind) - {h.holder}], holds := f.holds - {w})
    case Crash(w) =>
      f.(q := if Enabled(f.q, Abandon(w)) then Apply(f.q, Abandon(w)) else f.q, holds := f.holds - {w})
  }

  predicate Start(f: System) { Init(f.q) && f.sets == map[] && f.holds == map[] && f.loose == {} }

  /** `ms` is a run from `f` to `g`. */
  predicate Moves(cfg: Config, f: System, ms: seq<Move>, g: System)
    decreases |ms|
  {
    if ms == [] then f == g else Possible(cfg, f, ms[0]) && Moves(cfg, Do(cfg, f, ms[0]), ms[1..], g)
  }

  // ---- what the cap of one kind presumes ----

  /** A hold that pruning at this instant spares. */
  predicate Spared(cfg: Config, f: System, h: Hold) { Stamp(h.at) > Cutoff(f.q.now, cfg.ttl) }

  /** No outstanding hold of the kind is old enough to be pruned. */
  predicate Fresh(cfg: Config, f: System, kind: string) {
    forall w :: w in f.holds && f.holds[w].kind == kind ==> Spared(cfg, f, f.holds[w])
  }

  /** An acquisition is admitted if pruning leaves room in the set of its kind. */
  predicate Room(cfg: Config, f: System, w: string)
    requires w in f.q.slots
  {
    var kind := KindOf(f, f.q.slots[w]);
    |Prune(SetOf(f.sets, kind), Cutoff(f.q.now, cfg.ttl))| < CapOf(cfg.cap, kind)
  }

  /** No outstanding hold of the kind bears the name. */
  predicate Unused(f: System, kind: string, holder: string) {
    forall v :: v in f.holds && f.holds[v].kind == kind ==> f.holds[v].holder != holder
  }

  /** The acquisition script runs. */
  predicate Reserves(m: Move) { m.Acquire? || (m.AcquireError? && m.landed) }

  /** An acquisition of the kind that is admitted does not use a member name that is still
      outstanding. */
  predicate Distinct(cfg: Config, f: System, m: Move, kind: string) {
    Reserves(m) && m.w in f.q.slots && KindOf(f, f.q.slots[m.w]) == kind && Room(cfg, f, m.w) ==>
      Unused(f, kind, HolderOf(cfg, f, m.w))
  }

  /** Every outstanding hold of the kind was stamped at most `gap` ago. */
  predicate Recent(f: System, kind: string, gap: int) {
    forall w :: w in f.holds && f.holds[w].kind == kind ==> f.q.now - f.holds[w].at <= gap
  }

  predicate AllFresh(cfg: Config, f: System, ms: seq<Move>, kind: string)
    decreases |ms|
  {
    && Fresh(cfg, f, kind)
    && (ms != [] && Possible(cfg, f, ms[0]) ==> AllFresh(cfg, Do(cfg, f, ms[0]), ms[1..], kind))
  }

  predicate AllDistinct(cfg: Config, f: System, ms: seq<Move>, kind: string)
    decreases |ms|
  {
    ms != [] && Possible(cfg, f, ms[0]) ==>
      Distinct(cfg, f, ms[0], kind) && AllDistinct(cfg, Do(cfg, f, ms[0]), ms[1..], kind)
  }

  /** Names that meet matter only at a cap above one. */
  predicate NamesOk(cfg: Config, f: System, ms: seq<Move>, kind: string) {
    CapOf(cfg.cap, kind) > 1 ==> AllDistinct(cfg, f, ms, kind)
  }

  predicate AllRecent(cfg: Config, f: System, ms: seq<Move>, kind: string, gap: int)
    decreases |ms|
  {
    && Recent(f, kind, gap)
    && (ms != [] && Possible(cfg, f, ms[0]) ==> AllRecent(cfg, Do(cfg, f, ms[0]), ms[1..], kind, gap))
  }

  /** A gap between stamps is short enough, whenever the stamp falls within its second, exactly
      when it leaves a whole second of the TTL. */
  lemma GapSparesExactly(gap: int, ttl: int)
    ensures (forall at, now {:trigger Stamp(at), Cutoff(now, ttl)} :: now - at <= gap ==> Stamp(at) > Cutoff(now, ttl))
            <==> gap <= ttl - SECOND
  {
    if gap > ttl - SECOND {
      var at := 999;
      assert Stamp(at) == 0 && Cutoff(at + gap, ttl) >= 0;
    }
  }

  lemma {:induction false} RecentIsFresh(cfg: Config, f: System, ms: seq<Move>, kind: string, gap: int)
    requires gap <= cfg.ttl - SECOND && AllRecent(cfg, f, ms, kind, gap)
    ensures AllFresh(cfg, f, ms, kind)
    decreases |ms|
  {
    GapSparesExactly(gap, cfg.ttl);
    if ms != [] && Possible(cfg, f, ms[0]) { RecentIsFresh(cfg, Do(cfg, f, ms[0]), ms[1..], kind, gap); }
  }

  // ---- what every run keeps ----

  predicate Running(slot: Slot) { slot.Handling? || slot.Returned? }

  /** A hold is of a limited kind, and while its slot is at work it is for that slot's job. */
  ghost predicate HoldTied(cfg: Config, f: System, w: string, h: Hold) {
    && CapOf(cfg.cap, h.kind) > 0
    && (w in f.q.slots && !f.q.slots[w].Idle? ==>
          h.kind == KindOf(f, f.q.slots[w]) && h.holder == HolderOf(cfg, f, w))
  }

  /** A slot running a limited kind has an outstanding hold, unless the limiter did not answer. */
  ghost predicate RunnerHolds(cfg: Config, f: System, w: string) {
    Limited(cfg, f, w) && Running(f.q.slots[w]) ==> w in f.holds || w in f.loose
  }

  ghost predicate WithinCaps(cfg: Config, sets: map<string, ZSet>) {
    forall kind :: CapOf(cfg.cap, kind) > 0 ==> |SetOf(sets, kind)| <= CapOf(cfg.cap, kind)
  }

  ghost predicate Tied(cfg: Config, f: System) {
    && Inv(f.q)
    && WithinCaps(cfg, f.sets)
    && (forall w :: w in f.holds ==> HoldTied(cfg, f, w, f.holds[w]))
    && (forall w :: RunnerHolds(cfg, f, w))
  }

  lemma PruneSmaller(z: ZSet, cutoff: int)
    ensures |Prune(z, cutoff)| <= |z|
  {
    assert Prune(z, cutoff).Keys <= z.Keys;
    SubsetCard(Prune(z, cutoff).Keys, z.Keys);
  }

  lemma ReserveWithin(z: ZSet, now: int, ttl: int, max: int, holder: string)
    requires |z| <= max
    ensures |Reserve(z, now, ttl, max, holder).0| <= max
  {
    PruneSmaller(z, Cutoff(now, ttl));
    var live := Prune(z, Cutoff(now, ttl));
    assert |live[holder := Stamp(now)]| <= |live| + 1;
  }

  lemma MoveWithin(cfg: Config, f: System, m: Move, kind: string)
    requires WithinCaps(cfg, f.sets) && Possible(cfg, f, m) && CapOf(cfg.cap, kind) > 0
    ensures |SetOf(Do(cfg, f, m).sets, kind)| <= CapOf(cfg.cap, kind)
  {
    var z := SetOf(f.sets, kind);
    match m
    case Acquire(w) => ReserveWithin(z, f.q.now, cfg.ttl, CapOf(cfg.cap, kind), HolderOf(cfg, f, w));
    case AcquireError(w, _) => ReserveWithin(z, f.q.now, cfg.ttl, CapOf(cfg.cap, kind), HolderOf(cfg, f, w));
    case Refresh(w) => assert Restamp(z, f.q.now, f.holds[w].holder).Keys == z.Keys;
    case ReadExcluded => PruneSmaller(z, Cutoff(f.q.now, cfg.ttl));
    case Release(w) => SubsetCard((z - {f.holds[w].holder}).Keys, z.Keys);
    case _ =>
  }

  /** A queue action leaves an occupied slot with the kind of job it had. */
  lemma QueueKind(f: System, a: Action, w: string)
    requires Inv(f.q) && Enabled(f.q, a) && w in f.q.slots && !f.q.slots[w].Idle?
    requires w in Apply(f.q, a).slots && !Apply(f.q, a).slots[w].Idle?
    ensures Apply(f.q, a).slots[w].c.id == f.q.slots[w].c.id
    ensures KindOf(f.(q := Apply(f.q, a)), Apply(f.q, a).slots[w]) == KindOf(f, f.q.slots[w])
  {
    assert Anchored(f.q, w, f.q.slots[w]);
    StepSlot(f.q, a, w);
    StepKind(f.q, a, f.q.slots[w].c.id);
  }

  lemma QueueKeepsHold(cfg: Config, f: System, a: Action, w: string)
    requires Inv(f.q) && Possible(cfg, f, Queue(a)) && w in f.holds && HoldTied(cfg, f, w, f.holds[w])
    ensures HoldTied(cfg, Do(cfg, f, Queue(a)), w, f.holds[w])
  {
    var q' := Apply(f.q, a);
    StepSlot(f.q, a, w);
    if w in q'.slots && !q'.slots[w].Idle? { QueueKind(f, a, w); }
  }

  lemma QueueKeepsRunner(cfg: Config, f: System, a: Action, w: string)
    requires Inv(f.q) && Possible(cfg, f, Queue(a)) && RunnerHolds(cfg, f, w)
    ensures RunnerHolds(cfg, Do(cfg, f, Queue(a)), w)
  {
    StepSlot(f.q, a, w);
    if w in Apply(f.q, a).slots && Running(Apply(f.q, a).slots[w]) { QueueKind(f, a, w); }
  }

  lemma QueueTied(cfg: Config, f: System, a: Action)
    requires Tied(cfg, f) && Possible(cfg, f, Queue(a))
    ensures Tied(cfg, Do(cfg, f, Queue(a)))
  {
    InvStep(f.q, a);
    var g := Do(cfg, f, Queue(a));
    forall w | w in g.holds ensures HoldTied(cfg, g, w, g.holds[w]) { QueueKeepsHold(cfg, f, a, w); }
    forall w ensures RunnerHolds(cfg, g, w) { QueueKeepsRunner(cfg, f, a, w); }
  }

  /** A hold may be forgotten once its slot is not running. */
  lemma DropTied(cfg: Config, f: System, w: string)
    requires Tied(cfg, f) && (w in f.q.slots ==> f.q.slots[w].Idle?)
    ensures Tied(cfg, f.(holds := f.holds - {w}))
  {
    var g := f.(holds := f.holds - {w});
    forall v | v in g.holds ensures HoldTied(cfg, g, v, g.holds[v]) { assert HoldTied(cfg, f, v, f.holds[v]); }
    forall v ensures RunnerHolds(cfg, g, v) { assert RunnerHolds(cfg, f, v); }
  }

  lemma CrashTied(cfg: Config, f: System, w: string)
    requires Tied(cfg, f) && Possible(cfg, f, Crash(w))
    ensures Tied(cfg, Do(cfg, f, Crash(w)))
  {
    if Enabled(f.q, Abandon(w)) {
      QueueTied(cfg, f, Abandon(w));
      DropTied(cfg, Do(cfg, f, Queue(Abandon(w))), w);
    } else {
      DropTied(cfg, f, w);
    }
  }

  lemma LimiterKeepsHold(cfg: Config, f: System, m: Move, w: string)
    requires Possible(cfg, f, m) && !m.Queue? && !m.Crash? && w in Do(cfg, f, m).holds
    requires w in f.holds ==> HoldTied(cfg, f, w, f.holds[w])
    ensures HoldTied(cfg, Do(cfg, f, m), w, Do(cfg, f, m).holds[w])
  {}

  lemma LimiterKeepsRunner(cfg: Config, f: System, m: Move, w: string)
    requires Possible(cfg, f, m) && !m.Queue? && !m.Crash? && RunnerHolds(cfg, f, w)
    ensures RunnerHolds(cfg, Do(cfg, f, m), w)
  {}

  lemma LimiterTied(cfg: Config, f: System, m: Move)
    requires Tied(cfg, f) && Possible(cfg, f, m) && !m.Queue? && !m.Crash?
    ensures Tied(cfg, Do(cfg, f, m))
  {
    var g := Do(cfg, f, m);
    forall w | w in g.holds ensures HoldTied(cfg, g, w, g.holds[w]) { LimiterKeepsHold(cfg, f, m, w); }
    forall w ensures RunnerHolds(cfg, g, w) { LimiterKeepsRunner(cfg, f, m, w); }
    forall kind | CapOf(cfg.cap, kind) > 0 ensures |SetOf(g.sets, kind)| <= CapOf(cfg.cap, kind) {
      MoveWithin(cfg, f, m, kind);
    }
  }

  /** No presumption is needed for this part: sets stay within their caps, runners hold, and holds
      belong to their slots' jobs. */
  lemma TiedStep(cfg: Config, f: System, m: Move)
    requires Tied(cfg, f) && Possible(cfg, f, m)
    ensures Tied(cfg, Do(cfg, f, m))
  {
    match m
    case Queue(a) => QueueTied(cfg, f, a);
    case Crash(w) => CrashTied(cfg, f, w);
    case _ => LimiterTied(cfg, f, m);
  }

  lemma {:induction false} TiedRun(cfg: Config, f: System, ms: seq<Move>, g: System)
    requires Tied(cfg, f) && Moves(cfg, f, ms, g)
    ensures Tied(cfg, g)
    decreases |ms|
  {
    if ms != [] {
      TiedStep(cfg, f, ms[0]);
      TiedRun(cfg, Do(cfg, f, ms[0]), ms[1..], g);
    }
  }

  // ---- what fresh stamps and distinct names keep ----

  /** The member that a hold stands for, with its stamp. */
  ghost predicate Stands(f: System, h: Hold) {
    h.holder in SetOf(f.sets, h.kind) && SetOf(f.sets, h.kind)[h.holder] == Stamp(h.at)
  }

  ghost predicate NamesDiffer(f: System, kind: string) {
    forall v, w :: v in f.holds && w in f.holds && v != w && f.holds[v].kind == kind && f.holds[w].kind == kind ==>
      f.holds[v].holder != f.holds[w].holder
  }

  /** The holds of the kind stand for distinct members. */
  ghost predicate Named(f: System, kind: string) {
    && (forall w :: w in f.holds && f.holds[w].kind == kind ==> Stands(f, f.holds[w]))
    && NamesDiffer(f, kind)
  }

  ghost predicate FleetInv(cfg: Config, f: System, kind: string) { Tied(cfg, f) && Named(f, kind) }

  lemma PrunedHold(cfg: Config, f: System, h: Hold)
    requires Stands(f, h)
    ensures Stands(Do(cfg, f, ReadExcluded), h) <==> Spared(cfg, f, h)
  {}

  /** Reading the saturated kinds, which prunes every set, keeps the invariant of a kind exactly
      when every outstanding hold of the kind is spared. */
  lemma PruningKeepsExactly(cfg: Config, f: System, kind: string)
    requires FleetInv(cfg, f, kind)
    ensures FleetInv(cfg, Do(cfg, f, ReadExcluded), kind) <==> Fresh(cfg, f, kind)
  {
    TiedStep(cfg, f, ReadExcluded);
    var g := Do(cfg, f, ReadExcluded);
    forall w | w in f.holds && f.holds[w].kind == kind
      ensures Stands(g, f.holds[w]) <==> Spared(cfg, f, f.holds[w])
    {
      PrunedHold(cfg, f, f.holds[w]);
    }
  }

  /** What an acquisition does to the set and the holds of a kind. */
  lemma AcquireShape(cfg: Config, f: System, w: string, kind: string)
    requires Possible(cfg, f, Acquire(w))
    ensures var g := Do(cfg, f, Acquire(w));
            var h := Hold(KindOf(f, f.q.slots[w]), HolderOf(cfg, f, w), f.q.now);
            && g.q == f.q
            && g.holds == (if Room(cfg, f, w) then f.holds[w := h] else f.holds)
            && (kind != h.kind ==> SetOf(g.sets, kind) == SetOf(f.sets, kind))
            && (kind == h.kind ==>
                  var live := Prune(SetOf(f.sets, kind), Cutoff(f.q.now, cfg.ttl));
                  SetOf(g.sets, kind) == if Room(cfg, f, w) then live[h.holder := Stamp(f.q.now)] else live)
  {}

  lemma AcquireNamed(cfg: Config, f: System, w: string, kind: string)
    requires Named(f, kind) && Fresh(cfg, f, kind) && Possible(cfg, f, Acquire(w)) && Distinct(cfg, f, Acquire(w), kind)
    ensures Named(Do(cfg, f, Acquire(w)), kind)
  {
    var g := Do(cfg, f, Acquire(w));
    AcquireShape(cfg, f, w, kind);
    forall v | v in g.holds && g.holds[v].kind == kind ensures Stands(g, g.holds[v]) {
      if v in f.holds { assert Stands(f, f.holds[v]) && Spared(cfg, f, f.holds[v]); }
    }
  }

  /** An acquisition that gets no answer leaves the sets as an answered one, or untouched. */
  lemma ErrorNamed(cfg: Config, f: System, w: string, landed: bool, kind: string)
    requires Named(f, kind) && Fresh(cfg, f, kind) && Possible(cfg, f, AcquireError(w, landed))
    requires Distinct(cfg, f, AcquireError(w, landed), kind)
    ensures Named(Do(cfg, f, AcquireError(w, landed)), kind)
  {
    var g := Do(cfg, f, AcquireError(w, landed));
    if landed {
      AcquireNamed(cfg, f, w, kind);
      var d := Do(cfg, f, Acquire(w));
      assert forall v :: v in f.holds ==> v in d.holds && d.holds[v] == f.holds[v];
      forall v | v in g.holds && g.holds[v].kind == kind ensures Stands(g, g.holds[v]) {
        assert Stands(d, d.holds[v]);
      }
    } else {
      forall v | v in g.holds && g.holds[v].kind == kind ensures Stands(g, g.holds[v]) { assert Stands(f, f.holds[v]); }
    }
  }

  /** The exact condition on names.  In a state of the invariant whose holds of the kind are fresh,
      an admitted acquisition of the kind keeps the invariant if and only if no outstanding hold of
      the kind bears the name; a refused one keeps it anyway. */
  lemma AcquireKeepsExactly(cfg: Config, f: System, w: string, kind: string)
    requires FleetInv(cfg, f, kind) && Fresh(cfg, f, kind) && Possible(cfg, f, Acquire(w))
    requires kind == KindOf(f, f.q.slots[w])
    ensures var g := Do(cfg, f, Acquire(w));
            && (w in g.holds ==> (FleetInv(cfg, g, kind) <==> Unused(f, kind, HolderOf(cfg, f, w))))
            && (w !in g.holds ==> FleetInv(cfg, g, kind))
  {
    var g := Do(cfg, f, Acquire(w));
    AcquireShape(cfg, f, w, kind);
    TiedStep(cfg, f, Acquire(w));
    if Distinct(cfg, f, Acquire(w), kind) {
      AcquireNamed(cfg, f, w, kind);
    } else {
      var v :| v in f.holds && f.holds[v].kind == kind && f.holds[v].holder == HolderOf(cfg, f, w);
      assert g.holds[v] == f.holds[v] && v != w;
    }
  }

  /** At a cap of one no two names can meet: room means that nothing of the kind is outstanding. */
  lemma CapOneIsDistinct(cfg: Config, f: System, m: Move, kind: string)
    requires Named(f, kind) && Fresh(cfg, f, kind) && CapOf(cfg.cap, kind) == 1
    ensures Distinct(cfg, f, m, kind)
  {
    if Reserves(m) && m.w in f.q.slots && KindOf(f, f.q.slots[m.w]) == kind && Room(cfg, f, m.w) {
      var live := Prune(SetOf(f.sets, kind), Cutoff(f.q.now, cfg.ttl));
      assert live == map[];
      forall v | v in f.holds && f.holds[v].kind == kind ensures f.holds[v].holder in live {
        assert Stands(f, f.holds[v]) && Spared(cfg, f, f.holds[v]);
      }
    }
  }

  lemma RefreshNamed(cfg: Config, f: System, w: string, kind: string)
    requires Named(f, kind) && w in f.holds
    ensures Named(Do(cfg, f, Refresh(w)), kind)
  {
    var g := Do(cfg, f, Refresh(w));
    forall v | v in g.holds && g.holds[v].kind == kind ensures Stands(g, g.holds[v]) {
      assert Stands(f, f.holds[v]) && (f.holds[w].kind == kind ==> Stands(f, f.holds[w]));
    }
  }

  lemma ReleaseNamed(cfg: Config, f: System, w: string, kind: string)
    requires Named(f, kind) && Possible(cfg, f, Release(w))
    ensures Named(Do(cfg, f, Release(w)), kind)
  {
    var g := Do(cfg, f, Release(w));
    forall v | v in g.holds && g.holds[v].kind == kind ensures Stands(g, g.holds[v]) {
      assert Stands(f, f.holds[v]);
    }
  }

  /** Moves that touch no set. */
  lemma QuietNamed(cfg: Config, f: System, m: Move, kind: string)
    requires Named(f, kind) && Possible(cfg, f, m) && (m.Queue? || m.Crash?)
    ensures Named(Do(cfg, f, m), kind)
  {
    var g := Do(cfg, f, m);
    forall v | v in g.holds && g.holds[v].kind == kind ensures Stands(g, g.holds[v]) {
      assert Stands(f, f.holds[v]);
    }
  }

  /** Only the freshness of the kind's own holds matters, and at a cap above one the distinctness
      of the kind's own names. */
  lemma StepKeeps(cfg: Config, f: System, m: Move, kind: string)
    requires FleetInv(cfg, f, kind) && Fresh(cfg, f, kind) && Possible(cfg, f, m) && CapOf(cfg.cap, kind) > 0
    requires CapOf(cfg.cap, kind) > 1 ==> Distinct(cfg, f, m, kind)
    ensures FleetInv(cfg, Do(cfg, f, m), kind)
  {
    TiedStep(cfg, f, m);
    match m
    case Acquire(w) =>
      if CapOf(cfg.cap, kind) == 1 { CapOneIsDistinct(cfg, f, m, kind); }
      AcquireNamed(cfg, f, w, kind);
    case AcquireError(w, landed) =>
      if CapOf(cfg.cap, kind) == 1 { CapOneIsDistinct(cfg, f, m, kind); }
      ErrorNamed(cfg, f, w, landed, kind);
    case Refresh(w) => RefreshNamed(cfg, f, w, kind);
    case ReadExcluded => PruningKeepsExactly(cfg, f, kind);
    case Release(w) => ReleaseNamed(cfg, f, w, kind);
    case _ => QuietNamed(cfg, f, m, kind);
  }

  lemma {:induction false} RunKeeps(cfg: Config, f: System, ms: seq<Move>, g: System, kind: string)
    requires FleetInv(cfg, f, kind) && Moves(cfg, f, ms, g) && AllFresh(cfg, f, ms, kind) && CapOf(cfg.cap, kind) > 0
    requires NamesOk(cfg, f, ms, kind)
    ensures FleetInv(cfg, g, kind) && Fresh(cfg, g, kind)
    decreases |ms|
  {
    if ms != [] {
      StepKeeps(cfg, f, ms[0], kind);
      RunKeeps(cfg, Do(cfg, f, ms[0]), ms[1..], g, kind);
    }
  }

  // ---- the cap ----

  /** The slots of the fleet, on any pod, that are running a job of this kind. */
  ghost function Runners(f: System, kind: string): set<string> {
    set w | w in f.q.slots && Running(f.q.slots[w]) && KindOf(f, f.q.slots[w]) == kind
  }

  /** Those of them that the limiter has answered. */
  ghost function Throttled(f: System, kind: string): set<string> { Runners(f, kind) - f.loose }

  ghost function HoldersOf(f: System, kind: string): set<string> {
    set w | w in f.holds && f.holds[w].kind == kind
  }

  lemma {:induction false} InjectiveImage(ws: set<string>, holds: map<string, Hold>, names: set<string>)
    requires ws <= holds.Keys
    requires forall w :: w in ws ==> holds[w].holder in names
    requires forall v, w :: v in ws && w in ws && v != w ==> holds[v].holder != holds[w].holder
    ensures |ws| <= |names|
  {
    if w :| w in ws {
      InjectiveImage(ws - {w}, holds, names - {holds[w].holder});
    }
  }

  /** Running slots hold, and holders are distinct members of the set. */
  lemma HoldersAreMembers(cfg: Config, g: System, kind: string)
    requires FleetInv(cfg, g, kind) && CapOf(cfg.cap, kind) > 0
    ensures Throttled(g, kind) <= HoldersOf(g, kind)
    ensures |HoldersOf(g, kind)| <= |SetOf(g.sets, kind)|
  {
    forall w | w in Throttled(g, kind) ensures w in HoldersOf(g, kind) {
      assert RunnerHolds(cfg, g, w) && HoldTied(cfg, g, w, g.holds[w]);
    }
    forall w | w in HoldersOf(g, kind) ensures g.holds[w].holder in SetOf(g.sets, kind).Keys {
      assert Stands(g, g.holds[w]);
    }
    InjectiveImage(HoldersOf(g, kind), g.holds, SetOf(g.sets, kind).Keys);
  }

  /** The fleet-wide cap: in every run with fresh stamps of a limited kind and, if its cap is above
      one, distinct outstanding names of the kind, its runs across all pods never exceed the cap,
      not counting those that the limiter did not answer. */
  lemma FleetCap(cfg: Config, f: System, ms: seq<Move>, g: System, kind: string)
    requires Start(f) && Moves(cfg, f, ms, g) && CapOf(cfg.cap, kind) > 0
    requires AllFresh(cfg, f, ms, kind) && NamesOk(cfg, f, ms, kind)
    ensures |Throttled(g, kind)| <= |HoldersOf(g, kind)| <= CapOf(cfg.cap, kind)
  {
    RunKeeps(cfg, f, ms, g, kind);
    HoldersAreMembers(cfg, g, kind);
    SubsetCard(Throttled(g, kind), HoldersOf(g, kind));
  }

  /** The same for a caller who refreshes often enough: every gap between stamps leaves a whole
      second of the TTL. */
  lemma FleetCapByRefreshing(cfg: Config, f: System, ms: seq<Move>, g: System, kind: string, gap: int)
    requires Start(f) && Moves(cfg, f, ms, g) && CapOf(cfg.cap, kind) > 0
    requires NamesOk(cfg, f, ms, kind)
    requires gap <= cfg.ttl - SECOND && AllRecent(cfg, f, ms, kind, gap)
    ensures |Throttled(g, kind)| <= |HoldersOf(g, kind)| <= CapOf(cfg.cap, kind)
  {
    RecentIsFresh(cfg, f, ms, kind, gap);
    FleetCap(cfg, f, ms, g, kind);
  }

  // ---- crashed holders ----

  lemma {:induction false} SameCardImage(ws: set<string>, holds: map<string, Hold>, names: set<string>)
    requires ws <= holds.Keys && names == set w | w in ws :: holds[w].holder
    requires forall v, w :: v in ws && w in ws && v != w ==> holds[v].holder != holds[w].holder
    ensures |ws| == |names|
  {
    if w :| w in ws {
      var rest := names - {holds[w].holder};
      assert holds[w].holder in names;
      assert rest == set v | v in ws - {w} :: holds[v].holder;
      SameCardImage(ws - {w}, holds, rest);
    }
  }

  /** Members that no slot holds. */
  ghost predicate Orphan(f: System, kind: string, h: string) {
    h in SetOf(f.sets, kind) && forall w :: w in HoldersOf(f, kind) ==> f.holds[w].holder != h
  }

  /** Every member that no slot holds was last stamped at some time at least a TTL ago. */
  ghost predicate OrphansExpired(cfg: Config, f: System, kind: string) {
    forall h :: Orphan(f, kind, h) ==> exists at :: SetOf(f.sets, kind)[h] == Stamp(at) && at <= f.q.now - cfg.ttl
  }

  ghost predicate AtCap(cfg: Config, f: System, kind: string) {
    Full(SetOf(f.sets, kind), f.q.now, cfg.ttl, CapOf(cfg.cap, kind))
  }

  lemma ExpiredIsPruned(at: int, now: int, ttl: int)
    requires at <= now - ttl
    ensures Stamp(at) <= Cutoff(now, ttl)
  {}

  lemma OrphanIsPruned(cfg: Config, g: System, kind: string, h: string)
    requires OrphansExpired(cfg, g, kind) && Orphan(g, kind, h)
    ensures h !in Prune(SetOf(g.sets, kind), Cutoff(g.q.now, cfg.ttl))
  {
    var at :| SetOf(g.sets, kind)[h] == Stamp(at) && at <= g.q.now - cfg.ttl;
    ExpiredIsPruned(at, g.q.now, cfg.ttl);
  }

  lemma LiveMembersAreHeld(cfg: Config, g: System, kind: string)
    requires Named(g, kind) && Fresh(cfg, g, kind) && OrphansExpired(cfg, g, kind)
    ensures |Prune(SetOf(g.sets, kind), Cutoff(g.q.now, cfg.ttl))| == |HoldersOf(g, kind)|
  {
    var names := set w | w in HoldersOf(g, kind) :: g.holds[w].holder;
    var live := Prune(SetOf(g.sets, kind), Cutoff(g.q.now, cfg.ttl));
    forall w | w in HoldersOf(g, kind) ensures g.holds[w].holder in live {
      assert Stands(g, g.holds[w]) && Spared(cfg, g, g.holds[w]);
    }
    forall h | Orphan(g, kind, h) ensures h !in live { OrphanIsPruned(cfg, g, kind, h); }
    assert names == live.Keys;
    SameCardImage(HoldersOf(g, kind), g.holds, names);
  }

  lemma CardDecides(cfg: Config, g: System, kind: string, held: nat)
    requires |Prune(SetOf(g.sets, kind), Cutoff(g.q.now, cfg.ttl))| == held
    ensures AtCap(cfg, g, kind) <==> held >= CapOf(cfg.cap, kind)
  {}

  /** A crashed holder stops counting once its last stamp is a TTL old: when every member that
      no slot holds is that old, an acquisition succeeds exactly when fewer slots than the cap
      hold the kind. */
  lemma CrashedStopCounting(cfg: Config, f: System, ms: seq<Move>, g: System, kind: string)
    requires Start(f) && Moves(cfg, f, ms, g) && CapOf(cfg.cap, kind) > 0 && OrphansExpired(cfg, g, kind)
    requires AllFresh(cfg, f, ms, kind) && NamesOk(cfg, f, ms, kind)
    ensures AtCap(cfg, g, kind) <==> |HoldersOf(g, kind)| >= CapOf(cfg.cap, kind)
  {
    RunKeeps(cfg, f, ms, g, kind);
    LiveMembersAreHeld(cfg, g, kind);
    CardDecides(cfg, g, kind, |HoldersOf(g, kind)|);
  }

  // ---- released slots stay released ----

  predicate AcquiresAs(cfg: Config, f: System, m: Move, kind: string, holder: string) {
    Reserves(m) && m.w in f.q.slots && kind == KindOf(f, f.q.slots[m.w]) && holder == HolderOf(cfg, f, m.w)
  }

  lemma RestampAddsNone(cfg: Config, f: System, m: Move, kind: string, holder: string)
    requires Possible(cfg, f, m) && holder !in SetOf(f.sets, kind) && !AcquiresAs(cfg, f, m, kind, holder)
    ensures holder !in SetOf(Do(cfg, f, m).sets, kind)
  {
  }

  predicate Reacquires(cfg: Config, f: System, ms: seq<Move>, kind: string, holder: string)
    decreases |ms|
  {
    ms != [] && Possible(cfg, f, ms[0]) &&
    (AcquiresAs(cfg, f, ms[0], kind, holder) || Reacquires(cfg, Do(cfg, f, ms[0]), ms[1..], kind, holder))
  }

  /** No refresh revives a released slot: its member stays out of the set until an acquisition
      under the same name. */
  lemma {:induction false} ReleasedStaysReleased(cfg: Config, f: System, ms: seq<Move>, g: System, kind: string,
      holder: string)
    requires Moves(cfg, f, ms, g) && holder !in SetOf(f.sets, kind) && !Reacquires(cfg, f, ms, kind, holder)
    ensures holder !in SetOf(g.sets, kind)
    decreases |ms|
  {
    if ms != [] {
      RestampAddsNone(cfg, f, ms[0], kind, holder);
      ReleasedStaysReleased(cfg, Do(cfg, f, ms[0]), ms[1..], g, kind, holder);
    }
  }
}
