/** Drain safety: the in-process limiter keeps the handlers of a limited kind within its cap. */
module DrainCap {
  import opened Basics
  import opened Rows
  import opened Protocol
  import opened Drain

  predicate Running(slot: Slot) { slot.Handling? || slot.Returned? }

  ghost function Runners(q: State, kind: string): set<string> {
    set w | w in q.slots && Running(q.slots[w]) && KindOf(q, w) == kind
  }

  /** A slot running a job of a limited kind holds that kind. */
  ghost predicate RunnerHolds(cfg: Config, q: State, held: map<string, string>, w: string) {
    w in q.slots && Running(q.slots[w]) && CapOf(cfg.cap, KindOf(q, w)) > 0 ==> w in held && held[w] == KindOf(q, w)
  }

  ghost predicate Capped(cfg: Config, held: map<string, string>) {
    forall kind :: CapOf(cfg.cap, kind) > 0 ==> |Holding(held, kind)| <= CapOf(cfg.cap, kind)
  }

  /** An occupied slot keeps the kind of its job. */
  lemma SameKind(q: State, a: Action, w: string)
    requires Inv(q) && Enabled(q, a) && w in q.slots && !q.slots[w].Idle?
    requires w in Apply(q, a).slots && !Apply(q, a).slots[w].Idle?
    ensures KindOf(Apply(q, a), w) == KindOf(q, w)
  {
    assert Anchored(q, w, q.slots[w]);
    StepSlot(q, a, w);
    StepKind(q, a, q.slots[w].c.id);
  }

  lemma RanBefore(q: State, a: Action, w: string)
    requires Inv(q) && Enabled(q, a) && w in Apply(q, a).slots && Running(Apply(q, a).slots[w])
    ensures w in q.slots && KindOf(Apply(q, a), w) == KindOf(q, w)
    ensures Running(q.slots[w]) || a == StartHandler(w)
  {
    StepSlot(q, a, w);
    SameKind(q, a, w);
  }

  lemma StartsByTrying(cfg: Config, d: System, m: Move, w: string)
    requires Guard(cfg, d, m) && ActionOf(cfg, d, m) == Some(StartHandler(w))
    ensures m.TryAcquire? && m.w == w && !AtCap(cfg, d, KindOf(d.q, w))
  {}

  /** A slot that runs after a move ran before it, or has just started its handler. */
  lemma RunnerBefore(cfg: Config, d: System, m: Move, w: string)
    requires Inv(d.q) && Possible(cfg, d, m)
    requires w in QueueAfter(cfg, d, m).slots && Running(QueueAfter(cfg, d, m).slots[w])
    ensures w in d.q.slots && KindOf(QueueAfter(cfg, d, m), w) == KindOf(d.q, w)
    ensures Running(d.q.slots[w]) || (m.TryAcquire? && m.w == w && !AtCap(cfg, d, KindOf(d.q, w)))
  {
    if ActionOf(cfg, d, m).Some? {
      RanBefore(d.q, ActionOf(cfg, d, m).value, w);
      if ActionOf(cfg, d, m) == Some(StartHandler(w)) { StartsByTrying(cfg, d, m, w); }
    }
  }

  lemma RunnerHoldsStep(cfg: Config, d: System, m: Move, w: string)
    requires Fits(cfg, d) && Possible(cfg, d, m) && RunnerHolds(cfg, d.q, d.held, w)
    ensures RunnerHolds(cfg, QueueAfter(cfg, d, m), HeldAfter(cfg, d, m), w)
  {
    if w in QueueAfter(cfg, d, m).slots && Running(QueueAfter(cfg, d, m).slots[w]) {
      RunnerBefore(cfg, d, m, w);
      assert w in d.pc && SlotOk(d.pc[w], d.q.slots[w], w in d.held);
    }
  }

  lemma CappedStep(cfg: Config, d: System, m: Move)
    requires Fits(cfg, d) && Possible(cfg, d, m) && Capped(cfg, d.held)
    ensures Capped(cfg, HeldAfter(cfg, d, m))
  {
    var held' := HeldAfter(cfg, d, m);
    forall kind | CapOf(cfg.cap, kind) > 0 ensures |Holding(held', kind)| <= CapOf(cfg.cap, kind) {
      if m.TryAcquire? && KindOf(d.q, m.w) == kind && !AtCap(cfg, d, kind) {
        assert Holding(held', kind) <= Holding(d.held, kind) + {m.w};
        SubsetCard(Holding(held', kind), Holding(d.held, kind) + {m.w});
      } else {
        SubsetCard(Holding(held', kind), Holding(d.held, kind));
      }
    }
  }

  ghost predicate Safe(cfg: Config, d: System) {
    Fits(cfg, d) && Capped(cfg, d.held) && forall w :: RunnerHolds(cfg, d.q, d.held, w)
  }

  lemma SafeStep(cfg: Config, d: System, m: Move)
    requires Safe(cfg, d) && Possible(cfg, d, m)
    ensures Safe(cfg, Do(cfg, d, m))
  {
    FitsStep(cfg, d, m);
    CappedStep(cfg, d, m);
    forall w ensures RunnerHolds(cfg, QueueAfter(cfg, d, m), HeldAfter(cfg, d, m), w) { RunnerHoldsStep(cfg, d, m, w); }
  }

  lemma {:induction false} SafeRun(cfg: Config, d: System, ms: seq<Move>, e: System)
    requires Safe(cfg, d) && Moves(cfg, d, ms, e)
    ensures Safe(cfg, e)
    decreases |ms|
  {
    if ms != [] {
      SafeStep(cfg, d, ms[0]);
      SafeRun(cfg, Do(cfg, d, ms[0]), ms[1..], e);
    }
  }

  lemma NothingHeld(cfg: Config, d: System)
    requires Start(cfg, d)
    ensures Safe(cfg, d)
  {
    forall k ensures Holding(d.held, k) == {} {}
  }

  /** In every drain, whatever the interleaving and the environment, no more handlers of a limited
      kind run at once than its cap. */
  lemma DrainKeepsCap(cfg: Config, d: System, ms: seq<Move>, e: System, kind: string)
    requires Start(cfg, d) && Moves(cfg, d, ms, e) && CapOf(cfg.cap, kind) > 0
    ensures |Runners(e.q, kind)| <= |Holding(e.held, kind)| <= CapOf(cfg.cap, kind)
  {
    NothingHeld(cfg, d);
    SafeRun(cfg, d, ms, e);
    forall w | w in Runners(e.q, kind) ensures w in Holding(e.held, kind) {
      assert RunnerHolds(cfg, e.q, e.held, w);
    }
    SubsetCard(Runners(e.q, kind), Holding(e.held, kind));
  }
}
