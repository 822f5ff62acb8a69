/** Drain termination: lost slot races are paid for by other slots' acquisitions, claims by the
    jobs' attempt budgets, and steps by claims; and a slot that has not exited can always move. */
module DrainBound {
  import opened Attempts
  import opened Basics
  import opened Rows
  import opened Protocol
  import opened Drain

  // ---- sums over the slots ----

  /** Changing one slot's tally changes a sum by that slot's difference. */
  lemma {:induction false} SumUpdate(ws: seq<string>, f: map<string, Tally>, w: string, t: Tally, part: Tally -> int)
    requires NoRepeats(ws) && w in f
    ensures Sum(ws, f[w := t], part) == Sum(ws, f, part) + (if w in ws then part(t) - part(f[w]) else 0)
  {
    if ws != [] {
      assert w in ws <==> w == ws[0] || w in ws[1..];
      SumUpdate(ws[1..], f, w, t, part);
    }
  }

  // ---- lost slot races ----

  /** Room for the kind a slot is after, as far as it can know: nobody else acquired since it
      read the saturated kinds. */
  ghost predicate RoomSince(cfg: Config, d: System, w: string, kind: string)
    requires w in d.tally
  {
    OthersAcquired(cfg, d, w) == d.tally[w].seen ==> !AtCap(cfg, d, kind)
  }

  /** Every race slot `w` has lost is matched by an acquisition of another slot, and so far as
      it is about to lose one more, by yet another one. */
  ghost predicate Paid(cfg: Config, d: System, w: string) {
    w in d.tally && w in d.pc && w in d.q.slots &&
    var t := d.tally[w];
    && t.lost <= OthersAcquired(cfg, d, w)
    && t.seen <= OthersAcquired(cfg, d, w)
    && (d.pc[w].Read? ==> t.lost <= t.seen && forall k :: k !in d.pc[w].full ==> RoomSince(cfg, d, w, k))
    && (d.pc[w].Busy? && d.q.slots[w].Claimed? ==> t.lost <= t.seen && RoomSince(cfg, d, w, KindOf(d.q, w)))
  }

  /** An acquisition of a limited kind that succeeds. */
  predicate Acquires(cfg: Config, d: System, m: Move) {
    m.TryAcquire? && CapOf(cfg.cap, KindOf(d.q, m.w)) > 0 && !AtCap(cfg, d, KindOf(d.q, m.w))
  }

  lemma AcquiredStep(cfg: Config, d: System, m: Move)
    requires !m.Env? ==> m.w in d.tally
    ensures !m.Env? ==> TallyAfter(cfg, d, m) == d.tally[m.w := TallyAfter(cfg, d, m)[m.w]]
                        && AcquiredOf(TallyAfter(cfg, d, m)[m.w]) - AcquiredOf(d.tally[m.w]) ==
                           (if Acquires(cfg, d, m) then 1 else 0)
    ensures m.Env? ==> TallyAfter(cfg, d, m) == d.tally && !Acquires(cfg, d, m)
  {
  }

  lemma OthersStep(cfg: Config, d: System, m: Move, w: string)
    requires NoRepeats(cfg.ws) && (forall v :: v in d.tally ==> v in cfg.ws) && w in d.tally && Possible(cfg, d, m)
    ensures OthersAcquired(cfg, Do(cfg, d, m), w) ==
              OthersAcquired(cfg, d, w) + (if Acquires(cfg, d, m) && m.w != w then 1 else 0)
  {
    AcquiredStep(cfg, d, m);
    if !m.Env? { SumUpdate(cfg.ws, d.tally, m.w, TallyAfter(cfg, d, m)[m.w], AcquiredOf); }
  }

  /** Only an acquisition takes room away. */
  lemma RoomKept(cfg: Config, d: System, m: Move, kind: string)
    requires Possible(cfg, d, m) && !Acquires(cfg, d, m) && !AtCap(cfg, d, kind)
    ensures !AtCap(cfg, Do(cfg, d, m), kind)
  {
    SubsetCard(Holding(HeldAfter(cfg, d, m), kind), Holding(d.held, kind));
  }

  /** A slot that waits with a claimed job keeps it, of the same kind. */
  lemma KindKept(cfg: Config, d: System, m: Move, w: string)
    requires Fits(cfg, d) && Possible(cfg, d, m) && w in d.pc && (m.Env? || m.w != w)
    requires w in QueueAfter(cfg, d, m).slots && QueueAfter(cfg, d, m).slots[w].Claimed?
    ensures d.q.slots[w].Claimed? && KindOf(QueueAfter(cfg, d, m), w) == KindOf(d.q, w)
  {
    SlotEffect(cfg, d, m, w);
    assert Anchored(d.q, w, d.q.slots[w]);
    if ActionOf(cfg, d, m).Some? {
      StepKind(d.q, ActionOf(cfg, d, m).value, d.q.slots[w].c.id);
    }
  }

  lemma RoomStep(cfg: Config, d: System, m: Move, w: string, kind: string)
    requires NoRepeats(cfg.ws) && Fits(cfg, d) && Possible(cfg, d, m)
    requires w in d.tally && (m.Env? || m.w != w || m.Claim?)
    requires RoomSince(cfg, d, w, kind) && d.tally[w].seen <= OthersAcquired(cfg, d, w)
    ensures w in TallyAfter(cfg, d, m) && RoomSince(cfg, Do(cfg, d, m), w, kind)
  {
    OthersStep(cfg, d, m, w);
    if !Acquires(cfg, d, m) && !AtCap(cfg, d, kind) { RoomKept(cfg, d, m, kind); }
  }

  lemma OthersUntouched(cfg: Config, d: System, m: Move, w: string)
    requires Possible(cfg, d, m) && (m.Env? || m.w != w) && w in d.pc && w in d.tally
    ensures w in PcAfter(cfg, d, m) && PcAfter(cfg, d, m)[w] == d.pc[w]
    ensures w in TallyAfter(cfg, d, m) && TallyAfter(cfg, d, m)[w] == d.tally[w]
  {}

  /** What of the state matters to a slot that does not move. */
  lemma PaidKept(cfg: Config, d: System, e: System, w: string)
    requires Paid(cfg, d, w) && w in e.pc && w in e.tally && w in e.q.slots
    requires e.pc[w] == d.pc[w] && e.tally[w] == d.tally[w] && OthersAcquired(cfg, d, w) <= OthersAcquired(cfg, e, w)
    requires d.pc[w].Read? ==> forall k :: RoomSince(cfg, d, w, k) ==> RoomSince(cfg, e, w, k)
    requires d.pc[w].Busy? && e.q.slots[w].Claimed? ==>
               d.q.slots[w].Claimed? && RoomSince(cfg, e, w, KindOf(e.q, w))
    ensures Paid(cfg, e, w)
  {}

  /** The other slots' moves keep a slot paid. */
  lemma PaidByOthers(cfg: Config, d: System, m: Move, w: string)
    requires NoRepeats(cfg.ws) && Fits(cfg, d) && Possible(cfg, d, m)
    requires w in d.pc && Paid(cfg, d, w) && (m.Env? || m.w != w)
    ensures Paid(cfg, Do(cfg, d, m), w)
  {
    var e := Do(cfg, d, m);
    OthersStep(cfg, d, m, w);
    OthersUntouched(cfg, d, m, w);
    SlotEffect(cfg, d, m, w);
    forall k | RoomSince(cfg, d, w, k) ensures RoomSince(cfg, e, w, k) { RoomStep(cfg, d, m, w, k); }
    if d.pc[w].Busy? && e.q.slots[w].Claimed? { KindKept(cfg, d, m, w); }
    PaidKept(cfg, d, e, w);
  }

  lemma PaidByReading(cfg: Config, d: System, m: Move)
    requires NoRepeats(cfg.ws) && Fits(cfg, d) && Possible(cfg, d, m) && m.ReadFull? && Paid(cfg, d, m.w)
    ensures Paid(cfg, Do(cfg, d, m), m.w)
  {
    OthersStep(cfg, d, m, m.w);
    SlotEffect(cfg, d, m, m.w);
  }

  /** The job a slot claims is not of a kind on its list. */
  lemma PaidByClaiming(cfg: Config, d: System, m: Move)
    requires NoRepeats(cfg.ws) && Fits(cfg, d) && Possible(cfg, d, m) && m.Claim? && Paid(cfg, d, m.w)
    ensures Paid(cfg, Do(cfg, d, m), m.w)
  {
    OthersStep(cfg, d, m, m.w);
    var kind := d.q.jobs[m.id].kind;
    assert KindOf(QueueAfter(cfg, d, m), m.w) == kind;
    assert kind !in d.pc[m.w].full;
    RoomStep(cfg, d, m, m.w, kind);
  }

  /** A race is lost only after somebody else acquired. */
  lemma PaidByTrying(cfg: Config, d: System, m: Move)
    requires NoRepeats(cfg.ws) && Fits(cfg, d) && Possible(cfg, d, m) && m.TryAcquire? && Paid(cfg, d, m.w)
    ensures Paid(cfg, Do(cfg, d, m), m.w)
  {
    OthersStep(cfg, d, m, m.w);
    AcquireEffect(cfg, d, m);
    SlotEffect(cfg, d, m, m.w);
  }

  predicate Rests(m: Move) { m.FindNone? || m.Requeue? || m.Return? || m.Record? || m.SkipRecord? || m.Release? }

  /** Such a move acquires and loses nothing, and leaves the slot neither reading nor claiming. */
  lemma RestShape(cfg: Config, d: System, m: Move)
    requires Possible(cfg, d, m) && Rests(m)
    ensures !Acquires(cfg, d, m) && m.w in PcAfter(cfg, d, m) && !PcAfter(cfg, d, m)[m.w].Read?
    ensures m.w in TallyAfter(cfg, d, m)
    ensures var t, t' := d.tally[m.w], TallyAfter(cfg, d, m)[m.w]; t'.lost == t.lost && t'.seen == t.seen
    ensures PcAfter(cfg, d, m)[m.w].Busy? ==> m.Return?
  {}

  lemma PaidByRest(cfg: Config, d: System, m: Move)
    requires NoRepeats(cfg.ws) && Fits(cfg, d) && Possible(cfg, d, m) && Rests(m) && Paid(cfg, d, m.w)
    ensures Paid(cfg, Do(cfg, d, m), m.w)
  {
    OthersStep(cfg, d, m, m.w);
    SlotEffect(cfg, d, m, m.w);
    RestShape(cfg, d, m);
  }

  ghost predicate AllPaid(cfg: Config, d: System) {
    Fits(cfg, d) && forall w :: w in d.pc ==> Paid(cfg, d, w)
  }

  lemma PaidStep(cfg: Config, d: System, m: Move)
    requires NoRepeats(cfg.ws) && AllPaid(cfg, d) && Possible(cfg, d, m)
    ensures AllPaid(cfg, Do(cfg, d, m))
  {
    FitsStep(cfg, d, m);
    KeysKept(cfg, d, m);
    forall w | w in d.pc ensures Paid(cfg, Do(cfg, d, m), w) {
      if m.Env? || m.w != w { PaidByOthers(cfg, d, m, w); }
      else if m.ReadFull? { PaidByReading(cfg, d, m); }
      else if m.Claim? { PaidByClaiming(cfg, d, m); }
      else if m.TryAcquire? { PaidByTrying(cfg, d, m); }
      else { PaidByRest(cfg, d, m); }
    }
  }

  // ---- claims and steps of one slot ----

  /** Steps of the current cycle against the six a claim pays for. */
  function Offset(pc: Pc, slot: Slot): int {
    match pc
    case Top => 0
    case Read(_) => 1
    case Busy => if slot.Claimed? then -4 else if slot.Handling? then -3 else -2
    case Lost => -3
    case Freeing => -1
    case Exited => 2
  }

  predicate Balanced(pc: Pc, slot: Slot, t: Tally) {
    && t.acquired + t.lost + (if pc.Busy? && slot.Claimed? then 1 else 0) <= t.claims
    && t.refunds + (if pc.Lost? then 1 else 0) <= t.lost
    && t.steps <= 6 * t.claims + Offset(pc, slot)
  }

  lemma BalancedStep(cfg: Config, d: System, m: Move, w: string, x': Slot)
    requires Guard(cfg, d, m) && w in d.pc && w in d.q.slots && w in d.tally
    requires SlotOk(d.pc[w], d.q.slots[w], w in d.held)
    requires Balanced(d.pc[w], d.q.slots[w], d.tally[w]) && Effect(m, w, d.q.slots[w], x')
    requires m.TryAcquire? && m.w == w ==> (AtCap(cfg, d, KindOf(d.q, w)) <==> x' == d.q.slots[w])
    ensures w in PcAfter(cfg, d, m) && w in TallyAfter(cfg, d, m)
    ensures Balanced(PcAfter(cfg, d, m)[w], x', TallyAfter(cfg, d, m)[w])
  {
  }

  ghost predicate AllBalanced(d: System) {
    forall w :: w in d.pc && w in d.q.slots && w in d.tally ==> Balanced(d.pc[w], d.q.slots[w], d.tally[w])
  }

  lemma AllBalancedStep(cfg: Config, d: System, m: Move)
    requires Fits(cfg, d) && AllBalanced(d) && Possible(cfg, d, m)
    ensures AllBalanced(Do(cfg, d, m))
  {
    KeysKept(cfg, d, m);
    if m.TryAcquire? { AcquireEffect(cfg, d, m); }
    forall w | w in d.pc
      ensures w in PcAfter(cfg, d, m)
      ensures Balanced(PcAfter(cfg, d, m)[w], QueueAfter(cfg, d, m).slots[w], TallyAfter(cfg, d, m)[w])
    {
      SlotEffect(cfg, d, m, w);
      BalancedStep(cfg, d, m, w, QueueAfter(cfg, d, m).slots[w]);
    }
  }

  // ---- the attempt budget ----

  /** A step that neither claims nor requeues leaves the attempts of every job alone. */
  lemma NoHandlerLeft(q: State, w: string, e: bool, id: nat)
    requires Enabled(q, NoHandler(w, e)) && id in q.jobs
    ensures Left(Apply(q, NoHandler(w, e)).jobs, id) == Left(q.jobs, id)
  {}

  lemma RecordLeft(q: State, w: string, e: bool, id: nat)
    requires Enabled(q, Action.Record(w, e)) && id in q.jobs
    ensures Left(Apply(q, Action.Record(w, e)).jobs, id) == Left(q.jobs, id)
  {}

  lemma OtherLeft(q: State, a: Action, id: nat)
    requires Enabled(q, a) && !IsWrite(a) && !a.ClaimJob? && id in q.jobs
    ensures Left(Apply(q, a).jobs, id) == Left(q.jobs, id)
  {
    StepRow(q, a, id);
  }

  lemma ClaimLeft(q: State, w: string, c: nat, id: nat)
    requires Inv(q) && Enabled(q, ClaimJob(w, c)) && id in q.jobs
    ensures Left(Apply(q, ClaimJob(w, c)).jobs, id) == Left(q.jobs, id) - if c == id then 1 else 0
  {
    assert Accounted(q.jobs[id], q.hist[id], q.now);
  }

  /** Whether a requeue finds its row. */
  predicate Refunds(q: State, a: Action, id: nat) {
    && a.LoseRace? && !a.storeErr && a.w in q.slots && q.slots[a.w].Claimed?
    && q.slots[a.w].c.id == id && Matches(q, a.w, q.slots[a.w].c)
  }

  lemma RequeueLeft(q: State, w: string, e: bool, id: nat)
    requires Inv(q) && Enabled(q, LoseRace(w, e)) && id in q.jobs
    ensures Left(Apply(q, LoseRace(w, e)).jobs, id) ==
              Left(q.jobs, id) + if Refunds(q, LoseRace(w, e), id) then 1 else 0
  {
    assert Accounted(q.jobs[id], q.hist[id], q.now);
  }

  /** A claim takes one attempt, a refund gives one back, nothing else changes what is left. */
  lemma AttemptsLeftStep(q: State, a: Action, id: nat)
    requires Inv(q) && Enabled(q, a) && id in q.jobs
    ensures Left(Apply(q, a).jobs, id) ==
              Left(q.jobs, id) - (if a.ClaimJob? && a.id == id then 1 else 0) + (if Refunds(q, a, id) then 1 else 0)
  {
    match a
    case ClaimJob(w, c) => ClaimLeft(q, w, c, id);
    case LoseRace(w, e) => RequeueLeft(q, w, e, id);
    case NoHandler(w, e) => NoHandlerLeft(q, w, e, id);
    case Record(w, e) => RecordLeft(q, w, e, id);
    case _ => OtherLeft(q, a, id);
  }

  /** The job a step charges or refunds, if any. */
  function Charged(q: State, a: Action): nat {
    if a.ClaimJob? then a.id else if a.LoseRace? && a.w in q.slots && !q.slots[a.w].Idle? then q.slots[a.w].c.id else 0
  }

  lemma {:induction false} BudgetStep(q: State, a: Action, ids: seq<nat>)
    requires Inv(q) && Enabled(q, a) && NoRepeats(ids) && forall id :: id in ids ==> id in q.jobs
    ensures Budget(ids, Apply(q, a).jobs) == Budget(ids, q.jobs)
              - (if a.ClaimJob? && a.id in ids then 1 else 0)
              + (if Charged(q, a) in ids && Refunds(q, a, Charged(q, a)) then 1 else 0)
  {
    if ids != [] {
      AttemptsLeftStep(q, a, ids[0]);
      BudgetStep(q, a, ids[1..]);
    }
  }

  // ---- totals over a run ----

  function ClaimsOf(t: Tally): int { t.claims }

  function RefundsOf(t: Tally): int { t.refunds }

  function LostOf(t: Tally): int { t.lost }

  function StepsOf(t: Tally): int { t.steps }

  /** The budget left is the budget at the start, less claims, plus refunds. */
  ghost predicate Accounts(cfg: Config, d: System, ids: seq<nat>, budget: int) {
    && Lists(ids, d.q.jobs)
    && Budget(ids, d.q.jobs) == budget - Sum(cfg.ws, d.tally, ClaimsOf) + Sum(cfg.ws, d.tally, RefundsOf)
  }

  lemma TallyParts(cfg: Config, d: System, m: Move)
    requires !m.Env? && m.w in d.tally
    ensures var t, t' := d.tally[m.w], TallyAfter(cfg, d, m)[m.w];
            && TallyAfter(cfg, d, m) == d.tally[m.w := t']
            && ClaimsOf(t') == ClaimsOf(t) + Spent(m)
            && RefundsOf(t') == RefundsOf(t) + Refunded(d, m)
  {
  }

  lemma TableListed(q: State, a: Action, ids: seq<nat>)
    requires Lists(ids, q.jobs) && Enabled(q, a) && !a.Enqueue?
    ensures Lists(ids, Apply(q, a).jobs)
  {
    assert Apply(q, a).jobs.Keys == q.jobs.Keys;
  }

  predicate NoEnqueue(m: Move) { m.Env? ==> !m.a.Enqueue? }

  /** What a move claims and what it refunds. */
  function Spent(m: Move): nat { if m.Claim? then 1 else 0 }

  function Refunded(d: System, m: Move): nat {
    if m.Requeue? && m.w in d.q.slots && !d.q.slots[m.w].Idle? && Matches(d.q, m.w, d.q.slots[m.w].c) then 1 else 0
  }

  lemma MoveClaims(cfg: Config, d: System, m: Move)
    requires Possible(cfg, d, m) && NoEnqueue(m) && ActionOf(cfg, d, m).Some?
    ensures var a := ActionOf(cfg, d, m).value;
            && !a.Enqueue? && (a.ClaimJob? <==> m.Claim?) && (a.ClaimJob? ==> a.id in d.q.jobs)
            && (a.LoseRace? <==> m.Requeue?) && (a.LoseRace? ==> a == LoseRace(m.w, false))
  {}

  lemma RefundsExactly(cfg: Config, d: System, m: Move)
    requires Fits(cfg, d) && m.Requeue? && Possible(cfg, d, m)
    ensures var a := LoseRace(m.w, false);
            && (Refunds(d.q, a, Charged(d.q, a)) <==> Refunded(d, m) == 1)
            && (Refunds(d.q, a, Charged(d.q, a)) ==> Charged(d.q, a) in d.q.jobs)
  {}

  /** What a move's action charges or gives back. */
  lemma MoveCharges(cfg: Config, d: System, m: Move)
    requires Fits(cfg, d) && Possible(cfg, d, m) && NoEnqueue(m) && ActionOf(cfg, d, m).Some?
    ensures var a := ActionOf(cfg, d, m).value;
            && !a.Enqueue? && (a.ClaimJob? <==> m.Claim?) && (a.ClaimJob? ==> a.id in d.q.jobs)
            && (Refunds(d.q, a, Charged(d.q, a)) <==> Refunded(d, m) == 1)
            && (Refunds(d.q, a, Charged(d.q, a)) ==> Charged(d.q, a) in d.q.jobs)
  {
    MoveClaims(cfg, d, m);
    if m.Requeue? { RefundsExactly(cfg, d, m); }
  }

  lemma BudgetMove(cfg: Config, d: System, m: Move, ids: seq<nat>)
    requires Fits(cfg, d) && Possible(cfg, d, m) && NoEnqueue(m) && Lists(ids, d.q.jobs)
    ensures Lists(ids, QueueAfter(cfg, d, m).jobs)
    ensures Budget(ids, QueueAfter(cfg, d, m).jobs) == Budget(ids, d.q.jobs) - Spent(m) + Refunded(d, m)
  {
    if ActionOf(cfg, d, m).Some? {
      var a := ActionOf(cfg, d, m).value;
      MoveCharges(cfg, d, m);
      TableListed(d.q, a, ids);
      BudgetStep(d.q, a, ids);
    }
  }

  lemma SumsMove(cfg: Config, d: System, m: Move)
    requires NoRepeats(cfg.ws) && Fits(cfg, d) && Possible(cfg, d, m)
    ensures Sum(cfg.ws, TallyAfter(cfg, d, m), ClaimsOf) == Sum(cfg.ws, d.tally, ClaimsOf) + Spent(m)
    ensures Sum(cfg.ws, TallyAfter(cfg, d, m), RefundsOf) == Sum(cfg.ws, d.tally, RefundsOf) + Refunded(d, m)
  {
    if !m.Env? {
      TallyParts(cfg, d, m);
      SumUpdate(cfg.ws, d.tally, m.w, TallyAfter(cfg, d, m)[m.w], ClaimsOf);
      SumUpdate(cfg.ws, d.tally, m.w, TallyAfter(cfg, d, m)[m.w], RefundsOf);
    }
  }

  lemma AccountsStep(cfg: Config, d: System, m: Move, ids: seq<nat>, budget: int)
    requires NoRepeats(cfg.ws) && Fits(cfg, d) && Possible(cfg, d, m) && NoEnqueue(m) && Accounts(cfg, d, ids, budget)
    ensures Accounts(cfg, Do(cfg, d, m), ids, budget)
  {
    BudgetMove(cfg, d, m, ids);
    SumsMove(cfg, d, m);
  }

  lemma {:induction false} BoundRun(cfg: Config, d: System, ms: seq<Move>, e: System, ids: seq<nat>, budget: int)
    requires NoRepeats(cfg.ws) && AllPaid(cfg, d) && AllBalanced(d) && Accounts(cfg, d, ids, budget)
    requires Moves(cfg, d, ms, e) && forall m :: m in ms ==> NoEnqueue(m)
    ensures AllPaid(cfg, e) && AllBalanced(e) && Accounts(cfg, e, ids, budget)
    decreases |ms|
  {
    if ms != [] {
      assert NoEnqueue(ms[0]);
      PaidStep(cfg, d, ms[0]);
      AllBalancedStep(cfg, d, ms[0]);
      AccountsStep(cfg, d, ms[0], ids, budget);
      BoundRun(cfg, Do(cfg, d, ms[0]), ms[1..], e, ids, budget);
    }
  }

  lemma {:induction false} SumPaid(ws: seq<string>, f: map<string, Tally>, total: int)
    requires forall w :: w in ws ==> w in f && f[w].lost <= total - f[w].acquired
    ensures Sum(ws, f, LostOf) + Sum(ws, f, AcquiredOf) <= |ws| * total
  {
    if ws != [] {
      SumPaid(ws[1..], f, total);
      assert |ws| * total == |ws[1..]| * total + total;
    }
  }

  lemma {:induction false} SumBalanced(ws: seq<string>, f: map<string, Tally>)
    requires forall w :: w in ws ==> w in f && f[w].acquired + f[w].lost <= f[w].claims
                                     && f[w].refunds <= f[w].lost && f[w].steps <= 6 * f[w].claims + 2
    ensures Sum(ws, f, AcquiredOf) + Sum(ws, f, LostOf) <= Sum(ws, f, ClaimsOf)
    ensures Sum(ws, f, RefundsOf) <= Sum(ws, f, LostOf)
    ensures Sum(ws, f, StepsOf) <= 6 * Sum(ws, f, ClaimsOf) + 2 * |ws|
  {
    if ws != [] { SumBalanced(ws[1..], f); }
  }

  lemma {:induction false} SumZero(ws: seq<string>, f: map<string, Tally>)
    requires forall w :: w in f ==> f[w] == Tally(0, 0, 0, 0, 0, 0)
    ensures Sum(ws, f, ClaimsOf) == Sum(ws, f, RefundsOf) == Sum(ws, f, AcquiredOf) == Sum(ws, f, StepsOf) == 0
  {
    if ws != [] { SumZero(ws[1..], f); }
  }

  lemma StartIsBalanced(cfg: Config, d: System, ids: seq<nat>)
    requires Start(cfg, d) && Lists(ids, d.q.jobs)
    ensures NoRepeats(cfg.ws) && AllPaid(cfg, d) && AllBalanced(d) && Accounts(cfg, d, ids, Budget(ids, d.q.jobs))
  {
    SumZero(cfg.ws, d.tally);
  }

  /** Lost races are at most (workers - 1) times the successful acquisitions, and these at most
      the attempts the jobs had left; each claim is followed by at most six steps. */
  ghost predicate WithinBounds(cfg: Config, e: System, budget: int) {
    var n := |cfg.ws|;
    && Sum(cfg.ws, e.tally, LostOf) <= (n - 1) * Sum(cfg.ws, e.tally, AcquiredOf)
    && Sum(cfg.ws, e.tally, AcquiredOf) <= budget
    && Sum(cfg.ws, e.tally, ClaimsOf) <= n * budget
    && Sum(cfg.ws, e.tally, StepsOf) <= 6 * (n * budget) + 2 * n
  }

  lemma SumsOf(cfg: Config, e: System)
    requires AllPaid(cfg, e) && AllBalanced(e)
    ensures Sum(cfg.ws, e.tally, LostOf) + Sum(cfg.ws, e.tally, AcquiredOf)
            <= |cfg.ws| * Sum(cfg.ws, e.tally, AcquiredOf)
    ensures Sum(cfg.ws, e.tally, AcquiredOf) + Sum(cfg.ws, e.tally, LostOf) <= Sum(cfg.ws, e.tally, ClaimsOf)
    ensures Sum(cfg.ws, e.tally, RefundsOf) <= Sum(cfg.ws, e.tally, LostOf)
    ensures Sum(cfg.ws, e.tally, StepsOf) <= 6 * Sum(cfg.ws, e.tally, ClaimsOf) + 2 * |cfg.ws|
  {
    forall w | w in cfg.ws ensures w in e.tally && Paid(cfg, e, w) && Balanced(e.pc[w], e.q.slots[w], e.tally[w]) {
      assert w in e.pc;
    }
    SumPaid(cfg.ws, e.tally, Sum(cfg.ws, e.tally, AcquiredOf));
    SumBalanced(cfg.ws, e.tally);
  }

  lemma BoundsAt(cfg: Config, e: System, ids: seq<nat>, budget: int)
    requires AllPaid(cfg, e) && AllBalanced(e) && Accounts(cfg, e, ids, budget) && cfg.ws != []
    ensures WithinBounds(cfg, e, budget)
  {
    SumsOf(cfg, e);
    Combine(|cfg.ws|, budget, Sum(cfg.ws, e.tally, AcquiredOf), Sum(cfg.ws, e.tally, LostOf),
            Sum(cfg.ws, e.tally, ClaimsOf), Sum(cfg.ws, e.tally, RefundsOf));
  }

  /** The bounds of every drain over a fixed job set, in terms of its workers and of the
      attempts the jobs had left at the start.  Its slots take boundedly many steps in all. */
  lemma DrainBounds(cfg: Config, d: System, ms: seq<Move>, e: System, ids: seq<nat>)
    requires Start(cfg, d) && Moves(cfg, d, ms, e) && (forall m :: m in ms ==> NoEnqueue(m)) && Lists(ids, d.q.jobs)
    ensures WithinBounds(cfg, e, Budget(ids, d.q.jobs))
  {
    StartIsBalanced(cfg, d, ids);
    BoundRun(cfg, d, ms, e, ids, Budget(ids, d.q.jobs));
    BoundsAt(cfg, e, ids, Budget(ids, d.q.jobs));
  }

  lemma Combine(n: int, b: int, acquired: int, lost: int, claims: int, refunds: int)
    requires n >= 1 && lost + acquired <= n * acquired
    requires acquired + lost <= claims && refunds <= lost && claims - refunds <= b
    ensures lost <= (n - 1) * acquired && acquired <= b && claims <= n * b
  {
    assert acquired <= b;
    assert (n - 1) * acquired <= (n - 1) * b by { MulMono(n - 1, acquired, b); }
  }

  /** The moves that slots make, as opposed to their environment. */
  function SlotMoves(ms: seq<Move>): nat {
    if ms == [] then 0 else (if ms[0].Env? then 0 else 1) + SlotMoves(ms[1..])
  }

  lemma StepCounted(cfg: Config, d: System, m: Move)
    requires NoRepeats(cfg.ws) && Fits(cfg, d) && Possible(cfg, d, m)
    ensures Sum(cfg.ws, TallyAfter(cfg, d, m), StepsOf) == Sum(cfg.ws, d.tally, StepsOf) + (if m.Env? then 0 else 1)
  {
    if !m.Env? {
      TallyParts(cfg, d, m);
      assert StepsOf(TallyAfter(cfg, d, m)[m.w]) == StepsOf(d.tally[m.w]) + 1;
      SumUpdate(cfg.ws, d.tally, m.w, TallyAfter(cfg, d, m)[m.w], StepsOf);
    }
  }

  lemma {:induction false} StepsCounted(cfg: Config, d: System, ms: seq<Move>, e: System)
    requires NoRepeats(cfg.ws) && Fits(cfg, d) && Moves(cfg, d, ms, e)
    ensures Sum(cfg.ws, e.tally, StepsOf) == Sum(cfg.ws, d.tally, StepsOf) + SlotMoves(ms)
    decreases |ms|
  {
    if ms != [] {
      StepCounted(cfg, d, ms[0]);
      FitsStep(cfg, d, ms[0]);
      StepsCounted(cfg, Do(cfg, d, ms[0]), ms[1..], e);
    }
  }

  /** Drain terminates: whatever the interleaving, its slots make no more moves than this, and
      by `AlwaysAMove` they stop short of it only when all have exited. */
  lemma DrainTerminates(cfg: Config, d: System, ms: seq<Move>, e: System, ids: seq<nat>)
    requires Start(cfg, d) && Moves(cfg, d, ms, e) && (forall m :: m in ms ==> NoEnqueue(m)) && Lists(ids, d.q.jobs)
    ensures SlotMoves(ms) <= 6 * (|cfg.ws| * Budget(ids, d.q.jobs)) + 2 * |cfg.ws|
  {
    DrainBounds(cfg, d, ms, e, ids);
    StepsCounted(cfg, d, ms, e);
    SumZero(cfg.ws, d.tally);
  }

  // ---- progress ----

  lemma {:induction false} SetAsSeq(s: set<string>) returns (q: seq<string>)
    ensures forall k :: k in q <==> k in s
  {
    if s == {} {
      q := [];
    } else {
      var x :| x in s;
      var r := SetAsSeq(s - {x});
      q := [x] + r;
    }
  }

  lemma {:induction false} OldestExists(jobs: Table, ids: set<nat>) returns (id: nat)
    requires ids != {} && forall i :: i in ids ==> i in jobs
    ensures id in ids && forall i :: i in ids ==> jobs[id].runAt <= jobs[i].runAt
  {
    id :| id in ids;
    if ids != {id} {
      var j := OldestExists(jobs, ids - {id});
      if jobs[j].runAt < jobs[id].runAt { id := j; }
    }
  }

  /** No slot is ever stuck: one that has not exited can always make a move of its own, whether or
      not the kind of its job has a handler. */
  lemma AlwaysAMove(cfg: Config, d: System, w: string, handled: bool) returns (m: Move)
    requires Fits(cfg, d) && w in d.pc && !d.pc[w].Exited?
    ensures !m.Env? && m.w == w && Possible(cfg, d, m) && (m.TryAcquire? ==> m.handled == handled)
  {
    assert SlotOk(d.pc[w], d.q.slots[w], w in d.held);
    assert !d.q.slots[w].Idle? ==> Anchored(d.q, w, d.q.slots[w]);
    match d.pc[w]
    case Top =>
      var full := SetAsSeq(set k | k in cfg.cap && AtCap(cfg, d, k));
      m := ReadFull(w, full);
    case Read(full) =>
      var due := set id | id in d.q.jobs && Claimable(d.q.jobs, id, d.q.now, cfg.only, cfg.skip + full);
      if due == {} {
        forall id ensures !Claimable(d.q.jobs, id, d.q.now, cfg.only, cfg.skip + full) { assert id !in due; }
        m := FindNone(w);
      } else {
        var id := OldestExists(d.q.jobs, due);
        forall other | Claimable(d.q.jobs, other, d.q.now, cfg.only, cfg.skip + full) ensures other in due {}
        m := Move.Claim(w, id);
      }
    case Busy =>
      m := if d.q.slots[w].Claimed? then TryAcquire(w, handled)
      else if d.q.slots[w].Handling? then Return(w, true)
      else Move.Record(w);
    case Lost => m := Requeue(w);
    case Freeing => m := Release(w);
  }
}
