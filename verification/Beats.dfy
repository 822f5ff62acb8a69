/** Heartbeats against a fencing token.

    The heartbeat goroutine is told to stop but not awaited (internal/jobs/exec.go), so a beat of
    one claim may land after the run, and even after the job has been claimed anew.  The guard of
    the statement knows the slot but not the claim. */
module Beats {
  import opened Rows
  import opened Protocol
  import opened Fencing

  /** Action `i` is the claim of job `id` by slot `w` that has number `e`. */
  predicate ClaimsAs(acts: seq<Action>, i: nat, w: string, id: nat, e: nat) {
    i < |acts| && acts[i] == ClaimJob(w, id) && ClaimCount(acts[..i + 1], id) == e
  }

  /** After action `i` the slot claims the job again. */
  predicate ClaimedAgain(acts: seq<Action>, i: nat, w: string, id: nat) {
    exists j :: i < j < |acts| && acts[j] == ClaimJob(w, id)
  }

  /** A beat of claim `e` would land on a row that is not running under that claim. */
  ghost predicate Strays(t: State, w: string, id: nat, e: nat) {
    id in t.jobs && OwnedBy(t.jobs[id], w) && !FenceAt(t, id, e)
  }

  // ---- counting claims ----

  lemma {:induction false} ClaimCountSplit(a: seq<Action>, b: seq<Action>, id: nat)
    ensures ClaimCount(a + b, id) == ClaimCount(a, id) + ClaimCount(b, id)
  {
    if a == [] {
      assert a + b == b;
    } else {
      ClaimCountSplit(a[1..], b, id);
      assert (a + b)[1..] == a[1..] + b;
    }
  }

  predicate Claims(a: Action, id: nat) { a.ClaimJob? && a.id == id }

  lemma {:induction false} ClaimCountZero(acts: seq<Action>, id: nat)
    ensures ClaimCount(acts, id) == 0 <==> forall j :: 0 <= j < |acts| ==> !Claims(acts[j], id)
  {
    if acts != [] {
      ClaimCountZero(acts[1..], id);
      assert forall j :: 0 <= j < |acts| - 1 ==> acts[1..][j] == acts[j + 1];
      assert (forall j :: 0 <= j < |acts| ==> !Claims(acts[j], id)) <==>
             !Claims(acts[0], id) && forall j :: 0 <= j < |acts[1..]| ==> !Claims(acts[1..][j], id);
    }
  }

  /** Claims after action `i` are exactly what raises the count beyond its number. */
  lemma ClaimCountAfter(acts: seq<Action>, i: nat, id: nat)
    requires i < |acts|
    ensures ClaimCount(acts, id) == ClaimCount(acts[..i + 1], id)
            <==> forall j :: i < j < |acts| ==> !Claims(acts[j], id)
  {
    var a, b := acts[..i + 1], acts[i + 1..];
    assert acts == a + b;
    ClaimCountSplit(a, b, id);
    ClaimCountZero(b, id);
    assert forall j :: i < j < |acts| ==> acts[j] == b[j - i - 1];
    assert forall j :: 0 <= j < |b| ==> b[j] == acts[j + i + 1];
  }

  /** A step that leaves a row running either claimed it or found it running under the same slot. */
  lemma RunningBefore(u: State, a: Action, id: nat)
    requires Enabled(u, a) && id in Apply(u, a).jobs && Apply(u, a).jobs[id].status.Running?
    ensures if Claims(a, id) then Apply(u, a).jobs[id].lockedBy == a.w
            else id in u.jobs && u.jobs[id].status.Running? && u.jobs[id].lockedBy == Apply(u, a).jobs[id].lockedBy
  {
    if id in u.jobs { StepRow(u, a, id); }
  }

  /** A running row was last claimed by the slot that its `lockedBy` names. */
  lemma {:induction false} OwnerClaimedLast(s: State, acts: seq<Action>, t: State, id: nat) returns (i: nat)
    requires Init(s) && Run(s, acts, t) && id in t.jobs && t.jobs[id].status.Running?
    ensures i < |acts| && acts[i] == ClaimJob(t.jobs[id].lockedBy, id)
    ensures forall j :: i < j < |acts| ==> !Claims(acts[j], id)
    decreases |acts|
  {
    var n := |acts| - 1;
    var u := RunSplit(s, acts, t, n);
    var a := acts[n];
    assert acts[n..] == [a] && [a][1..] == [];
    assert Run(u, [a], t) && t == Apply(u, a);
    RunningBefore(u, a, id);
    if Claims(a, id) {
      i := n;
    } else {
      i := OwnerClaimedLast(s, acts[..n], u, id);
      forall j | i < j < |acts| ensures !Claims(acts[j], id) { assert j < n ==> acts[..n][j] == acts[j]; }
    }
  }

  // ---- when a beat leaves its claim ----

  lemma StraysMeansClaimedAgain(s: State, acts: seq<Action>, t: State, i: nat, w: string, id: nat, e: nat)
    requires Init(s) && Run(s, acts, t) && ClaimsAs(acts, i, w, id, e) && id in t.jobs && OwnedBy(t.jobs[id], w)
    ensures id in t.hist && (t.hist[id].claims != e <==> ClaimedAgain(acts, i, w, id))
  {
    InvInit(s);
    InvReachable(s, acts, t);
    HistCounts(s, acts, t, id);
    ClaimCountAfter(acts, i, id);
    var k := OwnerClaimedLast(s, acts, t, id);
    assert Claims(acts[i], id);
    if !ClaimedAgain(acts, i, w, id) {
      assert k == i;
    } else {
      var j :| i < j < |acts| && acts[j] == ClaimJob(w, id);
      assert Claims(acts[j], id);
    }
  }

  /** The exact condition.  Take any reachable state and any claim of a job that a slot has made
      on the way.  A beat of that claim touches no other row and no other column; it lands outside
      its fence exactly when the row is running, locked by the slot, under another claim; and that
      is so exactly when the slot holds the row and has claimed the job again since. */
  lemma StrayBeatStaysWithSlot(s: State, acts: seq<Action>, t: State, i: nat, w: string, id: nat, e: nat)
    requires Init(s) && Run(s, acts, t) && w in t.slots && ClaimsAs(acts, i, w, id, e)
    ensures var u := Apply(t, StrayBeat(w, id, e));
            && u.jobs.Keys == t.jobs.Keys && u.slots == t.slots
            && (forall k :: k in t.jobs && k != id ==> u.jobs[k] == t.jobs[k])
            && (u.jobs != t.jobs ==> id in t.jobs && OwnedBy(t.jobs[id], w) && u.jobs[id] == BeatRow(t.jobs[id], t.now))
    ensures Strays(t, w, id, e) <==> id in t.jobs && id in t.hist && OwnedBy(t.jobs[id], w) && t.hist[id].claims != e
    ensures Strays(t, w, id, e) <==> id in t.jobs && OwnedBy(t.jobs[id], w) && ClaimedAgain(acts, i, w, id)
  {
    if id in t.jobs && OwnedBy(t.jobs[id], w) { StraysMeansClaimedAgain(s, acts, t, i, w, id, e); }
  }

  // ---- a run without strays ----

  /** Every stray beat of the job belongs to an earlier claim of it by its slot. */
  predicate BeatsOfClaims(acts: seq<Action>, id: nat) {
    forall k: nat :: k < |acts| && acts[k].StrayBeat? && acts[k].id == id ==>
      exists i: nat :: i < k && ClaimsAs(acts, i, acts[k].w, id, acts[k].epoch)
  }

  /** No slot claims the job again while a beat of its earlier claim of it is outstanding. */
  predicate NoClaimWhileOutstanding(acts: seq<Action>, id: nat) {
    forall i: nat, j: nat, k: nat ::
      && i < j < k < |acts|
      && acts[k].StrayBeat? && acts[k].id == id && ClaimsAs(acts, i, acts[k].w, id, acts[k].epoch) ==>
        acts[j] != ClaimJob(acts[k].w, id)
  }

  /** The claim a heartbeat speaks for. */
  function BeatOf(u: State, a: Action): (nat, nat)
    requires Enabled(u, a) && (a.Beat? || a.StrayBeat?)
  {
    if a.Beat? then (u.slots[a.w].c.id, u.slots[a.w].c.epoch) else (a.id, a.epoch)
  }

  lemma ClaimsAsPrefix(acts: seq<Action>, n: nat, i: nat, w: string, id: nat, e: nat)
    requires i < n <= |acts|
    ensures ClaimsAs(acts[..n], i, w, id, e) <==> ClaimsAs(acts, i, w, id, e)
  {
    assert acts[..n][..i + 1] == acts[..i + 1];
  }

  /** Under that condition the heartbeats for a job are fenced: over every such run, each one that
      changes the table finds its row running under its own claim. */
  lemma BeatsAreFenced(s: State, acts: seq<Action>, t: State, n: nat, u: State, id: nat)
    requires Init(s) && n < |acts| && Run(s, acts[..n], u) && Run(u, acts[n..], t)
    requires BeatsOfClaims(acts, id) && NoClaimWhileOutstanding(acts, id)
    requires acts[n].Beat? || (acts[n].StrayBeat? && acts[n].id == id)
    ensures Enabled(u, acts[n])
    ensures Apply(u, acts[n]).jobs != u.jobs ==> FenceAt(u, BeatOf(u, acts[n]).0, BeatOf(u, acts[n]).1)
  {
    var a := acts[n];
    InvReachable(s, acts[..n], u);
    if a.Beat? {
      GuardMatchesFence(u, a.w);
    } else {
      var i: nat :| i < n && ClaimsAs(acts, i, a.w, a.id, a.epoch);
      ClaimsAsPrefix(acts, n, i, a.w, a.id, a.epoch);
      StrayBeatStaysWithSlot(s, acts[..n], u, i, a.w, a.id, a.epoch);
      assert !ClaimedAgain(acts[..n], i, a.w, a.id);
    }
  }

  // ---- and one with a stray ----

  /** The job of `Fencing.FirstClaim` fails, is queued again for 30 seconds later, and the same slot claims it then. */
  lemma SecondClaim() returns (s: State, acts: seq<Action>, t: State)
    ensures Init(s) && Run(s, acts, t)
    ensures t.now == 32000 && "pod" in t.slots && 7 in t.jobs && t.slots["pod"] == Claimed(Claim(7, 2, 2, 3, 30000))
    ensures t.jobs[7] ==
              Row("k", "", Running, 2, 3, "handler error", 30000, Some(30000), None, "pod", Some(30000), Some(30000))
  {
    s, acts, t := FirstClaim();
    RunExtend(s, acts, t, HandlerReturn("pod", false));
    acts, t := acts + [HandlerReturn("pod", false)], Apply(t, HandlerReturn("pod", false));
    RunExtend(s, acts, t, Record("pod", false));
    acts, t := acts + [Record("pod", false)], Apply(t, Record("pod", false));
    RunExtend(s, acts, t, Tick(30000));
    acts, t := acts + [Tick(30000)], Apply(t, Tick(30000));
    RunExtend(s, acts, t, ClaimJob("pod", 7));
    acts, t := acts + [ClaimJob("pod", 7)], Apply(t, ClaimJob("pod", 7));
    RunExtend(s, acts, t, Tick(2000));
    acts, t := acts + [Tick(2000)], Apply(t, Tick(2000));
  }

  /** The guard is weaker than a fencing token for heartbeats.  In a reachable state where the
      slot is in claim 2 of a job and the reaper would take the row, a beat left over from claim
      1 refreshes the row and the reaper leaves it. */
  lemma StrayBeatCrossesEpochs() returns (s: State, acts: seq<Action>, t: State)
    ensures Init(s) && Run(s, acts, t) && Strays(t, "pod", 7, 1)
    ensures "pod" in t.slots && t.slots["pod"].Claimed? && t.slots["pod"].c.epoch == 2 && 7 in t.jobs
    ensures Apply(t, Reap(SECOND)).jobs[7].status.Queued?
    ensures Apply(Apply(t, StrayBeat("pod", 7, 1)), Reap(SECOND)).jobs[7].status.Running?
  {
    s, acts, t := SecondClaim();
    InvReachable(s, acts, t);
  }
}
