/** The lease: while every live run heartbeats in time, the reaper leaves it alone and no two
    runs of one job overlap. */
module Lease {
  import opened Rows
  import opened Protocol

  /** From the claim until the handler has returned. */
  predicate Live(slot: Slot) { slot.Claimed? || slot.Handling? }

  /** Slot `w` has a live run of job `id`. */
  predicate LiveOn(s: State, w: string, id: nat) {
    w in s.slots && Live(s.slots[w]) && s.slots[w].c.id == id
  }

  /** Every live run of the job that still holds its row has heartbeaten, or claimed, within the
      lease. */
  predicate Timely(s: State, id: nat, lease: int) {
    forall w :: w in s.slots && LiveOn(s, w, id) && Matches(s, w, s.slots[w].c) ==> s.now - s.slots[w].c.beat <= lease
  }

  /** A run that is timely for the job in every state it visits and whose reapers use at least
      this lease. */
  predicate TimelyRun(s: State, acts: seq<Action>, t: State, id: nat, lease: int)
    decreases |acts|
  {
    && Timely(s, id, lease)
    && if acts == [] then s == t
       else
         && Enabled(s, acts[0])
         && (acts[0].Reap? ==> lease <= acts[0].ttl)
         && TimelyRun(Apply(s, acts[0]), acts[1..], t, id, lease)
  }

  /** A live run of the job holds its row with a stamp no older than its own last beat, or was
      cancelled by an admin. */
  ghost predicate Holds(s: State, w: string, id: nat) {
    LiveOn(s, w, id) ==>
      && id in s.jobs
      && HeldSince(s.jobs[id], w, s.slots[w].c.beat)
  }

  predicate HeldSince(r: Row, w: string, beat: int) {
    r.status.Cancelled? || (OwnedBy(r, w) && r.heartbeatAt.Some? && beat <= r.heartbeatAt.value)
  }

  /** No two live runs of the job. */
  ghost predicate Exclusive(s: State, id: nat) {
    forall v, w :: LiveOn(s, v, id) && LiveOn(s, w, id) ==> v == w
  }

  ghost predicate LeaseInv(s: State, id: nat) {
    Inv(s) && Exclusive(s, id) && forall w :: Holds(s, w, id)
  }

  /** Where a slot with a live run of the job comes from. */
  lemma LiveStep(s: State, a: Action, w: string, id: nat)
    requires Enabled(s, a) && LiveOn(Apply(s, a), w, id)
    ensures var beat := Apply(s, a).slots[w].c.beat;
            || (a == ClaimJob(w, id) && beat == s.now)
            || (&& LiveOn(s, w, id)
                && !(IsWrite(a) && a.w == w)
                && (|| beat == s.slots[w].c.beat
                    || (a == Beat(w) && Matches(s, w, s.slots[w].c) && beat == s.now)))
  {}

  /** `r'` is `a` away from `r`, the row of the job that `w` runs. */
  lemma HeldRow(s: State, a: Action, w: string, id: nat, r: Row, r': Row, beat: int, beat': int, lease: int)
    requires LiveOn(s, w, id) && !(IsWrite(a) && a.w == w) && (a.Reap? ==> lease <= a.ttl)
    requires RowStep(s, a, id, r, r') && HeldSince(r, w, beat)
    requires OwnedBy(r, w) ==> s.now - beat <= lease && beat <= s.now
    requires beat' == beat || (a == Beat(w) && OwnedBy(r, w) && beat' == s.now && r' == BeatRow(r, s.now))
    ensures HeldSince(r', w, beat')
  {}

  lemma HoldsStep(s: State, a: Action, id: nat, lease: int, w: string)
    requires LeaseInv(s, id) && Timely(s, id, lease) && Enabled(s, a) && (a.Reap? ==> lease <= a.ttl)
    ensures Holds(Apply(s, a), w, id)
  {
    var t := Apply(s, a);
    if LiveOn(t, w, id) {
      LiveStep(s, a, w, id);
      if a != ClaimJob(w, id) {
        assert Holds(s, w, id) && Anchored(s, w, s.slots[w]);
        StepRow(s, a, id);
        HeldRow(s, a, w, id, s.jobs[id], t.jobs[id], s.slots[w].c.beat, t.slots[w].c.beat, lease);
      }
    }
  }

  lemma ExclusiveStep(s: State, a: Action, id: nat)
    requires LeaseInv(s, id) && Enabled(s, a)
    ensures Exclusive(Apply(s, a), id)
  {
    var t := Apply(s, a);
    forall v, w | LiveOn(t, v, id) && LiveOn(t, w, id) ensures v == w {
      LiveStep(s, a, v, id);
      LiveStep(s, a, w, id);
      assert Holds(s, v, id) && Holds(s, w, id);
    }
  }

  lemma LeaseStep(s: State, a: Action, id: nat, lease: int)
    requires LeaseInv(s, id) && Timely(s, id, lease) && Enabled(s, a) && (a.Reap? ==> lease <= a.ttl)
    ensures LeaseInv(Apply(s, a), id)
  {
    InvStep(s, a);
    ExclusiveStep(s, a, id);
    forall w ensures Holds(Apply(s, a), w, id) { HoldsStep(s, a, id, lease, w); }
  }

  lemma {:induction false} LeaseRun(s: State, acts: seq<Action>, t: State, id: nat, lease: int)
    requires LeaseInv(s, id) && TimelyRun(s, acts, t, id, lease)
    ensures LeaseInv(t, id) && Timely(t, id, lease)
    decreases |acts|
  {
    if acts != [] {
      LeaseStep(s, acts[0], id, lease);
      LeaseRun(Apply(s, acts[0]), acts[1..], t, id, lease);
    }
  }

  /** Lease mutual exclusion, job by job.  In every run that is timely for a job, late as the beats
      of others may be, no two live runs of it overlap, and a reaper using at least that lease does
      not take its row from a live run. */
  lemma LeaseExclusion(s: State, acts: seq<Action>, t: State, id: nat, lease: int, ttl: int)
    requires Init(s) && TimelyRun(s, acts, t, id, lease) && lease <= ttl
    ensures Exclusive(t, id)
    ensures forall w :: LiveOn(t, w, id) ==> id in t.jobs && Apply(t, Reap(ttl)).jobs[id] == t.jobs[id]
  {
    LeaseRun(s, acts, t, id, lease);
    forall w | LiveOn(t, w, id) ensures id in t.jobs && Apply(t, Reap(ttl)).jobs[id] == t.jobs[id] {
      assert Holds(t, w, id);
    }
  }

  /** What the beats are for.  With an attempt left and another slot idle, a reaper makes way for a
      second live run of the job exactly when the row of the first has lapsed. */
  lemma LapseLetsRunsOverlap(s: State, id: nat, w: string, v: string, ttl: int)
    requires LeaseInv(s, id) && LiveOn(s, w, id) && v in s.slots && s.slots[v].Idle?
    requires id in s.jobs && OwnedBy(s.jobs[id], w) && s.jobs[id].attempts < s.jobs[id].maxAttempts
    ensures var t := Apply(s, Reap(ttl));
            && (Enabled(t, ClaimJob(v, id)) <==> Stale(s.jobs[id], s.now, ttl))
            && (Enabled(t, ClaimJob(v, id)) ==> !Exclusive(Apply(t, ClaimJob(v, id)), id))
  {
    var t := Apply(s, Reap(ttl));
    if Enabled(t, ClaimJob(v, id)) {
      var u := Apply(t, ClaimJob(v, id));
      assert LiveOn(u, v, id) && LiveOn(u, w, id);
    }
  }
}
