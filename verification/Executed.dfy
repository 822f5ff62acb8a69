/** The store's `execute` takes steps of `Protocol`: what it writes and announces is what the step
    writes and announces, so whatever holds of every run of the queue holds of it. */
module Executed {
  import opened Rows
  import opened Protocol
  import S = Store

  /** `job` is the row as slot `w` claimed it. */
  predicate CopyOf(job: Row, w: string, c: Claim) {
    job.lockedBy == w && job.attempts == c.attempts && job.maxAttempts == c.maxAttempts
  }

  /** For a kind without a handler. */
  lemma NoHandlerIsAStep(s: State, w: string, job: Row, cancelled: bool, ok: bool, error: string, storeErr: bool)
    requires Enabled(s, NoHandler(w, storeErr)) && CopyOf(job, w, s.slots[w].c)
    requires s.slots[w].c.id in s.jobs && job.kind == s.jobs[s.slots[w].c.id].kind
    ensures var id, t := s.slots[w].c.id, Apply(s, NoHandler(w, storeErr));
            && t.jobs == S.Recorded(s.jobs, s.now, id, job, false, cancelled, ok, error, storeErr)
            && t.slots == s.slots[w := Idle] && t.now == s.now
            && forall kept :: t.hist[id].notified ==
                 s.hist[id].notified + S.Said(false, cancelled, kept, ok, job.attempts, job.maxAttempts)
  {}

  /** For a handler that has returned: the result is recorded or, if the context was cancelled, the
      job is abandoned; and the write lands exactly when the row is still the slot's. */
  lemma ResultIsAStep(s: State, w: string, job: Row, cancelled: bool, storeErr: bool)
    requires w in s.slots && s.slots[w].Returned? && s.slots[w].c.id in s.hist && CopyOf(job, w, s.slots[w].c)
    ensures var Returned(c, ok) := s.slots[w];
            var a := if cancelled then Abandon(w) else Record(w, storeErr);
            var after := S.Recorded(s.jobs, s.now, c.id, job, true, cancelled, ok, "handler error", storeErr);
            && Enabled(s, a) && Apply(s, a).jobs == after && Apply(s, a).slots == s.slots[w := Idle]
            && (!cancelled && !storeErr ==> (after != s.jobs <==> Matches(s, w, c)))
            && Apply(s, a).hist[c.id].notified ==
                 s.hist[c.id].notified
                 + S.Said(true, cancelled, storeErr || after != s.jobs, ok, job.attempts, job.maxAttempts)
  {
    var Returned(c, ok) := s.slots[w];
    var after := S.Recorded(s.jobs, s.now, c.id, job, true, cancelled, ok, "handler error", storeErr);
    if !cancelled && !storeErr && Matches(s, w, c) { assert after[c.id].status != s.jobs[c.id].status; }
  }
}
