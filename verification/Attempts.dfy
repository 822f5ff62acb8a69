/** The attempts that jobs have left: what claims use up and refunds give back. */
module Attempts {
  import opened Basics
  import opened Rows

  function Left(jobs: Table, id: nat): nat {
    if id in jobs && jobs[id].attempts < jobs[id].maxAttempts then jobs[id].maxAttempts - jobs[id].attempts else 0
  }

  /** The sum over a list of jobs. */
  function Budget(ids: seq<nat>, jobs: Table): nat {
    if ids == [] then 0 else Left(jobs, ids[0]) + Budget(ids[1..], jobs)
  }

  /** The jobs of the table, each listed once. */
  ghost predicate Lists(ids: seq<nat>, jobs: Table) {
    NoRepeats(ids) && forall id :: id in ids <==> id in jobs
  }

  /** A change to one job changes the budget by that job's difference. */
  lemma {:induction false} BudgetOne(ids: seq<nat>, jobs: Table, jobs': Table, id: nat)
    requires NoRepeats(ids) && forall i: nat :: i != id ==> Left(jobs', i) == Left(jobs, i)
    ensures Budget(ids, jobs') == Budget(ids, jobs) + (if id in ids then Left(jobs', id) - Left(jobs, id) else 0)
  {
    if ids != [] {
      assert id in ids <==> id == ids[0] || id in ids[1..];
      BudgetOne(ids[1..], jobs, jobs', id);
    }
  }
}
