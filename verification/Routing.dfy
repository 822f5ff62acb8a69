/** Who claims what: worker ids per slot, and the kind filter of a pod's role
    (internal/jobs/local.go workerID, internal/jobs/jobs.go DeriveKindFilter). */
module Routing {
  import opened Rows
  import opened Decimal

  /** The id stamped into `lockedBy`: bare for a single worker, one per slot otherwise. */
  function WorkerId(pod: string, workers: nat, slot: nat): string {
    if workers <= 1 then pod else pod + "#" + Digits(slot)
  }

  lemma SplitAtHash(p: string, q: string, a: string, b: string)
    requires '#' !in p && '#' !in q && p + "#" + a == q + "#" + b
    ensures p == q && a == b
  {
    var s, t := p + "#" + a, q + "#" + b;
    assert s[|p|] == '#' && t[|q|] == '#';
    forall i | 0 <= i < |p| ensures s[i] != '#' { assert s[i] == p[i]; }
    forall i | 0 <= i < |q| ensures t[i] != '#' { assert t[i] == q[i]; }
    assert |p| == |q|;
    assert p == s[..|p|] && q == t[..|p|];
    assert a == s[|p| + 1..] && b == t[|p| + 1..];
  }

  lemma HashMarksSlots(p: string, m: nat, i: nat)
    requires '#' !in p
    ensures '#' in WorkerId(p, m, i) <==> m > 1
  {
    if m > 1 { assert WorkerId(p, m, i)[|p|] == '#'; }
  }

  /** Slots never share an id, within a pod or across pods whose host names hold no '#'. */
  lemma WorkerIdsUnique(p: string, m: nat, i: nat, q: string, n: nat, j: nat)
    requires '#' !in p && '#' !in q && i < m && j < n
    requires WorkerId(p, m, i) == WorkerId(q, n, j)
    ensures p == q && i == j
  {
    HashMarksSlots(p, m, i);
    HashMarksSlots(q, n, j);
    if m > 1 {
      SplitAtHash(p, q, Digits(i), Digits(j));
      DigitsInjective(i, j);
    }
  }

  /** A single worker goes by its pod's name alone. */
  lemma WorkerIdNames(p: string)
    ensures WorkerId(p, 1, 0) == p && WorkerId(p, 3, 0) == p + "#0" && WorkerId(p, 3, 2) == p + "#2"
  {
    assert "#" + Digits(0) == "#0" && "#" + Digits(2) == "#2";
  }

  datatype Filter = Filter(only: seq<string>, skip: seq<string>)

  /** An explicit override wins entirely; otherwise the role decides. */
  function DeriveKindFilter(role: string, offload: seq<string>, envOnly: seq<string>, envSkip: seq<string>): Filter {
    if |envOnly| > 0 || |envSkip| > 0 then Filter(envOnly, envSkip)
    else if role == "worker" then Filter(offload, [])
    else if role == "server" then Filter([], offload)
    else Filter([], [])
  }

  predicate Admits(f: Filter, kind: string) { Routed(kind, f.only, f.skip) }

  /** Who claims what.  An override holds for every role; without one a worker claims the offloaded
      kinds, if there are any, a server all others, and any other role everything. */
  lemma RoleKinds(role: string, offload: seq<string>, envOnly: seq<string>, envSkip: seq<string>, kind: string)
    ensures envOnly != [] || envSkip != [] ==>
              (Admits(DeriveKindFilter(role, offload, envOnly, envSkip), kind) <==>
                 (kind in envOnly || envOnly == []) && kind !in envSkip)
    ensures offload != [] ==> (Admits(DeriveKindFilter("worker", offload, [], []), kind) <==> kind in offload)
    ensures Admits(DeriveKindFilter("server", offload, [], []), kind) <==> kind !in offload
    ensures role != "worker" && role != "server" ==> Admits(DeriveKindFilter(role, offload, [], []), kind)
  {}

  /** Without an override, every kind is claimed by exactly one of the two roles precisely when
      some kind is marked for offload: with none, the worker's empty list admits everything. */
  lemma RolesSplitKinds(offload: seq<string>)
    ensures var worker := DeriveKindFilter("worker", offload, [], []);
            var server := DeriveKindFilter("server", offload, [], []);
            (forall kind :: Admits(worker, kind) <==> !Admits(server, kind)) <==> offload != []
  {
    var worker, server := DeriveKindFilter("worker", offload, [], []), DeriveKindFilter("server", offload, [], []);
    if offload == [] {
      assert Admits(worker, "") && Admits(server, "");
    }
  }
}
