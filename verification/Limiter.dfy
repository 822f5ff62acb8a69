/** The two concurrency limiters of internal/jobs/limiter.go. */
module Limiter {
  import opened Rows

  // ---- the in-process limiter ----

  /** Acquisitions of `kind` whose release function has not run. */
  ghost function Unreleased(tickets: map<nat, string>, spent: set<nat>, kind: string): set<nat> {
    set t | t in tickets && tickets[t] == kind && t !in spent
  }

  function CountIn(counts: map<string, int>, kind: string): int {
    if kind in counts then counts[kind] else 0
  }

  /** The counters are the sizes of the sets of unreleased acquisitions. */
  ghost predicate Refines(counts: map<string, int>, tickets: map<nat, string>, spent: set<nat>) {
    forall kind :: CountIn(counts, kind) == |Unreleased(tickets, spent, kind)|
  }

  /** Whether an acquisition under `max` would be refused. */
  predicate Refused(held: nat, max: int) { max > 0 && held >= max }

  /** A counter per kind.  Every successful acquisition hands out a release function; it is
      identified here by a ticket, and `spent` is the state of the tickets' sync.Once. */
  class MemLimiter {
    var counts: map<string, int>
    var tickets: map<nat, string>
    var spent: set<nat>
    var nextTicket: nat

    ghost function Held(kind: string): set<nat>
      reads this
    {
      Unreleased(tickets, spent, kind)
    }

    function Count(kind: string): int
      reads this
    {
      CountIn(counts, kind)
    }

    /** The counter refines the set of unreleased acquisitions. */
    ghost predicate Valid()
      reads this
    {
      && (forall t :: t in tickets ==> t < nextTicket)
      && (forall t :: t in spent ==> t < nextTicket)
      && Refines(counts, tickets, spent)
    }

    constructor ()
      ensures Valid() && tickets == map[] && spent == {}
    {
      counts, tickets, spent, nextTicket := map[], map[], {}, 0;
      new;
      forall kind ensures CountIn(counts, kind) == |Unreleased(tickets, spent, kind)| {
        assert Unreleased(tickets, spent, kind) == {};
      }
    }

    /** Refused exactly at the cap.  A cap at or below zero is no cap: nothing is reserved and
        the release function does nothing. */
    method Acquire(kind: string, max: int) returns (ok: bool, ticket: Option<nat>)
      requires Valid()
      modifies this
      ensures Valid() && spent == old(spent)
      ensures ok <==> max <= 0 || |old(Held(kind))| < max
      ensures ticket.Some? <==> ok && max > 0
      ensures ticket.Some? ==> ticket.value !in old(tickets) && tickets == old(tickets)[ticket.value := kind]
      ensures ticket.Some? ==> Held(kind) == old(Held(kind)) + {ticket.value} && |Held(kind)| <= max
      ensures ticket.None? ==> tickets == old(tickets) && Held(kind) == old(Held(kind))
      ensures forall k :: k != kind ==> Held(k) == old(Held(k))
    {
      if max <= 0 { return true, None; }
      if Count(kind) >= max { return false, None; }
      assert Count(kind) == |Held(kind)|;
      HeldAfterAcquire(counts, tickets, spent, nextTicket, kind);
      counts := counts[kind := Count(kind) + 1];
      tickets := tickets[nextTicket := kind];
      ok, ticket := true, Some(nextTicket);
      nextTicket := nextTicket + 1;
    }

    /** The release function of `ticket`: frees its slot once; every further call does nothing.
        Its positive-count guard never matters, the first call always takes one off the count. */
    method Release(ticket: nat)
      requires Valid() && ticket in tickets
      modifies this`counts, this`spent
      ensures Valid() && spent == old(spent) + {ticket}
      ensures Held(tickets[ticket]) == old(Held(tickets[ticket])) - {ticket}
      ensures forall k :: k != tickets[ticket] ==> Held(k) == old(Held(k))
      ensures Count(tickets[ticket]) == old(Count(tickets[ticket])) - (if ticket in old(spent) then 0 else 1)
    {
      if ticket !in spent {
        HeldAfterRelease(counts, tickets, spent, ticket);
        spent := spent + {ticket};
        var kind := tickets[ticket];
        if Count(kind) > 0 { counts := counts[kind := Count(kind) - 1]; }
      } else {
        assert spent == spent + {ticket};
        assert Held(tickets[ticket]) == Held(tickets[ticket]) - {ticket};
      }
    }

    /** Exactly the limited kinds whose next Acquire would be refused, each once. */
    method Excluded(limits: map<string, int>) returns (out: seq<string>)
      requires Valid()
      ensures forall k :: k in out <==> k in limits && 0 < limits[k] <= |Held(k)|
      ensures forall i, j :: 0 <= i < j < |out| ==> out[i] != out[j]
    {
      out := [];
      var rest := limits.Keys;
      while rest != {}
        invariant rest <= limits.Keys
        invariant forall k :: k in out <==> k in limits && k !in rest && Refused(|Held(k)|, limits[k])
        invariant forall i, j :: 0 <= i < j < |out| ==> out[i] != out[j]
        decreases |rest|
      {
        var k :| k in rest;
        if limits[k] > 0 && Count(k) >= limits[k] { out := out + [k]; }
        rest := rest - {k};
      }
    }
  }

  lemma UnreleasedAdd(tickets: map<nat, string>, spent: set<nat>, ticket: nat, kind: string, k: string)
    requires ticket !in tickets && ticket !in spent
    ensures Unreleased(tickets[ticket := kind], spent, k)
            == Unreleased(tickets, spent, k) + (if k == kind then {ticket} else {})
    ensures |Unreleased(tickets[ticket := kind], spent, k)|
            == |Unreleased(tickets, spent, k)| + (if k == kind then 1 else 0)
  {
    assert ticket !in Unreleased(tickets, spent, k);
  }

  lemma UnreleasedRemove(tickets: map<nat, string>, spent: set<nat>, ticket: nat, k: string)
    requires ticket in tickets && ticket !in spent
    ensures Unreleased(tickets, spent + {ticket}, k)
            == Unreleased(tickets, spent, k) - (if k == tickets[ticket] then {ticket} else {})
    ensures |Unreleased(tickets, spent + {ticket}, k)|
            == |Unreleased(tickets, spent, k)| - (if k == tickets[ticket] then 1 else 0)
  {
    assert ticket in Unreleased(tickets, spent, tickets[ticket]);
  }

  lemma HeldAfterAcquire(counts: map<string, int>, tickets: map<nat, string>, spent: set<nat>, ticket: nat,
      kind: string)
    requires Refines(counts, tickets, spent) && ticket !in tickets && ticket !in spent
    ensures forall k :: Unreleased(tickets[ticket := kind], spent, k)
                        == Unreleased(tickets, spent, k) + (if k == kind then {ticket} else {})
    ensures Refines(counts[kind := CountIn(counts, kind) + 1], tickets[ticket := kind], spent)
  {
    var counts', tickets' := counts[kind := CountIn(counts, kind) + 1], tickets[ticket := kind];
    forall k
      ensures Unreleased(tickets', spent, k) == Unreleased(tickets, spent, k) + (if k == kind then {ticket} else {})
      ensures CountIn(counts', k) == |Unreleased(tickets', spent, k)|
    {
      UnreleasedAdd(tickets, spent, ticket, kind, k);
    }
  }

  lemma HeldAfterRelease(counts: map<string, int>, tickets: map<nat, string>, spent: set<nat>, ticket: nat)
    requires Refines(counts, tickets, spent) && ticket in tickets && ticket !in spent
    ensures forall k :: Unreleased(tickets, spent + {ticket}, k)
                        == Unreleased(tickets, spent, k) - (if k == tickets[ticket] then {ticket} else {})
    ensures CountIn(counts, tickets[ticket]) > 0
    ensures Refines(counts[tickets[ticket] := CountIn(counts, tickets[ticket]) - 1], tickets, spent + {ticket})
  {
    var kind, spent' := tickets[ticket], spent + {ticket};
    var counts' := counts[kind := CountIn(counts, kind) - 1];
    assert ticket in Unreleased(tickets, spent, kind);
    forall k
      ensures Unreleased(tickets, spent', k) == Unreleased(tickets, spent, k) - (if k == kind then {ticket} else {})
      ensures CountIn(counts', k) == |Unreleased(tickets, spent', k)|
    {
      UnreleasedRemove(tickets, spent, ticket, k);
    }
  }

  // ---- the fleet-wide limiter ----

  /** A sorted set: holders with their last stamp. */
  type ZSet = map<string, int>

  /** Scores are whole seconds, and so is the cutoff: both lose the fraction, as Time.Unix does. */
  function Stamp(at: int): int { at / SECOND }

  function Cutoff(now: int, ttl: int): int { Stamp(now - ttl) }

  function Prune(z: ZSet, cutoff: int): ZSet {
    map h | h in z && z[h] > cutoff :: z[h]
  }

  /** Whose stamp, as an instant in milliseconds, is less than a TTL old. */
  ghost function Living(z: ZSet, now: int, ttl: int): set<string> { set h | h in z && 1000 * z[h] > now - ttl }

  lemma PruneKeepsLiving(z: ZSet, now: int, ttl: int)
    ensures Prune(z, Cutoff(now, ttl)).Keys == Living(z, now, ttl)
    ensures |Prune(z, Cutoff(now, ttl))| == |Living(z, now, ttl)|
  {
    forall h | h in z ensures z[h] > Cutoff(now, ttl) <==> 1000 * z[h] > now - ttl {}
  }

  /** At the cap, once holders whose stamp is at or below the cutoff are pruned. */
  predicate Full(z: ZSet, now: int, ttl: int, max: int) { |Prune(z, Cutoff(now, ttl))| >= max }

  /** acquireScript: prune, then add the holder if there is room. */
  function Reserve(z: ZSet, now: int, ttl: int, max: int, holder: string): (ZSet, bool) {
    var live := Prune(z, Cutoff(now, ttl));
    if |live| < max then (live[holder := Stamp(now)], true) else (live, false)
  }

  /** ZADD XX: re-stamps a present holder, never adds one. */
  function Restamp(z: ZSet, now: int, holder: string): ZSet {
    if holder in z then z[holder := Stamp(now)] else z
  }

  function SetOf(sets: map<string, ZSet>, kind: string): ZSet {
    if kind in sets then sets[kind] else map[]
  }

  class RedisLimiter {
    var sets: map<string, ZSet>
    const ttl: int

    constructor (ttl: int)
      ensures sets == map[] && this.ttl == ttl
    {
      sets := map[];
      this.ttl := ttl;
    }

    method Acquire(now: int, kind: string, holder: string, max: int) returns (ok: bool)
      modifies this`sets
      ensures max <= 0 ==> ok && sets == old(sets)
      ensures max > 0 ==> (SetOf(sets, kind), ok) == Reserve(old(SetOf(sets, kind)), now, ttl, max, holder)
      ensures forall k :: k != kind ==> SetOf(sets, k) == old(SetOf(sets, k))
      ensures max > 0 ==>
                var z, live := SetOf(sets, kind), Living(old(SetOf(sets, kind)), now, ttl);
                && (ok <==> |live| < max)
                && z.Keys == (if ok then live + {holder} else live)
                && (forall h :: h in live && (h != holder || !ok) ==> z[h] == old(SetOf(sets, kind))[h])
                && (ok ==> 1000 * z[holder] <= now < 1000 * z[holder] + 1000)
    {
      if max <= 0 { return true; }
      PruneKeepsLiving(SetOf(sets, kind), now, ttl);
      var z := Prune(SetOf(sets, kind), Cutoff(now, ttl));
      ok := |z| < max;
      if ok { z := z[holder := Stamp(now)]; }
      sets := sets[kind := z];
    }

    method Refresh(now: int, kind: string, holder: string)
      modifies this`sets
      ensures SetOf(sets, kind) == Restamp(old(SetOf(sets, kind)), now, holder)
      ensures forall k :: k != kind ==> SetOf(sets, k) == old(SetOf(sets, k))
      ensures var z, z0 := SetOf(sets, kind), old(SetOf(sets, kind));
              && z.Keys == z0.Keys && (forall h :: h in z && h != holder ==> z[h] == z0[h])
              && (holder in z ==> 1000 * z[holder] <= now < 1000 * z[holder] + 1000)
    {
      if kind in sets && holder in sets[kind] {
        sets := sets[kind := sets[kind][holder := Stamp(now)]];
      }
    }

    method Release(kind: string, holder: string)
      modifies this`sets
      ensures SetOf(sets, kind) == old(SetOf(sets, kind)) - {holder}
      ensures forall k :: k != kind ==> SetOf(sets, k) == old(SetOf(sets, k))
    {
      if kind in sets { sets := sets[kind := sets[kind] - {holder}]; }
    }

    /** One kind of the Excluded pipeline: prune and count. */
    method PrunedCard(now: int, kind: string) returns (card: nat)
      modifies this`sets
      ensures sets == old(sets)[kind := Prune(old(SetOf(sets, kind)), Cutoff(now, ttl))]
      ensures card == |Prune(old(SetOf(sets, kind)), Cutoff(now, ttl))|
    {
      sets := sets[kind := Prune(SetOf(sets, kind), Cutoff(now, ttl))];
      card := |sets[kind]|;
    }

    /** Whether a kind is at its cap; an unlimited one never is. */
    method AtCap(now: int, kind: string, max: int) returns (full: bool)
      modifies this`sets
      ensures full <==> 0 < max <= |Living(old(SetOf(sets, kind)), now, ttl)|
      ensures SetOf(sets, kind) in [old(SetOf(sets, kind)), Prune(old(SetOf(sets, kind)), Cutoff(now, ttl))]
      ensures forall k :: k != kind ==> SetOf(sets, k) == old(SetOf(sets, k))
    {
      if max <= 0 { return false; }
      PruneKeepsLiving(SetOf(sets, kind), now, ttl);
      var card := PrunedCard(now, kind);
      full := card >= max;
    }

    /** Exactly the limited kinds that an Acquire at this instant would refuse. */
    method Excluded(now: int, limits: map<string, int>) returns (out: seq<string>)
      modifies this`sets
      ensures forall k :: k in out <==> k in limits && 0 < limits[k] <= |Living(old(SetOf(sets, k)), now, ttl)|
      ensures forall k :: SetOf(sets, k) in [old(SetOf(sets, k)), Prune(old(SetOf(sets, k)), Cutoff(now, ttl))]
    {
      out := [];
      var rest := limits.Keys;
      while rest != {}
        invariant rest <= limits.Keys
        invariant forall k :: k in rest ==> SetOf(sets, k) == old(SetOf(sets, k))
        invariant forall k :: SetOf(sets, k) in [old(SetOf(sets, k)), Prune(old(SetOf(sets, k)), Cutoff(now, ttl))]
        invariant forall k :: k in out <==>
                    k in limits && k !in rest && 0 < limits[k] <= |Living(old(SetOf(sets, k)), now, ttl)|
        decreases |rest|
      {
        var k :| k in rest;
        rest := rest - {k};
        var full := AtCap(now, k, limits[k]);
        if full { out := out + [k]; }
      }
    }
  }
}
