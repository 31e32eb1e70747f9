/** The capacity pool of module Capacity, updated in place. */
module CapacityControl {
  import opened Prelude
  import opened ModelRouting
  import opened Capacity

  lemma PruneStep(events: map<Scope, seq<Event>>, scopes: seq<Scope>, i: nat, cutoff: Instant)
    requires Distinct(scopes) && i < |scopes|
    ensures var s, partial := scopes[i], Pruned(events, scopes[..i], cutoff);
            && EventsOf(partial, s) == EventsOf(events, s)
            && Pruned(events, scopes[..i + 1], cutoff) == partial[s := Expire(EventsOf(events, s), cutoff)]
  {
    assert scopes[i] !in scopes[..i];
    assert scopes[..i + 1] == scopes[..i] + [scopes[i]];
  }

  lemma PrefixMembers(scopes: seq<Scope>, i: nat, x: Scope)
    requires Distinct(scopes) && i < |scopes|
    ensures scopes[i] !in scopes[..i] && (x in scopes[..i + 1] <==> x == scopes[i] || x in scopes[..i])
  {
    assert scopes[..i + 1] == scopes[..i] + [scopes[i]];
  }

  lemma BumpStep(active: map<Scope, int>, scopes: seq<Scope>, i: nat, delta: int)
    requires Distinct(scopes) && i < |scopes|
    ensures var s, partial := scopes[i], Bumped(active, scopes[..i], delta);
            Bumped(active, scopes[..i + 1], delta) == partial[s := ActiveOf(partial, s) + delta]
  {
    var s, left, partial := scopes[i], Bumped(active, scopes[..i + 1], delta), Bumped(active, scopes[..i], delta);
    var right := partial[s := ActiveOf(partial, s) + delta];
    forall x ensures x in left <==> x in right {
      PrefixMembers(scopes, i, x);
    }
    forall x | x in left ensures left[x] == right[x] {
      PrefixMembers(scopes, i, x);
    }
  }

  lemma AppendStep(events: map<Scope, seq<Event>>, scopes: seq<Scope>, i: nat, e: Event)
    requires Distinct(scopes) && i < |scopes|
    ensures var s, partial := scopes[i], Appended(events, scopes[..i], e);
            Appended(events, scopes[..i + 1], e) == partial[s := EventsOf(partial, s) + [e]]
  {
    assert scopes[i] !in scopes[..i];
    assert scopes[..i + 1] == scopes[..i] + [scopes[i]];
  }

  class HierarchicalCapacity {
    const limits: map<Scope, Limit>
    var active: map<Scope, int>
    var events: map<Scope, seq<Event>>
    var leases: map<Id, Lease>

    ghost function View(): Pool
      reads this
    {
      Pool(limits, active, events, leases)
    }

    /** Every lease was taken over distinct scopes. */
    ghost predicate Valid()
      reads this
    {
      forall id :: id in leases ==> Distinct(leases[id].scopes)
    }

    constructor (limits: map<Scope, Limit>)
      ensures View() == Pool(limits, map[], map[], map[]) && Valid()
    {
      this.limits := limits;
      active, events, leases := map[], map[], map[];
    }

    /** `_prune`. */
    method Prune(scopes: seq<Scope>, cutoff: Instant)
      requires Distinct(scopes)
      modifies this`events
      ensures events == Pruned(old(events), scopes, cutoff)
    {
      for i := 0 to |scopes|
        invariant events == Pruned(old(events), scopes[..i], cutoff)
      {
        PruneStep(old(events), scopes, i, cutoff);
        var queue := EventsOf(events, scopes[i]);
        while queue != [] && queue[0].at <= cutoff
          invariant Expire(queue, cutoff) == Expire(EventsOf(old(events), scopes[i]), cutoff)
          decreases |queue|
        {
          queue := queue[1..];
        }
        events := events[scopes[i] := queue];
      }
      assert scopes[..|scopes|] == scopes;
    }

    /** `_fits`. */
    method FitsNow(scopes: seq<Scope>, tokens: nat) returns (fits: bool)
      requires forall s :: s in scopes ==> s in limits
      ensures fits == FitsScopes(View(), scopes, tokens)
    {
      for i := 0 to |scopes|
        invariant forall j :: 0 <= j < i ==>
          Room(limits[scopes[j]], ActiveOf(active, scopes[j]), EventsOf(events, scopes[j]), tokens)
      {
        var limit, queue := limits[scopes[i]], EventsOf(events, scopes[i]);
        if limit.concurrency.Some? && ActiveOf(active, scopes[i]) >= limit.concurrency.value { return false; }
        if limit.requests.Some? && |queue| >= limit.requests.value { return false; }
        if limit.tokens.Some? && Tokens(queue) + tokens > limit.tokens.value { return false; }
      }
      return true;
    }

    /** Counts the operation in and logs it on every scope of its lease. */
    method Enter(scopes: seq<Scope>, e: Event)
      requires Distinct(scopes)
      modifies this`active, this`events
      ensures active == Bumped(old(active), scopes, 1)
      ensures events == Appended(old(events), scopes, e)
    {
      for i := 0 to |scopes|
        invariant active == Bumped(old(active), scopes[..i], 1)
        invariant events == Appended(old(events), scopes[..i], e)
      {
        BumpStep(old(active), scopes, i, 1);
        AppendStep(old(events), scopes, i, e);
        active := active[scopes[i] := ActiveOf(active, scopes[i]) + 1];
        events := events[scopes[i] := EventsOf(events, scopes[i]) + [e]];
      }
      assert scopes[..|scopes|] == scopes;
    }

    method AcquireFirst(operation: Operation, candidates: seq<Candidate>, now: Instant) returns (admission: Option<Admission>)
      requires Valid()
      modifies this
      ensures (View(), admission) == Capacity.AcquireFirst(old(View()), operation, candidates, now)
      ensures Valid()
    {
      if operation.id in leases { return None; }
      for i := 0 to |candidates|
        invariant active == old(active) && leases == old(leases)
        invariant AcquireFrom(View(), operation, candidates[i..], now) == AcquireFrom(old(View()), operation, candidates, now)
      {
        var scopes := Configured(limits, operation, candidates[i]);
        assert candidates[i..][1..] == candidates[i + 1..];
        Prune(scopes, now - WINDOW);
        var fits := FitsNow(scopes, operation.tokens);
        if fits {
          var lease := Lease(operation.id, scopes);
          Enter(scopes, Event(now, operation.tokens));
          leases := leases[operation.id := lease];
          return Some(Admission(candidates[i], lease));
        }
      }
      return None;
    }

    method Release(lease: Lease) returns (done: bool)
      requires Valid()
      modifies this
      ensures (View(), done) == Capacity.Release(old(View()), lease)
      ensures Valid()
    {
      if lease.operationId !in leases || leases[lease.operationId] != lease { return false; }
      var scopes := lease.scopes;
      for i := 0 to |scopes|
        invariant active == Bumped(old(active), scopes[..i], -1)
        invariant events == old(events) && leases == old(leases)
      {
        BumpStep(old(active), scopes, i, -1);
        active := active[scopes[i] := ActiveOf(active, scopes[i]) - 1];
      }
      assert scopes[..|scopes|] == scopes;
      leases := leases - {lease.operationId};
      return true;
    }
  }
}
