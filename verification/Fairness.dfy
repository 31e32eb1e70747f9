/** How long a tenant waits under the round-robin order (model_routing/router.py). */
module Fairness {
  import opened Prelude
  import opened ModelRouting
  import opened Scheduling
  import Capacity
  import Router

  // ----- The first round stands in cyclic order -----

  /** The tenant's operation that arrived first among those queued. */
  predicate IsOldest(q: Queued, queue: Queue) {
    q in queue && forall x :: x in queue && TenantOf(x) == TenantOf(q) ==> q.sequence <= x.sequence
  }

  /** The tenant served last still has operations, and its oldest arrived before `q`. */
  ghost predicate AfterLast(queue: Queue, last: Option<Id>, q: Queued) {
    last.Some? && exists l :: IsOldest(l, queue) && TenantOf(l) == last.value && l.sequence < q.sequence
  }

  /** The cyclic order of first arrivals that starts after the tenant served last. */
  ghost predicate Comes(queue: Queue, last: Option<Id>, x: Queued, y: Queued) {
    if AfterLast(queue, last, x) != AfterLast(queue, last, y) then AfterLast(queue, last, x) else x.sequence < y.sequence
  }

  /** Every place of `y` has one of `x` before it. */
  predicate FirstComes(s: seq<Id>, x: Id, y: Id) {
    forall j :: 0 <= j < |s| && s[j] == y ==> exists i :: 0 <= i < j && s[i] == x
  }

  lemma FirstComesStill(init: seq<Id>, z: Id, x: Id, y: Id)
    requires FirstComes(init, x, y) && y in init
    ensures FirstComes(init + [z], x, y)
  {
    var s := init + [z];
    var q :| 0 <= q < |init| && init[q] == y;
    var p :| 0 <= p < q && init[p] == x;
    assert s[p] == x;
    forall j | 0 <= j < |s| && s[j] == y ensures exists i :: 0 <= i < j && s[i] == x {
      if j < |init| {
        assert init[j] == y;
        var i :| 0 <= i < j && init[i] == x;
        assert s[i] == x;
      }
    }
  }

  lemma FirstComesNew(init: seq<Id>, z: Id, x: Id)
    requires x in init && z !in init
    ensures FirstComes(init + [z], x, z)
  {
    var p :| 0 <= p < |init| && init[p] == x;
    assert (init + [z])[p] == x;
  }

  lemma {:induction false} DedupeInOrder(s: seq<Id>, i: nat, j: nat)
    requires i < j < |Dedupe(s)|
    ensures FirstComes(s, Dedupe(s)[i], Dedupe(s)[j])
  {
    var n := |s| - 1;
    var init, last := s[..n], s[n];
    var r := Dedupe(init);
    assert s == init + [last];
    if j < |r| {
      DedupeInOrder(init, i, j);
      assert r[j] in r;
      FirstComesStill(init, last, r[i], r[j]);
    } else {
      assert r[i] in r;
      FirstComesNew(init, last, r[i]);
    }
  }

  /** Tenants stand in the order of their first arrivals. */
  lemma TenantsByArrival(queue: Queue, i: nat, j: nat, x: Queued, y: Queued)
    requires InSequence(queue) && i < j < |Tenants(queue)| && IsOldest(x, queue) && IsOldest(y, queue)
    requires TenantOf(x) == Tenants(queue)[i] && TenantOf(y) == Tenants(queue)[j]
    ensures x.sequence < y.sequence
  {
    var all := Map(TenantOf, queue);
    DedupeInOrder(all, i, j);
    var k :| 0 <= k < |queue| && queue[k] == y;
    assert all[k] == TenantOf(y);
    var p :| 0 <= p < k && all[p] == TenantOf(x);
    assert queue[p] in queue;
  }

  lemma NotAfterAbsent(queue: Queue, last: Option<Id>, q: Queued)
    requires last.None? || last.value !in Tenants(queue)
    ensures !AfterLast(queue, last, q)
  {}

  /** Whether an oldest operation arrived after that of the tenant served last. */
  lemma AfterIff(queue: Queue, last: Id, l: Queued, q: Queued)
    requires IsOldest(l, queue) && TenantOf(l) == last
    ensures AfterLast(queue, Some(last), q) <==> l.sequence < q.sequence
  {}

  /** `Of` keeps the order of the queue. */
  lemma {:induction false} OfHeadOldest(t: Id, queue: Queue)
    requires InSequence(queue) && Of(t, queue) != []
    ensures IsOldest(Of(t, queue)[0], queue) && TenantOf(Of(t, queue)[0]) == t
  {
    if TenantOf(queue[0]) == t {
      assert Of(t, queue)[0] == queue[0];
    } else {
      assert Of(t, queue) == Of(t, queue[1..]);
      OfHeadOldest(t, queue[1..]);
    }
  }

  /** Where a place of the rotated order was before. */
  function Place(n: nat, pivot: nat, i: nat): nat
    requires pivot <= n
  {
    if i < n - pivot then i + pivot else i - (n - pivot)
  }

  lemma RotateShape(order: seq<Id>, last: Id) returns (pivot: nat)
    requires Distinct(order) && last in order
    ensures 0 < pivot <= |order| && order[pivot - 1] == last
    ensures Rotate(order, Some(last)) == order[pivot..] + order[..pivot]
  {
    pivot := IndexOf(last, order) + 1;
  }

  lemma ConcatPlace(order: seq<Id>, pivot: nat, i: nat)
    requires pivot <= |order| && i < |order|
    ensures |order[pivot..] + order[..pivot]| == |order|
    ensures Place(|order|, pivot, i) < |order| && (order[pivot..] + order[..pivot])[i] == order[Place(|order|, pivot, i)]
  {}

  /** Two tenants in the rotated order, with their oldest operations, stand as the cyclic order says. */
  lemma RotatedInOrder(queue: Queue, last: Option<Id>, order: seq<Id>, i: nat, j: nat, x: Queued, y: Queued)
    requires InSequence(queue) && IsOldest(x, queue) && IsOldest(y, queue) && order == Rotate(Tenants(queue), last)
    requires i < j < |order| && TenantOf(x) == order[i] && TenantOf(y) == order[j]
    ensures Comes(queue, last, x, y)
  {
    if last.None? || last.value !in Tenants(queue) {
      UnrotatedInOrder(queue, last, i, j, x, y);
    } else {
      var pivot := RotateShape(Tenants(queue), last.value);
      CycleInOrder(queue, last.value, Tenants(queue), pivot, i, j, x, y);
    }
  }

  lemma UnrotatedInOrder(queue: Queue, last: Option<Id>, i: nat, j: nat, x: Queued, y: Queued)
    requires InSequence(queue) && IsOldest(x, queue) && IsOldest(y, queue) && (last.None? || last.value !in Tenants(queue))
    requires i < j < |Tenants(queue)| && TenantOf(x) == Tenants(queue)[i] && TenantOf(y) == Tenants(queue)[j]
    ensures Comes(queue, last, x, y)
  {
    NotAfterAbsent(queue, last, x);
    NotAfterAbsent(queue, last, y);
    TenantsByArrival(queue, i, j, x, y);
  }

  lemma CycleInOrder(queue: Queue, last: Id, tenants: seq<Id>, pivot: nat, i: nat, j: nat, x: Queued, y: Queued)
    requires InSequence(queue) && IsOldest(x, queue) && IsOldest(y, queue) && tenants == Tenants(queue)
    requires 0 < pivot <= |tenants| && tenants[pivot - 1] == last && i < j < |tenants|
    requires var order := tenants[pivot..] + tenants[..pivot]; TenantOf(x) == order[i] && TenantOf(y) == order[j]
    ensures Comes(queue, Some(last), x, y)
  {
    ConcatPlace(tenants, pivot, i);
    ConcatPlace(tenants, pivot, j);
    PlacedInOrder(queue, last, tenants, pivot, Place(|tenants|, pivot, i), Place(|tenants|, pivot, j), x, y);
  }

  lemma PlacedInOrder(queue: Queue, last: Id, tenants: seq<Id>, pivot: nat, a: nat, b: nat, x: Queued, y: Queued)
    requires InSequence(queue) && IsOldest(x, queue) && IsOldest(y, queue) && tenants == Tenants(queue)
    requires 0 < pivot <= |tenants| && tenants[pivot - 1] == last && a < |tenants| && b < |tenants|
    requires TenantOf(x) == tenants[a] && TenantOf(y) == tenants[b]
    requires if (pivot <= a) == (pivot <= b) then a < b else pivot <= a
    ensures Comes(queue, Some(last), x, y)
  {
    var l := OldestOf(queue, last);
    AfterIff(queue, last, l, x);
    AfterIff(queue, last, l, y);
    PlaceAgainst(queue, pivot - 1, l, a, x);
    PlaceAgainst(queue, pivot - 1, l, b, y);
    if a < b { TenantsByArrival(queue, a, b, x, y); }
  }

  lemma PlaceAgainst(queue: Queue, k: nat, l: Queued, a: nat, x: Queued)
    requires InSequence(queue) && IsOldest(l, queue) && IsOldest(x, queue) && k < |Tenants(queue)| && a < |Tenants(queue)|
    requires TenantOf(l) == Tenants(queue)[k] && TenantOf(x) == Tenants(queue)[a]
    ensures l.sequence < x.sequence <==> k < a
  {
    if k < a { TenantsByArrival(queue, k, a, l, x); }
    if a < k { TenantsByArrival(queue, a, k, x, l); }
  }

  lemma OldestOf(queue: Queue, t: Id) returns (l: Queued)
    requires InSequence(queue) && t in Tenants(queue)
    ensures IsOldest(l, queue) && TenantOf(l) == t
  {
    TenantQueued(queue, t);
    l := Of(t, queue)[0];
    OfHeadOldest(t, queue);
  }

  lemma TenantQueued(queue: Queue, t: Id)
    requires t in Tenants(queue)
    ensures Of(t, queue) != []
  {
    var all := Map(TenantOf, queue);
    assert t in all;
    var i :| 0 <= i < |all| && all[i] == t;
    assert queue[i] in Of(t, queue);
  }

  lemma {:induction false} HeadsInOrder(groups: seq<Queue>)
    requires forall k :: 0 <= k < |groups| ==> groups[k] != []
    ensures |Heads(groups)| == |groups| && forall k :: 0 <= k < |groups| ==> Heads(groups)[k] == groups[k][0]
  {
    if groups != [] { HeadsInOrder(groups[..|groups| - 1]); }
  }

  /** The first round of the round-robin order. */
  function FirstRound(queue: Queue, last: Option<Id>): Queue {
    var ordered := OrderedQueue(TenantRoundRobin, queue, last);
    if |Tenants(queue)| <= |ordered| then ordered[..|Tenants(queue)|] else ordered
  }

  lemma GroupHead(order: seq<Id>, queue: Queue, k: nat)
    requires InSequence(queue) && k < |order| && order[k] in Tenants(queue)
    ensures var group := Groups(order, queue)[k]; group != [] && IsOldest(group[0], queue) && TenantOf(group[0]) == order[k]
  {
    TenantQueued(queue, order[k]);
    OfHeadOldest(order[k], queue);
  }

  /** When no group is empty, the interleaving begins with the heads. */
  lemma InterleaveBegins(groups: seq<Queue>)
    requires forall k :: 0 <= k < |groups| ==> groups[k] != []
    ensures |groups| <= |Interleave(groups)|
    ensures forall k :: 0 <= k < |groups| ==> Interleave(groups)[k] == groups[k][0]
  {
    HeadsInOrder(groups);
    assert groups != [] ==> groups[0] != [] && !AllEmpty(groups);
  }

  lemma RoundRobinInterleaves(queue: Queue, last: Option<Id>, order: seq<Id>)
    requires InSequence(queue) && order == Rotate(Tenants(queue), last)
    ensures OrderedQueue(TenantRoundRobin, queue, last) == Interleave(Groups(order, queue))
  {
    SequenceIsSorted(queue);
  }

  /** The interleaving of the tenants' queues begins with the oldest operation of each. */
  lemma GroupsBegin(order: seq<Id>, queue: Queue, ordered: Queue)
    requires InSequence(queue) && (forall t :: t in order ==> t in Tenants(queue)) && ordered == Interleave(Groups(order, queue))
    ensures |order| <= |ordered|
    ensures forall k :: 0 <= k < |order| ==> IsOldest(ordered[k], queue) && TenantOf(ordered[k]) == order[k]
  {
    var groups := Groups(order, queue);
    forall k | 0 <= k < |groups| ensures groups[k] != [] && IsOldest(groups[k][0], queue) && TenantOf(groups[k][0]) == order[k] {
      GroupHead(order, queue, k);
    }
    InterleaveBegins(groups);
  }

  lemma RoundIsHeads(order: seq<Id>, queue: Queue, ordered: Queue, round: Queue)
    requires InSequence(queue) && (forall t :: t in order ==> t in Tenants(queue)) && ordered == Interleave(Groups(order, queue))
    requires round == if |order| <= |ordered| then ordered[..|order|] else ordered
    ensures |round| == |order| <= |ordered| && round == ordered[..|round|]
    ensures forall k :: 0 <= k < |order| ==> IsOldest(round[k], queue) && TenantOf(round[k]) == order[k]
  {
    GroupsBegin(order, queue, ordered);
  }

  lemma RotateLength(order: seq<Id>, last: Option<Id>)
    requires Distinct(order)
    ensures |Rotate(order, last)| == |order|
  {}

  /** These are the oldest operations of the tenants in this order. */
  predicate HeadsOf(round: Queue, order: seq<Id>, queue: Queue) {
    |round| == |order| && forall k :: 0 <= k < |order| ==> IsOldest(round[k], queue) && TenantOf(round[k]) == order[k]
  }

  lemma HeadsAreCyclic(queue: Queue, last: Option<Id>, order: seq<Id>, round: Queue)
    requires InSequence(queue) && order == Rotate(Tenants(queue), last) && HeadsOf(round, order, queue)
    ensures forall q :: q in round <==> IsOldest(q, queue)
    ensures forall i, j :: 0 <= i < j < |round| ==> TenantOf(round[i]) != TenantOf(round[j]) && Comes(queue, last, round[i], round[j])
  {
    forall q ensures q in round <==> IsOldest(q, queue) {
      if IsOldest(q, queue) {
        assert TenantOf(q) in order;
        var k := IndexOf(TenantOf(q), order);
        SameOldest(queue, q, round[k]);
      }
    }
    forall i, j | 0 <= i < j < |round|
      ensures TenantOf(round[i]) != TenantOf(round[j]) && Comes(queue, last, round[i], round[j])
    {
      RotatedInOrder(queue, last, order, i, j, round[i], round[j]);
    }
  }

  /**
   * The first round holds the oldest operation of every queued tenant, once each, in the cyclic order of first arrivals that
   * starts after the tenant served last.
   */
  lemma FirstRoundIsCyclic(queue: Queue, last: Option<Id>)
    requires InSequence(queue)
    ensures var round := FirstRound(queue, last);
            && |round| <= |OrderedQueue(TenantRoundRobin, queue, last)|
            && round == OrderedQueue(TenantRoundRobin, queue, last)[..|round|]
            && (forall q :: q in round <==> IsOldest(q, queue))
            && (forall i, j :: 0 <= i < j < |round| ==> TenantOf(round[i]) != TenantOf(round[j]) && Comes(queue, last, round[i], round[j]))
  {
    var order := Rotate(Tenants(queue), last);
    RotateLength(Tenants(queue), last);
    RoundRobinInterleaves(queue, last, order);
    RoundIsHeads(order, queue, OrderedQueue(TenantRoundRobin, queue, last), FirstRound(queue, last));
    HeadsAreCyclic(queue, last, order, FirstRound(queue, last));
  }

  lemma SameOldest(queue: Queue, x: Queued, y: Queued)
    requires InSequence(queue) && IsOldest(x, queue) && IsOldest(y, queue) && TenantOf(x) == TenantOf(y)
    ensures x == y
  {
    var i :| 0 <= i < |queue| && queue[i] == x;
    var j :| 0 <= j < |queue| && queue[j] == y;
  }
}
