/** The router: a queue of operations over one capacity pool. */
module ModelRouterControl {
  import opened Prelude
  import opened ModelRouting
  import opened Capacity
  import opened CapacityControl
  import Router
  import opened Scheduling
  import Sorting

  datatype RouterError = AlreadyQueued

  lemma HeadsStep(groups: seq<Queue>, k: nat)
    requires k < |groups|
    ensures Heads(groups[..k + 1]) == Heads(groups[..k]) + First(groups[k])
  {
    assert groups[..k + 1][..k] == groups[..k];
  }

  /** One pass moves the heads over, and leaves fewer operations. */
  lemma PassJoins(ordered: Queue, groups: seq<Queue>)
    requires !AllEmpty(groups)
    ensures ordered + Interleave(groups) == (ordered + Heads(groups)) + Interleave(Tails(groups))
    ensures Left(Tails(groups)) < Left(groups)
  {
    RoundTakes(groups);
    assert Interleave(groups) == Heads(groups) + Interleave(Tails(groups));
    assert ordered + (Heads(groups) + Interleave(Tails(groups))) == (ordered + Heads(groups)) + Interleave(Tails(groups));
  }

  lemma PassesEnd(ordered: Queue, groups: seq<Queue>)
    requires AllEmpty(groups)
    ensures ordered + Interleave(groups) == ordered
  {}

  function Advance(outcome: Outcome, n: nat): Outcome {
    match outcome
    case NothingServed => outcome
    case Served(index, admission) => Served(index + n, admission)
  }

  class ModelRouter {
    const order: SchedulingOrder
    const budget: Router.Availability
    const capacity: HierarchicalCapacity
    var queue: Queue
    var nextSequence: nat
    var lastTenant: Option<Id>

    ghost predicate Valid()
      reads this, capacity
    {
      && capacity.Valid()
      && InSequence(queue)
      && (forall i :: 0 <= i < |queue| ==> queue[i].sequence < nextSequence)
    }

    constructor (budget: Router.Availability, capacity: HierarchicalCapacity, order: SchedulingOrder)
      requires capacity.Valid()
      ensures Valid() && this.budget == budget && this.capacity == capacity && this.order == order
      ensures queue == [] && nextSequence == 0 && lastTenant == None
    {
      this.budget, this.capacity, this.order := budget, capacity, order;
      queue, nextSequence, lastTenant := [], 0, None;
    }

    method Admit(operation: Operation, candidates: seq<Candidate>, policy: Option<ModelRouting.Policy>, now: Instant)
      returns (r: Router.ModelAdmission)
      requires capacity.Valid()
      modifies capacity
      ensures (capacity.View(), r) == Router.Admit(old(capacity.View()), operation, candidates, policy, now, budget)
      ensures capacity.Valid()
    {
      var eligibility := Router.Evaluate(operation, candidates, policy, now, budget);
      var eligible := Router.Ranked(operation, candidates, policy, now, budget);
      if eligible == [] {
        return Router.Denied(Router.NoneEligible(eligibility), eligibility);
      }
      var admission := capacity.AcquireFirst(operation, eligible, now);
      if admission.None? {
        return Router.Denied(Router.CapacityUnavailable, eligibility);
      }
      return Router.Granted(admission.value.candidate, admission.value.lease, eligibility);
    }

    /** Appends, unless the operation is queued already. */
    method Enqueue(operation: Operation, candidates: seq<Candidate>, policy: Option<ModelRouting.Policy>)
      returns (r: Result<nat, RouterError>)
      requires Valid()
      modifies this
      ensures Valid() && lastTenant == old(lastTenant)
      ensures (exists q :: q in old(queue) && q.operation.id == operation.id) <==> r == Err(AlreadyQueued)
      ensures r.Err? ==> queue == old(queue) && nextSequence == old(nextSequence)
      ensures r.Ok? ==> r.value == old(nextSequence) && nextSequence == old(nextSequence) + 1
                        && queue == old(queue) + [Queued(r.value, operation, candidates, policy)]
    {
      if exists q :: q in queue && q.operation.id == operation.id { return Err(AlreadyQueued); }
      queue := queue + [Queued(nextSequence, operation, candidates, policy)];
      nextSequence := nextSequence + 1;
      return Ok(nextSequence - 1);
    }

    /** One pass over the tenants: each non-empty queue gives up its head. */
    static method TakeRound(ordered: Queue, round: seq<Queue>) returns (longer: Queue, groups: seq<Queue>)
      ensures longer == ordered + Heads(round)
      ensures groups == Tails(round)
    {
      longer, groups := ordered, round;
      for k := 0 to |round|
        invariant |groups| == |round|
        invariant forall m :: 0 <= m < |round| ==> groups[m] == if m < k then Rest(round[m]) else round[m]
        invariant longer == ordered + Heads(round[..k])
      {
        HeadsStep(round, k);
        if groups[k] != [] {
          longer := longer + [groups[k][0]];
          groups := groups[k := groups[k][1..]];
        }
      }
      assert round[..|round|] == round;
    }

    /** The interleaving loop of `_ordered_queue`. */
    static method InterleaveTenants(perTenant: seq<Queue>) returns (ordered: Queue)
      ensures ordered == Interleave(perTenant)
    {
      var groups := perTenant;
      ordered := [];
      ghost var whole := Interleave(perTenant);
      assert [] + whole == whole;
      while !AllEmpty(groups)
        invariant ordered + Interleave(groups) == whole
        decreases Left(groups)
      {
        PassJoins(ordered, groups);
        ordered, groups := TakeRound(ordered, groups);
      }
      PassesEnd(ordered, groups);
    }

    /** `_ordered_queue`. */
    method OrderedQueue() returns (ordered: Queue)
      ensures ordered == Scheduling.OrderedQueue(order, queue, lastTenant)
    {
      var queued := Sorting.Sort(BySequence, queue);
      match order {
        case Fifo => ordered := queued;
        case InteractiveFirst => ordered := Sorting.Sort(ByPath, queued);
        case TenantRoundRobin =>
          var tenants := Rotate(Tenants(queued), lastTenant);
          ordered := InterleaveTenants(Groups(tenants, queued));
      }
    }

    /** The loop of `schedule_next`: tries the operations in order until one is admitted. */
    method TryInOrder(ordered: Queue, now: Instant) returns (outcome: Outcome)
      requires capacity.Valid()
      modifies capacity
      ensures capacity.Valid()
      ensures (capacity.View(), outcome) == ScheduleFrom(old(capacity.View()), ordered, now, budget)
    {
      for i := 0 to |ordered|
        invariant capacity.Valid()
        invariant var whole, rest := ScheduleFrom(old(capacity.View()), ordered, now, budget),
                                     ScheduleFrom(capacity.View(), ordered[i..], now, budget);
                  whole.0 == rest.0 && whole.1 == Advance(rest.1, i)
      {
        assert ordered[i..][1..] == ordered[i + 1..];
        var admission := Admit(ordered[i].operation, ordered[i].candidates, ordered[i].policy, now);
        if admission.Granted? {
          return Served(i, admission);
        }
      }
      return NothingServed;
    }

    /** Admits the first admissible operation in scheduling order and takes it off the queue. */
    method ScheduleNext(now: Instant) returns (r: Option<Router.ModelAdmission>)
      requires Valid()
      modifies this, capacity
      ensures Valid() && nextSequence == old(nextSequence)
      ensures var ordered := Scheduling.OrderedQueue(order, old(queue), old(lastTenant));
              var (after, outcome) := ScheduleFrom(old(capacity.View()), ordered, now, budget);
              && capacity.View() == after
              && match outcome
                 case NothingServed => r == None && queue == old(queue) && lastTenant == old(lastTenant)
                 case Served(i, admission) =>
                   && i < |ordered| && r == Some(admission)
                   && lastTenant == Some(TenantOf(ordered[i]))
                   && TakenOut(ordered[i], old(queue), queue)
    {
      var ordered := OrderedQueue();
      OrderedIsPermutation(order, queue, lastTenant);
      ScheduleFromIndex(capacity.View(), ordered, now, budget);
      var outcome := TryInOrder(ordered, now);
      if outcome.NothingServed? { return None; }
      var q := ordered[outcome.index];
      Remove(q, ordered);
      lastTenant := Some(TenantOf(q));
      return Some(outcome.admission);
    }

    /** `list.remove`: takes the first occurrence off the queue. */
    method Remove(q: Queued, ghost ordered: Queue)
      requires Valid() && q in ordered && multiset(ordered) == multiset(queue)
      modifies this`queue
      ensures Valid() && TakenOut(q, old(queue), queue)
    {
      Sorting.SameElements(ordered, queue);
      var i := 0;
      while queue[i] != q
        invariant 0 <= i < |queue| && q !in queue[..i]
        decreases |queue| - i
      {
        assert queue == queue[..i] + [queue[i]] + queue[i + 1..];
        i := i + 1;
      }
      WithoutInSequence(queue, i);
      queue := Without(queue, i);
    }

    method Complete(lease: Lease) returns (done: bool)
      requires capacity.Valid()
      modifies capacity
      ensures (capacity.View(), done) == Capacity.Release(old(capacity.View()), lease)
      ensures capacity.Valid()
    {
      done := capacity.Release(lease);
    }
  }
}
