/** The order in which queued operations are tried (model_routing/router.py). */
module Scheduling {
  import opened Prelude
  import opened ModelRouting
  import opened Capacity
  import opened Router
  import Sorting

  datatype SchedulingOrder = Fifo | InteractiveFirst | TenantRoundRobin

  datatype Queued = Queued(sequence: nat, operation: Operation, candidates: seq<Candidate>, policy: Option<Policy>)

  type Queue = seq<Queued>

  function TenantOf(q: Queued): Id { q.operation.tenant }

  function Of(tenant: Id, queue: Queue): Queue {
    Filter((q: Queued) => TenantOf(q) == tenant, queue)
  }

  /** Sequence numbers grow along the queue: `enqueue` appends and nothing is reordered. */
  predicate InSequence(queue: Queue) {
    forall i, j :: 0 <= i < j < |queue| ==> queue[i].sequence < queue[j].sequence
  }

  predicate BySequence(a: Queued, b: Queued) { a.sequence <= b.sequence }

  predicate ByPath(a: Queued, b: Queued) {
    if (a.operation.path == Interactive) != (b.operation.path == Interactive) then a.operation.path == Interactive
    else a.sequence <= b.sequence
  }

  // ----- The interleaving of tenants -----

  function Tenants(queue: Queue): (r: seq<Id>)
    ensures Distinct(r)
    ensures forall q :: q in queue ==> TenantOf(q) in r
  {
    var all := Map(TenantOf, queue);
    var r := Dedupe(all);
    assert forall i :: 0 <= i < |queue| ==> all[i] in r;
    r
  }

  function IndexOf(tenant: Id, order: seq<Id>): (i: nat)
    requires tenant in order
    ensures i < |order| && order[i] == tenant
  {
    if order[0] == tenant then 0 else 1 + IndexOf(tenant, order[1..])
  }

  /** The tenant served last goes to the back. */
  function Rotate(order: seq<Id>, last: Option<Id>): (r: seq<Id>)
    requires Distinct(order)
    ensures Distinct(r)
    ensures forall t :: t in r <==> t in order
    ensures last.Some? && last.value in order ==> r != [] && r[|r| - 1] == last.value
  {
    if last.Some? && last.value in order then
      var pivot := IndexOf(last.value, order) + 1;
      assert order == order[..pivot] + order[pivot..];
      order[pivot..] + order[..pivot]
    else order
  }

  /** One queue for each tenant, in tenant order. */
  function Groups(order: seq<Id>, queue: Queue): (r: seq<Queue>)
    ensures |r| == |order| && forall k :: 0 <= k < |order| ==> r[k] == Of(order[k], queue)
  {
    Map(t => Of(t, queue), order)
  }

  function First(group: Queue): Queue { if group == [] then [] else [group[0]] }

  function Rest(group: Queue): Queue { if group == [] then [] else group[1..] }

  /** One round: the head of every non-empty group. */
  function Heads(groups: seq<Queue>): Queue {
    if groups == [] then []
    else Heads(groups[..|groups| - 1]) + First(groups[|groups| - 1])
  }

  function Tails(groups: seq<Queue>): (r: seq<Queue>)
    ensures |r| == |groups| && forall k :: 0 <= k < |groups| ==> r[k] == Rest(groups[k])
  {
    Map(Rest, groups)
  }

  predicate AllEmpty(groups: seq<Queue>) {
    forall k :: 0 <= k < |groups| ==> groups[k] == []
  }

  /** How many operations are left; each round takes one from every non-empty group. */
  function Left(groups: seq<Queue>): nat {
    if groups == [] then 0 else |groups[0]| + Left(groups[1..])
  }

  lemma {:induction false} RoundTakes(groups: seq<Queue>)
    ensures Left(Tails(groups)) <= Left(groups)
    ensures !AllEmpty(groups) ==> Left(Tails(groups)) < Left(groups)
  {
    if groups != [] {
      RoundTakes(groups[1..]);
      assert Tails(groups)[1..] == Tails(groups[1..]);
      assert !AllEmpty(groups) ==> groups[0] != [] || !AllEmpty(groups[1..]);
    }
  }

  function Interleave(groups: seq<Queue>): Queue
    decreases Left(groups)
  {
    if AllEmpty(groups) then []
    else
      RoundTakes(groups);
      Heads(groups) + Interleave(Tails(groups))
  }

  /** `_ordered_queue`. */
  function OrderedQueue(order: SchedulingOrder, queue: Queue, last: Option<Id>): Queue {
    var queued := Sorting.Sort(BySequence, queue);
    match order
    case Fifo => queued
    case InteractiveFirst => Sorting.Sort(ByPath, queued)
    case TenantRoundRobin => Interleave(Groups(Rotate(Tenants(queued), last), queued))
  }

  // ----- Properties of the interleaving -----

  /** Group `k` holds operations of tenant `order[k]` only. */
  predicate Grouped(groups: seq<Queue>, order: seq<Id>) {
    && |groups| == |order| && Distinct(order)
    && forall k, i :: 0 <= k < |groups| && 0 <= i < |groups[k]| ==> TenantOf(groups[k][i]) == order[k]
  }

  lemma TailsGrouped(groups: seq<Queue>, order: seq<Id>)
    requires Grouped(groups, order)
    ensures Grouped(Tails(groups), order)
  {
    forall k, i | 0 <= k < |groups| && 0 <= i < |Tails(groups)[k]| ensures TenantOf(Tails(groups)[k][i]) == order[k] {
      assert Tails(groups)[k] == Rest(groups[k]);
    }
  }

  lemma OfConcat(tenant: Id, a: Queue, b: Queue)
    ensures Of(tenant, a + b) == Of(tenant, a) + Of(tenant, b)
  {
    FilterConcat((q: Queued) => TenantOf(q) == tenant, a, b);
  }

  lemma OfFirst(tenant: Id, group: Queue, other: Id)
    requires forall i :: 0 <= i < |group| ==> TenantOf(group[i]) == tenant
    ensures Of(other, First(group)) == if other == tenant then First(group) else []
  {
    if group != [] {
      OfOne(other, group[0]);
    }
  }

  lemma OfOne(tenant: Id, q: Queued)
    ensures Of(tenant, [q]) == if TenantOf(q) == tenant then [q] else []
  {
    FilterOne((x: Queued) => TenantOf(x) == tenant, q);
  }

  /** In one round a tenant is served once, if it has anything queued. */
  lemma {:induction false} OfHeads(groups: seq<Queue>, order: seq<Id>, k: nat)
    requires Grouped(groups, order) && k < |order|
    ensures Of(order[k], Heads(groups)) == First(groups[k])
  {
    var n := |groups| - 1;
    var init, lastGroup := groups[..n], groups[n];
    OfConcat(order[k], Heads(init), First(lastGroup));
    OfFirst(order[n], lastGroup, order[k]);
    if k < n {
      OfHeads(init, order[..n], k);
    } else {
      OfHeadsAbsent(init, order[..n], order[k]);
      assert [] + First(lastGroup) == First(lastGroup);
    }
  }

  lemma {:induction false} OfHeadsAbsent(groups: seq<Queue>, order: seq<Id>, tenant: Id)
    requires Grouped(groups, order) && tenant !in order
    ensures Of(tenant, Heads(groups)) == []
  {
    if groups != [] {
      var n := |groups| - 1;
      OfConcat(tenant, Heads(groups[..n]), First(groups[n]));
      OfFirst(order[n], groups[n], tenant);
      OfHeadsAbsent(groups[..n], order[..n], tenant);
    }
  }

  lemma HeadThenTail(groups: seq<Queue>, order: seq<Id>, k: nat)
    requires Grouped(groups, order) && k < |order|
    ensures Of(order[k], Heads(groups)) + Tails(groups)[k] == groups[k]
  {
    OfHeads(groups, order, k);
  }

  /** Every tenant's operations keep their order, and none is lost or added. */
  lemma {:induction false} InterleaveKeepsTenant(groups: seq<Queue>, order: seq<Id>, k: nat)
    requires Grouped(groups, order) && k < |order|
    ensures Of(order[k], Interleave(groups)) == groups[k]
    decreases Left(groups)
  {
    if !AllEmpty(groups) {
      RoundTakes(groups);
      TailsGrouped(groups, order);
      InterleaveKeepsTenant(Tails(groups), order, k);
      OfConcat(order[k], Heads(groups), Interleave(Tails(groups)));
      HeadThenTail(groups, order, k);
    }
  }

  lemma {:induction false} InterleaveTenants(groups: seq<Queue>, order: seq<Id>, tenant: Id)
    requires Grouped(groups, order) && tenant !in order
    ensures Of(tenant, Interleave(groups)) == []
    decreases Left(groups)
  {
    if !AllEmpty(groups) {
      RoundTakes(groups);
      TailsGrouped(groups, order);
      InterleaveTenants(Tails(groups), order, tenant);
      OfConcat(tenant, Heads(groups), Interleave(Tails(groups)));
      OfHeadsAbsent(groups, order, tenant);
    }
  }

  /** How many operations of the same tenant come before position `i`. */
  function RoundOf(s: Queue, i: nat): nat
    requires i < |s|
  {
    |Of(TenantOf(s[i]), s[..i])|
  }

  lemma TenantKnown(groups: seq<Queue>, order: seq<Id>, q: Queued)
    requires Grouped(groups, order) && q in Heads(groups)
    ensures TenantOf(q) in order
  {
    assert q in Of(TenantOf(q), Heads(groups));
    if TenantOf(q) !in order {
      OfHeadsAbsent(groups, order, TenantOf(q));
    }
  }

  lemma InterleaveTenantKnown(groups: seq<Queue>, order: seq<Id>, q: Queued)
    requires Grouped(groups, order) && q in Interleave(groups)
    ensures TenantOf(q) in order
  {
    assert q in Of(TenantOf(q), Interleave(groups));
    if TenantOf(q) !in order {
      InterleaveTenants(groups, order, TenantOf(q));
    }
  }

  /** An operation served in this round is its tenant's first. */
  lemma HeadRank(groups: seq<Queue>, order: seq<Id>, rest: Queue, i: nat)
    requires Grouped(groups, order) && i < |Heads(groups)|
    ensures RoundOf(Heads(groups) + rest, i) == 0
  {
    var heads := Heads(groups);
    var q := heads[i];
    TenantKnown(groups, order, q);
    var k := IndexOf(TenantOf(q), order);
    OfHeads(groups, order, k);
    assert (heads + rest)[..i] == heads[..i];
    assert heads == heads[..i] + ([q] + heads[i + 1..]);
    OfConcat(TenantOf(q), heads[..i], [q] + heads[i + 1..]);
    OfConcat(TenantOf(q), [q], heads[i + 1..]);
    OfOne(TenantOf(q), q);
  }

  lemma RankConcat(a: Queue, b: Queue, i: nat)
    requires i < |b|
    ensures RoundOf(a + b, |a| + i) == |Of(TenantOf(b[i]), a)| + RoundOf(b, i)
  {
    assert (a + b)[..|a| + i] == a + b[..i];
    OfConcat(TenantOf(b[i]), a, b[..i]);
  }

  /** A tenant served in a later round is served in this one too. */
  lemma ServedNow(groups: seq<Queue>, order: seq<Id>, q: Queued)
    requires Grouped(groups, order) && q in Interleave(Tails(groups))
    ensures |Of(TenantOf(q), Heads(groups))| == 1
  {
    TailsGrouped(groups, order);
    InterleaveTenantKnown(Tails(groups), order, q);
    var k := IndexOf(TenantOf(q), order);
    InterleaveKeepsTenant(Tails(groups), order, k);
    assert q in Of(TenantOf(q), Interleave(Tails(groups)));
    OfHeads(groups, order, k);
  }

  predicate RanksAscend(s: Queue) {
    forall i, j :: 0 <= i < j < |s| ==> RoundOf(s, i) <= RoundOf(s, j)
  }

  /** How ranks in `all` follow from those of the rounds after the first. */
  ghost predicate OneMore(all: Queue, n: nat, rest: Queue) {
    && |all| == n + |rest|
    && (forall i :: 0 <= i < n ==> RoundOf(all, i) == 0)
    && (forall i :: n <= i < |all| ==> RoundOf(all, i) == 1 + RoundOf(rest, i - n))
  }

  lemma HeadRanks(groups: seq<Queue>, order: seq<Id>, rest: Queue)
    requires Grouped(groups, order)
    ensures forall i :: 0 <= i < |Heads(groups)| ==> RoundOf(Heads(groups) + rest, i) == 0
  {
    forall i | 0 <= i < |Heads(groups)| ensures RoundOf(Heads(groups) + rest, i) == 0 {
      HeadRank(groups, order, rest, i);
    }
  }

  lemma LaterRanks(heads: Queue, rest: Queue)
    requires forall q :: q in rest ==> |Of(TenantOf(q), heads)| == 1
    ensures forall i :: |heads| <= i < |heads + rest| ==> RoundOf(heads + rest, i) == 1 + RoundOf(rest, i - |heads|)
  {
    forall i | |heads| <= i < |heads + rest| ensures RoundOf(heads + rest, i) == 1 + RoundOf(rest, i - |heads|) {
      assert rest[i - |heads|] in rest;
      RankConcat(heads, rest, i - |heads|);
    }
  }

  lemma OneMoreOf(heads: Queue, rest: Queue)
    requires forall i :: 0 <= i < |heads| ==> RoundOf(heads + rest, i) == 0
    requires forall q :: q in rest ==> |Of(TenantOf(q), heads)| == 1
    ensures OneMore(heads + rest, |heads|, rest)
  {
    LaterRanks(heads, rest);
  }

  lemma RoundRanks(groups: seq<Queue>, order: seq<Id>)
    requires Grouped(groups, order)
    ensures OneMore(Heads(groups) + Interleave(Tails(groups)), |Heads(groups)|, Interleave(Tails(groups)))
  {
    HeadRanks(groups, order, Interleave(Tails(groups)));
    ServedOnce(groups, order, Interleave(Tails(groups)));
    OneMoreOf(Heads(groups), Interleave(Tails(groups)));
  }

  lemma ServedOnce(groups: seq<Queue>, order: seq<Id>, rest: Queue)
    requires Grouped(groups, order) && rest == Interleave(Tails(groups))
    ensures forall q :: q in rest ==> |Of(TenantOf(q), Heads(groups))| == 1
  {
    forall q | q in rest ensures |Of(TenantOf(q), Heads(groups))| == 1 {
      ServedNow(groups, order, q);
    }
  }

  lemma OneMoreAscends(all: Queue, n: nat, rest: Queue)
    requires OneMore(all, n, rest) && RanksAscend(rest)
    ensures RanksAscend(all)
  {
    forall i, j | 0 <= i < j < |all| ensures RoundOf(all, i) <= RoundOf(all, j) {
      if n <= i {
        assert RoundOf(rest, i - n) <= RoundOf(rest, j - n);
      }
    }
  }

  /** Ranks never fall along the order: every tenant's k-th operation comes before any (k+1)-th. */
  lemma {:induction false} InterleaveRanks(groups: seq<Queue>, order: seq<Id>)
    requires Grouped(groups, order)
    ensures RanksAscend(Interleave(groups))
    decreases Left(groups)
  {
    if !AllEmpty(groups) {
      RoundTakes(groups);
      TailsGrouped(groups, order);
      InterleaveRanks(Tails(groups), order);
      RoundRanks(groups, order);
      OneMoreAscends(Heads(groups) + Interleave(Tails(groups)), |Heads(groups)|, Interleave(Tails(groups)));
    }
  }

  // ----- The ordered queue -----

  lemma SequenceIsSorted(queue: Queue)
    requires InSequence(queue)
    ensures Sorting.Sort(BySequence, queue) == queue
  {
    Sorting.SortIdentity(BySequence, queue);
  }

  lemma GroupsGrouped(order: seq<Id>, queue: Queue)
    requires Distinct(order)
    ensures Grouped(Groups(order, queue), order)
  {
    forall k, i | 0 <= k < |order| && 0 <= i < |Groups(order, queue)[k]|
      ensures TenantOf(Groups(order, queue)[k][i]) == order[k]
    {
      assert Groups(order, queue)[k][i] in Of(order[k], queue);
    }
  }

  /** Sequences in which every tenant has the same operations in the same order hold the same operations. */
  lemma SameTenantsSameElements(a: Queue, b: Queue)
    requires forall t :: Of(t, a) == Of(t, b)
    ensures multiset(a) == multiset(b)
  {
    forall q ensures multiset(a)[q] == multiset(b)[q] {
      OfKeepsCount(a, q);
      OfKeepsCount(b, q);
    }
  }

  lemma {:induction false} OfKeepsCount(a: Queue, q: Queued)
    ensures multiset(a)[q] == multiset(Of(TenantOf(q), a))[q]
  {
    if a != [] {
      OfKeepsCount(a[1..], q);
      assert a == [a[0]] + a[1..];
    }
  }

  /** The round-robin order keeps each tenant's own order and interleaves the tenants evenly. */
  lemma RoundRobinOrder(queue: Queue, last: Option<Id>)
    requires InSequence(queue)
    ensures var ordered := OrderedQueue(TenantRoundRobin, queue, last);
            && (forall t :: Of(t, ordered) == Of(t, queue))
            && RanksAscend(ordered)
  {
    SequenceIsSorted(queue);
    var order := Rotate(Tenants(queue), last);
    var groups := Groups(order, queue);
    GroupsGrouped(order, queue);
    forall t ensures Of(t, Interleave(groups)) == Of(t, queue) {
      if t in order {
        InterleaveKeepsTenant(groups, order, IndexOf(t, order));
      } else {
        InterleaveTenants(groups, order, t);
        NoneOf(t, queue);
      }
    }
    InterleaveRanks(groups, order);
  }

  lemma {:induction false} NoneOf(t: Id, queue: Queue)
    requires forall q :: q in queue ==> TenantOf(q) != t
    ensures Of(t, queue) == []
  {
    if queue != [] {
      assert queue[0] in queue;
      NoneOf(t, queue[1..]);
    }
  }

  /** Whatever the order, the operations tried are exactly the queued ones. */
  lemma OrderedIsPermutation(order: SchedulingOrder, queue: Queue, last: Option<Id>)
    requires InSequence(queue)
    ensures multiset(OrderedQueue(order, queue, last)) == multiset(queue)
  {
    if order == TenantRoundRobin {
      RoundRobinOrder(queue, last);
      SameTenantsSameElements(OrderedQueue(order, queue, last), queue);
    }
  }

  /** First come, first tried. */
  lemma FifoOrder(queue: Queue, last: Option<Id>)
    requires InSequence(queue)
    ensures OrderedQueue(Fifo, queue, last) == queue
  {
    SequenceIsSorted(queue);
  }

  lemma ByPathIsPreorder()
    ensures Sorting.Preorder(ByPath)
  {}

  lemma SortedByPath(queue: Queue, ordered: Queue, i: nat, j: nat)
    requires ordered == Sorting.Sort(ByPath, queue) && i < j < |ordered|
    ensures ByPath(ordered[i], ordered[j])
  {
    ByPathIsPreorder();
    Sorting.SortSorted(ByPath, queue);
  }

  /** Interactive operations first, and arrival order within each kind. */
  lemma InteractiveFirstOrder(queue: Queue, last: Option<Id>, i: nat, j: nat)
    requires InSequence(queue)
    requires i < j < |OrderedQueue(InteractiveFirst, queue, last)|
    ensures var ordered := OrderedQueue(InteractiveFirst, queue, last);
            && (ordered[j].operation.path == Interactive ==> ordered[i].operation.path == Interactive)
            && (ordered[i].operation.path == ordered[j].operation.path ==> ordered[i].sequence <= ordered[j].sequence)
  {
    SequenceIsSorted(queue);
    SortedByPath(queue, OrderedQueue(InteractiveFirst, queue, last), i, j);
  }

  // ----- Scheduling -----

  datatype Outcome = NothingServed | Served(index: nat, admission: ModelAdmission) {
    /** The same outcome with one more operation in front of the list. */
    function Shift(): Outcome {
      match this
      case NothingServed => this
      case Served(index, admission) => Served(index + 1, admission)
    }
  }

  /** Tries the operations in order; the position and admission of the first one admitted. */
  function ScheduleFrom(p: Pool, ordered: Queue, now: Instant, budget: Availability): (Pool, Outcome)
    decreases |ordered|
  {
    if ordered == [] then (p, NothingServed)
    else
      var (after, admission) := Router.Admit(p, ordered[0].operation, ordered[0].candidates, ordered[0].policy, now, budget);
      if admission.Granted? then (after, Served(0, admission))
      else
        var (last, rest) := ScheduleFrom(after, ordered[1..], now, budget);
        (last, rest.Shift())
  }

  lemma {:induction false} ScheduleFromIndex(p: Pool, ordered: Queue, now: Instant, budget: Availability)
    ensures var outcome := ScheduleFrom(p, ordered, now, budget).1;
            outcome.Served? ==> outcome.index < |ordered| && outcome.admission.Granted?
    decreases |ordered|
  {
    if ordered != [] {
      var after := Router.Admit(p, ordered[0].operation, ordered[0].candidates, ordered[0].policy, now, budget).0;
      ScheduleFromIndex(after, ordered[1..], now, budget);
    }
  }

  /** The operation would be admitted if it were tried now. */
  ghost predicate CanAdmit(b: Book, q: Queued, now: Instant, budget: Availability) {
    q.operation.id !in b.leases && SomeTakes(b, q.operation, q.candidates, q.policy, now, budget)
  }

  lemma TriedIffCanAdmit(p: Pool, b: Book, q: Queued, now: Instant, budget: Availability)
    requires Refines(p, b, now)
    ensures Router.Admit(p, q.operation, q.candidates, q.policy, now, budget).1.Granted? <==> CanAdmit(b, q, now, budget)
  {
    DenialIff(p, b, q.operation, q.candidates, q.policy, now, now, budget);
    if SomeTakes(b, q.operation, q.candidates, q.policy, now, budget) {
      assert SomeEligible(q.operation, q.candidates, q.policy, now, budget);
    }
  }

  ghost predicate FirstAdmitted(b: Book, ordered: Queue, now: Instant, budget: Availability, i: nat) {
    && i < |ordered| && CanAdmit(b, ordered[i], now, budget)
    && forall j :: 0 <= j < i ==> !CanAdmit(b, ordered[j], now, budget)
  }

  lemma FirstAdmittedShift(b: Book, ordered: Queue, now: Instant, budget: Availability, i: nat)
    requires ordered != [] && !CanAdmit(b, ordered[0], now, budget)
    requires FirstAdmitted(b, ordered[1..], now, budget, i)
    ensures FirstAdmitted(b, ordered, now, budget, i + 1)
  {
    assert forall j :: 1 <= j < |ordered| ==> ordered[j] == ordered[1..][j - 1];
  }

  /** The outcome is the first admissible operation, or there is none. */
  ghost predicate ServesFirst(b: Book, ordered: Queue, now: Instant, budget: Availability, outcome: Outcome) {
    if outcome.Served? then FirstAdmitted(b, ordered, now, budget, outcome.index)
    else forall j :: 0 <= j < |ordered| ==> !CanAdmit(b, ordered[j], now, budget)
  }

  lemma RefusedThenFirst(b: Book, ordered: Queue, now: Instant, budget: Availability, rest: Outcome)
    requires ordered != [] && !CanAdmit(b, ordered[0], now, budget) && ServesFirst(b, ordered[1..], now, budget, rest)
    ensures ServesFirst(b, ordered, now, budget, rest.Shift())
  {
    if rest.Served? {
      FirstAdmittedShift(b, ordered, now, budget, rest.index);
    } else {
      assert forall j :: 1 <= j < |ordered| ==> ordered[j] == ordered[1..][j - 1];
    }
  }

  /** The first admissible operation is admitted, however many refusals pruned the pool before it. */
  lemma {:induction false} ScheduleFromFirst(p: Pool, b: Book, ordered: Queue, now: Instant, budget: Availability)
    requires Refines(p, b, now)
    ensures ServesFirst(b, ordered, now, budget, ScheduleFrom(p, ordered, now, budget).1)
    decreases |ordered|
  {
    if ordered != [] {
      var q := ordered[0];
      TriedIffCanAdmit(p, b, q, now, budget);
      if !CanAdmit(b, q, now, budget) {
        var after := RefusedKeepsBook(p, b, q, now, budget);
        ScheduleFromFirst(after, b, ordered[1..], now, budget);
        RefusedThenFirst(b, ordered, now, budget, ScheduleFrom(after, ordered[1..], now, budget).1);
      }
    }
  }

  lemma RefusedKeepsBook(p: Pool, b: Book, q: Queued, now: Instant, budget: Availability) returns (after: Pool)
    requires Refines(p, b, now) && !Router.Admit(p, q.operation, q.candidates, q.policy, now, budget).1.Granted?
    ensures after == Router.Admit(p, q.operation, q.candidates, q.policy, now, budget).0 && Refines(after, b, now)
  {
    AdmitRefines(p, b, q.operation, q.candidates, q.policy, now, now, budget);
    after := Router.Admit(p, q.operation, q.candidates, q.policy, now, budget).0;
  }

  lemma PrefixBefore(before: Queue, after: Queue, x: Queued, tenant: Id, i: nat)
    requires x in before && forall m :: 0 <= m < |before| ==> TenantOf(before[m]) != tenant
    requires i < |before + after| && TenantOf((before + after)[i]) == tenant
    ensures exists j :: 0 <= j < i && (before + after)[j] == x
  {
    var j :| 0 <= j < |before| && before[j] == x;
    assert (before + after)[j] == x;
  }

  lemma InterleaveSplit(groups: seq<Queue>) returns (after: Queue)
    requires !AllEmpty(groups)
    ensures Interleave(groups) == Heads(groups[..|groups| - 1]) + after
  {
    after := First(groups[|groups| - 1]) + Interleave(Tails(groups));
  }

  lemma HeadBefore(groups: seq<Queue>, order: seq<Id>, k: nat, i: nat)
    requires Grouped(groups, order) && k < |order| - 1 && groups[k] != []
    requires i < |Interleave(groups)| && TenantOf(Interleave(groups)[i]) == order[|order| - 1]
    ensures exists j :: 0 <= j < i && Interleave(groups)[j] == groups[k][0]
  {
    BeforeLast(groups, order, k, order[|order| - 1]);
    var after := InterleaveSplit(groups);
    PrefixBefore(Heads(groups[..|groups| - 1]), after, groups[k][0], order[|order| - 1], i);
  }

  /** The round-robin order is an interleaving of grouped queues with the last-served tenant at the back. */
  lemma RoundRobinGroups(queue: Queue, last: Id) returns (order: seq<Id>, groups: seq<Queue>)
    requires InSequence(queue)
    ensures Grouped(groups, order) && OrderedQueue(TenantRoundRobin, queue, Some(last)) == Interleave(groups)
    ensures forall k :: 0 <= k < |order| ==> groups[k] == Of(order[k], queue)
    ensures forall q :: q in queue ==> TenantOf(q) in order
    ensures last in order ==> order[|order| - 1] == last
  {
    SequenceIsSorted(queue);
    order := Rotate(Tenants(queue), Some(last));
    groups := Groups(order, queue);
    GroupsGrouped(order, queue);
  }

  lemma WaitsInGroups(groups: seq<Queue>, order: seq<Id>, last: Id, i: nat, other: Id, oldest: Queued)
    requires Grouped(groups, order) && other in order && other != last
    requires last in order ==> order[|order| - 1] == last
    requires groups[IndexOf(other, order)] != [] && groups[IndexOf(other, order)][0] == oldest
    requires i < |Interleave(groups)| && TenantOf(Interleave(groups)[i]) == last
    ensures exists j :: 0 <= j < i && Interleave(groups)[j] == oldest
  {
    assert Interleave(groups)[i] in Interleave(groups);
    InterleaveTenantKnown(groups, order, Interleave(groups)[i]);
    HeadBefore(groups, order, IndexOf(other, order), i);
  }

  /** In round-robin order every other tenant's oldest operation comes before any of the last-served tenant's. */
  lemma LastServedWaits(queue: Queue, ordered: Queue, last: Id, i: nat, other: Id)
    requires InSequence(queue) && other != last && Of(other, queue) != []
    requires ordered == OrderedQueue(TenantRoundRobin, queue, Some(last))
    requires i < |ordered| && TenantOf(ordered[i]) == last
    ensures exists j :: 0 <= j < i && ordered[j] == Of(other, queue)[0]
  {
    var order, groups := RoundRobinGroups(queue, last);
    assert Of(other, queue)[0] in Of(other, queue);
    WaitsInGroups(groups, order, last, i, other, Of(other, queue)[0]);
  }

  /** All but the last tenant have their heads before that of the last. */
  lemma BeforeLast(groups: seq<Queue>, order: seq<Id>, k: nat, last: Id)
    requires Grouped(groups, order) && k < |order| && order[|order| - 1] == last && order[k] != last && groups[k] != []
    ensures var before := Heads(groups[..|groups| - 1]);
            && groups[k][0] in before
            && forall i :: 0 <= i < |before| ==> TenantOf(before[i]) != last
  {
    var n := |groups| - 1;
    var before := Heads(groups[..n]);
    OfHeads(groups[..n], order[..n], k);
    assert groups[k][0] in Of(order[k], before);
    forall i | 0 <= i < |before| ensures TenantOf(before[i]) != last {
      TenantKnown(groups[..n], order[..n], before[i]);
    }
  }

  /** The tenant served last is served again only if no other tenant's oldest operation can be admitted. */
  lemma NoTenantOvertaken(p: Pool, b: Book, queue: Queue, last: Id, clock: Instant, now: Instant, budget: Availability, other: Id)
    requires Refines(p, b, clock) && clock <= now && InSequence(queue)
    requires other != last && Of(other, queue) != []
    requires var ordered := OrderedQueue(TenantRoundRobin, queue, Some(last));
             var served := ScheduleFrom(p, ordered, now, budget).1;
             served.Served? && served.index < |ordered| && TenantOf(ordered[served.index]) == last
    ensures !CanAdmit(b, Of(other, queue)[0], now, budget)
  {
    var ordered := OrderedQueue(TenantRoundRobin, queue, Some(last));
    Later(p, b, clock, now);
    ScheduleFromFirst(p, b, ordered, now, budget);
    var i := ScheduleFrom(p, ordered, now, budget).1.index;
    LastServedWaits(queue, ordered, last, i, other);
    var j :| 0 <= j < i && ordered[j] == Of(other, queue)[0];
    assert !CanAdmit(b, ordered[j], now, budget);
  }

  /** Removing one operation keeps the queue in sequence. */
  lemma WithoutInSequence(queue: Queue, i: nat)
    requires InSequence(queue) && i < |queue|
    ensures InSequence(Without(queue, i))
  {}

  /** `after` is `before` without its first `q`, everything else in place. */
  ghost predicate TakenOut(q: Queued, before: Queue, after: Queue) {
    exists k :: 0 <= k < |before| && before[k] == q && q !in before[..k] && after == Without(before, k)
  }
}
