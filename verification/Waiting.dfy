/** Whether a waiting tenant is overtaken twice under the round-robin order (model_routing/router.py). */
module Waiting {
  import opened Prelude
  import opened ModelRouting
  import opened Scheduling
  import opened Fairness
  import Capacity
  import Router

  // ----- Successive calls that serve an operation -----

  /** A call of `schedule_next`: what was queued, who was served last, what could be admitted, and what was served. */
  datatype Serving = Serving(queue: Queue, last: Option<Id>, admits: Queued -> bool, served: Queued)

  /** The first operation of the round-robin order that can be admitted is served. */
  ghost predicate Serves(t: Serving) {
    var ordered := OrderedQueue(TenantRoundRobin, t.queue, t.last);
    InSequence(t.queue) && exists i :: ServedAt(t, ordered, i)
  }

  ghost predicate ServedAt(t: Serving, ordered: Queue, i: int) {
    && 0 <= i < |ordered| && ordered[i] == t.served && t.admits(t.served)
    && forall j :: 0 <= j < i ==> !t.admits(ordered[j])
  }

  predicate IdsUnique(queue: Queue) {
    forall i, j :: 0 <= i < j < |queue| ==> queue[i].operation.id != queue[j].operation.id
  }

  /** Operations enqueued later have later sequence numbers. */
  predicate NumberedAfter(queue: Queue, more: Queue) {
    forall x, y :: x in queue && y in more ==> x.sequence < y.sequence
  }

  /** The queue with these enqueued: `enqueue` numbers them and refuses an operation that is queued. */
  predicate Enqueued(queue: Queue, more: Queue, after: Queue) {
    after == queue + more && NumberedAfter(queue, more) && InSequence(after) && IdsUnique(after)
  }

  /** Between the calls the served operation was taken off, and others were enqueued. */
  ghost predicate FollowedBy(t: Serving, next: Serving) {
    next.last == Some(TenantOf(t.served)) && exists k, more :: TakenThenEnqueued(t, k, more, next.queue)
  }

  predicate TakenThenEnqueued(t: Serving, k: int, more: Queue, after: Queue) {
    && 0 <= k < |t.queue| && t.queue[k] == t.served && NumberedAfter(t.queue, more)
    && Enqueued(Without(t.queue, k), more, after)
  }

  ghost predicate GoesOn(turns: seq<Serving>, m: int)
    requires 0 <= m < |turns| - 1
  {
    FollowedBy(turns[m], turns[m + 1])
  }

  ghost predicate PassesAt(turns: seq<Serving>, mine: Queued, m: int)
    requires 0 <= m < |turns|
  {
    Serves(turns[m]) && turns[m].admits(mine) && turns[m].served != mine
  }

  /** Calls one after another, while `mine`, the oldest of its tenant, could be admitted and was not served. */
  ghost predicate Waits(turns: seq<Serving>, mine: Queued) {
    && (forall m :: 0 <= m < |turns| ==> PassesAt(turns, mine, m))
    && (forall m :: 0 <= m < |turns| - 1 ==> GoesOn(turns, m))
    && (turns != [] ==> IsOldest(mine, turns[0].queue))
  }

  /** Before `mine` is served another is: the oldest of its tenant, which comes first in the cyclic order. */
  lemma ServedBefore(t: Serving, mine: Queued)
    requires Serves(t) && t.admits(mine) && t.served != mine && IsOldest(mine, t.queue)
    ensures IsOldest(t.served, t.queue) && TenantOf(t.served) != TenantOf(mine) && Comes(t.queue, t.last, t.served, mine)
  {
    var ordered, round := OrderedQueue(TenantRoundRobin, t.queue, t.last), FirstRound(t.queue, t.last);
    FirstRoundIsCyclic(t.queue, t.last);
    var i :| ServedAt(t, ordered, i);
    ServedInRound(t, mine, ordered, round, i);
  }

  lemma ServedInRound(t: Serving, mine: Queued, ordered: Queue, round: Queue, i: int)
    requires ServedAt(t, ordered, i) && t.admits(mine) && t.served != mine && mine in round
    requires |round| <= |ordered| && round == ordered[..|round|]
    requires forall q :: q in round <==> IsOldest(q, t.queue)
    requires forall i, j :: 0 <= i < j < |round| ==> TenantOf(round[i]) != TenantOf(round[j]) && Comes(t.queue, t.last, round[i], round[j])
    ensures IsOldest(t.served, t.queue) && TenantOf(t.served) != TenantOf(mine) && Comes(t.queue, t.last, t.served, mine)
  {
    var p :| 0 <= p < |round| && round[p] == mine;
    assert ordered[p] == mine;
    assert i < p;
    assert round[i] == t.served;
  }

  lemma WithoutOne(queue: Queue, k: nat, x: Queued)
    requires InSequence(queue) && k < |queue|
    ensures x in Without(queue, k) <==> x in queue && x != queue[k]
  {
    var rest := Without(queue, k);
    if x in rest {
      var i :| 0 <= i < |rest| && rest[i] == x;
      assert x == queue[if i < k then i else i + 1];
    }
    if x in queue && x != queue[k] {
      var i :| 0 <= i < |queue| && queue[i] == x;
      assert x == rest[if i < k then i else i - 1];
    }
  }

  /** What taking one operation off and enqueuing others leaves of the queue. */
  lemma QueueAfter(t: Serving, next: Serving, x: Queued)
    requires FollowedBy(t, next) && InSequence(t.queue)
    ensures InSequence(next.queue)
    ensures x in next.queue ==> (x in t.queue && x != t.served) || forall y :: y in t.queue ==> y.sequence < x.sequence
    ensures x in t.queue && x != t.served ==> x in next.queue
  {
    var k, more :| TakenThenEnqueued(t, k, more, next.queue);
    WithoutOne(t.queue, k, x);
  }

  /** `mine` is passed over for another tenant's oldest operation, which comes before it in the cyclic order. */
  ghost predicate Passed(t: Serving, mine: Queued) {
    && InSequence(t.queue) && IsOldest(mine, t.queue) && IsOldest(t.served, t.queue)
    && TenantOf(t.served) != TenantOf(mine) && Comes(t.queue, t.last, t.served, mine)
  }

  predicate YoungerThanAll(x: Queued, queue: Queue) {
    forall y :: y in queue ==> y.sequence < x.sequence
  }

  /** What one call and the enqueuing after it make of the queue, by its members. */
  ghost predicate Becomes(t: Serving, next: Serving) {
    && next.last == Some(TenantOf(t.served)) && InSequence(next.queue)
    && (forall x :: x in next.queue ==> (x in t.queue && x != t.served) || YoungerThanAll(x, t.queue))
    && (forall x :: x in t.queue && x != t.served ==> x in next.queue)
  }

  lemma FollowedBecomes(t: Serving, next: Serving)
    requires FollowedBy(t, next) && InSequence(t.queue)
    ensures Becomes(t, next)
  {
    forall x | x in next.queue ensures (x in t.queue && x != t.served) || YoungerThanAll(x, t.queue) { QueueAfter(t, next, x); }
    forall x | x in t.queue && x != t.served ensures x in next.queue { QueueAfter(t, next, x); }
    if t.queue != [] { QueueAfter(t, next, t.queue[0]); } else { QueueAfter(t, next, t.served); }
  }

  /** A tenant that was not served keeps its oldest operation. */
  lemma OldestStays(t: Serving, next: Serving, x: Queued)
    requires Becomes(t, next) && IsOldest(x, t.queue) && x != t.served
    ensures IsOldest(x, next.queue)
  {
    forall y | y in next.queue && TenantOf(y) == TenantOf(x) ensures x.sequence <= y.sequence {
      if y !in t.queue { assert YoungerThanAll(y, t.queue); }
    }
  }

  lemma SameSequence(queue: Queue, x: Queued, y: Queued)
    requires InSequence(queue) && x in queue && y in queue && x.sequence == y.sequence
    ensures x == y
  {
    var i :| 0 <= i < |queue| && queue[i] == x;
    var j :| 0 <= j < |queue| && queue[j] == y;
  }

  /** The next oldest operation of the tenant that was served arrived later. */
  lemma NextIsYounger(t: Serving, next: Serving, y: Queued)
    requires Becomes(t, next) && InSequence(t.queue) && IsOldest(t.served, t.queue)
    requires y in next.queue && TenantOf(y) == TenantOf(t.served)
    ensures t.served.sequence < y.sequence
  {
    if y in t.queue && y.sequence == t.served.sequence { SameSequence(t.queue, y, t.served); }
  }

  /** A call that serves an operation younger than `mine` goes on from the tenant served last, which is still queued. */
  lemma YoungerIsAfter(t: Serving, mine: Queued) returns (l: Queued)
    requires Passed(t, mine) && mine.sequence <= t.served.sequence
    ensures t.last == Some(TenantOf(l)) && IsOldest(l, t.queue) && mine.sequence <= l.sequence < t.served.sequence
  {
    assert AfterLast(t.queue, t.last, t.served) && !AfterLast(t.queue, t.last, mine);
    l :| IsOldest(l, t.queue) && TenantOf(l) == t.last.value && l.sequence < t.served.sequence;
  }

  /** A call made when the tenant served last has an operation older than `mine` serves one that is older too. */
  lemma OlderIsAfter(t: Serving, mine: Queued, l: Queued)
    requires Passed(t, mine) && t.last == Some(TenantOf(l)) && IsOldest(l, t.queue) && l.sequence < mine.sequence
    ensures l.sequence < t.served.sequence < mine.sequence
  {
    AfterIff(t.queue, TenantOf(l), l, mine);
    AfterIff(t.queue, TenantOf(l), l, t.served);
  }

  /** A call of `schedule_next` that serves is such a turn, with what the pool's full history admits. */
  lemma CallIsTurn(p: Capacity.Pool, b: Capacity.Book, queue: Queue, last: Option<Id>, now: Instant, budget: Router.Availability)
    requires Capacity.Refines(p, b, now) && InSequence(queue)
    requires ScheduleFrom(p, OrderedQueue(TenantRoundRobin, queue, last), now, budget).1.Served?
    ensures var ordered := OrderedQueue(TenantRoundRobin, queue, last);
            var i := ScheduleFrom(p, ordered, now, budget).1.index;
            i < |ordered| && Serves(Serving(queue, last, (q: Queued) => CanAdmit(b, q, now, budget), ordered[i]))
  {
    var ordered := OrderedQueue(TenantRoundRobin, queue, last);
    var i := ScheduleFrom(p, ordered, now, budget).1.index;
    ScheduleFromFirst(p, b, ordered, now, budget);
    assert ServedAt(Serving(queue, last, (q: Queued) => CanAdmit(b, q, now, budget), ordered[i]), ordered, i);
  }

  /** What `schedule_next` takes off the queue, and what is enqueued before the next call, leads to the next turn. */
  lemma CallsFollow(t: Serving, taken: Queue, more: Queue, next: Serving)
    requires TakenOut(t.served, t.queue, taken) && NumberedAfter(t.queue, more) && Enqueued(taken, more, next.queue)
    requires next.last == Some(TenantOf(t.served))
    ensures FollowedBy(t, next)
  {
    var k :| 0 <= k < |t.queue| && t.queue[k] == t.served && t.served !in t.queue[..k] && taken == Without(t.queue, k);
    assert TakenThenEnqueued(t, k, more, next.queue);
  }

  // ----- When nobody overtakes twice -----

  /** If the tenant has operations older than `mine`, it has more than one. */
  predicate Plenty(queue: Queue, mine: Queued, tenant: Id) {
    forall a :: a in queue && TenantOf(a) == tenant && a.sequence < mine.sequence ==> HasAnother(queue, mine, a)
  }

  predicate HasAnother(queue: Queue, mine: Queued, a: Queued) {
    exists b :: b in queue && b != a && TenantOf(b) == TenantOf(a) && b.sequence < mine.sequence
  }

  /** Tenants that were not served have no older operation or several. */
  ghost predicate StillPlenty(queue: Queue, mine: Queued, served: set<Id>) {
    forall tenant :: tenant !in served && tenant != TenantOf(mine) ==> Plenty(queue, mine, tenant)
  }

  /** `y` stands no later than the tenant served last, if that one is still queued. */
  ghost predicate NoLater(queue: Queue, last: Option<Id>, y: Queued) {
    forall l :: IsOldest(l, queue) && last == Some(TenantOf(l)) ==> y.sequence <= l.sequence
  }

  /** Only younger operations were served so far, going up: those tenants stand behind `mine`, and not after the last. */
  ghost predicate AmongYounger(queue: Queue, last: Option<Id>, mine: Queued, served: set<Id>) {
    && (forall y :: IsOldest(y, queue) && TenantOf(y) in served ==> mine.sequence < y.sequence && NoLater(queue, last, y))
    && (forall tenant :: tenant in served ==> tenant in Tenants(queue) || last == Some(tenant))
  }

  /** The tenant served last has `l`, older than `mine`; none that was served stands between them. */
  ghost predicate AmongOlder(queue: Queue, last: Option<Id>, mine: Queued, served: set<Id>, l: Queued) {
    && IsOldest(l, queue) && last == Some(TenantOf(l)) && l.sequence < mine.sequence
    && forall y :: IsOldest(y, queue) && TenantOf(y) in served ==> y.sequence <= l.sequence || mine.sequence < y.sequence
  }

  ghost predicate GoesUp(queue: Queue, last: Option<Id>, mine: Queued, served: set<Id>) {
    AmongYounger(queue, last, mine, served) || exists l :: AmongOlder(queue, last, mine, served, l)
  }

  lemma ServedIsNew(t: Serving, mine: Queued, served: set<Id>)
    requires Passed(t, mine) && GoesUp(t.queue, t.last, mine, served)
    ensures TenantOf(t.served) !in served
  {
    if AmongYounger(t.queue, t.last, mine, served) {
      if mine.sequence <= t.served.sequence {
        var l := YoungerIsAfter(t, mine);
        assert !NoLater(t.queue, t.last, t.served);
      }
    } else {
      var l :| AmongOlder(t.queue, t.last, mine, served, l);
      OlderIsAfter(t, mine, l);
    }
  }

  lemma PlentyStays(t: Serving, next: Serving, mine: Queued, tenant: Id)
    requires Becomes(t, next) && Plenty(t.queue, mine, tenant) && tenant != TenantOf(t.served) && mine in t.queue
    ensures Plenty(next.queue, mine, tenant)
  {
    forall a | a in next.queue && TenantOf(a) == tenant && a.sequence < mine.sequence ensures HasAnother(next.queue, mine, a) {
      assert !YoungerThanAll(a, t.queue);
      assert HasAnother(t.queue, mine, a);
      var b :| b in t.queue && b != a && TenantOf(b) == TenantOf(a) && b.sequence < mine.sequence;
      assert b in next.queue;
    }
  }

  lemma UntouchedStays(t: Serving, next: Serving, mine: Queued, served: set<Id>)
    requires Becomes(t, next) && mine in t.queue && StillPlenty(t.queue, mine, served)
    ensures StillPlenty(next.queue, mine, served + {TenantOf(t.served)})
  {
    forall tenant | tenant !in served + {TenantOf(t.served)} && tenant != TenantOf(mine) ensures Plenty(next.queue, mine, tenant) {
      PlentyStays(t, next, mine, tenant);
    }
  }

  /** The oldest operation of another tenant afterwards: the same as before, or one that arrived since. */
  lemma OldestAfter(t: Serving, next: Serving, mine: Queued, y: Queued)
    requires Becomes(t, next) && InSequence(t.queue) && mine in t.queue
    requires IsOldest(y, next.queue) && TenantOf(y) != TenantOf(t.served)
    ensures if TenantOf(y) in Tenants(t.queue) then IsOldest(y, t.queue) else mine.sequence < y.sequence
  {
    if TenantOf(y) in Tenants(t.queue) {
      var before := OldestOf(t.queue, TenantOf(y));
      OldestStays(t, next, before);
      SameOldest(next.queue, before, y);
    } else {
      assert YoungerThanAll(y, t.queue);
    }
  }

  lemma StillQueued(t: Serving, next: Serving, tenant: Id)
    requires Becomes(t, next) && InSequence(t.queue) && tenant in Tenants(t.queue) && tenant != TenantOf(t.served)
    ensures tenant in Tenants(next.queue)
  {
    var before := OldestOf(t.queue, tenant);
    OldestStays(t, next, before);
  }

  lemma BehindTheNewLast(t: Serving, next: Serving, mine: Queued, l: Queued, y: Queued)
    requires Passed(t, mine) && Becomes(t, next) && mine.sequence < t.served.sequence
    requires IsOldest(l, t.queue) && t.last == Some(TenantOf(l)) && l.sequence < t.served.sequence
    requires IsOldest(y, next.queue) && TenantOf(y) != TenantOf(t.served) ==> y.sequence <= l.sequence
    requires IsOldest(y, next.queue)
    ensures NoLater(next.queue, next.last, y)
  {
    forall x | IsOldest(x, next.queue) && next.last == Some(TenantOf(x)) ensures y.sequence <= x.sequence {
      NextIsYounger(t, next, x);
      if TenantOf(y) == TenantOf(t.served) { SameOldest(next.queue, x, y); }
    }
  }

  lemma YoungerGoesOn(t: Serving, next: Serving, mine: Queued, served: set<Id>)
    requires Passed(t, mine) && Becomes(t, next) && AmongYounger(t.queue, t.last, mine, served)
    requires mine.sequence < t.served.sequence
    ensures AmongYounger(next.queue, next.last, mine, served + {TenantOf(t.served)})
  {
    var l := YoungerIsAfter(t, mine);
    forall tenant | tenant in served + {TenantOf(t.served)} ensures tenant in Tenants(next.queue) || next.last == Some(tenant) {
      if tenant != TenantOf(t.served) { StillQueued(t, next, tenant); }
    }
    forall y | IsOldest(y, next.queue) && TenantOf(y) in served + {TenantOf(t.served)}
      ensures mine.sequence < y.sequence && NoLater(next.queue, next.last, y)
    {
      YoungerThere(t, next, mine, served, l, y);
    }
  }

  lemma YoungerThere(t: Serving, next: Serving, mine: Queued, served: set<Id>, l: Queued, y: Queued)
    requires Passed(t, mine) && Becomes(t, next) && AmongYounger(t.queue, t.last, mine, served)
    requires mine.sequence < t.served.sequence
    requires IsOldest(l, t.queue) && t.last == Some(TenantOf(l)) && l.sequence < t.served.sequence
    requires IsOldest(y, next.queue) && TenantOf(y) in served + {TenantOf(t.served)}
    ensures mine.sequence < y.sequence && NoLater(next.queue, next.last, y)
  {
    if TenantOf(y) == TenantOf(t.served) {
      NextIsYounger(t, next, y);
    } else {
      OldestAfter(t, next, mine, y);
      assert NoLater(t.queue, t.last, y);
    }
    BehindTheNewLast(t, next, mine, l, y);
  }

  lemma OlderLeavesAnother(t: Serving, next: Serving, mine: Queued) returns (l: Queued)
    requires Passed(t, mine) && Becomes(t, next) && Plenty(t.queue, mine, TenantOf(t.served))
    requires t.served.sequence < mine.sequence
    ensures IsOldest(l, next.queue) && TenantOf(l) == TenantOf(t.served) && t.served.sequence < l.sequence < mine.sequence
  {
    assert HasAnother(t.queue, mine, t.served);
    var b :| b in t.queue && b != t.served && TenantOf(b) == TenantOf(t.served) && b.sequence < mine.sequence;
    assert b in next.queue;
    l := OldestOf(next.queue, TenantOf(t.served));
    NextIsYounger(t, next, l);
  }

  lemma OlderGoesOn(t: Serving, next: Serving, mine: Queued, served: set<Id>) returns (l: Queued)
    requires Passed(t, mine) && Becomes(t, next) && GoesUp(t.queue, t.last, mine, served)
    requires Plenty(t.queue, mine, TenantOf(t.served)) && t.served.sequence < mine.sequence
    ensures AmongOlder(next.queue, next.last, mine, served + {TenantOf(t.served)}, l)
  {
    l := OlderLeavesAnother(t, next, mine);
    forall y | IsOldest(y, next.queue) && TenantOf(y) in served + {TenantOf(t.served)}
      ensures y.sequence <= l.sequence || mine.sequence < y.sequence
    {
      OlderOrYounger(t, next, mine, served, l, y);
    }
  }

  lemma OlderOrYounger(t: Serving, next: Serving, mine: Queued, served: set<Id>, l: Queued, y: Queued)
    requires Passed(t, mine) && Becomes(t, next) && GoesUp(t.queue, t.last, mine, served) && t.served.sequence < mine.sequence
    requires IsOldest(l, next.queue) && TenantOf(l) == TenantOf(t.served) && t.served.sequence < l.sequence
    requires IsOldest(y, next.queue) && TenantOf(y) in served + {TenantOf(t.served)}
    ensures y.sequence <= l.sequence || mine.sequence < y.sequence
  {
    if TenantOf(y) == TenantOf(t.served) {
      SameOldest(next.queue, y, l);
    } else {
      OldestAfter(t, next, mine, y);
      OlderThere(t, mine, served, y);
    }
  }

  lemma OlderThere(t: Serving, mine: Queued, served: set<Id>, y: Queued)
    requires Passed(t, mine) && GoesUp(t.queue, t.last, mine, served) && t.served.sequence < mine.sequence
    requires IsOldest(y, t.queue) ==> TenantOf(y) in served
    requires IsOldest(y, t.queue) || mine.sequence < y.sequence
    ensures y.sequence <= t.served.sequence || mine.sequence < y.sequence
  {
    if !AmongYounger(t.queue, t.last, mine, served) {
      var k :| AmongOlder(t.queue, t.last, mine, served, k);
      OlderIsAfter(t, mine, k);
    }
  }

  lemma GoesUpStays(t: Serving, next: Serving, mine: Queued, served: set<Id>)
    requires Passed(t, mine) && Becomes(t, next) && GoesUp(t.queue, t.last, mine, served) && StillPlenty(t.queue, mine, served)
    ensures GoesUp(next.queue, next.last, mine, served + {TenantOf(t.served)})
  {
    if t.served.sequence < mine.sequence {
      ServedIsNew(t, mine, served);
      var l := OlderGoesOn(t, next, mine, served);
    } else {
      if t.served.sequence == mine.sequence { SameSequence(t.queue, t.served, mine); }
      FromAmongYounger(t, mine, served);
      YoungerGoesOn(t, next, mine, served);
    }
  }

  lemma FromAmongYounger(t: Serving, mine: Queued, served: set<Id>)
    requires Passed(t, mine) && GoesUp(t.queue, t.last, mine, served) && mine.sequence <= t.served.sequence
    ensures AmongYounger(t.queue, t.last, mine, served)
  {
    if l :| AmongOlder(t.queue, t.last, mine, served, l) { OlderIsAfter(t, mine, l); }
  }

  // ----- Over a whole wait -----

  lemma WaitFollows(turns: seq<Serving>, mine: Queued, m: nat)
    requires Waits(turns, mine) && m + 1 < |turns|
    ensures FollowedBy(turns[m], turns[m + 1])
  {
    assert GoesOn(turns, m);
  }

  lemma WaitPasses(turns: seq<Serving>, mine: Queued, m: nat)
    requires Waits(turns, mine) && m < |turns| && IsOldest(mine, turns[m].queue)
    ensures Passed(turns[m], mine)
  {
    assert PassesAt(turns, mine, m);
    ServedBefore(turns[m], mine);
  }

  lemma StillMine(t: Serving, next: Serving, mine: Queued)
    requires Passed(t, mine) && FollowedBy(t, next)
    ensures IsOldest(mine, next.queue)
  {
    FollowedBecomes(t, next);
    OldestStays(t, next, mine);
  }

  lemma {:induction false} MineStays(turns: seq<Serving>, mine: Queued, m: nat)
    requires Waits(turns, mine) && m < |turns|
    ensures IsOldest(mine, turns[m].queue) && Passed(turns[m], mine)
    decreases m
  {
    if m > 0 {
      MineStays(turns, mine, m - 1);
      WaitFollows(turns, mine, m - 1);
      StillMine(turns[m - 1], turns[m], mine);
    }
    WaitPasses(turns, mine, m);
  }

  function ServedTenants(turns: seq<Serving>, m: nat): set<Id>
    requires m <= |turns|
  {
    set i | 0 <= i < m :: TenantOf(turns[i].served)
  }

  lemma OneMoreServed(turns: seq<Serving>, m: nat)
    requires m < |turns|
    ensures ServedTenants(turns, m + 1) == ServedTenants(turns, m) + {TenantOf(turns[m].served)}
  {}

  ghost predicate ClimbsSoFar(queue: Queue, last: Option<Id>, mine: Queued, served: set<Id>) {
    StillPlenty(queue, mine, served) && GoesUp(queue, last, mine, served)
  }

  lemma StartsInOrder(queue: Queue, last: Option<Id>, mine: Queued, served: set<Id>)
    requires StillPlenty(queue, mine, served) && served == {}
    ensures ClimbsSoFar(queue, last, mine, served)
  {
    assert AmongYounger(queue, last, mine, served);
  }

  lemma InOrderStays(t: Serving, next: Serving, mine: Queued, served: set<Id>, more: set<Id>)
    requires Passed(t, mine) && FollowedBy(t, next) && ClimbsSoFar(t.queue, t.last, mine, served)
    requires more == served + {TenantOf(t.served)}
    ensures ClimbsSoFar(next.queue, next.last, mine, more)
  {
    FollowedBecomes(t, next);
    UntouchedStays(t, next, mine, served);
    GoesUpStays(t, next, mine, served);
  }

  lemma {:induction false} WaitInOrder(turns: seq<Serving>, mine: Queued, m: nat)
    requires Waits(turns, mine) && m < |turns| && StillPlenty(turns[0].queue, mine, {})
    ensures ClimbsSoFar(turns[m].queue, turns[m].last, mine, ServedTenants(turns, m))
    decreases m
  {
    if m == 0 {
      StartsInOrder(turns[0].queue, turns[0].last, mine, ServedTenants(turns, 0));
    } else {
      WaitInOrder(turns, mine, m - 1);
      MineStays(turns, mine, m - 1);
      OneMoreServed(turns, m - 1);
      WaitFollows(turns, mine, m - 1);
      InOrderStays(turns[m - 1], turns[m], mine, ServedTenants(turns, m - 1), ServedTenants(turns, m));
    }
  }

  /** Nobody is served twice while `mine` waits, when every other tenant has no older operation or several. */
  lemma NobodyTwice(turns: seq<Serving>, mine: Queued, i: nat, j: nat)
    requires Waits(turns, mine) && i < j < |turns| && StillPlenty(turns[0].queue, mine, {})
    ensures TenantOf(turns[i].served) != TenantOf(turns[j].served)
  {
    WaitInOrder(turns, mine, j);
    MineStays(turns, mine, j);
    ServedIsNew(turns[j], mine, ServedTenants(turns, j));
    assert TenantOf(turns[i].served) in ServedTenants(turns, j);
  }

  // ----- Overtaking costs age -----

  /** The tenant's oldest operation `h` stands no later than `l`, of the tenant served last, which stands before the served. */
  ghost predicate StandsBehind(t: Serving, tenant: Id, h: Queued, l: Queued) {
    && IsOldest(h, t.queue) && TenantOf(h) == tenant && h.sequence <= l.sequence < t.served.sequence
    && t.last == Some(TenantOf(l)) && IsOldest(l, t.queue)
  }

  lemma ClimbsFirst(t: Serving, next: Serving, mine: Queued) returns (l: Queued)
    requires next.last == Some(TenantOf(t.served)) && Passed(next, mine) && mine.sequence <= next.served.sequence
    ensures StandsBehind(next, TenantOf(t.served), l, l)
  {
    l := YoungerIsAfter(next, mine);
  }

  lemma ClimbsOn(t: Serving, next: Serving, mine: Queued, tenant: Id, h: Queued, k: Queued) returns (l: Queued)
    requires Becomes(t, next) && Passed(t, mine) && Passed(next, mine) && mine.sequence <= next.served.sequence
    requires StandsBehind(t, tenant, h, k)
    ensures StandsBehind(next, tenant, h, l)
  {
    l := YoungerIsAfter(next, mine);
    OldestStays(t, next, h);
    NextIsYounger(t, next, l);
  }

  lemma WaitBecomes(turns: seq<Serving>, mine: Queued, m: nat)
    requires Waits(turns, mine) && m + 1 < |turns|
    ensures Passed(turns[m], mine) && Passed(turns[m + 1], mine) && Becomes(turns[m], turns[m + 1])
  {
    MineStays(turns, mine, m);
    MineStays(turns, mine, m + 1);
    WaitFollows(turns, mine, m);
    FollowedBecomes(turns[m], turns[m + 1]);
  }

  predicate OnlyYounger(turns: seq<Serving>, mine: Queued, i: int, m: int) {
    forall k :: i < k <= m && 0 <= k < |turns| ==> mine.sequence <= turns[k].served.sequence
  }

  /** While only operations younger than `mine` are served, the first of their tenants stays no later than the last. */
  lemma {:induction false} Climbs(turns: seq<Serving>, mine: Queued, i: nat, m: nat) returns (h: Queued, l: Queued)
    requires Waits(turns, mine) && i < m < |turns|
    requires OnlyYounger(turns, mine, i, m)
    ensures StandsBehind(turns[m], TenantOf(turns[i].served), h, l)
    decreases m
  {
    WaitBecomes(turns, mine, m - 1);
    if m == i + 1 {
      l := ClimbsFirst(turns[m - 1], turns[m], mine);
      h := l;
    } else {
      h, l := Climbs(turns, mine, i, m - 1);
      l := ClimbsOn(turns[m - 1], turns[m], mine, TenantOf(turns[i].served), h, l);
    }
  }

  /**
   * While `mine` waits, between two services of another tenant an operation older than `mine` is served: each time somebody
   * overtakes it again, one of those it found ahead of it is gone.
   */
  lemma OvertakingCostsAge(turns: seq<Serving>, mine: Queued, i: nat, j: nat)
    requires Waits(turns, mine) && i < j < |turns| && TenantOf(turns[i].served) == TenantOf(turns[j].served)
    ensures exists m :: i < m <= j && turns[m].served.sequence < mine.sequence
  {
    if OnlyYounger(turns, mine, i, j) {
      var h, l := Climbs(turns, mine, i, j);
      MineStays(turns, mine, j);
      SameOldest(turns[j].queue, h, turns[j].served);
    }
  }

  // ----- Exactly when -----

  /** The wait begins with this queue, and whatever is enqueued before the first call. */
  ghost predicate BeginsWith(turns: seq<Serving>, queue: Queue) {
    turns != [] && exists more :: Enqueued(queue, more, turns[0].queue)
  }

  predicate AllDifferent(turns: seq<Serving>) {
    forall i, j :: 0 <= i < j < |turns| ==> TenantOf(turns[i].served) != TenantOf(turns[j].served)
  }

  /**
   * However operations are enqueued and whatever else can be admitted, no other tenant is served twice while `mine`, which
   * can be admitted all the time, waits from this queue on.
   */
  ghost predicate NeverOvertakenTwice(queue: Queue, mine: Queued) {
    forall turns :: BeginsWith(turns, queue) && Waits(turns, mine) ==> AllDifferent(turns)
  }

  /** No other tenant has exactly one operation that arrived before `mine`. */
  ghost predicate NobodyHasOneOlder(queue: Queue, mine: Queued) {
    forall tenant :: tenant != TenantOf(mine) ==> Plenty(queue, mine, tenant)
  }

  lemma UntouchedAtFirst(queue: Queue, more: Queue, after: Queue, mine: Queued)
    requires NobodyHasOneOlder(queue, mine) && Enqueued(queue, more, after) && mine in queue
    ensures StillPlenty(after, mine, {})
  {
    forall tenant | tenant != TenantOf(mine) ensures Plenty(after, mine, tenant) {
      forall a | a in after && TenantOf(a) == tenant && a.sequence < mine.sequence ensures HasAnother(after, mine, a) {
        assert a in queue && Plenty(queue, mine, tenant) && HasAnother(queue, mine, a);
      }
    }
  }

  lemma NeverTwiceWhen(queue: Queue, mine: Queued, turns: seq<Serving>)
    requires NobodyHasOneOlder(queue, mine) && IsOldest(mine, queue) && BeginsWith(turns, queue) && Waits(turns, mine)
    ensures AllDifferent(turns)
  {
    var more :| Enqueued(queue, more, turns[0].queue);
    UntouchedAtFirst(queue, more, turns[0].queue, mine);
    forall i, j | 0 <= i < j < |turns| ensures TenantOf(turns[i].served) != TenantOf(turns[j].served) {
      NobodyTwice(turns, mine, i, j);
    }
  }

  /** An admissible oldest operation is served when it comes before every other admissible oldest one. */
  lemma ServesWhen(t: Serving)
    requires InSequence(t.queue) && IsOldest(t.served, t.queue) && t.admits(t.served)
    requires forall y :: IsOldest(y, t.queue) && y != t.served && t.admits(y) ==> Comes(t.queue, t.last, t.served, y)
    ensures Serves(t)
  {
    var ordered, round := OrderedQueue(TenantRoundRobin, t.queue, t.last), FirstRound(t.queue, t.last);
    FirstRoundIsCyclic(t.queue, t.last);
    assert t.served in round;
    var p :| 0 <= p < |round| && round[p] == t.served;
    forall j | 0 <= j < p ensures !t.admits(ordered[j]) {
      assert round[j] == ordered[j] && round[j] in round;
      if t.admits(round[j]) { OneComesFirst(t.queue, t.last, round[j], t.served); }
    }
    assert ServedAt(t, ordered, p);
  }

  lemma OneComesFirst(queue: Queue, last: Option<Id>, x: Queued, y: Queued)
    requires Comes(queue, last, x, y)
    ensures !Comes(queue, last, y, x)
  {}
}
