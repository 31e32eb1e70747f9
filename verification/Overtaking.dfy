/** When exactly a waiting tenant can be overtaken twice (model_routing/router.py). */
module Overtaking {
  import opened Prelude
  import opened ModelRouting
  import opened Scheduling
  import opened Fairness
  import opened Waiting

  // ----- A run that overtakes twice -----

  /** Longer than each of the texts, and so none of them. */
  function Longer(texts: seq<string>): (r: string)
    ensures forall t :: t in texts ==> |t| < |r|
  {
    if texts == [] then "a" else Longer(texts[1..]) + texts[0] + "a"
  }

  function NextSequence(queue: Queue): nat {
    if queue == [] then 0 else queue[|queue| - 1].sequence + 1
  }

  /** An operation like another, of its own. */
  function Another(like: Queued, sequence: nat, id: Id, tenant: Id): Queued {
    like.(sequence := sequence, operation := like.operation.(id := id, tenant := tenant))
  }

  lemma EnqueueMore(queue: Queue, more: Queue, ids: seq<string>)
    requires InSequence(queue) && IdsUnique(queue) && |more| == |ids| == 4
    requires forall q :: q in queue ==> |q.operation.id| < |ids[0]|
    requires forall i :: 0 <= i < 4 ==> more[i].sequence == NextSequence(queue) + i && more[i].operation.id == ids[i]
    requires |ids[0]| < |ids[1]| < |ids[2]| < |ids[3]|
    ensures Enqueued(queue, more, queue + more)
  {
    SequencesBelow(queue);
    SequencesFollow(queue, more, NextSequence(queue));
    IdsDiffer(queue, more, ids);
  }

  lemma SequencesFollow(queue: Queue, more: Queue, n: nat)
    requires InSequence(queue) && (forall q :: q in queue ==> q.sequence < n)
    requires forall i :: 0 <= i < |more| ==> more[i].sequence == n + i
    ensures NumberedAfter(queue, more) && InSequence(queue + more)
  {
    var after := queue + more;
    forall i, j | 0 <= i < j < |after| ensures after[i].sequence < after[j].sequence {
      if i < |queue| <= j { assert after[i] in queue && after[j] == more[j - |queue|]; }
    }
  }

  lemma IdsDiffer(queue: Queue, more: Queue, ids: seq<string>)
    requires IdsUnique(queue) && |more| == |ids| == 4 && (forall q :: q in queue ==> |q.operation.id| < |ids[0]|)
    requires forall i :: 0 <= i < 4 ==> more[i].operation.id == ids[i]
    requires |ids[0]| < |ids[1]| < |ids[2]| < |ids[3]|
    ensures IdsUnique(queue + more)
  {
    var after := queue + more;
    forall i, j | 0 <= i < j < |after| ensures after[i].operation.id != after[j].operation.id {
      if i < |queue| <= j {
        assert after[i] in queue && after[j] == more[j - |queue|] && |ids[0]| <= |ids[j - |queue|]|;
      } else if |queue| <= i {
        assert after[i] == more[i - |queue|] && after[j] == more[j - |queue|];
      }
    }
  }

  lemma SequencesBelow(queue: Queue)
    requires InSequence(queue)
    ensures forall q :: q in queue ==> q.sequence < NextSequence(queue)
  {}

  lemma WithoutFollows(t: Serving, k: nat, next: Serving)
    requires InSequence(t.queue) && IdsUnique(t.queue) && k < |t.queue| && t.queue[k] == t.served
    requires next.queue == Without(t.queue, k) && next.last == Some(TenantOf(t.served))
    ensures FollowedBy(t, next) && InSequence(next.queue) && IdsUnique(next.queue)
  {
    WithoutInSequence(t.queue, k);
    assert Without(t.queue, k) + [] == Without(t.queue, k);
    assert TakenThenEnqueued(t, k, [], next.queue);
  }

  /** What is enqueued: an operation of tenant `l`, two of tenant `x`, and between those one of tenant `a`. */
  function Intruders(mine: Queued, n: nat, id: Id, l: Id, x: Id, a: Id): (more: Queue)
    ensures |more| == 4
  {
    [Another(mine, n, id, l), Another(mine, n + 1, id + "a", x), Another(mine, n + 2, id + "aa", a), Another(mine, n + 3, id + "aaa", x)]
  }

  lemma IntrudersEnqueued(queue: Queue, mine: Queued, n: nat, id: Id, l: Id, x: Id, a: Id)
    requires InSequence(queue) && IdsUnique(queue) && n == NextSequence(queue)
    requires forall q :: q in queue ==> |q.operation.id| < |id|
    ensures Enqueued(queue, Intruders(mine, n, id, l, x, a), queue + Intruders(mine, n, id, l, x, a))
  {
    EnqueueMore(queue, Intruders(mine, n, id, l, x, a), [id, id + "a", id + "aa", id + "aaa"]);
  }

  /** An operation identifier and two tenants that are not queued. */
  lemma NewNames(queue: Queue) returns (id: Id, l: Id, x: Id)
    ensures forall q :: q in queue ==> |q.operation.id| < |id| && TenantOf(q) != l && TenantOf(q) != x
    ensures l != x
  {
    var ids, tenants := Map((q: Queued) => q.operation.id, queue), Map(TenantOf, queue);
    id, l := Longer(ids), Longer(tenants);
    x := l + "a";
    assert |x| == |l| + 1;
    forall q | q in queue ensures |q.operation.id| < |id| && |TenantOf(q)| < |l| {
      var i :| 0 <= i < |queue| && queue[i] == q;
      assert ids[i] in ids && tenants[i] in tenants;
    }
  }

  /** The tenant of `a` has no other operation older than `mine`. */
  predicate OnlyOlder(queue: Queue, mine: Queued, a: Queued) {
    && a in queue && TenantOf(a) != TenantOf(mine) && a.sequence < mine.sequence
    && forall q :: q in queue && TenantOf(q) == TenantOf(a) && q.sequence < mine.sequence ==> q == a
  }

  /** The stage: the queue, followed by operations of tenants `l`, `x`, `a`'s and `x` again, the former two new. */
  predicate Staged(queue: Queue, more: Queue, mine: Queued, a: Queued) {
    && |more| == 4 && TenantOf(more[0]) != TenantOf(more[1]) == TenantOf(more[3]) && TenantOf(more[2]) == TenantOf(a)
    && (forall q :: q in queue ==> TenantOf(q) != TenantOf(more[0]) && TenantOf(q) != TenantOf(more[1]))
    && Enqueued(queue, more, queue + more) && IsOldest(mine, queue) && OnlyOlder(queue, mine, a)
  }

  /** Only these two can be admitted. */
  function OnlyThese(x: Queued, y: Queued): Queued -> bool {
    (q: Queued) => q == x || q == y
  }

  lemma ServesOver(t: Serving, mine: Queued)
    requires InSequence(t.queue) && IsOldest(t.served, t.queue) && IsOldest(mine, t.queue) && t.admits == OnlyThese(t.served, mine)
    requires Comes(t.queue, t.last, t.served, mine)
    ensures Serves(t) && t.admits(mine)
  {
    ServesWhen(t);
  }

  /** First: the tenant served last is the first newcomer, so the second newcomer comes before `mine`. */
  lemma FirstTurn(queue: Queue, more: Queue, mine: Queued, a: Queued, t: Serving)
    requires Staged(queue, more, mine, a)
    requires t == Serving(queue + more, Some(TenantOf(more[0])), OnlyThese(more[1], mine), more[1])
    ensures Serves(t) && t.admits(mine) && t.served != mine && IsOldest(mine, t.queue)
  {
    assert more[0] in more && more[1] in more && more[0] in t.queue && more[1] in t.queue;
    assert more[0].sequence == t.queue[|queue|].sequence && more[1].sequence == t.queue[|queue| + 1].sequence;
    assert more[1].sequence < more[3].sequence by { assert more[3] == t.queue[|queue| + 3]; }
    assert IsOldest(more[0], t.queue) && IsOldest(more[1], t.queue) && IsOldest(mine, t.queue);
    AfterIff(t.queue, TenantOf(more[0]), more[0], more[1]);
    AfterIff(t.queue, TenantOf(more[0]), more[0], mine);
    ServesOver(t, mine);
  }

  /** Second: the newcomer's other operation is the last of all, so the only older one comes before `mine`. */
  lemma SecondTurn(queue: Queue, more: Queue, mine: Queued, a: Queued, t: Serving)
    requires Staged(queue, more, mine, a) && InSequence(t.queue)
    requires forall q :: q in t.queue <==> q in queue + more && q != more[1]
    requires t.last == Some(TenantOf(more[1])) && t.admits == OnlyThese(a, mine) && t.served == a
    ensures Serves(t) && t.admits(mine) && t.served != mine && IsOldest(mine, t.queue)
  {
    var after := queue + more;
    assert more[3] == after[|queue| + 3] && more[1] == after[|queue| + 1] && more[2] == after[|queue| + 2];
    assert more[3] in t.queue && IsOldest(more[3], t.queue);
    assert a in after && a in t.queue && IsOldest(a, t.queue);
    assert mine in after && mine in t.queue && IsOldest(mine, t.queue);
    AfterIff(t.queue, TenantOf(more[3]), more[3], a);
    AfterIff(t.queue, TenantOf(more[3]), more[3], mine);
    ServesOver(t, mine);
  }

  /** Third: the tenant served last now stands behind `mine`, and the newcomer's other operation after it. */
  lemma ThirdTurn(queue: Queue, more: Queue, mine: Queued, a: Queued, t: Serving)
    requires Staged(queue, more, mine, a) && InSequence(t.queue)
    requires forall q :: q in t.queue <==> q in queue + more && q != more[1] && q != a
    requires t.last == Some(TenantOf(a)) && t.admits == OnlyThese(more[3], mine) && t.served == more[3]
    ensures Serves(t) && t.admits(mine) && t.served != mine && IsOldest(mine, t.queue)
  {
    var after := queue + more;
    assert more[3] == after[|queue| + 3] && more[1] == after[|queue| + 1] && more[2] == after[|queue| + 2];
    assert more[2] in t.queue && more[3] in t.queue && IsOldest(more[3], t.queue);
    assert mine in after && mine in t.queue && IsOldest(mine, t.queue);
    var h := OldestOf(t.queue, TenantOf(a));
    assert h.sequence <= more[2].sequence < more[3].sequence;
    assert mine.sequence <= h.sequence;
    AfterIff(t.queue, TenantOf(a), h, more[3]);
    AfterIff(t.queue, TenantOf(a), h, mine);
    ServesOver(t, mine);
  }

  lemma TakenOff(queue: Queue, q: Queued) returns (k: nat)
    requires InSequence(queue) && IdsUnique(queue) && q in queue
    ensures k < |queue| && queue[k] == q && InSequence(Without(queue, k)) && IdsUnique(Without(queue, k))
    ensures forall x :: x in Without(queue, k) <==> x in queue && x != q
  {
    k :| 0 <= k < |queue| && queue[k] == q;
    WithoutInSequence(queue, k);
    forall x ensures x in Without(queue, k) <==> x in queue && x != q { WithoutOne(queue, k, x); }
  }

  lemma SetUp(queue: Queue, mine: Queued, a: Queued) returns (more: Queue)
    requires InSequence(queue) && IdsUnique(queue) && IsOldest(mine, queue) && OnlyOlder(queue, mine, a)
    ensures Staged(queue, more, mine, a)
  {
    var id, l, x := NewNames(queue);
    more := Intruders(mine, NextSequence(queue), id, l, x, TenantOf(a));
    IntrudersEnqueued(queue, mine, NextSequence(queue), id, l, x, TenantOf(a));
  }

  /** Three calls with nothing enqueued between them, of which the first and the third serve the same newcomer. */
  ghost predicate Plays(turns: seq<Serving>, queue: Queue, more: Queue, mine: Queued, a: Queued) {
    && |more| == 4 && |turns| == 3 && turns[0].queue == queue + more && InSequence(turns[1].queue) && InSequence(turns[2].queue)
    && IdsUnique(turns[1].queue)
    && (forall q :: q in turns[1].queue <==> q in queue + more && q != more[1])
    && (forall q :: q in turns[2].queue <==> q in queue + more && q != more[1] && q != a)
    && (turns[0].last, turns[1].last, turns[2].last) == (Some(TenantOf(more[0])), Some(TenantOf(more[1])), Some(TenantOf(a)))
    && (turns[0].served, turns[1].served, turns[2].served) == (more[1], a, more[3])
    && turns[0].admits == OnlyThese(more[1], mine) && turns[1].admits == OnlyThese(a, mine)
    && turns[2].admits == OnlyThese(more[3], mine)
  }

  lemma FirstPasses(turns: seq<Serving>, queue: Queue, more: Queue, mine: Queued, a: Queued)
    requires Staged(queue, more, mine, a) && Plays(turns, queue, more, mine, a)
    ensures PassesAt(turns, mine, 0)
  {
    FirstTurn(queue, more, mine, a, turns[0]);
  }

  lemma SecondPasses(turns: seq<Serving>, queue: Queue, more: Queue, mine: Queued, a: Queued)
    requires Staged(queue, more, mine, a) && Plays(turns, queue, more, mine, a)
    ensures PassesAt(turns, mine, 1)
  {
    SecondTurn(queue, more, mine, a, turns[1]);
  }

  lemma ThirdPasses(turns: seq<Serving>, queue: Queue, more: Queue, mine: Queued, a: Queued)
    requires Staged(queue, more, mine, a) && Plays(turns, queue, more, mine, a)
    ensures PassesAt(turns, mine, 2)
  {
    ThirdTurn(queue, more, mine, a, turns[2]);
  }

  lemma EachPasses(turns: seq<Serving>, queue: Queue, more: Queue, mine: Queued, a: Queued, m: nat)
    requires Staged(queue, more, mine, a) && Plays(turns, queue, more, mine, a) && m < 3
    ensures PassesAt(turns, mine, m)
  {
    if m == 0 { FirstPasses(turns, queue, more, mine, a); }
    if m == 1 { SecondPasses(turns, queue, more, mine, a); }
    if m == 2 { ThirdPasses(turns, queue, more, mine, a); }
  }

  lemma MineAtFirst(turns: seq<Serving>, queue: Queue, more: Queue, mine: Queued, a: Queued)
    requires Staged(queue, more, mine, a) && Plays(turns, queue, more, mine, a)
    ensures IsOldest(mine, turns[0].queue)
  {
    FirstTurn(queue, more, mine, a, turns[0]);
  }

  lemma PlaysWait(turns: seq<Serving>, queue: Queue, more: Queue, mine: Queued, a: Queued)
    requires Staged(queue, more, mine, a) && Plays(turns, queue, more, mine, a) && GoesOn(turns, 0) && GoesOn(turns, 1)
    ensures Waits(turns, mine)
  {
    forall m | 0 <= m < |turns| ensures PassesAt(turns, mine, m) { EachPasses(turns, queue, more, mine, a, m); }
    MineAtFirst(turns, queue, more, mine, a);
    ThreeWait(turns, mine);
  }

  lemma ThreeWait(turns: seq<Serving>, mine: Queued)
    requires |turns| == 3 && IsOldest(mine, turns[0].queue) && GoesOn(turns, 0) && GoesOn(turns, 1)
    requires forall m :: 0 <= m < |turns| ==> PassesAt(turns, mine, m)
    ensures Waits(turns, mine)
  {
    forall m | 0 <= m < |turns| - 1 ensures GoesOn(turns, m) {
      assert m == 0 || m == 1;
    }
  }

  lemma PlayOut(queue: Queue, more: Queue, mine: Queued, a: Queued) returns (turns: seq<Serving>)
    requires Staged(queue, more, mine, a)
    ensures Plays(turns, queue, more, mine, a) && GoesOn(turns, 0) && GoesOn(turns, 1)
  {
    var start := queue + more;
    assert start[|queue| + 1] == more[1];
    var j := TakenOff(start, more[1]);
    var next := Without(start, j);
    assert a in start;
    var k := TakenOff(next, a);
    var one := Serving(start, Some(TenantOf(more[0])), OnlyThese(more[1], mine), more[1]);
    var two := Serving(next, Some(TenantOf(more[1])), OnlyThese(a, mine), a);
    var three := Serving(Without(next, k), Some(TenantOf(a)), OnlyThese(more[3], mine), more[3]);
    turns := [one, two, three];
    WithoutFollows(one, j, two);
    WithoutFollows(two, k, three);
  }

  /**
   * Where another tenant has exactly one operation older than `mine`, a run that serves a third tenant twice while `mine` waits,
   * though that tenant is queued all the time.
   */
  lemma OvertakenTwice(queue: Queue, mine: Queued, a: Queued) returns (turns: seq<Serving>)
    requires InSequence(queue) && IdsUnique(queue) && IsOldest(mine, queue) && OnlyOlder(queue, mine, a)
    ensures BeginsWith(turns, queue) && Waits(turns, mine) && !AllDifferent(turns)
    ensures |turns| == 3 && forall m :: 0 <= m < 3 ==> TenantOf(turns[0].served) in Tenants(turns[m].queue)
  {
    var more := SetUp(queue, mine, a);
    turns := PlayOut(queue, more, mine, a);
    PlaysWait(turns, queue, more, mine, a);
    ThirdIsQueued(turns, queue, more, mine, a);
    assert TenantOf(turns[0].served) == TenantOf(turns[2].served);
  }

  lemma ThirdIsQueued(turns: seq<Serving>, queue: Queue, more: Queue, mine: Queued, a: Queued)
    requires Staged(queue, more, mine, a) && Plays(turns, queue, more, mine, a)
    ensures forall m :: 0 <= m < 3 ==> more[3] in turns[m].queue
  {
    var start := queue + more;
    assert start[|queue| + 1] == more[1] && start[|queue| + 3] == more[3] && more[3] in start;
    assert more[1].sequence < more[3].sequence && a in queue && more[3] in more;
    assert more[3] in turns[0].queue && more[3] in turns[1].queue && more[3] in turns[2].queue;
  }

  lemma OneOlder(queue: Queue, mine: Queued) returns (a: Queued)
    requires !NobodyHasOneOlder(queue, mine)
    ensures OnlyOlder(queue, mine, a)
  {
    var tenant :| tenant != TenantOf(mine) && !Plenty(queue, mine, tenant);
    a :| a in queue && TenantOf(a) == tenant && a.sequence < mine.sequence && !HasAnother(queue, mine, a);
  }

  /**
   * However operations are enqueued and whoever was served last, no other tenant is served twice while `mine` waits, if and only
   * if no other tenant has exactly one operation that arrived before `mine`.
   */
  lemma OvertakenTwiceIff(queue: Queue, mine: Queued)
    requires InSequence(queue) && IdsUnique(queue) && IsOldest(mine, queue)
    ensures NeverOvertakenTwice(queue, mine) <==> NobodyHasOneOlder(queue, mine)
  {
    if NobodyHasOneOlder(queue, mine) {
      forall turns | BeginsWith(turns, queue) && Waits(turns, mine) ensures AllDifferent(turns) {
        NeverTwiceWhen(queue, mine, turns);
      }
    } else {
      var a := OneOlder(queue, mine);
      var turns := OvertakenTwice(queue, mine, a);
    }
  }

  // ----- With everything admissible -----

  /** Two operations of tenant `a`, one of `b`, one of `c`, and another of `b`. */
  function FiveQueued(like: Queued, a: Id, b: Id, c: Id): (queue: Queue)
    ensures |queue| == 5
  {
    [Another(like, 0, "1", a), Another(like, 1, "2", a), Another(like, 2, "3", b), Another(like, 3, "4", c), Another(like, 4, "5", b)]
  }

  predicate Anything(q: Queued) { true }

  lemma FiveFirst(t: Serving, q: Queue)
    requires |q| == 5 && InSequence(q) && TenantOf(q[0]) == TenantOf(q[1])
    requires t == Serving(q, None, Anything, q[0])
    ensures Serves(t)
  {
    ServesWhen(t);
  }

  lemma FiveSecond(t: Serving, q: Queue)
    requires |q| == 4 && InSequence(q)
    requires TenantOf(q[0]) != TenantOf(q[1]) == TenantOf(q[3]) && TenantOf(q[2]) !in {TenantOf(q[0]), TenantOf(q[1])}
    requires t == Serving(q, Some(TenantOf(q[0])), Anything, q[1])
    ensures Serves(t)
  {
    forall y | IsOldest(y, q) && y != t.served ensures Comes(q, t.last, t.served, y) {
      AfterIff(q, TenantOf(q[0]), q[0], y);
      AfterIff(q, TenantOf(q[0]), q[0], q[1]);
    }
    ServesWhen(t);
  }

  lemma FiveThird(t: Serving, q: Queue)
    requires |q| == 3 && InSequence(q)
    requires TenantOf(q[0]) != TenantOf(q[2]) && TenantOf(q[1]) !in {TenantOf(q[0]), TenantOf(q[2])}
    requires t == Serving(q, Some(TenantOf(q[2])), Anything, q[0])
    ensures Serves(t)
  {
    forall y | IsOldest(y, q) && y != t.served ensures Comes(q, t.last, t.served, y) {
      AfterIff(q, TenantOf(q[2]), q[2], y);
      AfterIff(q, TenantOf(q[2]), q[2], q[0]);
    }
    ServesWhen(t);
  }

  /** The three calls that follow, with everything admissible and nothing enqueued. */
  function FiveTurns(q: Queue): seq<Serving>
    requires |q| == 5
  {
    [Serving(q, None, Anything, q[0]), Serving(q[1..], Some(TenantOf(q[0])), Anything, q[2]),
     Serving([q[1], q[3], q[4]], Some(TenantOf(q[2])), Anything, q[1])]
  }

  predicate Five(q: Queue, a: Id, b: Id, c: Id) {
    && |q| == 5 && InSequence(q) && IdsUnique(q) && a != b && a != c && b != c
    && (TenantOf(q[0]), TenantOf(q[1]), TenantOf(q[2]), TenantOf(q[3]), TenantOf(q[4])) == (a, a, b, c, b)
  }

  lemma FivePass(q: Queue, a: Id, b: Id, c: Id, m: nat)
    requires Five(q, a, b, c) && m < 3
    ensures PassesAt(FiveTurns(q), q[3], m)
  {
    if m == 0 { FiveFirst(FiveTurns(q)[0], q); }
    if m == 1 { FiveSecond(FiveTurns(q)[1], q[1..]); }
    if m == 2 { FiveThird(FiveTurns(q)[2], [q[1], q[3], q[4]]); }
  }

  lemma FiveGoOn(q: Queue, turns: seq<Serving>)
    requires |q| == 5 && InSequence(q) && IdsUnique(q) && turns == FiveTurns(q)
    ensures GoesOn(turns, 0) && GoesOn(turns, 1)
  {
    assert Without(q, 0) == q[1..];
    assert Without(q[1..], 1) == [q[1], q[3], q[4]];
    WithoutFollows(turns[0], 0, turns[1]);
    WithoutFollows(turns[1], 1, turns[2]);
  }

  lemma FiveAllPass(q: Queue, turns: seq<Serving>, a: Id, b: Id, c: Id)
    requires Five(q, a, b, c) && turns == FiveTurns(q)
    ensures forall m :: 0 <= m < |turns| ==> PassesAt(turns, q[3], m)
  {
    forall m | 0 <= m < |turns| ensures PassesAt(turns, q[3], m) { FivePass(q, a, b, c, m); }
  }

  lemma FiveOldest(q: Queue, a: Id, b: Id, c: Id)
    requires Five(q, a, b, c)
    ensures IsOldest(q[3], q)
  {}

  lemma FiveWait(q: Queue, a: Id, b: Id, c: Id)
    requires Five(q, a, b, c)
    ensures Waits(FiveTurns(q), q[3])
  {
    var turns := FiveTurns(q);
    FiveAllPass(q, turns, a, b, c);
    FiveGoOn(q, turns);
    FiveOldest(q, a, b, c);
    ThreeWait(turns, q[3]);
  }

  /** Each of these tenants has an operation queued. */
  predicate Queues(queue: Queue, tenants: set<Id>) {
    forall t :: t in tenants ==> t in Tenants(queue)
  }

  lemma FiveQueues(q: Queue, a: Id, b: Id, c: Id, m: nat)
    requires Five(q, a, b, c) && m < 3
    ensures Queues(FiveTurns(q)[m].queue, {a, b, c})
  {
    var queue := FiveTurns(q)[m].queue;
    assert q[1] in queue && q[3] in queue && q[4] in queue;
  }

  /**
   * Although all operations can be admitted all the time and three tenants are queued throughout, one is served twice before
   * another is served at all.
   */
  lemma OvertakenInTurn(like: Queued, a: Id, b: Id, c: Id) returns (turns: seq<Serving>)
    requires a != b && a != c && b != c
    ensures var queue := FiveQueued(like, a, b, c);
            && turns == FiveTurns(queue) && Waits(turns, queue[3]) && TenantOf(queue[3]) == c
    ensures forall m :: 0 <= m < 3 ==> turns[m].admits == Anything && Queues(turns[m].queue, {a, b, c})
    ensures TenantOf(turns[0].served) == TenantOf(turns[2].served) == a
  {
    var q := FiveQueued(like, a, b, c);
    turns := FiveTurns(q);
    FiveWait(q, a, b, c);
    forall m | 0 <= m < 3 ensures turns[m].admits == Anything && Queues(turns[m].queue, {a, b, c}) { FiveQueues(q, a, b, c, m); }
  }
}
