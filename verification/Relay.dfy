/** Relaying the outbox: crash points, and what a complete relay achieves (bulk/coordinator.py). */
module Relay {
  import opened Prelude
  import opened Repository
  import opened Broker
  import opened Delivery

  /** The loop of `relay_pending` over the snapshot it took. */
  function RelayFrom(r: Repo, c: Channel, pending: seq<Outbox>, clock: nat -> Instant, tick: nat): (Repo, Channel)
    decreases |pending|
  {
    if pending == [] then (r, c)
    else RelayFrom(MarkPublished(r, pending[0].eventId, clock(tick)).0, Publish(c, pending[0].notification),
                   pending[1..], clock, tick + 1)
  }

  function RelaySteps(pending: seq<Outbox>, clock: nat -> Instant, tick: nat): seq<Step>
    decreases |pending|
  {
    if pending == [] then []
    else [PublishStep(pending[0].eventId), MarkStep(pending[0].eventId, clock(tick))] + RelaySteps(pending[1..], clock, tick + 1)
  }

  /** The records were read from this outbox, before or after some of them were marked. */
  ghost predicate Snapshot(r: Repo, pending: seq<Outbox>) {
    forall i :: 0 <= i < |pending| ==>
      pending[i].eventId in r.outbox && r.outbox[pending[i].eventId].notification == pending[i].notification
  }

  lemma PublishThenMark(s: System, first: Step, second: Step, rest: seq<Step>)
    ensures DoAll(s, [first, second] + rest) == DoAll(Do(Do(s, first), second), rest)
    ensures Allowed(s, first) && Allowed(Do(s, first), second) && AllAllowed(Do(Do(s, first), second), rest)
            ==> AllAllowed(s, [first, second] + rest)
  {
    var all := [first, second] + rest;
    assert all[1..] == [second] + rest && all[1..][1..] == rest;
  }

  lemma SnapshotKept(r: Repo, after: Repo, eventId: Id, pending: seq<Outbox>)
    requires OnlyMarked(r, after, eventId) && Snapshot(r, pending)
    ensures Snapshot(after, pending)
  {}

  lemma {:induction false} RelayStepsAllowed(s: System, pending: seq<Outbox>, clock: nat -> Instant, tick: nat)
    requires Snapshot(s.repo, pending)
    ensures AllAllowed(s, RelaySteps(pending, clock, tick))
    ensures var after := DoAll(s, RelaySteps(pending, clock, tick));
            (after.repo, after.broker) == RelayFrom(s.repo, s.broker, pending, clock, tick)
    decreases |pending|
  {
    if pending != [] {
      var eventId := pending[0].eventId;
      var publish, mark := PublishStep(eventId), MarkStep(eventId, clock(tick));
      var next := Do(Do(s, publish), mark);
      MarkOnly(s.repo, eventId, clock(tick));
      SnapshotKept(s.repo, next.repo, eventId, pending[1..]);
      RelayStepsAllowed(next, pending[1..], clock, tick + 1);
      PublishThenMark(s, publish, mark, RelaySteps(pending[1..], clock, tick + 1));
    }
  }

  /** Stopping anywhere is allowed. */
  lemma {:induction false} CutAllowed(s: System, steps: seq<Step>, cut: nat)
    requires AllAllowed(s, steps) && cut <= |steps|
    ensures AllAllowed(s, steps[..cut])
    decreases |steps|
  {
    if cut > 0 {
      CutAllowed(Do(s, steps[0]), steps[1..], cut - 1);
      assert steps[..cut][1..] == steps[1..][..cut - 1];
    }
  }

  /** A relay is a list of publications, each followed by its mark; whole, or cut after any of them, it is an allowed run. */
  lemma RelayIsSteps(s: System, pending: seq<Outbox>, clock: nat -> Instant, tick: nat)
    requires Snapshot(s.repo, pending)
    ensures var steps := RelaySteps(pending, clock, tick);
            && AllAllowed(s, steps) && (forall cut: nat :: cut <= |steps| ==> AllAllowed(s, steps[..cut]))
            && (DoAll(s, steps).repo, DoAll(s, steps).broker) == RelayFrom(s.repo, s.broker, pending, clock, tick)
  {
    RelayStepsAllowed(s, pending, clock, tick);
    var steps := RelaySteps(pending, clock, tick);
    forall cut: nat | cut <= |steps| ensures AllAllowed(s, steps[..cut]) {
      CutAllowed(s, steps, cut);
    }
  }

  lemma {:induction false} PendingListed(outbox: map<Id, Outbox>, order: seq<Id>)
    requires forall id :: id in order ==> id in outbox
    ensures forall o :: o in PendingAmong(outbox, order) <==> exists id :: id in order && outbox[id] == o && o.publishedAt.None?
  {
    if order != [] {
      var rest, last := order[..|order| - 1], order[|order| - 1];
      PendingListed(outbox, rest);
      assert order == rest + [last];
      forall o ensures o in PendingAmong(outbox, order) <==> exists id :: id in order && outbox[id] == o && o.publishedAt.None? {
        if o == outbox[last] && o.publishedAt.None? { assert last in order; }
        if id :| id in order && outbox[id] == o && o.publishedAt.None? {
          assert id in rest || id == last;
        }
      }
    }
  }

  predicate Marked(r: Repo, eventId: Id) {
    eventId in r.outbox && r.outbox[eventId].publishedAt.Some?
  }

  lemma {:induction false} RelayMarks(r: Repo, c: Channel, pending: seq<Outbox>, clock: nat -> Instant, tick: nat, eventId: Id)
    requires Snapshot(r, pending)
    requires Marked(r, eventId) || exists i :: 0 <= i < |pending| && pending[i].eventId == eventId
    ensures Marked(RelayFrom(r, c, pending, clock, tick).0, eventId)
    decreases |pending|
  {
    if pending != [] {
      var after := MarkPublished(r, pending[0].eventId, clock(tick)).0;
      MarkOnly(r, pending[0].eventId, clock(tick));
      SnapshotKept(r, after, pending[0].eventId, pending[1..]);
      if !Marked(after, eventId) {
        var i :| 0 <= i < |pending| && pending[i].eventId == eventId;
        assert pending[1..][i - 1] == pending[i];
      }
      RelayMarks(after, Publish(c, pending[0].notification), pending[1..], clock, tick + 1, eventId);
    }
  }

  lemma {:induction false} RelayFrame(r: Repo, c: Channel, pending: seq<Outbox>, clock: nat -> Instant, tick: nat)
    ensures var (after, channel) := RelayFrom(r, c, pending, clock, tick);
            after.items == r.items && after.outbox.Keys == r.outbox.Keys && channel.inflight == c.inflight
    decreases |pending|
  {
    if pending != [] {
      MarkOnly(r, pending[0].eventId, clock(tick));
      RelayFrame(MarkPublished(r, pending[0].eventId, clock(tick)).0, Publish(c, pending[0].notification), pending[1..], clock, tick + 1);
    }
  }

  /** The notification of the item is waiting in the queue. */
  ghost predicate Waiting(r: Repo, c: Channel, k: Key) {
    exists e :: AnnouncedBy(r, k, e) && r.outbox[e].notification in c.queued
  }

  ghost predicate AllMarked(r: Repo) {
    forall e :: e in r.outbox ==> Marked(r, e)
  }

  lemma RelayedIsQueued(s: System, k: Key)
    requires Invariant(s) && s.broker.inflight == [] && k in s.repo.items && s.repo.items[k].state == Pending
    requires AllMarked(s.repo)
    ensures Waiting(s.repo, s.broker, k)
  {
    PendingUnderway(s, k);
    var e :| AnnouncedBy(s.repo, k, e) && Underway(s, e);
    assert Marked(s.repo, e);
  }

  lemma AllMarkedAfter(s: System, order: seq<Id>, clock: nat -> Instant, tick: nat)
    requires Outboxed(s.repo) && (forall id :: id in order <==> id in s.repo.outbox)
    ensures Snapshot(s.repo, PendingAmong(s.repo.outbox, order))
    ensures AllMarked(RelayFrom(s.repo, s.broker, PendingAmong(s.repo.outbox, order), clock, tick).0)
  {
    var pending := PendingAmong(s.repo.outbox, order);
    PendingListed(s.repo.outbox, order);
    forall i | 0 <= i < |pending|
      ensures pending[i].eventId in s.repo.outbox && s.repo.outbox[pending[i].eventId].notification == pending[i].notification
    {
      assert pending[i] in pending;
      var id :| id in order && s.repo.outbox[id] == pending[i];
      assert Announces(s.repo, id);
    }
    var r := RelayFrom(s.repo, s.broker, pending, clock, tick).0;
    RelayFrame(s.repo, s.broker, pending, clock, tick);
    forall e | e in r.outbox ensures Marked(r, e) {
      assert Announces(s.repo, e);
      if !Marked(s.repo, e) {
        assert s.repo.outbox[e] in pending;
        var i :| 0 <= i < |pending| && pending[i] == s.repo.outbox[e];
      }
      RelayMarks(s.repo, s.broker, pending, clock, tick, e);
    }
  }

  /** The relay of the events listed in `order` leaves the item's notification waiting. */
  ghost predicate RelayLeavesWaiting(r: Repo, c: Channel, order: seq<Id>, clock: nat -> Instant, tick: nat, k: Key)
    requires forall id :: id in order ==> id in r.outbox
  {
    var (after, channel) := RelayFrom(r, c, PendingAmong(r.outbox, order), clock, tick);
    Waiting(after, channel, k)
  }

  /**
   * Recovery: after any run, once unacknowledged deliveries are put back, one complete relay leaves the notification
   * of every item that was never claimed waiting in the queue.
   */
  lemma RecoveryQueuesPending(steps: seq<Step>, order: seq<Id>, clock: nat -> Instant, tick: nat, k: Key)
    requires AllAllowed(START, steps)
    requires forall id :: id in order <==> id in DoAll(START, steps).repo.outbox
    requires k in DoAll(START, steps).repo.items && DoAll(START, steps).repo.items[k].state == Pending
    ensures var s := DoAll(START, steps);
            RelayLeavesWaiting(s.repo, Redeliver(s.broker).0, order, clock, tick, k)
  {
    StartHolds();
    DoAllKeeps(START, steps);
    RecoverFrom(DoAll(START, steps), order, clock, tick, k);
  }

  /** A relay of a snapshot is a lawful run. */
  lemma RelayKeeps(s: System, pending: seq<Outbox>, clock: nat -> Instant, tick: nat) returns (after: System)
    requires Invariant(s) && Snapshot(s.repo, pending)
    ensures Invariant(after) && (after.repo, after.broker) == RelayFrom(s.repo, s.broker, pending, clock, tick)
  {
    RelayIsSteps(s, pending, clock, tick);
    DoAllKeeps(s, RelaySteps(pending, clock, tick));
    after := DoAll(s, RelaySteps(pending, clock, tick));
  }

  lemma RelayReady(s: System, order: seq<Id>, clock: nat -> Instant, tick: nat) returns (after: System)
    requires Invariant(s) && (forall id :: id in order <==> id in s.repo.outbox)
    ensures (after.repo, after.broker) == RelayFrom(s.repo, s.broker, PendingAmong(s.repo.outbox, order), clock, tick)
    ensures Invariant(after) && AllMarked(after.repo)
    ensures after.repo.items == s.repo.items && after.broker.inflight == s.broker.inflight
  {
    var pending := PendingAmong(s.repo.outbox, order);
    AllMarkedAfter(s, order, clock, tick);
    after := RelayKeeps(s, pending, clock, tick);
    RelayFrame(s.repo, s.broker, pending, clock, tick);
  }

  lemma RelayQueues(s: System, order: seq<Id>, clock: nat -> Instant, tick: nat, k: Key)
    requires Invariant(s) && s.broker.inflight == [] && (forall id :: id in order <==> id in s.repo.outbox)
    requires k in s.repo.items && s.repo.items[k].state == Pending
    ensures RelayLeavesWaiting(s.repo, s.broker, order, clock, tick, k)
  {
    var after := RelayReady(s, order, clock, tick);
    RelayedIsQueued(after, k);
  }

  lemma RecoverFrom(s: System, order: seq<Id>, clock: nat -> Instant, tick: nat, k: Key)
    requires Invariant(s) && (forall id :: id in order <==> id in s.repo.outbox)
    requires k in s.repo.items && s.repo.items[k].state == Pending
    ensures RelayLeavesWaiting(s.repo, Redeliver(s.broker).0, order, clock, tick, k)
  {
    RedeliverKeeps(s);
    RelayQueues(Do(s, RedeliverStep), order, clock, tick, k);
  }
}
