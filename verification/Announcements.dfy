/** The outbox over whole runs: what is announced, pending and published (bulk/memory.py). */
module Announcements {
  import opened Prelude
  import opened Repository
  import opened WorkHistory
  import opened RepositoryRuns
  import Submissions

  /** Marking publishes a known event at that time once; an event published before is answered as it is. */
  lemma MarkAnswers(r: Repo, eventId: Id, at: Instant)
    ensures var (after, answer) := MarkPublished(r, eventId, at);
            && (answer.Ok? <==> eventId in r.outbox) && (answer.Err? ==> answer == Err(NotFound) && after == r)
            && (answer.Ok? ==>
                  && answer.value.eventId == r.outbox[eventId].eventId
                  && answer.value.notification == r.outbox[eventId].notification
                  && answer.value.publishedAt == Some(r.outbox[eventId].publishedAt.GetOr(at))
                  && after.outbox == r.outbox[eventId := answer.value]
                  && (after.items, after.itemIds, after.histories, after.terminals) == (r.items, r.itemIds, r.histories, r.terminals))
  {
    if eventId in r.outbox { assert r.outbox[eventId := r.outbox[eventId]] == r.outbox; }
  }

  /** The event keeps what it announces, and once published its time. */
  predicate SameAnnouncement(before: Outbox, after: Outbox) {
    && after.eventId == before.eventId && after.notification == before.notification
    && (before.publishedAt.Some? ==> after.publishedAt == before.publishedAt)
  }

  lemma ApplyKeepsEvent(r: Repo, e: Event, id: Id)
    requires Consistent(r) && id in r.outbox
    ensures id in Apply(r, e).outbox && SameAnnouncement(r.outbox[id], Apply(r, e).outbox[id])
  {
    if e.WorkEvent? { ApplyWork(r, e.k, e.act); }
  }

  /** Over any run events are never lost or altered, and stay published at the time they first were. */
  lemma {:induction false} EventsAreKept(events: seq<Event>, later: seq<Event>, id: Id)
    requires id in Run(events).outbox
    ensures id in Run(events + later).outbox && SameAnnouncement(Run(events).outbox[id], Run(events + later).outbox[id])
    decreases |later|
  {
    if later == [] {
      assert events + later == events;
    } else {
      var n := |later| - 1;
      EventsAreKept(events, later[..n], id);
      RunConsistent(events + later[..n]);
      assert (events + later)[..|events + later| - 1] == events + later[..n];
      assert (events + later)[|events + later| - 1] == later[n];
      ApplyKeepsEvent(Run(events + later[..n]), later[n], id);
    }
  }

  /** The record of the event announces the item under the key. */
  predicate TellsOf(r: Repo, id: Id, k: Key) {
    && id in r.outbox && r.outbox[id].eventId == id && k in r.items
    && var n, item := r.outbox[id].notification, r.items[k];
       && n.eventId == id && Key(n.jobId, n.key) == k && n.itemId == item.itemId
       && n.configurationVersion == item.configuration.version
       && (n.payloadReference, n.payloadHash) == (item.payload.reference, item.payload.hash) && n.revision == 0
  }

  lemma AnnouncesStill(r: Repo, e: Event, id: Id, k: Key)
    requires Consistent(r) && TellsOf(r, id, k)
    ensures TellsOf(Apply(r, e), id, k)
  {
    ApplyKeepsEvent(r, e, id);
    Submissions.ApplyKeepsIdentity(r, e, k);
  }

  predicate AllAnnounce(r: Repo) {
    forall id :: id in r.outbox ==>
      TellsOf(r, id, Key(r.outbox[id].notification.jobId, r.outbox[id].notification.key))
  }

  lemma NewAnnounces(r: Repo, e: Event, id: Id)
    requires Consistent(r) && id in Apply(r, e).outbox && id !in r.outbox
    ensures e.SubmitEvent? && TellsOf(Apply(r, e), id, Key(e.jobId, e.name))
    ensures Apply(r, e).outbox[id].notification.jobId == e.jobId && Apply(r, e).outbox[id].notification.key == e.name
  {
    if e.WorkEvent? { ApplyWork(r, e.k, e.act); }
  }

  lemma ApplyAnnounces(r: Repo, e: Event)
    requires Consistent(r) && AllAnnounce(r)
    ensures AllAnnounce(Apply(r, e))
  {
    var after := Apply(r, e);
    forall id | id in after.outbox
      ensures TellsOf(after, id, Key(after.outbox[id].notification.jobId, after.outbox[id].notification.key))
    {
      if id in r.outbox {
        ApplyKeepsEvent(r, e, id);
        AnnouncesStill(r, e, id, Key(r.outbox[id].notification.jobId, r.outbox[id].notification.key));
      } else {
        NewAnnounces(r, e, id);
      }
    }
  }

  /** In every reachable repository every event announces an item as it was submitted. */
  lemma {:induction false} EventsAnnounce(events: seq<Event>)
    ensures AllAnnounce(Run(events))
  {
    if events != [] {
      var n := |events| - 1;
      EventsAnnounce(events[..n]);
      RunConsistent(events[..n]);
      ApplyAnnounces(Run(events[..n]), events[n]);
    }
  }

  // ----- What is pending -----

  predicate Increasing(places: seq<nat>, bound: nat) {
    && (forall i :: 0 <= i < |places| ==> places[i] < bound)
    && forall i, j :: 0 <= i < j < |places| ==> places[i] < places[j]
  }

  /** `r` are the records of the events at these places. */
  predicate RecordsAt(outbox: map<Id, Outbox>, order: seq<Id>, r: seq<Outbox>, places: seq<nat>)
    requires forall id :: id in order ==> id in outbox
  {
    && |places| == |r| && Increasing(places, |order|)
    && forall i :: 0 <= i < |r| ==> r[i] == outbox[order[places[i]]]
  }

  /** The places are those of the unpublished events. */
  predicate Unpublished(outbox: map<Id, Outbox>, order: seq<Id>, places: seq<nat>)
    requires forall id :: id in order ==> id in outbox
  {
    forall k :: 0 <= k < |order| ==> (k in places <==> outbox[order[k]].publishedAt.None?)
  }

  lemma OnePlaceMore(outbox: map<Id, Outbox>, order: seq<Id>, n: nat, r: seq<Outbox>, places: seq<nat>)
    requires |order| == n + 1 && (forall id :: id in order ==> id in outbox) && outbox[order[n]].publishedAt.None?
    requires RecordsAt(outbox, order[..n], r, places) && Unpublished(outbox, order[..n], places)
    ensures RecordsAt(outbox, order, r + [outbox[order[n]]], places + [n]) && Unpublished(outbox, order, places + [n])
  {
    forall k | 0 <= k < |order| ensures k in places + [n] <==> outbox[order[k]].publishedAt.None? {
      if k < n { assert order[..n][k] == order[k]; }
    }
  }

  lemma OnePublishedMore(outbox: map<Id, Outbox>, order: seq<Id>, n: nat, r: seq<Outbox>, places: seq<nat>)
    requires |order| == n + 1 && (forall id :: id in order ==> id in outbox) && outbox[order[n]].publishedAt.Some?
    requires RecordsAt(outbox, order[..n], r, places) && Unpublished(outbox, order[..n], places)
    ensures RecordsAt(outbox, order, r, places) && Unpublished(outbox, order, places)
  {
    forall k | 0 <= k < |order| ensures k in places <==> outbox[order[k]].publishedAt.None? {
      if k < n { assert order[..n][k] == order[k]; }
    }
  }

  /** The unpublished records, each once, in the order of their creation. */
  lemma {:induction false} PendingInOrder(outbox: map<Id, Outbox>, order: seq<Id>) returns (places: seq<nat>)
    requires forall id :: id in order ==> id in outbox
    ensures RecordsAt(outbox, order, PendingAmong(outbox, order), places) && Unpublished(outbox, order, places)
  {
    places := [];
    if order != [] {
      var n := |order| - 1;
      places := PendingInOrder(outbox, order[..n]);
      var r := PendingAmong(outbox, order[..n]);
      if outbox[order[n]].publishedAt.None? {
        OnePlaceMore(outbox, order, n, r, places);
        places := places + [n];
      } else {
        OnePublishedMore(outbox, order, n, r, places);
      }
    }
  }
}
