/** Admission, outbox relay and claiming of deliveries, over the durable repository and the broker. */
module BulkCoordination {
  import opened Prelude
  import opened Repository
  import opened WorkHistory
  import opened RepositoryRuns
  import Submissions
  import Broker
  import Delivery
  import opened ObjectStore
  import Relay
  import opened DurableRepositoryControl

  datatype CoordinatorError = NotBulk | BlankIdentifier | UnknownWork | MetadataMismatch | ClaimRequired | Refused(error: WorkError)

  datatype Handled = Handled(repo: Repo, channel: Broker.Channel, result: Result<Claim, CoordinatorError>)

  /** What the coordinator makes of the repository's answer. */
  function Told(answer: Result<Item, WorkError>): Result<Item, CoordinatorError> {
    match answer
    case Ok(item) => Ok(item)
    case Err(error) => Err(Refused(error))
  }

  /** `claim_delivery`: check, claim, and only then acknowledge. */
  function HandleDelivery(r: Repo, c: Broker.Channel, d: Broker.Delivery, owner: Id, now: Instant, duration: int): Handled {
    if Delivery.Target(d.notification) !in r.items then Handled(r, c, Err(UnknownWork))
    else if !Delivery.Matches(r, d.notification) then Handled(r, c, Err(MetadataMismatch))
    else
      var (after, claim) := ClaimWork(r, Delivery.Target(d.notification), owner, now, duration);
      if claim.Err? then Handled(after, c, Err(Refused(claim.error)))
      else Handled(after, Broker.Acknowledge(c, d.id).0, Ok(claim.value))
  }

  /** A delivery that matches its work item is handled by a claim followed by an acknowledgement. */
  lemma MatchedIsSteps(s: Delivery.System, d: Broker.Delivery, owner: Id, now: Instant, duration: int)
    requires d.id in s.issued && s.issued[d.id] == d.notification && Delivery.Matches(s.repo, d.notification)
    ensures var handled, claim, acknowledge := HandleDelivery(s.repo, s.broker, d, owner, now, duration),
              Delivery.ClaimStep(d.id, owner, now, duration), Delivery.AcknowledgeStep(d.id);
            var claimed := Delivery.Do(s, claim);
            && handled.repo == claimed.repo
            && (handled.result.Ok? <==> LeaseArguments(owner, duration))
            && (handled.result.Ok? ==>
                  Delivery.Allowed(claimed, acknowledge) && handled.channel == Delivery.Do(claimed, acknowledge).broker)
            && (handled.result.Err? ==> handled.result == Err(Refused(BadValue)) && claimed.broker == handled.channel == s.broker)
  {}

  /** Handling a delivery the broker issued is a claim followed by an acknowledgement, and only a bad lease refuses it. */
  lemma HandlingIsSteps(s: Delivery.System, d: Broker.Delivery, owner: Id, now: Instant, duration: int)
    requires Delivery.Invariant(s) && d.id in s.issued && s.issued[d.id] == d.notification
    ensures Delivery.Matches(s.repo, d.notification)
    ensures var handled, claim, acknowledge := HandleDelivery(s.repo, s.broker, d, owner, now, duration),
              Delivery.ClaimStep(d.id, owner, now, duration), Delivery.AcknowledgeStep(d.id);
            var claimed := Delivery.Do(s, claim);
            && handled.repo == claimed.repo
            && (handled.result.Ok? <==> LeaseArguments(owner, duration))
            && (handled.result.Ok? ==>
                  Delivery.Allowed(claimed, acknowledge) && handled.channel == Delivery.Do(claimed, acknowledge).broker)
            && (handled.result.Err? ==> handled.result == Err(Refused(BadValue)) && claimed.broker == handled.channel == s.broker)
  {
    Delivery.IssuedMatches(s, d.id);
    MatchedIsSteps(s, d, owner, now, duration);
  }

  /** The notification is about this work item as it was submitted. */
  predicate About(n: Notification, item: Item) {
    && (n.jobId, n.key, n.itemId, n.configurationVersion) == (item.jobId, item.key, item.itemId, item.configuration.version)
    && n.payloadReference == item.payload.reference && n.payloadHash == item.payload.hash
  }

  /**
   * Any delivery, genuine or not: it is refused as unknown if and only if its key holds no work item, and as a mismatch if and only
   * if the item it holds differs in item id, configuration version, payload reference or hash. A refusal of any kind claims and
   * acknowledges nothing; otherwise the item is claimed and the delivery, and no other, acknowledged.
   */
  lemma HandlingIff(r: Repo, c: Broker.Channel, d: Broker.Delivery, owner: Id, now: Instant, duration: int)
    requires Consistent(r)
    ensures var handled, k := HandleDelivery(r, c, d, owner, now, duration), Key(d.notification.jobId, d.notification.key);
            && (handled.result == Err(UnknownWork) <==> k !in r.items)
            && (handled.result == Err(MetadataMismatch) <==> k in r.items && !About(d.notification, r.items[k]))
            && (handled.result == Err(Refused(BadValue)) <==>
                  k in r.items && About(d.notification, r.items[k]) && !LeaseArguments(owner, duration))
            && (handled.result.Err? ==> handled.repo == r && handled.channel == c)
            && (handled.result.Ok? <==> k in r.items && About(d.notification, r.items[k]) && LeaseArguments(owner, duration))
            && (handled.result.Ok? ==>
                  && handled.result.value == ClaimCell(CellAt(r, k), owner, now, duration).1
                  && handled.repo == Put(r, k, ClaimCell(CellAt(r, k), owner, now, duration).0)
                  && handled.channel == Broker.Acknowledge(c, d.id).0)
  {
    var k := Key(d.notification.jobId, d.notification.key);
    if k in r.items { assert KeyOf(r.items[k]) == k; }
  }

  predicate Stores(r: Repo, k: Key, item: Item) {
    k in r.items && r.items[k] == item
  }

  class NotificationBroker {
    var queued: seq<Notification>
    var inflight: seq<Broker.Delivery>

    ghost function View(): Broker.Channel
      reads this
    {
      Broker.Channel(queued, inflight)
    }

    constructor ()
      ensures View() == Broker.Channel([], [])
    {
      queued, inflight := [], [];
    }

    method Publish(n: Notification)
      modifies this
      ensures View() == Broker.Publish(old(View()), n)
    {
      queued := queued + [n];
    }

    method Find(id: Id) returns (position: Option<nat>)
      ensures position == Broker.Position(inflight, id)
    {
      var i := |inflight|;
      assert inflight[..i] == inflight;
      while i > 0
        invariant 0 <= i <= |inflight|
        invariant Broker.Position(inflight, id) == Broker.Position(inflight[..i], id)
      {
        if inflight[i - 1].id == id { return Some(i - 1); }
        assert inflight[..i][..i - 1] == inflight[..i - 1];
        i := i - 1;
      }
      return None;
    }

    /** `id` is the identifier drawn for the delivery. */
    method Receive(id: Id) returns (r: Result<Option<Broker.Delivery>, Broker.BrokerError>)
      modifies this
      ensures (View(), r) == Broker.Receive(old(View()), id)
    {
      if queued == [] { return Ok(None); }
      var n := queued[0];
      queued := queued[1..];
      var taken := Find(id);
      if Blank(id) || taken.Some? { return Err(Broker.BadDeliveryIdentifier); }
      var delivery := Broker.Delivery(id, n);
      inflight := inflight + [delivery];
      return Ok(Some(delivery));
    }

    method Acknowledge(id: Id) returns (known: bool)
      modifies this`inflight
      ensures (View(), known) == Broker.Acknowledge(old(View()), id)
    {
      var position := Find(id);
      if position.None? { return false; }
      inflight := Without(inflight, position.value);
      return true;
    }

    method RedeliverUnacknowledged() returns (count: nat)
      modifies this
      ensures (View(), count) == Broker.Redeliver(old(View()))
    {
      count := |inflight|;
      queued, inflight := Broker.NotificationsOf(inflight) + queued, [];
    }
  }

  class BulkCoordinator {
    const repository: DurableRepository
    const store: ObjectResultStore
    const broker: NotificationBroker
    const clock: nat -> Instant
    /** How often the clock was read. */
    var ticks: nat

    constructor (repository: DurableRepository, store: ObjectResultStore, broker: NotificationBroker, clock: nat -> Instant)
      ensures this.repository == repository && this.store == store && this.broker == broker && this.clock == clock && ticks == 0
    {
      this.repository, this.store, this.broker, this.clock, ticks := repository, store, broker, clock, 0;
    }

    /** `eventId` is the identifier drawn for the event. The payload is stored first, and stays when the rest is refused. */
    method Submit(jobId: Id, itemId: Id, name: Id, payload: Bytes, configuration: ConfigRef, bulk: bool, eventId: Id)
      returns (r: Result<Item, CoordinatorError>)
      requires repository.Valid()
      modifies repository, store
      ensures repository.Valid() && repository.Books() == old(repository.Books())
      ensures (r == Err(NotBulk) <==> !bulk) && (r == Err(BlankIdentifier) <==> bulk && Blank(eventId))
      ensures store.objects == if bulk then Stored(old(store.objects), store.digest, payload, PayloadArtifact) else old(store.objects)
      ensures var reference := ReferenceTo(store.digest, payload, PayloadArtifact);
              var submission := SubmitEvent(jobId, itemId, name, reference, configuration, eventId);
              bulk && !Blank(eventId) ==>
                && repository.Work() == Apply(old(repository.Work()), submission)
                && r == Told(Submissions.AnswerTo(old(repository.Work()), submission))
                && (r.Ok? ==> Stores(repository.Work(), Key(jobId, name), r.value))
                && (Bijective(old(repository.Work())) ==>
                      Submissions.AnswersSubmission(old(repository.Work()), submission, repository.Work(),
                                                    Submissions.AnswerTo(old(repository.Work()), submission)))
      ensures r.Err? ==> repository.Work() == old(repository.Work())
    {
      if !bulk { return Err(NotBulk); }
      var reference := store.PutObject(payload, PayloadArtifact);
      var item := Item(jobId, itemId, name, reference, configuration, Pending, 0, None, None, None, 0);
      if Blank(eventId) { return Err(BlankIdentifier); }
      if Bijective(repository.Work()) {
        Submissions.AnswerOf(repository.Work(), SubmitEvent(jobId, itemId, name, reference, configuration, eventId));
      }
      var notification := Notification(eventId, jobId, itemId, name, configuration.version, reference.reference, reference.hash,
                                       item.revision);
      var created := repository.CreateWithOutbox(item, Outbox(eventId, notification, None));
      if created.Err? { return Err(Refused(created.error)); }
      return Ok(created.value);
    }

    /** Publishes and marks each pending event in turn. */
    method RelayPending() returns (published: nat)
      requires repository.Valid()
      modifies this`ticks, repository, broker
      ensures repository.Valid() && repository.outboxOrder == old(repository.outboxOrder)
      ensures var pending := PendingAmong(old(repository.outbox), old(repository.outboxOrder));
              && published == |pending| && ticks == old(ticks) + published
              && (repository.Work(), broker.View())
                 == Relay.RelayFrom(old(repository.Work()), old(broker.View()), pending, clock, old(ticks))
    {
      var pending := repository.PendingOutbox();
      published := 0;
      while published < |pending|
        invariant published <= |pending| && repository.Valid() && ticks == old(ticks) + published
        invariant repository.outboxOrder == old(repository.outboxOrder)
        invariant Relay.RelayFrom(repository.Work(), broker.View(), pending[published..], clock, ticks)
               == Relay.RelayFrom(old(repository.Work()), old(broker.View()), pending, clock, old(ticks))
      {
        assert pending[published..][1..] == pending[published + 1..];
        broker.Publish(pending[published].notification);
        var marked := repository.MarkPublished(pending[published].eventId, clock(ticks));
        ticks := ticks + 1;
        published := published + 1;
      }
    }

    method ClaimDelivery(delivery: Broker.Delivery, owner: Id, duration: int) returns (r: Result<Claim, CoordinatorError>)
      requires repository.Valid()
      modifies this`ticks, repository`items, broker`inflight
      ensures repository.Valid()
      ensures Handled(repository.Work(), broker.View(), r)
           == HandleDelivery(old(repository.Work()), old(broker.View()), delivery, owner, clock(old(ticks)), duration)
    {
      var n := delivery.notification;
      var key := Key(n.jobId, n.key);
      if key !in repository.items { return Err(UnknownWork); }
      var item := repository.items[key];
      if item.itemId != n.itemId || item.configuration.version != n.configurationVersion
         || item.payload.reference != n.payloadReference || item.payload.hash != n.payloadHash {
        return Err(MetadataMismatch);
      }
      var claim := repository.ClaimWork(key, owner, clock(ticks), duration);
      ticks := ticks + 1;
      if claim.Err? { return Err(Refused(claim.error)); }
      var acknowledged := broker.Acknowledge(delivery.id);
      return Ok(claim.value);
    }

    /** Stores the result, if there is one, and checkpoints the stage with its reference. */
    method SaveStage(claim: Claim, stage: Stage, outcome: string, result: Option<Bytes>)
      returns (r: Result<Checkpoint, CoordinatorError>)
      requires repository.Valid()
      modifies this`ticks, store, repository`items, repository`checkpoints
      ensures repository.Valid()
      ensures if claim.status != Acquired || claim.item.leaseOwner.None?
              then r == Err(ClaimRequired) && repository.Work() == old(repository.Work()) && store.objects == old(store.objects)
              else
                var reference := if result.None? then None else Some(ReferenceTo(store.digest, result.value, ResultArtifact));
                var (after, record) := SaveCheckpoint(old(repository.Work()), KeyOf(claim.item), claim.item.leaseOwner.value,
                                                      stage, outcome, clock(old(ticks)), reference);
                && repository.Work() == after && r == (if record.Ok? then Ok(record.value) else Err(Refused(record.error)))
                && store.objects == if result.None? then old(store.objects)
                                    else Stored(old(store.objects), store.digest, result.value, ResultArtifact)
    {
      if claim.status != Acquired || claim.item.leaseOwner.None? { return Err(ClaimRequired); }
      var reference: Option<ObjectRef> := None;
      if result.Some? {
        var stored := store.PutObject(result.value, ResultArtifact);
        reference := Some(stored);
      }
      var record := repository.SaveCheckpoint(Key(claim.item.jobId, claim.item.key), claim.item.leaseOwner.value, stage, outcome,
                                              clock(ticks), reference);
      ticks := ticks + 1;
      if record.Err? { return Err(Refused(record.error)); }
      return Ok(record.value);
    }
  }
}
