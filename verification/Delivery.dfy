/** From submission to claim: no work that was never claimed is lost (bulk/coordinator.py, bulk/memory.py). */
module Delivery {
  import opened Prelude
  import opened Repository
  import opened WorkHistory
  import opened RepositoryRuns
  import opened Broker

  function Target(n: Notification): Key { Key(n.jobId, n.key) }

  /** The checks of `claim_delivery` before it claims. */
  predicate Matches(r: Repo, n: Notification) {
    && Target(n) in r.items
    && var item := r.items[Target(n)];
       && item.itemId == n.itemId && item.configuration.version == n.configurationVersion
       && item.payload.reference == n.payloadReference && item.payload.hash == n.payloadHash
  }

  /**
   * The repository and the broker, with what happened so far: the events ever published, the deliveries ever issued,
   * those whose item was claimed for them, and those acknowledged.
   */
  datatype System = System(
    repo: Repo, broker: Channel, published: set<Id>, issued: map<Id, Notification>, claimed: set<Id>, acknowledged: set<Id>)

  const START := System(EMPTY, Channel([], []), {}, map[], {}, {})

  /** The calls that `submit`, `relay_pending`, `claim_delivery` and the workers make, one at a time. */
  datatype Step =
    | SubmitStep(jobId: Id, itemId: Id, name: Id, payload: ObjectRef, configuration: ConfigRef, eventId: Id)
    | PublishStep(eventId: Id)
    | MarkStep(eventId: Id, at: Instant)
    | ReceiveStep(deliveryId: Id)
    | RedeliverStep
    | ClaimStep(deliveryId: Id, owner: Id, now: Instant, duration: int)
    | AcknowledgeStep(deliveryId: Id)
    | WorkStep(k: Key, act: Act)

  function Do(s: System, step: Step): System {
    match step
    case SubmitStep(jobId, itemId, name, payload, configuration, eventId) =>
      s.(repo := Apply(s.repo, SubmitEvent(jobId, itemId, name, payload, configuration, eventId)))
    case PublishStep(eventId) =>
      if eventId in s.repo.outbox then
        s.(broker := Publish(s.broker, s.repo.outbox[eventId].notification), published := s.published + {eventId})
      else s
    case MarkStep(eventId, at) => s.(repo := MarkPublished(s.repo, eventId, at).0)
    case ReceiveStep(deliveryId) =>
      var (broker, delivery) := Receive(s.broker, deliveryId);
      s.(broker := broker,
         issued := if delivery.Ok? && delivery.value.Some? then s.issued[deliveryId := delivery.value.value.notification] else s.issued)
    case RedeliverStep => s.(broker := Redeliver(s.broker).0)
    case ClaimStep(deliveryId, owner, now, duration) =>
      if deliveryId in s.issued && Matches(s.repo, s.issued[deliveryId]) then
        var (repo, claim) := ClaimWork(s.repo, Target(s.issued[deliveryId]), owner, now, duration);
        s.(repo := repo, claimed := if claim.Ok? then s.claimed + {deliveryId} else s.claimed)
      else s
    case AcknowledgeStep(deliveryId) =>
      s.(broker := Acknowledge(s.broker, deliveryId).0, acknowledged := s.acknowledged + {deliveryId})
    case WorkStep(k, act) => s.(repo := ApplyAct(s.repo, k, act))
  }

  /**
   * What the callers keep to: an event is marked after it was published, a delivery is acknowledged after its claim,
   * and delivery identifiers are stated and never used twice. A caller may stop between any two of its steps.
   */
  predicate Allowed(s: System, step: Step) {
    match step
    case MarkStep(eventId, _) => eventId in s.published
    case ReceiveStep(deliveryId) => !Blank(deliveryId) && deliveryId !in s.issued
    case AcknowledgeStep(deliveryId) => deliveryId in s.claimed
    case _ => true
  }

  function DoAll(s: System, steps: seq<Step>): System
    decreases |steps|
  {
    if steps == [] then s else DoAll(Do(s, steps[0]), steps[1..])
  }

  predicate AllAllowed(s: System, steps: seq<Step>)
    decreases |steps|
  {
    steps == [] || (Allowed(s, steps[0]) && AllAllowed(Do(s, steps[0]), steps[1..]))
  }

  // ----- The repository only grows -----

  predicate ItemGrows(before: Item, after: Item) {
    SameIdentity(before, after) && before.attempts <= after.attempts
  }

  /** The records differ at most in their publication time. */
  predicate SameEvent(before: Outbox, after: Outbox) {
    before.eventId == after.eventId && before.notification == after.notification
  }

  ghost predicate RepoGrows(before: Repo, after: Repo) {
    && (forall k :: k in before.items ==> k in after.items && ItemGrows(before.items[k], after.items[k]))
    && (forall e :: e in before.outbox ==> e in after.outbox && SameEvent(before.outbox[e], after.outbox[e]))
  }

  ghost predicate Sound(r: Repo) {
    Consistent(r) && forall k :: k in r.items ==> CellOk(CellAt(r, k))
  }

  lemma WorkGrows(r: Repo, k: Key, act: Act)
    requires Sound(r)
    ensures var after := ApplyAct(r, k, act);
            Sound(after) && RepoGrows(r, after) && after.items.Keys == r.items.Keys && after.outbox == r.outbox
  {
    ApplyWork(r, k, act);
    var after := ApplyAct(r, k, act);
    forall other | other in after.items ensures CellOk(CellAt(after, other)) && ItemGrows(r.items[other], after.items[other]) {
      if other == k {
        PerformKeeps(CellAt(r, k), act);
        PerformPreserves(CellAt(r, k), act);
      }
      assert CellAt(after, other).item == after.items[other];
    }
  }

  /** A new item and the outbox record that announces it, entered together. */
  predicate Enters(r: Repo, after: Repo, item: Item, eventId: Id) {
    && KeyOf(item) !in r.items && eventId !in r.outbox
    && after.items == r.items[KeyOf(item) := item] && after.outbox == r.outbox[eventId := Announce(item, eventId)]
    && after.histories == r.histories && after.terminals == r.terminals
  }

  lemma SubmitEnters(r: Repo, e: Event)
    requires e.SubmitEvent?
    ensures var after, item := Apply(r, e), FreshItem(e.jobId, e.itemId, e.name, e.payload, e.configuration);
            after == r || Enters(r, after, item, e.eventId)
  {}

  lemma EnteredCells(r: Repo, after: Repo, item: Item, eventId: Id, k: Key)
    requires Consistent(r) && Enters(r, after, item, eventId) && k in after.items
    ensures CellAt(after, k) == if k == KeyOf(item) then Cell(item, [], None) else CellAt(r, k)
  {}

  lemma FreshIsOk(item: Item)
    requires Fresh(item)
    ensures CellOk(Cell(item, [], None))
  {}

  lemma EnteredConsistent(r: Repo, after: Repo, item: Item, eventId: Id)
    requires Consistent(r) && Enters(r, after, item, eventId)
    ensures Consistent(after)
  {}

  lemma EnteredCellOk(r: Repo, after: Repo, item: Item, eventId: Id, k: Key)
    requires Sound(r) && Enters(r, after, item, eventId) && Fresh(item) && k in after.items
    ensures CellOk(CellAt(after, k))
  {
    EnteredCells(r, after, item, eventId, k);
    if k == KeyOf(item) { FreshIsOk(item); }
  }

  lemma EnteredSound(r: Repo, after: Repo, item: Item, eventId: Id)
    requires Sound(r) && Enters(r, after, item, eventId) && Fresh(item)
    ensures Sound(after)
  {
    EnteredConsistent(r, after, item, eventId);
    forall k | k in after.items ensures CellOk(CellAt(after, k)) {
      EnteredCellOk(r, after, item, eventId, k);
    }
  }

  lemma EnteredGrows(r: Repo, after: Repo, item: Item, eventId: Id)
    requires Enters(r, after, item, eventId)
    ensures RepoGrows(r, after)
  {}

  lemma SubmitGrows(r: Repo, e: Event)
    requires Sound(r) && e.SubmitEvent?
    ensures Sound(Apply(r, e)) && RepoGrows(r, Apply(r, e))
  {
    SubmitEnters(r, e);
    var after, item := Apply(r, e), FreshItem(e.jobId, e.itemId, e.name, e.payload, e.configuration);
    if after != r {
      EnteredSound(r, after, item, e.eventId);
      EnteredGrows(r, after, item, e.eventId);
    }
  }

  /** At most the publication time of one outbox record differs. */
  ghost predicate OnlyMarked(r: Repo, after: Repo, eventId: Id) {
    && after.items == r.items && after.histories == r.histories && after.terminals == r.terminals
    && after.outbox.Keys == r.outbox.Keys
    && (forall e :: e in r.outbox ==> SameEvent(r.outbox[e], after.outbox[e]))
    && (forall e :: e in r.outbox && e != eventId ==> after.outbox[e] == r.outbox[e])
  }

  lemma MarkOnly(r: Repo, eventId: Id, at: Instant)
    ensures OnlyMarked(r, MarkPublished(r, eventId, at).0, eventId)
  {}

  lemma MarkedSound(r: Repo, after: Repo, eventId: Id)
    requires Sound(r) && OnlyMarked(r, after, eventId)
    ensures Sound(after)
  {
    forall k | k in after.items ensures CellOk(CellAt(after, k)) {
      assert CellOk(CellAt(r, k)) && CellAt(after, k) == CellAt(r, k);
    }
  }

  lemma MarkedGrows(r: Repo, after: Repo, eventId: Id)
    requires OnlyMarked(r, after, eventId)
    ensures RepoGrows(r, after)
  {}

  /** A claim that is answered at all leaves an item that was claimed at least once. */
  lemma ClaimStarts(r: Repo, k: Key, owner: Id, now: Instant, duration: int)
    requires Sound(r)
    ensures var (after, claim) := ClaimWork(r, k, owner, now, duration);
            && Sound(after) && RepoGrows(r, after) && after.items.Keys == r.items.Keys && after.outbox == r.outbox
            && (claim.Ok? ==> k in after.items && after.items[k].attempts >= 1)
  {
    var act := ClaimAct(owner, now, duration);
    WorkGrows(r, k, act);
    if k in r.items && LeaseArguments(owner, duration) {
      ClaimedOnce(CellAt(r, k), owner, now, duration);
      ApplyActIsPerform(r, k, act);
    }
  }

  lemma ClaimedOnce(c: Cell, owner: Id, now: Instant, duration: int)
    requires CellOk(c)
    ensures ClaimCell(c, owner, now, duration).0.item.attempts >= 1
  {}

  // ----- The invariant -----

  /** The outbox record of the event announces an existing item, as that item still is. */
  predicate Announces(r: Repo, eventId: Id) {
    && eventId in r.outbox && r.outbox[eventId].eventId == r.outbox[eventId].notification.eventId == eventId
    && Matches(r, r.outbox[eventId].notification)
  }

  predicate AnnouncedBy(r: Repo, k: Key, eventId: Id) {
    eventId in r.outbox && Target(r.outbox[eventId].notification) == k
  }

  ghost predicate Outboxed(r: Repo) {
    && (forall e :: e in r.outbox ==> Announces(r, e))
    && (forall k :: k in r.items ==> exists e :: AnnouncedBy(r, k, e))
  }

  /** The notification is the one its event's outbox record holds. */
  predicate Genuine(r: Repo, n: Notification) {
    n.eventId in r.outbox && r.outbox[n.eventId].notification == n
  }

  ghost predicate AllGenuine(s: System) {
    && (forall i :: 0 <= i < |s.broker.queued| ==> Genuine(s.repo, s.broker.queued[i]))
    && (forall id :: id in s.issued ==> Genuine(s.repo, s.issued[id]))
  }

  /** Outstanding deliveries were issued as such, under different identifiers. */
  predicate Tracked(s: System) {
    && DistinctIds(s.broker.inflight)
    && forall i :: 0 <= i < |s.broker.inflight| ==>
         var d := s.broker.inflight[i]; d.id in s.issued && s.issued[d.id] == d.notification
  }

  predicate Started(r: Repo, k: Key) {
    k in r.items && r.items[k].attempts >= 1
  }

  predicate ClaimsStarted(s: System) {
    && s.acknowledged <= s.claimed
    && forall id :: id in s.claimed ==> id in s.issued && Started(s.repo, Target(s.issued[id]))
  }

  predicate InBroker(c: Channel, n: Notification) {
    n in c.queued || n in NotificationsOf(c.inflight)
  }

  /** A published event is still held by the broker, or its item has been claimed. */
  predicate Carried(s: System, eventId: Id) {
    && eventId in s.repo.outbox
    && var n := s.repo.outbox[eventId].notification; InBroker(s.broker, n) || Started(s.repo, Target(n))
  }

  ghost predicate AllCarried(s: System) {
    && (forall e :: e in s.published ==> Carried(s, e))
    && (forall e :: e in s.repo.outbox && s.repo.outbox[e].publishedAt.Some? ==> e in s.published)
  }

  ghost predicate Invariant(s: System) {
    Sound(s.repo) && Outboxed(s.repo) && AllGenuine(s) && Tracked(s) && ClaimsStarted(s) && AllCarried(s)
  }

  // ----- Growth keeps what was established -----

  lemma StillAnnounces(before: Repo, after: Repo, e: Id)
    requires RepoGrows(before, after) && Announces(before, e)
    ensures Announces(after, e)
  {}

  lemma StillAnnounced(before: Repo, after: Repo, k: Key)
    requires RepoGrows(before, after) && exists e :: AnnouncedBy(before, k, e)
    ensures exists e :: AnnouncedBy(after, k, e)
  {
    var e :| AnnouncedBy(before, k, e);
    assert AnnouncedBy(after, k, e);
  }

  lemma GrowthKeepsAnnouncements(before: Repo, after: Repo)
    requires Outboxed(before) && RepoGrows(before, after)
    requires after.items.Keys == before.items.Keys && after.outbox.Keys == before.outbox.Keys
    ensures Outboxed(after)
  {
    forall e | e in after.outbox ensures Announces(after, e) {
      StillAnnounces(before, after, e);
    }
    forall k | k in after.items ensures exists e :: AnnouncedBy(after, k, e) {
      StillAnnounced(before, after, k);
    }
  }

  lemma GrowthKeepsTheRest(s: System, repo: Repo)
    requires AllGenuine(s) && Tracked(s) && ClaimsStarted(s) && RepoGrows(s.repo, repo)
    ensures var after := s.(repo := repo); AllGenuine(after) && Tracked(after) && ClaimsStarted(after)
  {
    var after := s.(repo := repo);
    forall id | id in s.claimed ensures id in s.issued && Started(repo, Target(s.issued[id])) {
      assert Started(s.repo, Target(s.issued[id]));
    }
    forall id | id in s.issued ensures Genuine(repo, s.issued[id]) {
      assert Genuine(s.repo, s.issued[id]);
    }
    forall i | 0 <= i < |s.broker.queued| ensures Genuine(repo, s.broker.queued[i]) {
      assert Genuine(s.repo, s.broker.queued[i]);
    }
  }

  lemma GrowthKeepsCarried(s: System, repo: Repo)
    requires (forall e :: e in s.published ==> Carried(s, e)) && RepoGrows(s.repo, repo)
    ensures forall e :: e in s.published ==> Carried(s.(repo := repo), e)
  {
    forall e | e in s.published ensures Carried(s.(repo := repo), e) {
      assert Carried(s, e);
      var n := s.repo.outbox[e].notification;
      assert Started(s.repo, Target(n)) ==> Started(repo, Target(n));
    }
  }

  // ----- Every step keeps the invariant -----

  lemma EnteredIsAnnounced(r: Repo, after: Repo, item: Item, eventId: Id)
    requires Outboxed(r) && Enters(r, after, item, eventId)
    ensures forall e :: e in after.outbox ==> Announces(after, e)
  {
    forall e | e in after.outbox ensures Announces(after, e) {
      if e != eventId { assert Announces(r, e); }
    }
  }

  lemma EnteredHasEvent(r: Repo, after: Repo, item: Item, eventId: Id)
    requires Outboxed(r) && Enters(r, after, item, eventId)
    ensures forall k :: k in after.items ==> exists e :: AnnouncedBy(after, k, e)
  {
    forall k | k in after.items ensures exists e :: AnnouncedBy(after, k, e) {
      if k == KeyOf(item) {
        assert AnnouncedBy(after, k, eventId);
      } else {
        var e :| AnnouncedBy(r, k, e);
        assert AnnouncedBy(after, k, e);
      }
    }
  }

  lemma SubmitAnnounces(r: Repo, e: Event)
    requires Outboxed(r) && e.SubmitEvent?
    ensures Outboxed(Apply(r, e))
  {
    SubmitEnters(r, e);
    var after, item := Apply(r, e), FreshItem(e.jobId, e.itemId, e.name, e.payload, e.configuration);
    if after != r {
      EnteredIsAnnounced(r, after, item, e.eventId);
      EnteredHasEvent(r, after, item, e.eventId);
    }
  }

  ghost predicate MarkedPublished(repo: Repo, published: set<Id>) {
    forall e :: e in repo.outbox && repo.outbox[e].publishedAt.Some? ==> e in published
  }

  /** A transaction of the repository that keeps its side of the invariant keeps all of it. */
  lemma RepoStepKeeps(s: System, repo: Repo)
    requires Invariant(s) && RepoGrows(s.repo, repo) && Sound(repo) && Outboxed(repo) && MarkedPublished(repo, s.published)
    ensures Invariant(s.(repo := repo))
  {
    GrowthKeepsTheRest(s, repo);
    GrowthKeepsCarried(s, repo);
  }

  lemma SubmitMarks(r: Repo, e: Event, published: set<Id>)
    requires e.SubmitEvent? && MarkedPublished(r, published)
    ensures MarkedPublished(Apply(r, e), published)
  {}

  lemma SubmitKeeps(s: System, step: Step)
    requires Invariant(s) && step.SubmitStep?
    ensures Invariant(Do(s, step))
  {
    var e := SubmitEvent(step.jobId, step.itemId, step.name, step.payload, step.configuration, step.eventId);
    SubmitGrows(s.repo, e);
    SubmitAnnounces(s.repo, e);
    SubmitMarks(s.repo, e, s.published);
    RepoStepKeeps(s, Apply(s.repo, e));
  }

  /** Work on items leaves the outbox as it is. */
  lemma ItemsMovedKeeps(s: System, repo: Repo)
    requires Invariant(s) && Sound(repo) && RepoGrows(s.repo, repo)
    requires repo.items.Keys == s.repo.items.Keys && repo.outbox == s.repo.outbox
    ensures Invariant(s.(repo := repo))
  {
    GrowthKeepsAnnouncements(s.repo, repo);
    RepoStepKeeps(s, repo);
  }

  lemma WorkKeeps(s: System, k: Key, act: Act, repo: Repo)
    requires Invariant(s) && repo == ApplyAct(s.repo, k, act)
    ensures Invariant(s.(repo := repo))
  {
    WorkGrows(s.repo, k, act);
    ItemsMovedKeeps(s, repo);
  }

  lemma MarkMarks(r: Repo, after: Repo, eventId: Id, published: set<Id>)
    requires OnlyMarked(r, after, eventId) && eventId in published && MarkedPublished(r, published)
    ensures MarkedPublished(after, published)
  {}

  lemma MarkedReady(r: Repo, after: Repo, eventId: Id, published: set<Id>)
    requires Sound(r) && Outboxed(r) && MarkedPublished(r, published) && eventId in published && OnlyMarked(r, after, eventId)
    ensures Sound(after) && RepoGrows(r, after) && Outboxed(after) && MarkedPublished(after, published)
  {
    MarkedSound(r, after, eventId);
    MarkedGrows(r, after, eventId);
    MarkMarks(r, after, eventId, published);
    GrowthKeepsAnnouncements(r, after);
  }

  lemma MarkKeeps(s: System, eventId: Id, at: Instant, repo: Repo)
    requires Invariant(s) && eventId in s.published && repo == MarkPublished(s.repo, eventId, at).0
    ensures Invariant(s.(repo := repo))
  {
    MarkOnly(s.repo, eventId, at);
    MarkedReady(s.repo, repo, eventId, s.published);
    RepoStepKeeps(s, repo);
  }

  lemma StartedClaim(s: System, deliveryId: Id)
    requires ClaimsStarted(s) && deliveryId in s.issued && Started(s.repo, Target(s.issued[deliveryId]))
    ensures ClaimsStarted(s.(claimed := s.claimed + {deliveryId}))
  {}

  lemma ClaimRecorded(s: System, deliveryId: Id)
    requires Invariant(s) && deliveryId in s.issued && Started(s.repo, Target(s.issued[deliveryId]))
    ensures Invariant(s.(claimed := s.claimed + {deliveryId}))
  {
    StartedClaim(s, deliveryId);
    HoldingKeepsCarried(s, s.(claimed := s.claimed + {deliveryId}));
  }

  lemma ClaimStepKeeps(s: System, deliveryId: Id, owner: Id, now: Instant, duration: int)
    requires Invariant(s)
    ensures Invariant(Do(s, ClaimStep(deliveryId, owner, now, duration)))
  {
    if deliveryId in s.issued && Matches(s.repo, s.issued[deliveryId]) {
      var k := Target(s.issued[deliveryId]);
      var (repo, claim) := ClaimWork(s.repo, k, owner, now, duration);
      ClaimStarts(s.repo, k, owner, now, duration);
      ItemsMovedKeeps(s, repo);
      if claim.Ok? { ClaimRecorded(s.(repo := repo), deliveryId); }
    }
  }

  lemma PublishGenuine(s: System, eventId: Id)
    requires AllGenuine(s) && Announces(s.repo, eventId)
    ensures AllGenuine(Do(s, PublishStep(eventId)))
  {}

  lemma PublishCarries(s: System, eventId: Id)
    requires AllCarried(s) && eventId in s.repo.outbox
    ensures AllCarried(Do(s, PublishStep(eventId)))
  {
    var n, after := s.repo.outbox[eventId].notification, Do(s, PublishStep(eventId));
    assert after.broker.queued[|s.broker.queued|] == n;
    forall e | e in after.published ensures Carried(after, e) {
      if e != eventId { assert Carried(s, e); }
    }
  }

  lemma PublishKeeps(s: System, eventId: Id)
    requires Invariant(s)
    ensures Invariant(Do(s, PublishStep(eventId)))
  {
    if eventId in s.repo.outbox {
      PublishGenuine(s, eventId);
      PublishCarries(s, eventId);
    }
  }

  /** Broker steps that keep hold of every notification keep every event carried. */
  lemma HoldingKeepsCarried(s: System, after: System)
    requires AllCarried(s) && after.repo == s.repo && after.published == s.published
    requires forall n :: InBroker(s.broker, n) ==> InBroker(after.broker, n)
    ensures AllCarried(after)
  {
    forall e | e in after.published ensures Carried(after, e) {
      assert Carried(s, e);
    }
  }

  lemma ReceiveHolds(c: Channel, id: Id, n: Notification)
    requires !Blank(id) && !Outstanding(c.inflight, id) && InBroker(c, n)
    ensures InBroker(Receive(c, id).0, n)
  {
    if c.queued != [] {
      var after := Receive(c, id).0;
      assert NotificationsOf(after.inflight) == NotificationsOf(c.inflight) + [c.queued[0]];
      assert c.queued == [c.queued[0]] + after.queued;
    }
  }

  lemma ReceiveTracks(s: System, deliveryId: Id)
    requires AllGenuine(s) && Tracked(s) && ClaimsStarted(s) && !Blank(deliveryId) && deliveryId !in s.issued
    ensures var after := Do(s, ReceiveStep(deliveryId)); AllGenuine(after) && Tracked(after) && ClaimsStarted(after)
  {
    if s.broker.queued != [] {
      assert Genuine(s.repo, s.broker.queued[0]);
      assert !Outstanding(s.broker.inflight, deliveryId);
    }
  }

  lemma ReceiveKeeps(s: System, deliveryId: Id)
    requires Invariant(s) && !Blank(deliveryId) && deliveryId !in s.issued
    ensures Invariant(Do(s, ReceiveStep(deliveryId)))
  {
    ReceiveTracks(s, deliveryId);
    forall n | InBroker(s.broker, n) ensures InBroker(Receive(s.broker, deliveryId).0, n) {
      ReceiveHolds(s.broker, deliveryId, n);
    }
    HoldingKeepsCarried(s, Do(s, ReceiveStep(deliveryId)));
  }

  lemma RedeliverTracks(s: System, after: System)
    requires AllGenuine(s) && Tracked(s) && ClaimsStarted(s) && after == s.(broker := Redeliver(s.broker).0)
    ensures AllGenuine(after) && Tracked(after) && ClaimsStarted(after)
  {
    forall i | 0 <= i < |after.broker.queued| ensures Genuine(s.repo, after.broker.queued[i]) {
      if i < |s.broker.inflight| {
        var d := s.broker.inflight[i];
        assert Genuine(s.repo, s.issued[d.id]);
      } else {
        assert after.broker.queued[i] == s.broker.queued[i - |s.broker.inflight|];
      }
    }
  }

  lemma RedeliverKeeps(s: System)
    requires Invariant(s)
    ensures Invariant(Do(s, RedeliverStep))
  {
    RedeliverTracks(s, Do(s, RedeliverStep));
    HoldingKeepsCarried(s, Do(s, RedeliverStep));
  }

  /** What an acknowledgement takes from the broker belongs to an item that was claimed. */
  lemma AcknowledgeHolds(s: System, deliveryId: Id, n: Notification)
    requires Tracked(s) && ClaimsStarted(s) && deliveryId in s.claimed && InBroker(s.broker, n)
    ensures InBroker(Acknowledge(s.broker, deliveryId).0, n) || Started(s.repo, Target(n))
  {
    var after := Acknowledge(s.broker, deliveryId).0;
    if n in NotificationsOf(s.broker.inflight) && after != s.broker {
      var i :| 0 <= i < |s.broker.inflight| && s.broker.inflight[i].notification == n;
      var j := Position(s.broker.inflight, deliveryId).value;
      if i != j {
        assert NotificationsOf(after.inflight)[if i < j then i else i - 1] == n;
      }
    }
  }

  /** `after` is `s` with the delivery acknowledged. */
  predicate Acknowledged(s: System, deliveryId: Id, after: System) {
    after == s.(broker := Acknowledge(s.broker, deliveryId).0, acknowledged := s.acknowledged + {deliveryId})
  }

  lemma AcknowledgeTracks(s: System, deliveryId: Id, after: System)
    requires Tracked(s) && Acknowledged(s, deliveryId, after)
    ensures Tracked(after) && after.broker.queued == s.broker.queued
  {}

  lemma AcknowledgeCarries(s: System, deliveryId: Id, after: System)
    requires AllCarried(s) && Tracked(s) && ClaimsStarted(s) && deliveryId in s.claimed && Acknowledged(s, deliveryId, after)
    ensures AllCarried(after)
  {
    forall e | e in after.published ensures Carried(after, e) {
      assert Carried(s, e);
      var n := s.repo.outbox[e].notification;
      if InBroker(s.broker, n) { AcknowledgeHolds(s, deliveryId, n); }
    }
  }

  lemma AcknowledgeRecords(s: System, deliveryId: Id, after: System)
    requires AllGenuine(s) && ClaimsStarted(s) && deliveryId in s.claimed && Acknowledged(s, deliveryId, after)
    requires after.broker.queued == s.broker.queued
    ensures AllGenuine(after) && ClaimsStarted(after)
  {}

  lemma AcknowledgedKeeps(s: System, deliveryId: Id, after: System)
    requires Invariant(s) && deliveryId in s.claimed && Acknowledged(s, deliveryId, after)
    ensures Invariant(after)
  {
    AcknowledgeTracks(s, deliveryId, after);
    AcknowledgeRecords(s, deliveryId, after);
    AcknowledgeCarries(s, deliveryId, after);
  }

  lemma DoAcknowledges(s: System, deliveryId: Id)
    ensures Acknowledged(s, deliveryId, Do(s, AcknowledgeStep(deliveryId)))
  {}

  lemma DoKeeps(s: System, step: Step)
    requires Invariant(s) && Allowed(s, step)
    ensures Invariant(Do(s, step))
  {
    match step
    case SubmitStep(_, _, _, _, _, _) => SubmitKeeps(s, step);
    case PublishStep(eventId) => PublishKeeps(s, eventId);
    case MarkStep(eventId, at) => MarkKeeps(s, eventId, at, MarkPublished(s.repo, eventId, at).0);
    case ReceiveStep(deliveryId) => ReceiveKeeps(s, deliveryId);
    case RedeliverStep => RedeliverKeeps(s);
    case ClaimStep(deliveryId, owner, now, duration) => ClaimStepKeeps(s, deliveryId, owner, now, duration);
    case AcknowledgeStep(deliveryId) =>
      DoAcknowledges(s, deliveryId);
      AcknowledgedKeeps(s, deliveryId, Do(s, step));
    case WorkStep(k, act) => WorkKeeps(s, k, act, ApplyAct(s.repo, k, act));
  }

  lemma {:induction false} DoAllKeeps(s: System, steps: seq<Step>)
    requires Invariant(s) && AllAllowed(s, steps)
    ensures Invariant(DoAll(s, steps))
    decreases |steps|
  {
    if steps != [] {
      DoKeeps(s, steps[0]);
      DoAllKeeps(Do(s, steps[0]), steps[1..]);
    }
  }

  lemma StartHolds()
    ensures Invariant(START)
  {}

  // ----- What follows -----

  /** The item's event is still to be relayed, or the broker holds its notification. */
  predicate Underway(s: System, eventId: Id) {
    && eventId in s.repo.outbox
    && (s.repo.outbox[eventId].publishedAt.None? || InBroker(s.broker, s.repo.outbox[eventId].notification))
  }

  lemma PendingUnderway(s: System, k: Key)
    requires Invariant(s) && k in s.repo.items && s.repo.items[k].state == Pending
    ensures exists e :: AnnouncedBy(s.repo, k, e) && Underway(s, e)
  {
    var e :| AnnouncedBy(s.repo, k, e);
    assert CellOk(CellAt(s.repo, k));
    if s.repo.outbox[e].publishedAt.Some? { assert Carried(s, e); }
    assert Underway(s, e);
  }

  /** No work is lost before it is claimed, wherever relays and consumers stop. */
  lemma NothingLost(steps: seq<Step>, k: Key)
    requires AllAllowed(START, steps)
    requires k in DoAll(START, steps).repo.items && DoAll(START, steps).repo.items[k].state == Pending
    ensures exists e :: AnnouncedBy(DoAll(START, steps).repo, k, e) && Underway(DoAll(START, steps), e)
  {
    StartHolds();
    DoAllKeeps(START, steps);
    PendingUnderway(DoAll(START, steps), k);
  }

  /** Every acknowledged delivery belongs to an item that was claimed at least once. */
  lemma AcknowledgedWasClaimed(steps: seq<Step>, deliveryId: Id)
    requires AllAllowed(START, steps) && deliveryId in DoAll(START, steps).acknowledged
    ensures var s := DoAll(START, steps); deliveryId in s.issued && Started(s.repo, Target(s.issued[deliveryId]))
  {
    StartHolds();
    DoAllKeeps(START, steps);
  }

  lemma IssuedMatches(s: System, deliveryId: Id)
    requires Invariant(s) && deliveryId in s.issued
    ensures Matches(s.repo, s.issued[deliveryId])
  {
    assert Genuine(s.repo, s.issued[deliveryId]) && Announces(s.repo, s.issued[deliveryId].eventId);
  }

  /** A delivery the broker issued never fails the metadata check, however old it is. */
  lemma GenuineIsAccepted(steps: seq<Step>, deliveryId: Id)
    requires AllAllowed(START, steps) && deliveryId in DoAll(START, steps).issued
    ensures var s := DoAll(START, steps); Matches(s.repo, s.issued[deliveryId])
  {
    StartHolds();
    DoAllKeeps(START, steps);
    IssuedMatches(DoAll(START, steps), deliveryId);
  }
}
