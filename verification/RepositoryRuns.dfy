/** Runs of the whole repository: every item lives its own history, and identifiers stay in bijection. */
module RepositoryRuns {
  import opened Prelude
  import opened Repository
  import opened WorkHistory

  datatype Event =
    | SubmitEvent(jobId: Id, itemId: Id, name: Id, payload: ObjectRef, configuration: ConfigRef, eventId: Id)
    | WorkEvent(k: Key, act: Act)
    | PublishedEvent(eventId: Id, at: Instant)

  /** `BulkCoordinator.submit`: a fresh item and the notification that announces it. */
  function FreshItem(jobId: Id, itemId: Id, name: Id, payload: ObjectRef, configuration: ConfigRef): (r: Item)
    ensures Fresh(r)
  {
    Item(jobId, itemId, name, payload, configuration, Pending, 0, None, None, None, 0)
  }

  function Announce(item: Item, eventId: Id): Outbox {
    Outbox(eventId, Notification(eventId, item.jobId, item.itemId, item.key, item.configuration.version,
                                 item.payload.reference, item.payload.hash, item.revision), None)
  }

  function ApplyAct(r: Repo, k: Key, act: Act): Repo {
    match act
    case ClaimAct(owner, now, duration) => ClaimWork(r, k, owner, now, duration).0
    case RenewAct(owner, now, duration) => Renew(r, k, owner, now, duration).0
    case CheckpointAct(owner, stage, outcome, now, result) => SaveCheckpoint(r, k, owner, stage, outcome, now, result).0
    case TerminalAct(owner, state, code, details, now, result) => Terminalize(r, k, owner, state, code, details, now, result).0
  }

  function Apply(r: Repo, e: Event): Repo {
    match e
    case SubmitEvent(jobId, itemId, name, payload, configuration, eventId) =>
      var item := FreshItem(jobId, itemId, name, payload, configuration);
      CreateWithOutbox(r, item, Announce(item, eventId)).0
    case WorkEvent(k, act) => ApplyAct(r, k, act)
    case PublishedEvent(eventId, at) => MarkPublished(r, eventId, at).0
  }

  function Run(events: seq<Event>): Repo {
    if events == [] then EMPTY else Apply(Run(events[..|events| - 1]), events[|events| - 1])
  }

  /** Tables agree: histories and terminal records belong to items, and item ids to idempotency keys. */
  predicate Consistent(r: Repo) {
    && r.terminals.Keys <= r.items.Keys && r.histories.Keys <= r.items.Keys
    && (forall k :: k in r.histories ==> r.histories[k] != [])
    && (forall k :: k in r.items ==> KeyOf(r.items[k]) == k)
  }

  /** Within a job, item ids and idempotency keys determine each other. */
  predicate Bijective(r: Repo) {
    && (forall k :: k in r.items ==>
          var id := Key(k.jobId, r.items[k].itemId); id in r.itemIds && r.itemIds[id] == k.name)
    && (forall id :: id in r.itemIds ==>
          var k := Key(id.jobId, r.itemIds[id]); k in r.items && r.items[k].itemId == id.name)
  }

  lemma PutConsistent(r: Repo, k: Key, c: Cell)
    requires Consistent(r) && k in r.items && SameIdentity(r.items[k], c.item) && Grows(CellAt(r, k), c)
    ensures Consistent(Put(r, k, c))
  {
    assert KeyOf(r.items[k]) == k;
  }

  lemma PutBijective(r: Repo, k: Key, c: Cell)
    requires k in r.items && SameIdentity(r.items[k], c.item) && Bijective(r)
    ensures Bijective(Put(r, k, c))
  {}

  lemma PutEffect(r: Repo, k: Key, c: Cell)
    requires Consistent(r) && k in r.items && SameIdentity(r.items[k], c.item) && Grows(CellAt(r, k), c)
    ensures Consistent(Put(r, k, c)) && (Bijective(r) ==> Bijective(Put(r, k, c)))
    ensures forall other :: other in r.items ==>
      other in Put(r, k, c).items && CellAt(Put(r, k, c), other) == if other == k then c else CellAt(r, other)
  {
    PutConsistent(r, k, c);
    if Bijective(r) { PutBijective(r, k, c); }
    forall other | other in r.items
      ensures CellAt(Put(r, k, c), other) == if other == k then c else CellAt(r, other)
    {
      PutThenRead(r, k, c, other);
    }
  }

  /** Writing back what was read changes nothing. */
  lemma PutBack(r: Repo, k: Key)
    requires Consistent(r) && k in r.items
    ensures Put(r, k, CellAt(r, k)) == r
  {
    if k in r.histories { assert r.histories[k := r.histories[k]] == r.histories; }
    if k in r.terminals { assert r.terminals[k := r.terminals[k]] == r.terminals; }
    assert r.items[k := r.items[k]] == r.items;
  }

  lemma ApplyActIsPerform(r: Repo, k: Key, act: Act)
    requires Consistent(r)
    ensures ApplyAct(r, k, act) == if k in r.items then Put(r, k, Perform(CellAt(r, k), act)) else r
  {
    if k in r.items {
      PutBack(r, k);
    }
  }

  lemma ApplyWork(r: Repo, k: Key, act: Act)
    requires Consistent(r)
    ensures var after := ApplyAct(r, k, act);
            && Consistent(after) && (Bijective(r) ==> Bijective(after)) && after.items.Keys == r.items.Keys
            && after.outbox == r.outbox
            && (forall other :: other in r.items ==>
                  CellAt(after, other) == if other == k then Perform(CellAt(r, k), act) else CellAt(r, other))
  {
    ApplyActIsPerform(r, k, act);
    if k in r.items {
      PerformPreserves(CellAt(r, k), act);
      PutEffect(r, k, Perform(CellAt(r, k), act));
    }
  }

  /** What a transaction that enters one item leaves. */
  predicate EntersItem(r: Repo, after: Repo, item: Item) {
    && KeyOf(item) !in r.items && after.items == r.items[KeyOf(item) := item]
    && after.histories == r.histories && after.terminals == r.terminals
  }

  lemma EnteredItem(r: Repo, after: Repo, item: Item)
    requires Consistent(r) && EntersItem(r, after, item)
    ensures Consistent(after) && CellAt(after, KeyOf(item)) == Cell(item, [], None)
    ensures forall other :: other in r.items ==> CellAt(after, other) == CellAt(r, other)
  {}

  lemma ApplySubmit(r: Repo, e: Event)
    requires Consistent(r) && e.SubmitEvent?
    ensures var after, k := Apply(r, e), Key(e.jobId, e.name);
            && Consistent(after) && r.items.Keys <= after.items.Keys <= r.items.Keys + {k}
            && (forall other :: other in r.items ==> CellAt(after, other) == CellAt(r, other))
            && (k in after.items && k !in r.items ==>
                  CellAt(after, k) == Cell(FreshItem(e.jobId, e.itemId, e.name, e.payload, e.configuration), [], None))
  {
    var item := FreshItem(e.jobId, e.itemId, e.name, e.payload, e.configuration);
    if Apply(r, e) != r {
      EnteredItem(r, Apply(r, e), item);
    }
  }

  lemma SubmitBijective(r: Repo, e: Event)
    requires Consistent(r) && Bijective(r) && e.SubmitEvent?
    ensures Bijective(Apply(r, e))
  {}

  lemma {:induction false} RunConsistent(events: seq<Event>)
    ensures Consistent(Run(events)) && Bijective(Run(events))
  {
    if events != [] {
      var past, e := events[..|events| - 1], events[|events| - 1];
      RunConsistent(past);
      match e
      case SubmitEvent(_, _, _, _, _, _) => ApplySubmit(Run(past), e); SubmitBijective(Run(past), e);
      case WorkEvent(k, act) => ApplyWork(Run(past), k, act);
      case PublishedEvent(eventId, at) =>
    }
  }

  // ----- Each item's own history -----

  /** What a run did to one item, from its first successful submission on. */
  function Project(events: seq<Event>, k: Key): Option<Trace> {
    if events == [] then None
    else
      var past, e := Project(events[..|events| - 1], k), events[|events| - 1];
      match e
      case WorkEvent(key, act) => if key == k && past.Some? then Some(Then(past.value, act)) else past
      case SubmitEvent(jobId, itemId, name, payload, configuration, _) =>
        if past.None? && k == Key(jobId, name) && k in Run(events).items
        then Some(Created(FreshItem(jobId, itemId, name, payload, configuration))) else past
      case PublishedEvent(_, _) => past
  }

  /** An item's cell is what its own history makes it: work on one item never touches another. */
  lemma {:induction false} RunProjects(events: seq<Event>, k: Key)
    ensures k in Run(events).items <==> Project(events, k).Some?
    ensures Project(events, k).Some? ==> Submitted(Project(events, k).value)
    ensures k in Run(events).items ==> CellAt(Run(events), k) == CellOf(Project(events, k).value)
  {
    if events != [] {
      var past, e := events[..|events| - 1], events[|events| - 1];
      RunProjects(past, k);
      RunConsistent(past);
      match e
      case SubmitEvent(_, _, _, _, _, _) => ApplySubmit(Run(past), e);
      case WorkEvent(key, act) => ApplyWork(Run(past), key, act);
      case PublishedEvent(eventId, at) =>
    }
  }

  /** In every reachable repository every item satisfies the invariant, with as many attempts as acquired claims. */
  lemma ReachableItem(events: seq<Event>, k: Key)
    requires k in Run(events).items
    ensures Project(events, k).Some? && CellOk(CellAt(Run(events), k))
    ensures Run(events).items[k].attempts == AcquiredClaims(Project(events, k).value)
    ensures KeyOf(Run(events).items[k]) == k
  {
    RunProjects(events, k);
    RunConsistent(events);
    TraceInvariant(Project(events, k).value);
  }

  // ----- Times -----

  function LastWork(events: seq<Event>): Option<Instant> {
    if events == [] then None
    else
      var e := events[|events| - 1];
      if e.WorkEvent? then Some(e.act.now) else LastWork(events[..|events| - 1])
  }

  /** No operation on any item is older than one before it. */
  predicate InOrder(events: seq<Event>) {
    events == [] ||
    var past, e := events[..|events| - 1], events[|events| - 1];
    InOrder(past) && (e.WorkEvent? ==> NotBefore(e.act.now, LastWork(past)))
  }

  lemma {:induction false} ProjectInOrder(events: seq<Event>, k: Key)
    requires InOrder(events) && Project(events, k).Some?
    ensures Chronological(Project(events, k).value)
    ensures var t := Time(Project(events, k).value);
            t.Some? ==> LastWork(events).Some? && t.value <= LastWork(events).value
  {
    var past := events[..|events| - 1];
    if Project(past, k).Some? {
      ProjectInOrder(past, k);
    }
  }

  /** Over the whole repository: whoever writes to an item holds the lease of its latest claim at that moment. */
  lemma RepositoryFencing(events: seq<Event>, k: Key, act: Act)
    requires InOrder(events + [WorkEvent(k, act)]) && k in Run(events).items && !act.ClaimAct?
    requires Run(events + [WorkEvent(k, act)]) != Run(events)
    ensures Project(events, k).Some?
    ensures var tenures := Tenures(Project(events, k).value);
            && tenures != [] && Disjoint(tenures)
            && var last := tenures[|tenures| - 1]; last.owner == act.owner && last.start <= act.now < last.end
  {
    var all := events + [WorkEvent(k, act)];
    assert all[..|all| - 1] == events;
    RunProjects(events, k);
    RunConsistent(events);
    var t := Project(events, k).value;
    assert Project(all, k) == Some(Then(t, act));
    ProjectInOrder(all, k);
    ApplyActIsPerform(Run(events), k, act);
    if Perform(CellOf(t), act) == CellOf(t) {
      PutBack(Run(events), k);
    }
    WritesAreLeased(t, act);
    TenuresInvariant(t);
  }
}
