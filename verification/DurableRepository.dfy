/** The in-memory durable repository: each method is one transaction over its tables. */
module DurableRepositoryControl {
  import opened Prelude
  import opened Repository
  import opened WorkHistory
  import opened RepositoryRuns
  import opened Effects
  import DeadLetters
  import Sorting
  import TerminalReports

  /** Writing back an item alone leaves its history and terminal record. */
  lemma PutItem(r: Repo, k: Key, item: Item)
    requires Consistent(r) && k in r.items
    ensures Put(r, k, CellAt(r, k).(item := item)) == r.(items := r.items[k := item])
  {
    PutBack(r, k);
  }

  lemma PutCheckpoint(r: Repo, k: Key, item: Item, record: Checkpoint)
    requires Consistent(r) && k in r.items
    ensures Put(r, k, CellAt(r, k).(item := item, history := HistoryOf(r, k) + [record]))
         == r.(items := r.items[k := item], histories := r.histories[k := HistoryOf(r, k) + [record]])
  {
    PutBack(r, k);
  }

  lemma PutTerminal(r: Repo, k: Key, item: Item, record: Terminal)
    requires Consistent(r) && k in r.items
    ensures Put(r, k, CellAt(r, k).(item := item, terminal := Some(record)))
         == r.(items := r.items[k := item], terminals := r.terminals[k := record])
  {
    PutBack(r, k);
  }

  predicate ByItemId(a: Terminal, b: Terminal) {
    TextLe(a.itemId, b.itemId)
  }

  /** `kept` holds the terminal records of one job among the keys `seen`, once each. */
  ghost predicate Collected(kept: seq<Terminal>, terminals: map<Key, Terminal>, seen: set<Key>, jobId: Id) {
    && (forall i, j :: 0 <= i < j < |kept| ==> kept[i].key != kept[j].key)
    && (forall t :: t in kept ==>
          t.jobId == jobId && Key(jobId, t.key) in seen && Key(jobId, t.key) in terminals && terminals[Key(jobId, t.key)] == t)
    && (forall k :: k in seen && k in terminals && k.jobId == jobId ==> terminals[k] in kept)
  }

  lemma CollectOne(kept: seq<Terminal>, terminals: map<Key, Terminal>, seen: set<Key>, jobId: Id, k: Key)
    requires Collected(kept, terminals, seen, jobId) && k in terminals && k !in seen
    requires Key(terminals[k].jobId, terminals[k].key) == k
    ensures Collected(if k.jobId == jobId then kept + [terminals[k]] else kept, terminals, seen + {k}, jobId)
  {
    if k.jobId == jobId {
      forall i | 0 <= i < |kept| ensures kept[i].key != terminals[k].key {
        assert kept[i] in kept;
      }
    }
  }

  lemma SortedCollects(kept: seq<Terminal>, r: Repo, jobId: Id, sorted: seq<Terminal>)
    requires Collected(kept, r.terminals, r.terminals.Keys, jobId) && multiset(sorted) == multiset(kept)
    ensures TerminalReports.ListsTerminals(sorted, r, jobId)
  {
    Sorting.SameElements(sorted, kept);
    forall i | 0 <= i < |sorted|
      ensures sorted[i].jobId == jobId && Key(jobId, sorted[i].key) in r.terminals
              && r.terminals[Key(jobId, sorted[i].key)] == sorted[i]
    {
      assert sorted[i] in kept;
    }
    KeysDistinct(kept, sorted);
  }

  lemma KeysDistinct(kept: seq<Terminal>, sorted: seq<Terminal>)
    requires forall i, j :: 0 <= i < j < |kept| ==> kept[i].key != kept[j].key
    requires multiset(sorted) == multiset(kept)
    ensures forall i, j :: 0 <= i < j < |sorted| ==> sorted[i].key != sorted[j].key
  {
    var keyOf := (t: Terminal) => t.key;
    MapPermutation(keyOf, sorted, kept);
    DistinctUnderPermutation(Map(keyOf, kept), Map(keyOf, sorted));
    forall i, j | 0 <= i < j < |sorted| ensures sorted[i].key != sorted[j].key {
      assert Map(keyOf, sorted)[i] != Map(keyOf, sorted)[j];
    }
  }

  class DurableRepository {
    var items: map<Key, Item>
    var itemIds: map<Key, Id>
    var checkpoints: map<Key, seq<Checkpoint>>
    var terminals: map<Key, Terminal>
    var outbox: map<Id, Outbox>
    /** The outbox identifiers, oldest first. */
    var outboxOrder: seq<Id>
    var effects: map<Key, EffectRecord>
    var reconciliations: map<Key, Reconciliation>
    var failures: seq<DeadLetters.PersistenceFailure>

    ghost function Work(): Repo
      reads this
    {
      Repo(items, itemIds, checkpoints, terminals, outbox)
    }

    ghost function Books(): Book
      reads this
    {
      Book(effects, reconciliations)
    }

    ghost predicate Valid()
      reads this
    {
      && Consistent(Work())
      && (forall k :: k in terminals ==> Key(terminals[k].jobId, terminals[k].key) == k)
      && Distinct(outboxOrder) && (forall id :: id in outboxOrder <==> id in outbox)
    }

    constructor ()
      ensures Valid() && Work() == EMPTY && Books() == Book(map[], map[]) && failures == [] && outboxOrder == []
    {
      items, itemIds, checkpoints, terminals, outbox := map[], map[], map[], map[], map[];
      outboxOrder, effects, reconciliations, failures := [], map[], map[], [];
    }

    method CreateWithOutbox(item: Item, record: Outbox) returns (r: Result<Item, WorkError>)
      requires Valid()
      modifies this`items, this`itemIds, this`outbox, this`outboxOrder
      ensures Valid() && (Work(), r) == Repository.CreateWithOutbox(old(Work()), item, record)
      ensures outboxOrder == if outbox == old(outbox) then old(outboxOrder) else old(outboxOrder) + [record.eventId]
    {
      var key, identity := Key(item.jobId, item.key), Key(item.jobId, item.itemId);
      if key in items {
        var existing := items[key];
        if existing.itemId != item.itemId || existing.configuration != item.configuration || existing.payload != item.payload {
          return Err(Conflict);
        }
        return Ok(existing);
      }
      if identity in itemIds { return Err(Conflict); }
      if record.eventId in outbox { return Err(Conflict); }
      items := items[key := item];
      itemIds := itemIds[identity := item.key];
      outbox := outbox[record.eventId := record];
      outboxOrder := outboxOrder + [record.eventId];
      return Ok(item);
    }

    /** `_latest`. */
    function LatestCheckpoint(key: Key): Option<Checkpoint>
      reads this
    {
      if key in checkpoints && checkpoints[key] != [] then Some(checkpoints[key][|checkpoints[key]| - 1]) else None
    }

    /** The item with its checkpoint history and terminal record, as the inspection methods return them. */
    function Inspect(key: Key): (c: Cell)
      requires key in items
      reads this
      ensures c == CellAt(Work(), key)
    {
      Cell(items[key], if key in checkpoints then checkpoints[key] else [], if key in terminals then Some(terminals[key]) else None)
    }

    method ClaimWork(key: Key, owner: Id, now: Instant, duration: int) returns (r: Result<Claim, WorkError>)
      requires Valid()
      modifies this`items
      ensures Valid() && (Work(), r) == Repository.ClaimWork(old(Work()), key, owner, now, duration)
    {
      if !LeaseArguments(owner, duration) { return Err(BadValue); }
      if key !in items { return Err(NotFound); }
      var current, latest := items[key], LatestCheckpoint(key);
      PutBack(Work(), key);
      if current.state == Completed { return Ok(Claim(ActiveDuplicate, current, latest)); }
      if current.state == InProgress && current.leaseExpires.Some? && current.leaseExpires.value > now {
        return Ok(Claim(ActiveDuplicate, current, latest));
      }
      var claimed := current.(state := InProgress, attempts := current.attempts + 1, leaseOwner := Some(owner),
                              leaseExpires := Some(now + duration), revision := current.revision + 1);
      PutItem(Work(), key, claimed);
      items := items[key := claimed];
      return Ok(Claim(Acquired, claimed, latest));
    }

    method Renew(key: Key, owner: Id, now: Instant, duration: int) returns (r: Result<Item, WorkError>)
      requires Valid()
      modifies this`items
      ensures Valid() && (Work(), r) == Repository.Renew(old(Work()), key, owner, now, duration)
    {
      if !LeaseArguments(owner, duration) { return Err(BadValue); }
      if key !in items { return Err(NotFound); }
      var current := items[key];
      PutBack(Work(), key);
      if !Owned(current, owner, now) { return Err(LeaseLost); }
      var renewed := current.(leaseExpires := Some(now + duration), revision := current.revision + 1);
      PutItem(Work(), key, renewed);
      items := items[key := renewed];
      return Ok(renewed);
    }

    method SaveCheckpoint(key: Key, owner: Id, stage: Stage, outcome: string, now: Instant, result: Option<ObjectRef>)
      returns (r: Result<Checkpoint, WorkError>)
      requires Valid()
      modifies this`items, this`checkpoints
      ensures Valid() && (Work(), r) == Repository.SaveCheckpoint(old(Work()), key, owner, stage, outcome, now, result)
    {
      if key !in items { return Err(NotFound); }
      var current := items[key];
      PutBack(Work(), key);
      if !Owned(current, owner, now) { return Err(LeaseLost); }
      var latest := LatestCheckpoint(key);
      if latest.Some? && Rank(stage) < Rank(latest.value.stage) { return Err(StageBackwards); }
      if latest.Some? && stage == latest.value.stage {
        if latest.value.outcome != outcome || latest.value.result != result { return Err(StageImmutable); }
        return Ok(latest.value);
      }
      r := AddCheckpoint(key, owner, stage, outcome, now, result, latest);
    }

    /** The checkpoint of a new stage. */
    method AddCheckpoint(key: Key, owner: Id, stage: Stage, outcome: string, now: Instant, result: Option<ObjectRef>,
                         latest: Option<Checkpoint>) returns (r: Result<Checkpoint, WorkError>)
      requires Valid() && key in items && Owned(items[key], owner, now) && latest == Latest(CellAt(Work(), key))
      requires latest.Some? ==> Rank(stage) >= Rank(latest.value.stage) && stage != latest.value.stage
      modifies this`items, this`checkpoints
      ensures Valid() && (Work(), r) == Repository.SaveCheckpoint(old(Work()), key, owner, stage, outcome, now, result)
    {
      var current := items[key];
      PutBack(Work(), key);
      var sequence := if latest.None? then 1 else latest.value.sequence + 1;
      if Blank(outcome) || current.attempts < 1 { return Err(BadValue); }
      var record := Checkpoint(current.jobId, current.itemId, current.key, stage, current.attempts, outcome,
                               current.configuration, result, now, sequence);
      var updated := current.(state := if stage == Finished then Completed else Checkpointed, leaseOwner := None,
                              leaseExpires := None, result := result.Or(current.result), revision := current.revision + 1);
      CompleteStage(key, updated, record);
      return Ok(record);
    }

    /** Appends the checkpoint and writes the item back. */
    method CompleteStage(key: Key, updated: Item, record: Checkpoint)
      requires Valid() && key in items && KeyOf(updated) == key
      modifies this`items, this`checkpoints
      ensures Valid()
      ensures Work() == Put(old(Work()), key,
                            CellAt(old(Work()), key).(item := updated, history := HistoryOf(old(Work()), key) + [record]))
    {
      PutCheckpoint(Work(), key, updated, record);
      var history := if key in checkpoints then checkpoints[key] else [];
      checkpoints := checkpoints[key := history + [record]];
      items := items[key := updated];
    }

    method ResumeState(key: Key) returns (r: Result<ResumePoint, WorkError>)
      ensures r == if key in items then Ok(Resume(CellAt(Work(), key))) else Err(NotFound)
    {
      if key !in items { return Err(NotFound); }
      var latest := LatestCheckpoint(key);
      return Ok(ResumePoint(items[key], latest, if latest.Some? then NextStage(latest.value.stage) else Some(Accepted)));
    }

    method PendingOutbox() returns (r: seq<Outbox>)
      requires Valid()
      ensures r == PendingAmong(outbox, outboxOrder)
    {
      r := [];
      for i := 0 to |outboxOrder|
        invariant r == PendingAmong(outbox, outboxOrder[..i])
      {
        assert outboxOrder[..i + 1][..i] == outboxOrder[..i];
        var record := outbox[outboxOrder[i]];
        if record.publishedAt.None? { r := r + [record]; }
      }
      assert outboxOrder[..|outboxOrder|] == outboxOrder;
    }

    method MarkPublished(eventId: Id, at: Instant) returns (r: Result<Outbox, WorkError>)
      requires Valid()
      modifies this`outbox
      ensures Valid() && (Work(), r) == Repository.MarkPublished(old(Work()), eventId, at)
    {
      if eventId !in outbox { return Err(NotFound); }
      var record := outbox[eventId];
      if record.publishedAt.Some? { return Ok(record); }
      var published := record.(publishedAt := Some(at));
      outbox := outbox[eventId := published];
      return Ok(published);
    }

    method Terminalize(key: Key, owner: Id, state: TerminalState, code: Option<string>, details: Option<string>,
                       now: Instant, result: Option<ObjectRef>) returns (r: Result<Terminal, WorkError>)
      requires Valid()
      modifies this`items, this`terminals
      ensures Valid() && (Work(), r) == Repository.Terminalize(old(Work()), key, owner, state, code, details, now, result)
    {
      if key in terminals {
        var existing := terminals[key];
        PutBack(Work(), key);
        if (state, code, details, result.Or(existing.result)) != (existing.state, existing.code, existing.details, existing.result) {
          return Err(Conflict);
        }
        return Ok(existing);
      }
      if key !in items { return Err(NotFound); }
      var current := items[key];
      PutBack(Work(), key);
      if !Owned(current, owner, now) { return Err(LeaseLost); }
      if !FailureStated(state, code, details) || current.attempts < 1 { return Err(BadValue); }
      var record := Terminal(current.jobId, current.itemId, current.key, state, code, details, current.configuration,
                             current.attempts, result.Or(current.result), now);
      var updated := current.(state := Completed, leaseOwner := None, leaseExpires := None, result := record.result,
                              revision := current.revision + 1);
      CloseItem(key, updated, record);
      return Ok(record);
    }

    /** Enters the terminal record and writes the item back. */
    method CloseItem(key: Key, updated: Item, record: Terminal)
      requires Valid() && key in items && KeyOf(updated) == key == Key(record.jobId, record.key)
      modifies this`items, this`terminals
      ensures Valid()
      ensures Work() == Put(old(Work()), key, CellAt(old(Work()), key).(item := updated, terminal := Some(record)))
    {
      PutTerminal(Work(), key, updated, record);
      terminals := terminals[key := record];
      items := items[key := updated];
    }

    /** `terminal_items`: the job's terminal records, by item identifier. */
    method TerminalItems(jobId: Id) returns (r: seq<Terminal>)
      requires Valid()
      ensures TerminalReports.ListsTerminals(r, Work(), jobId)
      ensures Sorting.Sorted(ByItemId, r)
    {
      var kept: seq<Terminal> := [];
      var left := terminals.Keys;
      while left != {}
        invariant left <= terminals.Keys
        invariant Collected(kept, terminals, terminals.Keys - left, jobId)
        decreases |left|
      {
        var k :| k in left;
        CollectOne(kept, terminals, terminals.Keys - left, jobId, k);
        assert terminals.Keys - (left - {k}) == (terminals.Keys - left) + {k};
        if k.jobId == jobId { kept := kept + [terminals[k]]; }
        left := left - {k};
      }
      assert terminals.Keys - {} == terminals.Keys;
      r := Sorting.Sort(ByItemId, kept);
      SortedCollects(kept, Work(), jobId, r);
      ByItemIdPreorder();
      Sorting.SortSorted(ByItemId, kept);
    }

    /** How many durable items the job has: the length of `items`. */
    method ItemCount(jobId: Id) returns (n: nat)
      ensures n == |TerminalReports.JobKeys(items.Keys, jobId)|
    {
      n := 0;
      var left := items.Keys;
      assert TerminalReports.JobKeys({}, jobId) == {};
      while left != {}
        invariant left <= items.Keys
        invariant n == |TerminalReports.JobKeys(items.Keys - left, jobId)|
        decreases |left|
      {
        var k :| k in left;
        CountOne(items.Keys - left, k, jobId);
        assert items.Keys - (left - {k}) == (items.Keys - left) + {k};
        if k.jobId == jobId { n := n + 1; }
        left := left - {k};
      }
      assert items.Keys - {} == items.Keys;
    }

    method RecordPersistenceFailure(failure: DeadLetters.PersistenceFailure)
      modifies this`failures
      ensures failures == DeadLetters.Record(old(failures), failure)
    {
      if failure !in failures {
        failures := failures + [failure];
      }
    }

    method SaveEffect(record: EffectRecord) returns (r: Result<EffectRecord, EffectError>)
      modifies this`effects
      ensures (Books(), r) == Effects.SaveEffect(Work(), old(Books()), record)
    {
      var key := Key(record.jobId, record.key);
      if key !in items { return Err(WorkFailed(NotFound)); }
      if items[key].itemId != record.itemId { return Err(WorkFailed(Conflict)); }
      if key in effects {
        if effects[key] != record { return Err(WorkFailed(Conflict)); }
        return Ok(effects[key]);
      }
      effects := effects[key := record];
      return Ok(record);
    }

    method SaveReconciliation(record: Reconciliation) returns (r: Result<Reconciliation, EffectError>)
      modifies this`reconciliations
      ensures (Books(), r) == Effects.SaveReconciliation(Work(), old(Books()), record)
    {
      var key := Key(record.jobId, record.key);
      if key !in items { return Err(WorkFailed(NotFound)); }
      if items[key].itemId != record.itemId { return Err(WorkFailed(Conflict)); }
      if key in reconciliations {
        var existing := reconciliations[key];
        if existing.mutation != record.mutation || existing.reason != record.reason { return Err(WorkFailed(Conflict)); }
        return Ok(existing);
      }
      reconciliations := reconciliations[key := record];
      return Ok(record);
    }
  }

  lemma ByItemIdPreorder()
    ensures Sorting.Preorder(ByItemId)
  {
    forall a: Terminal, b: Terminal ensures ByItemId(a, b) || ByItemId(b, a) {
      TextLeTotal(a.itemId, b.itemId);
    }
    forall a: Terminal, b: Terminal, c: Terminal | ByItemId(a, b) && ByItemId(b, c) ensures ByItemId(a, c) {
      TextLeTransitive(a.itemId, b.itemId, c.itemId);
    }
  }

  lemma CountOne(seen: set<Key>, k: Key, jobId: Id)
    requires k !in seen
    ensures |TerminalReports.JobKeys(seen + {k}, jobId)|
         == |TerminalReports.JobKeys(seen, jobId)| + if k.jobId == jobId then 1 else 0
  {
    var after := TerminalReports.JobKeys(seen + {k}, jobId);
    assert after == TerminalReports.JobKeys(seen, jobId) + (if k.jobId == jobId then {k} else {});
  }
}
