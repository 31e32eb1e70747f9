/** Durable work records and the transactions of the repository (bulk/models.py, bulk/memory.py). */
module Repository {
  import opened Prelude

  datatype ArtifactKind = PayloadArtifact | ResultArtifact
  datatype ObjectRef = ObjectRef(reference: string, hash: string, kind: ArtifactKind, size: nat)
  datatype ConfigRef = ConfigRef(profile: string, version: string)

  datatype WorkState = Pending | InProgress | Checkpointed | Completed

  datatype Stage = Accepted | ModelCompleted | ResultStored | Validated | Finished

  function Rank(stage: Stage): nat {
    match stage
    case Accepted => 0
    case ModelCompleted => 1
    case ResultStored => 2
    case Validated => 3
    case Finished => 4
  }

  /** `_next_stage`. */
  function NextStage(stage: Stage): (r: Option<Stage>)
    ensures r.None? <==> stage == Finished
    ensures r.Some? ==> Rank(r.value) == Rank(stage) + 1
  {
    match stage
    case Accepted => Some(ModelCompleted)
    case ModelCompleted => Some(ResultStored)
    case ResultStored => Some(Validated)
    case Validated => Some(Finished)
    case Finished => None
  }

  datatype Item = Item(
    jobId: Id, itemId: Id, key: Id, payload: ObjectRef, configuration: ConfigRef,
    state: WorkState, attempts: nat, leaseOwner: Option<Id>, leaseExpires: Option<Instant>,
    result: Option<ObjectRef>, revision: nat)

  datatype Checkpoint = Checkpoint(
    jobId: Id, itemId: Id, key: Id, stage: Stage, attempts: nat, outcome: string,
    configuration: ConfigRef, result: Option<ObjectRef>, at: Instant, sequence: nat)

  datatype TerminalState =
    Succeeded | ValidationFailed | PolicyRejected | BudgetExhausted | RetryExhausted | WriteBackFailed | Cancelled

  datatype Terminal = Terminal(
    jobId: Id, itemId: Id, key: Id, state: TerminalState, code: Option<string>, details: Option<string>,
    configuration: ConfigRef, attempts: nat, result: Option<ObjectRef>, at: Instant)

  datatype ClaimStatus = Acquired | ActiveDuplicate
  datatype Claim = Claim(status: ClaimStatus, item: Item, latest: Option<Checkpoint>)

  datatype ResumePoint = ResumePoint(item: Item, latest: Option<Checkpoint>, next: Option<Stage>)

  datatype WorkError =
    | BadValue | NotFound | Conflict | LeaseLost | StageBackwards | StageImmutable

  // ----- One work item: its record, its checkpoint history, its terminal record -----

  datatype Cell = Cell(item: Item, history: seq<Checkpoint>, terminal: Option<Terminal>)

  function Latest(c: Cell): Option<Checkpoint> {
    if c.history == [] then None else Some(c.history[|c.history| - 1])
  }

  function Next(c: Cell): Option<Stage> {
    if c.history == [] then Some(Accepted) else NextStage(c.history[|c.history| - 1].stage)
  }

  function Resume(c: Cell): ResumePoint {
    ResumePoint(c.item, Latest(c), Next(c))
  }

  /** `_require_owned`. */
  predicate Owned(item: Item, owner: Id, now: Instant) {
    && item.state == InProgress && item.leaseOwner == Some(owner)
    && item.leaseExpires.Some? && item.leaseExpires.value > now
  }

  /** `_validate_lease`. */
  predicate LeaseArguments(owner: Id, duration: int) {
    !Blank(owner) && duration > 0
  }

  function ClaimCell(c: Cell, owner: Id, now: Instant, duration: int): (Cell, Claim) {
    if c.item.state == Completed
       || (c.item.state == InProgress && c.item.leaseExpires.Some? && c.item.leaseExpires.value > now) then
      (c, Claim(ActiveDuplicate, c.item, Latest(c)))
    else
      var claimed := c.item.(state := InProgress, attempts := c.item.attempts + 1, leaseOwner := Some(owner),
                             leaseExpires := Some(now + duration), revision := c.item.revision + 1);
      (c.(item := claimed), Claim(Acquired, claimed, Latest(c)))
  }

  function RenewCell(c: Cell, owner: Id, now: Instant, duration: int): (Cell, Result<Item, WorkError>) {
    if !Owned(c.item, owner, now) then (c, Err(LeaseLost))
    else
      var renewed := c.item.(leaseExpires := Some(now + duration), revision := c.item.revision + 1);
      (c.(item := renewed), Ok(renewed))
  }

  /** The item after its lease is given up. */
  function Unleased(item: Item, state: WorkState, result: Option<ObjectRef>): Item {
    item.(state := state, leaseOwner := None, leaseExpires := None, result := result, revision := item.revision + 1)
  }

  function CheckpointCell(c: Cell, owner: Id, stage: Stage, outcome: string, now: Instant, result: Option<ObjectRef>)
    : (Cell, Result<Checkpoint, WorkError>)
  {
    if !Owned(c.item, owner, now) then (c, Err(LeaseLost))
    else
      var latest := Latest(c);
      if latest.Some? && Rank(stage) < Rank(latest.value.stage) then (c, Err(StageBackwards))
      else if latest.Some? && stage == latest.value.stage then
        (c, if latest.value.outcome != outcome || latest.value.result != result then Err(StageImmutable) else Ok(latest.value))
      else if Blank(outcome) || c.item.attempts < 1 then (c, Err(BadValue))
      else
        var sequence := if latest.None? then 1 else latest.value.sequence + 1;
        var record := Checkpoint(c.item.jobId, c.item.itemId, c.item.key, stage, c.item.attempts, outcome,
                                 c.item.configuration, result, now, sequence);
        var state := if stage == Finished then Completed else Checkpointed;
        (c.(item := Unleased(c.item, state, result.Or(c.item.result)), history := c.history + [record]), Ok(record))
  }

  /** What the `TerminalWorkItemRecord` constructor requires of its failure. */
  predicate FailureStated(state: TerminalState, code: Option<string>, details: Option<string>) {
    if state == Succeeded then code.None? && details.None? else code.Some? && !Blank(code.value)
  }

  function TerminalizeCell(c: Cell, owner: Id, state: TerminalState, code: Option<string>, details: Option<string>,
                           now: Instant, result: Option<ObjectRef>): (Cell, Result<Terminal, WorkError>)
  {
    if c.terminal.Some? then
      var t := c.terminal.value;
      (c, if (state, code, details, result.Or(t.result)) != (t.state, t.code, t.details, t.result) then Err(Conflict) else Ok(t))
    else if !Owned(c.item, owner, now) then (c, Err(LeaseLost))
    else if !FailureStated(state, code, details) || c.item.attempts < 1 then (c, Err(BadValue))
    else
      var record := Terminal(c.item.jobId, c.item.itemId, c.item.key, state, code, details, c.item.configuration,
                             c.item.attempts, result.Or(c.item.result), now);
      (c.(item := Unleased(c.item, Completed, record.result), terminal := Some(record)), Ok(record))
  }

  // ----- The repository -----

  datatype Key = Key(jobId: Id, name: Id)

  datatype Notification = Notification(
    eventId: Id, jobId: Id, itemId: Id, key: Id, configurationVersion: string,
    payloadReference: string, payloadHash: string, revision: nat)

  datatype Outbox = Outbox(eventId: Id, notification: Notification, publishedAt: Option<Instant>)

  datatype Repo = Repo(
    items: map<Key, Item>, itemIds: map<Key, Id>, histories: map<Key, seq<Checkpoint>>,
    terminals: map<Key, Terminal>, outbox: map<Id, Outbox>)

  const EMPTY := Repo(map[], map[], map[], map[], map[])

  function HistoryOf(r: Repo, k: Key): seq<Checkpoint> {
    if k in r.histories then r.histories[k] else []
  }

  function CellAt(r: Repo, k: Key): Cell
    requires k in r.items
  {
    Cell(r.items[k], HistoryOf(r, k), if k in r.terminals then Some(r.terminals[k]) else None)
  }

  /** Writes one work item back. */
  function Put(r: Repo, k: Key, c: Cell): Repo {
    r.(items := r.items[k := c.item],
       histories := if c.history == [] then r.histories else r.histories[k := c.history],
       terminals := if c.terminal.None? then r.terminals else r.terminals[k := c.terminal.value])
  }

  function KeyOf(item: Item): Key { Key(item.jobId, item.key) }

  function CreateWithOutbox(r: Repo, item: Item, outbox: Outbox): (Repo, Result<Item, WorkError>) {
    var k := KeyOf(item);
    if k in r.items then
      var existing := r.items[k];
      (r, if existing.itemId != item.itemId || existing.configuration != item.configuration || existing.payload != item.payload
          then Err(Conflict) else Ok(existing))
    else if Key(item.jobId, item.itemId) in r.itemIds || outbox.eventId in r.outbox then (r, Err(Conflict))
    else
      (r.(items := r.items[k := item], itemIds := r.itemIds[Key(item.jobId, item.itemId) := item.key],
          outbox := r.outbox[outbox.eventId := outbox]), Ok(item))
  }

  function ClaimWork(r: Repo, k: Key, owner: Id, now: Instant, duration: int): (Repo, Result<Claim, WorkError>) {
    if !LeaseArguments(owner, duration) then (r, Err(BadValue))
    else if k !in r.items then (r, Err(NotFound))
    else
      var (c, claim) := ClaimCell(CellAt(r, k), owner, now, duration);
      (Put(r, k, c), Ok(claim))
  }

  function Renew(r: Repo, k: Key, owner: Id, now: Instant, duration: int): (Repo, Result<Item, WorkError>) {
    if !LeaseArguments(owner, duration) then (r, Err(BadValue))
    else if k !in r.items then (r, Err(NotFound))
    else
      var (c, renewed) := RenewCell(CellAt(r, k), owner, now, duration);
      (Put(r, k, c), renewed)
  }

  function SaveCheckpoint(r: Repo, k: Key, owner: Id, stage: Stage, outcome: string, now: Instant, result: Option<ObjectRef>)
    : (Repo, Result<Checkpoint, WorkError>)
  {
    if k !in r.items then (r, Err(NotFound))
    else
      var (c, record) := CheckpointCell(CellAt(r, k), owner, stage, outcome, now, result);
      (Put(r, k, c), record)
  }

  function Terminalize(r: Repo, k: Key, owner: Id, state: TerminalState, code: Option<string>, details: Option<string>,
                       now: Instant, result: Option<ObjectRef>): (Repo, Result<Terminal, WorkError>)
  {
    if k !in r.items then (r, Err(NotFound))
    else
      var (c, record) := TerminalizeCell(CellAt(r, k), owner, state, code, details, now, result);
      (Put(r, k, c), record)
  }

  function MarkPublished(r: Repo, eventId: Id, at: Instant): (Repo, Result<Outbox, WorkError>) {
    if eventId !in r.outbox then (r, Err(NotFound))
    else if r.outbox[eventId].publishedAt.Some? then (r, Ok(r.outbox[eventId]))
    else
      var published := r.outbox[eventId].(publishedAt := Some(at));
      (r.(outbox := r.outbox[eventId := published]), Ok(published))
  }

  /** The outbox records still to be relayed, in the order they were created. */
  function PendingAmong(outbox: map<Id, Outbox>, order: seq<Id>): (r: seq<Outbox>)
    requires forall id :: id in order ==> id in outbox
  {
    if order == [] then []
    else
      var rest := PendingAmong(outbox, order[..|order| - 1]);
      var last := outbox[order[|order| - 1]];
      if last.publishedAt.None? then rest + [last] else rest
  }

  /** Writing a work item back changes that item's cell and no other. */
  lemma PutThenRead(r: Repo, k: Key, c: Cell, other: Key)
    requires k in r.items && other in r.items
    requires c.history == [] ==> HistoryOf(r, k) == []
    requires c.terminal.None? ==> k !in r.terminals
    ensures other in Put(r, k, c).items
    ensures CellAt(Put(r, k, c), other) == if other == k then c else CellAt(r, other)
  {}

  /** Operations on a cell never shorten its history or drop its terminal record. */
  predicate Grows(before: Cell, after: Cell) {
    before.history <= after.history && (before.terminal.Some? ==> after.terminal == before.terminal)
  }
}
