/** What every run keeps true of a work item, and who could write to it when. */
module WorkHistory {
  import opened Prelude
  import opened Repository

  datatype Act =
    | ClaimAct(owner: Id, now: Instant, duration: int)
    | RenewAct(owner: Id, now: Instant, duration: int)
    | CheckpointAct(owner: Id, stage: Stage, outcome: string, now: Instant, result: Option<ObjectRef>)
    | TerminalAct(owner: Id, state: TerminalState, code: Option<string>, details: Option<string>, now: Instant,
                  result: Option<ObjectRef>)

  /** Everything that was asked of one work item since it was submitted. */
  datatype Trace = Created(item: Item) | Then(past: Trace, act: Act)

  function Perform(c: Cell, act: Act): Cell {
    match act
    case ClaimAct(owner, now, duration) => if LeaseArguments(owner, duration) then ClaimCell(c, owner, now, duration).0 else c
    case RenewAct(owner, now, duration) => if LeaseArguments(owner, duration) then RenewCell(c, owner, now, duration).0 else c
    case CheckpointAct(owner, stage, outcome, now, result) => CheckpointCell(c, owner, stage, outcome, now, result).0
    case TerminalAct(owner, state, code, details, now, result) => TerminalizeCell(c, owner, state, code, details, now, result).0
  }

  function CellOf(t: Trace): Cell {
    match t
    case Created(item) => Cell(item, [], None)
    case Then(past, act) => Perform(CellOf(past), act)
  }

  /** A record as `submit` makes it. */
  predicate Fresh(item: Item) {
    item.state == Pending && item.attempts == 0 && item.leaseOwner.None? && item.leaseExpires.None? && item.revision == 0
  }

  predicate Submitted(t: Trace) {
    match t
    case Created(item) => Fresh(item)
    case Then(past, _) => Submitted(past)
  }

  predicate Acquires(c: Cell, act: Act) {
    act.ClaimAct? && LeaseArguments(act.owner, act.duration)
    && ClaimCell(c, act.owner, act.now, act.duration).1.status == Acquired
  }

  function AcquiredClaims(t: Trace): nat {
    match t
    case Created(_) => 0
    case Then(past, act) => AcquiredClaims(past) + if Acquires(CellOf(past), act) then 1 else 0
  }

  // ----- The invariant of one work item -----

  predicate LastFinished(c: Cell) {
    c.history != [] && c.history[|c.history| - 1].stage == Finished
  }

  /** Stages, attempts and sequence numbers grow along the history; identity and configuration are the item's. */
  predicate HistoryOk(c: Cell) {
    && (forall i :: 0 <= i < |c.history| ==>
          && c.history[i].sequence == i + 1 && 1 <= c.history[i].attempts <= c.item.attempts
          && (c.history[i].jobId, c.history[i].itemId, c.history[i].key, c.history[i].configuration)
             == (c.item.jobId, c.item.itemId, c.item.key, c.item.configuration))
    && (forall i, j :: 0 <= i < j < |c.history| ==>
          Rank(c.history[i].stage) < Rank(c.history[j].stage) && c.history[i].attempts < c.history[j].attempts)
  }

  predicate LeaseOk(c: Cell) {
    && (c.item.leaseOwner.Some? <==> c.item.state == InProgress)
    && (c.item.leaseExpires.Some? <==> c.item.state == InProgress)
    && (c.item.attempts == 0 <==> c.item.state == Pending)
    && (c.item.state == InProgress && c.history != [] ==> c.history[|c.history| - 1].attempts < c.item.attempts)
  }

  /** Completed means exactly one of a terminal record and a final checkpoint. */
  predicate CompletionOk(c: Cell) {
    && (c.item.state == Completed <==> c.terminal.Some? || LastFinished(c))
    && !(c.terminal.Some? && LastFinished(c))
    && (c.terminal.Some? ==>
          var t := c.terminal.value;
          && (t.jobId, t.itemId, t.key, t.configuration) == (c.item.jobId, c.item.itemId, c.item.key, c.item.configuration)
          && t.attempts == c.item.attempts >= 1 && t.result == c.item.result && FailureStated(t.state, t.code, t.details))
  }

  predicate CellOk(c: Cell) {
    HistoryOk(c) && LeaseOk(c) && CompletionOk(c)
  }

  predicate SameIdentity(before: Item, after: Item) {
    && (before.jobId, before.itemId, before.key) == (after.jobId, after.itemId, after.key)
    && before.payload == after.payload && before.configuration == after.configuration
  }

  lemma ClaimKeeps(c: Cell, owner: Id, now: Instant, duration: int)
    requires CellOk(c)
    ensures CellOk(ClaimCell(c, owner, now, duration).0)
  {}

  lemma RenewKeeps(c: Cell, owner: Id, now: Instant, duration: int)
    requires CellOk(c)
    ensures CellOk(RenewCell(c, owner, now, duration).0)
  {}

  lemma CheckpointKeeps(c: Cell, owner: Id, stage: Stage, outcome: string, now: Instant, result: Option<ObjectRef>)
    requires CellOk(c)
    ensures CellOk(CheckpointCell(c, owner, stage, outcome, now, result).0)
  {
    var after := CheckpointCell(c, owner, stage, outcome, now, result).0;
    if after != c {
      assert Latest(c).Some? && stage != Latest(c).value.stage ==> Rank(Latest(c).value.stage) < Rank(stage);
      HistoryExtends(c, after, after.history[|c.history|]);
    }
  }

  lemma HistoryExtends(c: Cell, after: Cell, record: Checkpoint)
    requires HistoryOk(c) && after.history == c.history + [record]
    requires SameIdentity(c.item, after.item) && after.item.attempts == c.item.attempts
    requires (record.jobId, record.itemId, record.key, record.configuration)
          == (c.item.jobId, c.item.itemId, c.item.key, c.item.configuration)
    requires record.sequence == |c.history| + 1 && 1 <= record.attempts == c.item.attempts
    requires c.history != [] ==>
      var last := c.history[|c.history| - 1]; Rank(last.stage) < Rank(record.stage) && last.attempts < record.attempts
    ensures HistoryOk(after)
  {}

  lemma TerminalizeKeeps(c: Cell, owner: Id, state: TerminalState, code: Option<string>, details: Option<string>, now: Instant,
                         result: Option<ObjectRef>)
    requires CellOk(c)
    ensures CellOk(TerminalizeCell(c, owner, state, code, details, now, result).0)
  {}

  lemma PerformKeeps(c: Cell, act: Act)
    requires CellOk(c)
    ensures CellOk(Perform(c, act))
  {
    match act
    case ClaimAct(owner, now, duration) => ClaimKeeps(c, owner, now, duration);
    case RenewAct(owner, now, duration) => RenewKeeps(c, owner, now, duration);
    case CheckpointAct(owner, stage, outcome, now, result) => CheckpointKeeps(c, owner, stage, outcome, now, result);
    case TerminalAct(owner, state, code, details, now, result) => TerminalizeKeeps(c, owner, state, code, details, now, result);
  }

  lemma PerformPreserves(c: Cell, act: Act)
    ensures SameIdentity(c.item, Perform(c, act).item)
    ensures Perform(c, act).item.attempts == c.item.attempts + if Acquires(c, act) then 1 else 0
    ensures Grows(c, Perform(c, act))
  {}

  /** A completed item answers every later request without changing. */
  lemma CompletedAbsorbs(c: Cell, act: Act)
    requires c.item.state == Completed
    ensures Perform(c, act) == c
  {}

  /** Every reachable work item is well formed, and its attempt count is the number of acquired claims. */
  lemma {:induction false} TraceInvariant(t: Trace)
    requires Submitted(t)
    ensures CellOk(CellOf(t)) && CellOf(t).item.attempts == AcquiredClaims(t)
  {
    if t.Then? {
      TraceInvariant(t.past);
      PerformKeeps(CellOf(t.past), t.act);
      PerformPreserves(CellOf(t.past), t.act);
    }
  }

  function Continue(t: Trace, acts: seq<Act>): Trace
    decreases |acts|
  {
    if acts == [] then t else Continue(Then(t, acts[0]), acts[1..])
  }

  /** Identity, payload and configuration never change; a completed item never changes at all. */
  lemma {:induction false} CompletedIsFinal(t: Trace, acts: seq<Act>)
    ensures SameIdentity(CellOf(t).item, CellOf(Continue(t, acts)).item)
    ensures CellOf(t).item.state == Completed ==> CellOf(Continue(t, acts)) == CellOf(t)
    decreases |acts|
  {
    if acts != [] {
      PerformPreserves(CellOf(t), acts[0]);
      if CellOf(t).item.state == Completed { CompletedAbsorbs(CellOf(t), acts[0]); }
      CompletedIsFinal(Then(t, acts[0]), acts[1..]);
    }
  }

  // ----- Leases over time -----

  /** One acquired claim: its owner, and the interval in which that owner could write. */
  datatype Tenure = Tenure(owner: Id, start: Instant, end: Instant)

  function EndAt(tenures: seq<Tenure>, end: Instant): seq<Tenure> {
    if tenures == [] then [] else tenures[|tenures| - 1 := tenures[|tenures| - 1].(end := end)]
  }

  /** A tenure opens with a claim, is prolonged by renewals and ends at its expiry or when the lease is given up. */
  function TenuresAfter(c: Cell, tenures: seq<Tenure>, act: Act): seq<Tenure> {
    if Perform(c, act) == c then tenures
    else match act
      case ClaimAct(owner, now, duration) => tenures + [Tenure(owner, now, now + duration)]
      case RenewAct(owner, now, duration) => EndAt(tenures, now + duration)
      case CheckpointAct(_, _, _, now, _) => EndAt(tenures, now)
      case TerminalAct(_, _, _, _, now, _) => EndAt(tenures, now)
  }

  /** The tenures of a history, oldest first. */
  function Tenures(t: Trace): seq<Tenure> {
    match t
    case Created(_) => []
    case Then(past, act) => TenuresAfter(CellOf(past), Tenures(past), act)
  }

  function Time(t: Trace): Option<Instant> {
    if t.Created? then None else Some(t.act.now)
  }

  predicate NotBefore(now: Instant, time: Option<Instant>) {
    time.Some? ==> time.value <= now
  }

  /** The clock never goes back. */
  predicate Chronological(t: Trace) {
    t.Then? ==> Chronological(t.past) && NotBefore(t.act.now, Time(t.past))
  }

  predicate Disjoint(tenures: seq<Tenure>) {
    forall i, j :: 0 <= i < j < |tenures| ==> tenures[i].end <= tenures[j].start
  }

  predicate Forward(tenures: seq<Tenure>) {
    forall i :: 0 <= i < |tenures| ==> tenures[i].start <= tenures[i].end
  }

  /** The last tenure mirrors the current lease, or has ended. */
  predicate Mirrors(c: Cell, tenures: seq<Tenure>, time: Option<Instant>) {
    if tenures == [] then c.item.state == Pending
    else
      var last := tenures[|tenures| - 1];
      && time.Some? && last.start <= time.value && last.start <= last.end
      && if c.item.state == InProgress
         then c.item.leaseOwner == Some(last.owner) && c.item.leaseExpires == Some(last.end)
         else last.end <= time.value
  }

  predicate TenuresOk(c: Cell, tenures: seq<Tenure>, time: Option<Instant>) {
    CellOk(c) && Disjoint(tenures) && Mirrors(c, tenures, time) && Forward(tenures)
  }

  lemma EndAtOk(tenures: seq<Tenure>, end: Instant)
    requires tenures != [] && Disjoint(tenures) && tenures[|tenures| - 1].start <= end
    requires Forward(tenures)
    ensures Disjoint(EndAt(tenures, end)) && Forward(EndAt(tenures, end))
  {}

  lemma OpenOk(tenures: seq<Tenure>, next: Tenure)
    requires Disjoint(tenures) && next.start <= next.end
    requires tenures != [] ==> tenures[|tenures| - 1].end <= next.start
    requires Forward(tenures)
    ensures Disjoint(tenures + [next]) && Forward(tenures + [next])
  {
    var n := |tenures|;
    forall i | 0 <= i < n ensures tenures[i].end <= next.start {
      if i < n - 1 { assert tenures[i].end <= tenures[n - 1].start; }
    }
  }

  lemma LaterMirrors(c: Cell, tenures: seq<Tenure>, time: Option<Instant>, now: Instant)
    requires Mirrors(c, tenures, time) && NotBefore(now, time)
    ensures Mirrors(c, tenures, Some(now))
  {}

  lemma ClaimMirrors(c: Cell, tenures: seq<Tenure>, time: Option<Instant>, owner: Id, now: Instant, duration: int)
    requires Mirrors(c, tenures, time) && NotBefore(now, time) && duration > 0
    requires ClaimCell(c, owner, now, duration).1.status == Acquired
    ensures Mirrors(ClaimCell(c, owner, now, duration).0, tenures + [Tenure(owner, now, now + duration)], Some(now))
    ensures tenures != [] ==> tenures[|tenures| - 1].end <= now
  {}

  lemma RenewMirrors(c: Cell, tenures: seq<Tenure>, time: Option<Instant>, owner: Id, now: Instant, duration: int)
    requires Mirrors(c, tenures, time) && NotBefore(now, time) && duration > 0 && Owned(c.item, owner, now)
    ensures tenures != [] && tenures[|tenures| - 1].start <= now + duration
    ensures Mirrors(RenewCell(c, owner, now, duration).0, EndAt(tenures, now + duration), Some(now))
  {}

  lemma LetGoMirrors(c: Cell, after: Cell, tenures: seq<Tenure>, time: Option<Instant>, now: Instant)
    requires Mirrors(c, tenures, time) && NotBefore(now, time)
    requires c.item.state == InProgress && after.item.state != InProgress
    ensures tenures != [] && tenures[|tenures| - 1].start <= now
    ensures Mirrors(after, EndAt(tenures, now), Some(now))
  {}

  /** An operation that changes the item was a granted claim, or was made under the lease. */
  lemma ChangeNeedsLease(c: Cell, act: Act)
    requires Perform(c, act) != c
    ensures act.ClaimAct? ==> act.duration > 0 && ClaimCell(c, act.owner, act.now, act.duration).1.status == Acquired
    ensures act.RenewAct? ==> act.duration > 0 && Owned(c.item, act.owner, act.now)
    ensures act.CheckpointAct? || act.TerminalAct? ==> c.item.state == InProgress && Perform(c, act).item.state != InProgress
  {}

  lemma ActMirrors(c: Cell, tenures: seq<Tenure>, time: Option<Instant>, act: Act)
    requires Mirrors(c, tenures, time) && NotBefore(act.now, time) && Disjoint(tenures) && Forward(tenures)
    ensures var after := TenuresAfter(c, tenures, act);
            Mirrors(Perform(c, act), after, Some(act.now)) && Disjoint(after) && Forward(after)
  {
    if Perform(c, act) == c {
      LaterMirrors(c, tenures, time, act.now);
    } else {
      ChangeNeedsLease(c, act);
      match act
      case ClaimAct(owner, now, duration) =>
        ClaimMirrors(c, tenures, time, owner, now, duration);
        OpenOk(tenures, Tenure(owner, now, now + duration));
      case RenewAct(owner, now, duration) =>
        RenewMirrors(c, tenures, time, owner, now, duration);
        EndAtOk(tenures, now + duration);
      case _ =>
        LetGoMirrors(c, Perform(c, act), tenures, time, act.now);
        EndAtOk(tenures, act.now);
    }
  }

  lemma {:induction false} TenuresInvariant(t: Trace)
    requires Submitted(t) && Chronological(t)
    ensures TenuresOk(CellOf(t), Tenures(t), Time(t))
  {
    TraceInvariant(t);
    if t.Then? {
      TenuresInvariant(t.past);
      ActMirrors(CellOf(t.past), Tenures(t.past), Time(t.past), t.act);
    }
  }

  /** The intervals in which successive claimants could write are disjoint and in claim order. */
  lemma LeasesDisjoint(t: Trace, i: nat, j: nat)
    requires Submitted(t) && Chronological(t) && i < j < |Tenures(t)|
    ensures Tenures(t)[i].start <= Tenures(t)[i].end <= Tenures(t)[j].start
  {
    TenuresInvariant(t);
  }

  /** Every renewal, checkpoint and terminal record was written within the latest claimant's lease, by its owner. */
  lemma WritesAreLeased(t: Trace, act: Act)
    requires Submitted(Then(t, act)) && Chronological(Then(t, act))
    requires !act.ClaimAct? && Perform(CellOf(t), act) != CellOf(t)
    ensures Tenures(t) != []
    ensures var last := Tenures(t)[|Tenures(t)| - 1];
            last.owner == act.owner && last.start <= act.now < last.end
  {
    TenuresInvariant(t);
  }

  /** A worker whose lease someone else reclaimed cannot write until it claims again. */
  lemma ReclaimedCannotWrite(t: Trace, act: Act)
    requires Submitted(Then(t, act)) && Chronological(Then(t, act)) && !act.ClaimAct?
    requires Tenures(t) != [] && Tenures(t)[|Tenures(t)| - 1].owner != act.owner
    ensures CellOf(Then(t, act)) == CellOf(t)
  {
    if Perform(CellOf(t), act) != CellOf(t) {
      WritesAreLeased(t, act);
    }
  }

  /** `now` is before the end of the latest claimant's lease, and that claimant goes by the name `owner`. */
  predicate InLease(t: Trace, owner: Id, now: Instant) {
    Tenures(t) != [] && Tenures(t)[|Tenures(t)| - 1].owner == owner && now < Tenures(t)[|Tenures(t)| - 1].end
  }

  lemma OwnedIffInLease(t: Trace, owner: Id, now: Instant)
    requires Submitted(t) && Chronological(t) && NotBefore(now, Time(t))
    ensures Owned(CellOf(t).item, owner, now) <==> InLease(t, owner, now)
  {
    TenuresInvariant(t);
  }

  lemma RenewChanges(c: Cell, owner: Id, now: Instant, duration: int)
    ensures RenewCell(c, owner, now, duration).0 != c <==> Owned(c.item, owner, now)
  {
    var after := RenewCell(c, owner, now, duration).0;
    assert Owned(c.item, owner, now) ==> after.item.revision == c.item.revision + 1;
  }

  lemma CheckpointChanges(c: Cell, owner: Id, stage: Stage, outcome: string, now: Instant, result: Option<ObjectRef>)
    requires CellOk(c)
    ensures CheckpointCell(c, owner, stage, outcome, now, result).0 != c <==>
      && Owned(c.item, owner, now) && !Blank(outcome)
      && (Latest(c).Some? ==> Rank(Latest(c).value.stage) < Rank(stage))
  {
    assert Latest(c).Some? && Rank(stage) == Rank(Latest(c).value.stage) ==> stage == Latest(c).value.stage;
    var (after, record) := CheckpointCell(c, owner, stage, outcome, now, result);
    assert after != c ==> after.item.revision == c.item.revision + 1;
  }

  lemma TerminalChanges(c: Cell, owner: Id, state: TerminalState, code: Option<string>, details: Option<string>, now: Instant,
                        result: Option<ObjectRef>)
    requires CellOk(c)
    ensures TerminalizeCell(c, owner, state, code, details, now, result).0 != c <==>
      Owned(c.item, owner, now) && FailureStated(state, code, details)
  {
    assert Owned(c.item, owner, now) ==> c.terminal.None?;
  }

  /** The lease fences by owner name: a renewal takes effect exactly within the latest claimant's lease, under that name. */
  lemma RenewalIff(t: Trace, owner: Id, now: Instant, duration: int)
    requires Submitted(t) && Chronological(Then(t, RenewAct(owner, now, duration))) && LeaseArguments(owner, duration)
    ensures CellOf(Then(t, RenewAct(owner, now, duration))) != CellOf(t) <==> InLease(t, owner, now)
  {
    OwnedIffInLease(t, owner, now);
    RenewChanges(CellOf(t), owner, now, duration);
  }

  /** So does a checkpoint, for a stated outcome of a stage later than the last one. */
  lemma CheckpointIff(t: Trace, owner: Id, stage: Stage, outcome: string, now: Instant, result: Option<ObjectRef>)
    requires Submitted(t) && Chronological(Then(t, CheckpointAct(owner, stage, outcome, now, result)))
    ensures CellOf(Then(t, CheckpointAct(owner, stage, outcome, now, result))) != CellOf(t) <==>
      && InLease(t, owner, now) && !Blank(outcome)
      && (Latest(CellOf(t)).Some? ==> Rank(Latest(CellOf(t)).value.stage) < Rank(stage))
  {
    TraceInvariant(t);
    OwnedIffInLease(t, owner, now);
    CheckpointChanges(CellOf(t), owner, stage, outcome, now, result);
  }

  /** And so does a terminal record, for a properly stated failure. */
  lemma TerminalIff(t: Trace, owner: Id, state: TerminalState, code: Option<string>, details: Option<string>, now: Instant,
                    result: Option<ObjectRef>)
    requires Submitted(t) && Chronological(Then(t, TerminalAct(owner, state, code, details, now, result)))
    ensures CellOf(Then(t, TerminalAct(owner, state, code, details, now, result))) != CellOf(t) <==>
      InLease(t, owner, now) && FailureStated(state, code, details)
  {
    TraceInvariant(t);
    OwnedIffInLease(t, owner, now);
    TerminalChanges(CellOf(t), owner, state, code, details, now, result);
  }
}
