/** What each transaction on a work item answers and writes, in terms of the item's past (bulk/memory.py). */
module WorkAnswers {
  import opened Prelude
  import opened Repository
  import opened WorkHistory

  /** The latest claimant's interval is over, or there was none. */
  predicate Free(t: Trace, now: Instant) {
    Tenures(t) == [] || Tenures(t)[|Tenures(t)| - 1].end <= now
  }

  /** Nothing but the lease, the attempts and the revision is different. */
  predicate LeasedTo(before: Item, after: Item, owner: Id, expires: Instant, attempts: nat) {
    && SameIdentity(before, after) && after.result == before.result && after.state == InProgress
    && after.leaseOwner == Some(owner) && after.leaseExpires == Some(expires)
    && after.attempts == attempts && after.revision == before.revision + 1
  }

  /**
   * A claim is granted if and only if the item is not completed and the latest claimant's interval is over. The claimant then
   * holds the lease for the duration, at one more attempt, and learns the latest checkpoint; otherwise it learns the item as it
   * is, and nothing changes.
   */
  lemma ClaimIff(t: Trace, owner: Id, now: Instant, duration: int)
    requires Submitted(t) && Chronological(Then(t, ClaimAct(owner, now, duration))) && LeaseArguments(owner, duration)
    ensures var (before, after, claim) := (CellOf(t), CellOf(Then(t, ClaimAct(owner, now, duration))),
                                           ClaimCell(CellOf(t), owner, now, duration).1);
            && (claim.status == Acquired <==> before.item.state != Completed && Free(t, now))
            && claim.item == after.item && claim.latest == Latest(before)
            && after.history == before.history && after.terminal == before.terminal
            && (if claim.status == Acquired then LeasedTo(before.item, after.item, owner, now + duration, AcquiredClaims(t) + 1)
                else after == before)
  {
    TraceInvariant(t);
    TenuresInvariant(t);
  }

  /** A renewal holds the lease for the duration from now, within the latest claimant's interval and name; else it is refused. */
  lemma RenewalAnswers(t: Trace, owner: Id, now: Instant, duration: int)
    requires Submitted(t) && Chronological(Then(t, RenewAct(owner, now, duration))) && LeaseArguments(owner, duration)
    ensures var (after, answer) := RenewCell(CellOf(t), owner, now, duration);
            && after.history == CellOf(t).history && after.terminal == CellOf(t).terminal
            && if InLease(t, owner, now)
               then answer == Ok(after.item) && LeasedTo(CellOf(t).item, after.item, owner, now + duration, CellOf(t).item.attempts)
               else answer == Err(LeaseLost) && after == CellOf(t)
  {
    OwnedIffInLease(t, owner, now);
  }

  /** The lease was given up. */
  predicate GivenUp(before: Item, after: Item, state: WorkState, result: Option<ObjectRef>) {
    && SameIdentity(before, after) && after.state == state && after.leaseOwner == None && after.leaseExpires == None
    && after.result == (if result.Some? then result else before.result)
    && after.attempts == before.attempts && after.revision == before.revision + 1
  }

  /** The record says what was asked, when, at which attempt and in which place. */
  predicate Records(t: Trace, record: Checkpoint, stage: Stage, outcome: string, now: Instant, result: Option<ObjectRef>) {
    var item := CellOf(t).item;
    && (record.jobId, record.itemId, record.key, record.configuration) == (item.jobId, item.itemId, item.key, item.configuration)
    && record.stage == stage && record.outcome == outcome && record.result == result && record.at == now
    && record.attempts == AcquiredClaims(t) && record.sequence == |CellOf(t).history| + 1
  }

  /**
   * A checkpoint within the lease is recorded if its stage is later than the last and its outcome stated; the last one asked for
   * again is returned; an earlier stage, other words for the last one, or a blank outcome are refused. Refusals change nothing.
   */
  lemma CheckpointAnswers(t: Trace, owner: Id, stage: Stage, outcome: string, now: Instant, result: Option<ObjectRef>)
    requires Submitted(t) && Chronological(Then(t, CheckpointAct(owner, stage, outcome, now, result)))
    ensures var (after, answer) := CheckpointCell(CellOf(t), owner, stage, outcome, now, result);
            var last := Latest(CellOf(t));
            if !InLease(t, owner, now) then answer == Err(LeaseLost) && after == CellOf(t)
            else if last.Some? && Rank(stage) < Rank(last.value.stage) then answer == Err(StageBackwards) && after == CellOf(t)
            else if last.Some? && stage == last.value.stage then
              && after == CellOf(t)
              && answer == if (outcome, result) == (last.value.outcome, last.value.result) then Ok(last.value) else Err(StageImmutable)
            else if Blank(outcome) then answer == Err(BadValue) && after == CellOf(t)
            else
              && answer.Ok? && Records(t, answer.value, stage, outcome, now, result)
              && after.history == CellOf(t).history + [answer.value] && after.terminal == CellOf(t).terminal
              && GivenUp(CellOf(t).item, after.item, if stage == Finished then Completed else Checkpointed, result)
  {
    TraceInvariant(t);
    OwnedIffInLease(t, owner, now);
  }

  /** The terminal record says how the item ended, when, and at which attempt. */
  predicate RecordsEnd(t: Trace, record: Terminal, state: TerminalState, code: Option<string>, details: Option<string>, now: Instant,
                 result: Option<ObjectRef>)
  {
    var item := CellOf(t).item;
    && (record.jobId, record.itemId, record.key, record.configuration) == (item.jobId, item.itemId, item.key, item.configuration)
    && record.state == state && record.code == code && record.details == details && record.at == now
    && record.attempts == AcquiredClaims(t) && record.result == (if result.Some? then result else item.result)
  }

  /**
   * The terminal record asked for again is returned, with or without the lease, and another is a conflict. Without one on record,
   * a properly stated end within the lease is recorded and completes the item. Refusals change nothing.
   */
  lemma TerminalAnswers(t: Trace, owner: Id, state: TerminalState, code: Option<string>, details: Option<string>, now: Instant,
                        result: Option<ObjectRef>)
    requires Submitted(t) && Chronological(Then(t, TerminalAct(owner, state, code, details, now, result)))
    ensures var (after, answer) := TerminalizeCell(CellOf(t), owner, state, code, details, now, result);
            if CellOf(t).terminal.Some? then
              var kept := CellOf(t).terminal.value;
              && after == CellOf(t)
              && answer == if (state, code, details) == (kept.state, kept.code, kept.details) && (result.None? || result == kept.result)
                           then Ok(kept) else Err(Conflict)
            else if !InLease(t, owner, now) then answer == Err(LeaseLost) && after == CellOf(t)
            else if !(if state == Succeeded then code.None? && details.None? else code.Some? && !Blank(code.value)) then
              answer == Err(BadValue) && after == CellOf(t)
            else
              && answer.Ok? && RecordsEnd(t, answer.value, state, code, details, now, result)
              && after.terminal == Some(answer.value) && after.history == CellOf(t).history
              && GivenUp(CellOf(t).item, after.item, Completed, result)
  {
    TraceInvariant(t);
    OwnedIffInLease(t, owner, now);
  }

  /** Lease arguments are checked first, then that the work item is known; other items are never in question. */
  lemma UnknownIsRefused(r: Repo, k: Key, act: Act)
    requires k !in r.items
    ensures ClaimWork(r, k, act.owner, act.now, 1) == (r, Err(if Blank(act.owner) then BadValue else NotFound))
    ensures act.ClaimAct? && act.duration <= 0 ==> ClaimWork(r, k, act.owner, act.now, act.duration) == (r, Err(BadValue))
    ensures act.RenewAct? ==>
      Renew(r, k, act.owner, act.now, act.duration) == (r, Err(if Blank(act.owner) || act.duration <= 0 then BadValue else NotFound))
    ensures act.CheckpointAct? ==>
      SaveCheckpoint(r, k, act.owner, act.stage, act.outcome, act.now, act.result) == (r, Err(NotFound))
    ensures act.TerminalAct? ==>
      Terminalize(r, k, act.owner, act.state, act.code, act.details, act.now, act.result) == (r, Err(NotFound))
  {}
}
