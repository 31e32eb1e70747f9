/** Crash and resume of the durable worker (bulk/worker.py, stage dispatch of composition/prototype.py). */
module Worker {
  import opened Prelude
  import opened Repository
  import opened WorkHistory

  // ----- What processing leaves behind, apart from attempts, revisions and times -----

  datatype Progress = Progress(stage: Stage, outcome: string, result: Option<ObjectRef>)

  datatype Ending = Ending(state: TerminalState, code: Option<string>, details: Option<string>, result: Option<ObjectRef>)

  datatype Digest = Digest(
    payload: ObjectRef, configuration: ConfigRef, steps: seq<Progress>, result: Option<ObjectRef>, end: Option<Ending>)

  function ProgressOf(history: seq<Checkpoint>): (r: seq<Progress>)
    ensures |r| == |history|
    ensures forall i :: 0 <= i < |r| ==> r[i] == Progress(history[i].stage, history[i].outcome, history[i].result)
  {
    Map((c: Checkpoint) => Progress(c.stage, c.outcome, c.result), history)
  }

  function DigestOf(c: Cell): Digest {
    Digest(c.item.payload, c.item.configuration, ProgressOf(c.history), c.item.result,
           match c.terminal
           case None => None
           case Some(t) => Some(Ending(t.state, t.code, t.details, t.result)))
  }

  /**
   * What a stage processor decides: checkpoint exactly the next stage, or end the item. A guarded end is written where
   * the processor still catches a refusal; the end for a failure the processor caught is not.
   */
  datatype Decision =
    | Advance(outcome: string, result: Option<ObjectRef>)
    | End(state: TerminalState, code: Option<string>, details: Option<string>, result: Option<ObjectRef>, guarded: bool)

  type Processor = Digest -> Decision

  predicate Stated(decision: Decision) {
    match decision
    case Advance(outcome, _) => !Blank(outcome)
    case End(state, code, details, _, _) => FailureStated(state, code, details)
  }

  /** Every decision is one the record constructors accept. */
  ghost predicate WellBehaved(p: Processor) {
    forall d :: Stated(p(d))
  }

  // ----- The ideal run: no crash, no lease -----

  function NextOf(d: Digest): Option<Stage> {
    if d.steps == [] then Some(Accepted) else NextStage(d.steps[|d.steps| - 1].stage)
  }

  predicate Done(d: Digest) {
    d.end.Some? || NextOf(d).None?
  }

  function Ideal(p: Processor, d: Digest): Digest {
    if Done(d) then d
    else match p(d)
      case Advance(outcome, result) =>
        d.(steps := d.steps + [Progress(NextOf(d).value, outcome, result)], result := result.Or(d.result))
      case End(state, code, details, result, _) =>
        d.(end := Some(Ending(state, code, details, result.Or(d.result))), result := result.Or(d.result))
  }

  function Iterate(p: Processor, d: Digest, n: nat): Digest {
    if n == 0 then d else Ideal(p, Iterate(p, d, n - 1))
  }

  /** Nothing processed yet. */
  predicate Untouched(d: Digest) {
    d.steps == [] && d.end.None?
  }

  /** After n decisions that did not finish the item, exactly the first n stages are checkpointed. */
  lemma {:induction false} StagesInOrder(p: Processor, d: Digest, n: nat)
    requires Untouched(d) && !Done(Iterate(p, d, n))
    ensures n < 5 && |Iterate(p, d, n).steps| == n && Iterate(p, d, n).end.None?
    ensures NextOf(Iterate(p, d, n)).Some? && Rank(NextOf(Iterate(p, d, n)).value) == n
  {
    if n > 0 {
      StagesInOrder(p, d, n - 1);
    }
  }

  /** Five decisions finish any item, and further ones change nothing. */
  lemma {:induction false} FiveSuffice(p: Processor, d: Digest, n: nat)
    requires Untouched(d) && n >= 5
    ensures Done(Iterate(p, d, 5)) && Iterate(p, d, n) == Iterate(p, d, 5)
  {
    if !Done(Iterate(p, d, 5)) {
      StagesInOrder(p, d, 5);
    }
    if n > 5 {
      FiveSuffice(p, d, n - 1);
    }
  }

  lemma {:induction false} DoneStays(p: Processor, d: Digest, n: nat, m: nat)
    requires n <= m && Done(Iterate(p, d, n))
    ensures Iterate(p, d, m) == Iterate(p, d, n)
  {
    if n < m {
      DoneStays(p, d, n, m - 1);
    }
  }

  /** `c` is where the ideal run from `start` is after `n` decisions. */
  predicate At(p: Processor, start: Digest, c: Cell, n: nat) {
    CellOk(c) && DigestOf(c) == Iterate(p, start, n)
  }

  lemma DoneIsCompleted(c: Cell)
    requires CellOk(c)
    ensures Done(DigestOf(c)) <==> c.item.state == Completed
  {
    if c.history != [] {
      assert DigestOf(c).steps[|c.history| - 1].stage == c.history[|c.history| - 1].stage;
    }
  }

  lemma NextMatches(c: Cell)
    ensures Next(c) == NextOf(DigestOf(c))
  {
    if c.history != [] {
      assert DigestOf(c).steps[|c.history| - 1].stage == c.history[|c.history| - 1].stage;
    }
  }

  // ----- Writing a decision -----

  datatype StageResult = StageCheckpointed(stage: Stage, outcome: string) | StageTerminal(state: TerminalState)

  function ResultOf(stage: Stage, decision: Decision): StageResult {
    match decision
    case Advance(outcome, _) => StageCheckpointed(stage, outcome)
    case End(state, _, _, _, _) => StageTerminal(state)
  }

  /** Writes a decision for `stage` under `owner`'s name; a refused write raises and changes nothing. */
  function Commit(c: Cell, owner: Id, stage: Stage, decision: Decision, now: Instant): (Cell, Result<StageResult, WorkError>) {
    match decision
    case Advance(outcome, result) =>
      var (after, r) := CheckpointCell(c, owner, stage, outcome, now, result);
      (after, if r.Ok? then Ok(ResultOf(stage, decision)) else Err(r.error))
    case End(state, code, details, result, _) =>
      var (after, r) := TerminalizeCell(c, owner, state, code, details, now, result);
      (after, if r.Ok? then Ok(ResultOf(stage, decision)) else Err(r.error))
  }

  function ErrorName(error: WorkError): string {
    match error
    case BadValue => "ValueError"
    case NotFound => "WorkNotFoundError"
    case Conflict => "WorkConflictError"
    case LeaseLost => "LeaseOwnershipError"
    case StageBackwards => "CheckpointTransitionError"
    case StageImmutable => "CheckpointTransitionError"
  }

  /** What the error says, when `decision` was refused with it. */
  function ErrorText(decision: Decision, error: WorkError): string {
    match error
    case BadValue =>
      if decision.Advance? then "checkpoint outcome must not be blank"
      else if decision.state == Succeeded then "succeeded work cannot contain failure details"
      else "nonsuccess terminal work requires a failure code"
    case NotFound => "unknown work item"
    case Conflict => "terminal work item outcome is immutable"
    case LeaseLost => "an unexpired lease owned by the caller is required"
    case StageBackwards => "checkpoint stages cannot move backwards"
    case StageImmutable => "completed checkpoint stage is immutable"
  }

  /**
   * What the dispatch tries once a write was refused: a refused final checkpoint is a failed write-back, any other
   * refusal it catches ends the item as retry-exhausted, and a refusal while it handles a failure is raised.
   */
  function Fallback(stage: Stage, decision: Decision, error: WorkError): Option<Decision> {
    if decision.Advance? && stage == Finished then
      Some(End(WriteBackFailed, Some("write_back_failed"), Some("effect_execution_failure:" + ErrorName(error)), None, true))
    else if decision.Advance? || decision.guarded then
      Some(End(RetryExhausted, Some(ErrorName(error)), Some(ErrorText(decision, error)), None, false))
    else None
  }

  /** A refused final checkpoint is a failed write-back; any other refusal that is caught exhausts the item under the error's name. */
  lemma FallbackMeans(stage: Stage, decision: Decision, error: WorkError)
    ensures Fallback(stage, decision, error).None? <==> decision.End? && !decision.guarded
    ensures decision.Advance? && stage == Finished ==>
      var next := Fallback(stage, decision, error).value;
      && next.End? && next.guarded && next.state == WriteBackFailed && next.code == Some("write_back_failed")
      && next.details == Some("effect_execution_failure:" + ErrorName(error))
    ensures (decision.Advance? && stage != Finished) || (decision.End? && decision.guarded) ==>
      var next := Fallback(stage, decision, error).value;
      next.End? && !next.guarded && next.state == RetryExhausted && next.code == Some(ErrorName(error))
  {}

  /** How many fallbacks a decision can still have. */
  function Fallbacks(stage: Stage, decision: Decision): nat {
    if decision.End? then (if decision.guarded then 1 else 0) else if stage == Finished then 2 else 1
  }

  /** The worker's clock: its n-th reading. */
  type Clock = nat -> Instant

  predicate TicksOn(clock: Clock, i: nat) {
    clock(i) <= clock(i + 1)
  }

  ghost predicate NeverBack(clock: Clock) {
    forall i: nat :: TicksOn(clock, i)
  }

  /** One round of the loop: nothing to claim, a stage processed, or an error raised. */
  datatype StageOutcome = Idle | Processed(result: StageResult) | Raised

  /** Writes the decision, or else its fallbacks in turn, each at the next reading of the clock. */
  function WriteOrFallBack(c: Cell, owner: Id, stage: Stage, decision: Decision, clock: Clock, tick: nat): (Cell, StageOutcome)
    decreases Fallbacks(stage, decision)
  {
    var (after, written) := Commit(c, owner, stage, decision, clock(tick));
    match written
    case Ok(result) => (after, Processed(result))
    case Err(error) =>
      match Fallback(stage, decision, error)
      case None => (after, Raised)
      case Some(next) => WriteOrFallBack(after, owner, stage, next, clock, tick + 1)
  }

  /** An up-to-date commit by the lease holder is the next decision of the ideal run. */
  lemma FreshCommit(p: Processor, start: Digest, c: Cell, n: nat, owner: Id, now: Instant)
    requires WellBehaved(p) && At(p, start, c, n) && !Done(Iterate(p, start, n)) && Owned(c.item, owner, now)
    ensures var d := Iterate(p, start, n);
            var (after, written) := Commit(c, owner, NextOf(d).value, p(d), now);
            written == Ok(ResultOf(NextOf(d).value, p(d))) && At(p, start, after, n + 1) && after.item.state != InProgress
  {
    var d := Iterate(p, start, n);
    assert Stated(p(d));
    var stage := NextOf(d).value;
    if c.history != [] {
      assert d.steps[|d.steps| - 1] == Progress(Latest(c).value.stage, Latest(c).value.outcome, Latest(c).value.result);
    }
    match p(d)
    case Advance(outcome, result) =>
      CheckpointKeeps(c, owner, stage, outcome, now, result);
      var after := CheckpointCell(c, owner, stage, outcome, now, result).0;
      assert ProgressOf(after.history) == ProgressOf(c.history) + [Progress(stage, outcome, result)];
    case End(state, code, details, result, _) =>
      TerminalizeKeeps(c, owner, state, code, details, now, result);
  }

  lemma NotOwnedNoCommit(c: Cell, owner: Id, stage: Stage, decision: Decision, now: Instant)
    requires !Owned(c.item, owner, now)
    ensures Commit(c, owner, stage, decision, now).0 == c
  {}

  lemma RefusedNoCommit(c: Cell, owner: Id, stage: Stage, decision: Decision, now: Instant)
    requires Commit(c, owner, stage, decision, now).1.Err?
    ensures Commit(c, owner, stage, decision, now).0 == c
  {}

  /** A checkpoint for a stage that is not later than the last one changes nothing. */
  lemma OldStageNoCommit(c: Cell, owner: Id, stage: Stage, outcome: string, now: Instant, result: Option<ObjectRef>)
    requires c.history != [] && Rank(stage) <= Rank(Latest(c).value.stage)
    ensures CheckpointCell(c, owner, stage, outcome, now, result).0 == c
  {
    assert Rank(stage) == Rank(Latest(c).value.stage) ==> stage == Latest(c).value.stage;
  }

  /** Writing again what the ideal run decided earlier changes nothing, under whatever name. */
  lemma StaleCommit(p: Processor, start: Digest, c: Cell, n: nat, owner: Id, now: Instant, seen: nat)
    requires Untouched(start) && At(p, start, c, n) && seen < n && !Done(Iterate(p, start, seen))
    ensures var d := Iterate(p, start, seen); Commit(c, owner, NextOf(d).value, p(d), now).0 == c
  {
    var d := Iterate(p, start, seen);
    StagesInOrder(p, start, seen);
    if Done(Iterate(p, start, n)) {
      DoneIsCompleted(c);
    } else {
      StagesInOrder(p, start, n);
      var reached := Iterate(p, start, n);
      assert reached.steps[n - 1] == Progress(Latest(c).value.stage, Latest(c).value.outcome, Latest(c).value.result);
      if p(d).End? {
        DoneStays(p, start, seen + 1, n);
      } else {
        OldStageNoCommit(c, owner, NextOf(d).value, p(d).outcome, now, p(d).result);
      }
    }
  }

  lemma NameIsStated(error: WorkError)
    ensures !Blank(ErrorName(error))
  {
    assert ErrorName(error)[0] in ErrorName(error);
  }

  lemma FallbackIsStated(stage: Stage, decision: Decision, error: WorkError)
    requires Fallback(stage, decision, error).Some?
    ensures var last := Fallback(stage, decision, error).value; last.End? && last.result.None? && Stated(last)
  {
    NameIsStated(error);
    assert "write_back_failed"[0] == 'w' && 'w' in "write_back_failed";
  }

  /** The fallback of a refused write takes effect if and only if it comes under the name that holds the lease. */
  lemma FallbackIff(c: Cell, owner: Id, stage: Stage, decision: Decision, error: WorkError, later: Instant)
    requires CellOk(c) && Fallback(stage, decision, error).Some?
    ensures Commit(c, owner, stage, Fallback(stage, decision, error).value, later).0 != c <==> Owned(c.item, owner, later)
  {
    FallbackIsStated(stage, decision, error);
    if Owned(c.item, owner, later) {
      assert c.terminal.None?;
    } else {
      NotOwnedNoCommit(c, owner, stage, Fallback(stage, decision, error).value, later);
    }
  }

  lemma ClaimKeepsDigest(c: Cell, owner: Id, now: Instant, duration: int)
    ensures DigestOf(ClaimCell(c, owner, now, duration).0) == DigestOf(c)
    ensures DigestOf(RenewCell(c, owner, now, duration).0) == DigestOf(c)
  {}

  lemma ClaimKeepsNext(c: Cell, owner: Id, now: Instant, duration: int)
    ensures Next(ClaimCell(c, owner, now, duration).0) == Next(c)
  {}

  lemma LeaseAt(p: Processor, start: Digest, c: Cell, n: nat, owner: Id, now: Instant, duration: int)
    requires At(p, start, c, n)
    ensures At(p, start, ClaimCell(c, owner, now, duration).0, n) && At(p, start, RenewCell(c, owner, now, duration).0, n)
  {
    ClaimKeeps(c, owner, now, duration);
    RenewKeeps(c, owner, now, duration);
    ClaimKeepsDigest(c, owner, now, duration);
  }

  // ----- The worker's loop -----

  datatype Resumed = Resumed(cell: Cell, results: seq<StageResult>, raised: bool)

  function Prepend(result: StageResult, rest: Resumed): Resumed {
    rest.(results := [result] + rest.results)
  }

  /** How many stages can still be checkpointed. */
  function Remaining(c: Cell): nat {
    match Next(c)
    case None => 0
    case Some(stage) => 5 - Rank(stage)
  }

  /** Claims the next stage and processes it. */
  function OneStage(p: Processor, c: Cell, owner: Id, clock: Clock, tick: nat, duration: int): (Cell, StageOutcome)
    requires Next(c).Some?
  {
    if !LeaseArguments(owner, duration) then (c, Raised)
    else
      var (claimed, claim) := ClaimCell(c, owner, clock(tick), duration);
      if claim.status != Acquired then (claimed, Idle)
      else WriteOrFallBack(claimed, owner, Next(claimed).value, p(DigestOf(claimed)), clock, tick + 1)
  }

  lemma CheckpointMakesProgress(c: Cell, owner: Id, stage: Stage, decision: Decision, now: Instant)
    requires Next(c) == Some(stage) && decision.Advance? && Commit(c, owner, stage, decision, now).1.Ok?
    ensures Remaining(Commit(c, owner, stage, decision, now).0) < Remaining(c)
  {}

  /** Fallbacks only ever end the item. */
  lemma {:induction false} FallbacksEnd(c: Cell, owner: Id, stage: Stage, decision: Decision, clock: Clock, tick: nat)
    requires decision.End?
    ensures var outcome := WriteOrFallBack(c, owner, stage, decision, clock, tick).1; outcome.Processed? ==> outcome.result.StageTerminal?
    decreases Fallbacks(stage, decision)
  {
    var (after, written) := Commit(c, owner, stage, decision, clock(tick));
    if written.Err? && Fallback(stage, decision, written.error).Some? {
      FallbacksEnd(after, owner, stage, Fallback(stage, decision, written.error).value, clock, tick + 1);
    }
  }

  /** A round that checkpoints makes progress. */
  lemma RoundProgresses(p: Processor, c: Cell, owner: Id, clock: Clock, tick: nat, duration: int)
    requires Next(c).Some?
    ensures var (after, outcome) := OneStage(p, c, owner, clock, tick, duration);
            outcome.Processed? && outcome.result.StageCheckpointed? ==> Remaining(after) < Remaining(c)
  {
    var claimed := ClaimCell(c, owner, clock(tick), duration).0;
    ClaimKeepsNext(c, owner, clock(tick), duration);
    var stage, decision := Next(claimed).value, p(DigestOf(claimed));
    var (after, written) := Commit(claimed, owner, stage, decision, clock(tick + 1));
    if decision.Advance? && written.Ok? {
      CheckpointMakesProgress(claimed, owner, stage, decision, clock(tick + 1));
    } else if decision.Advance? {
      FallbacksEnd(after, owner, stage, Fallback(stage, decision, written.error).value, clock, tick + 2);
    } else {
      FallbacksEnd(claimed, owner, stage, decision, clock, tick + 1);
    }
  }

  /** What is left of a stage limit after one stage. */
  function OneLess(limit: Option<nat>): Option<nat>
    requires limit != Some(0)
  {
    if limit.None? then None else Some(limit.value - 1)
  }

  /** `resume`: one round after another, while they checkpoint; a round that checkpoints reads the clock twice. */
  function ResumeLoop(p: Processor, c: Cell, owner: Id, clock: Clock, tick: nat, duration: int, limit: Option<nat>): Resumed
    decreases Remaining(c)
  {
    if limit == Some(0) || Next(c).None? then Resumed(c, [], false)
    else
      var (after, outcome) := OneStage(p, c, owner, clock, tick, duration);
      match outcome
      case Idle => Resumed(after, [], false)
      case Raised => Resumed(after, [], true)
      case Processed(result) =>
        if result.StageTerminal? then Resumed(after, [result], false)
        else
          RoundProgresses(p, c, owner, clock, tick, duration);
          Prepend(result, ResumeLoop(p, after, owner, clock, tick + 2, duration, OneLess(limit)))
  }

  /** A finished item is never claimed. */
  lemma NeverBoth(c: Cell, owner: Id, now: Instant, duration: int)
    requires CellOk(c) && Done(DigestOf(c))
    ensures ClaimCell(c, owner, now, duration).1.status != Acquired
  {
    DoneIsCompleted(c);
  }

  // ----- Resuming to the end -----

  /** The clock moves on, and each stage is processed within its lease. */
  ghost predicate Timely(clock: Clock, duration: int) {
    forall i: nat :: WithinLease(clock, i, duration)
  }

  predicate WithinLease(clock: Clock, i: nat, duration: int) {
    clock(i) <= clock(i + 1) < clock(i) + duration
  }

  predicate Lapsed(c: Cell, now: Instant) {
    c.item.state == InProgress ==> c.item.leaseExpires.Some? && c.item.leaseExpires.value <= now
  }

  lemma DoneIsFive(p: Processor, start: Digest, n: nat)
    requires Untouched(start) && Done(Iterate(p, start, n))
    ensures Iterate(p, start, n) == Iterate(p, start, 5)
  {
    if n <= 5 { DoneStays(p, start, n, 5); } else { FiveSuffice(p, start, n); }
  }

  /** A lapsed item that is not finished can be claimed, and its claimant holds the lease until it expires. */
  lemma LapsedIsClaimed(c: Cell, owner: Id, now: Instant, later: Instant, duration: int)
    requires c.item.state != Completed && Lapsed(c, now) && later < now + duration
    ensures var (claimed, claim) := ClaimCell(c, owner, now, duration);
            claim.status == Acquired && Owned(claimed.item, owner, later)
  {}

  /** A round begun after earlier leases lapsed, and kept within its own, writes the next decision of the ideal run. */
  lemma RoundCommits(p: Processor, start: Digest, c: Cell, n: nat, owner: Id, clock: Clock, tick: nat, duration: int)
    requires WellBehaved(p) && At(p, start, c, n) && !Done(Iterate(p, start, n))
    requires LeaseArguments(owner, duration) && Timely(clock, duration) && Lapsed(c, clock(tick))
    ensures Next(c).Some?
    ensures var (after, outcome) := OneStage(p, c, owner, clock, tick, duration);
            && outcome == Processed(ResultOf(Next(c).value, p(Iterate(p, start, n))))
            && At(p, start, after, n + 1) && after.item.state != InProgress
  {
    DoneIsCompleted(c);
    NextMatches(c);
    assert WithinLease(clock, tick, duration);
    LapsedIsClaimed(c, owner, clock(tick), clock(tick + 1), duration);
    var claimed := ClaimCell(c, owner, clock(tick), duration).0;
    LeaseAt(p, start, c, n, owner, clock(tick), duration);
    ClaimKeepsNext(c, owner, clock(tick), duration);
    FreshCommit(p, start, claimed, n, owner, clock(tick + 1));
  }

  lemma RemainingAtMostFive(c: Cell)
    ensures Remaining(c) <= 5
    ensures Next(c).Some? ==> Remaining(c) >= 1
  {
    match Next(c)
    case None =>
    case Some(stage) => assert Rank(stage) <= 4;
  }

  lemma NothingToDo(p: Processor, c: Cell, owner: Id, clock: Clock, tick: nat, duration: int, limit: Option<nat>)
    requires CellOk(c) && Done(DigestOf(c)) && LeaseArguments(owner, duration)
    ensures ResumeLoop(p, c, owner, clock, tick, duration, limit) == Resumed(c, [], false)
  {
    NeverBoth(c, owner, clock(tick), duration);
  }

  /** Once its lease has lapsed a worker's write is refused, and so is every fallback. */
  lemma {:induction false} LateIsRaised(c: Cell, owner: Id, stage: Stage, decision: Decision, clock: Clock, tick: nat)
    requires CellOk(c) && c.item.state == InProgress && NeverBack(clock)
    requires c.item.leaseExpires.Some? && c.item.leaseExpires.value <= clock(tick)
    ensures WriteOrFallBack(c, owner, stage, decision, clock, tick) == (c, Raised)
    decreases Fallbacks(stage, decision)
  {
    assert c.terminal.None? && Commit(c, owner, stage, decision, clock(tick)) == (c, Err(LeaseLost));
    if Fallback(stage, decision, LeaseLost).Some? {
      assert TicksOn(clock, tick);
      LateIsRaised(c, owner, stage, Fallback(stage, decision, LeaseLost).value, clock, tick + 1);
    }
  }

  /** Somebody else, or an earlier claim, still holds the item, or it is completed. */
  predicate Taken(c: Cell, now: Instant) {
    c.item.state == Completed || (c.item.state == InProgress && c.item.leaseExpires.Some? && c.item.leaseExpires.value > now)
  }

  /**
   * A round finds nothing to do if and only if the item is taken; otherwise it processes the stage, as the ideal run decides,
   * if and only if it writes before its lease lapses, and raises without a change in the decisions if and only if it does not.
   * A bad lease argument raises at once.
   */
  lemma RoundIff(p: Processor, start: Digest, c: Cell, n: nat, owner: Id, clock: Clock, tick: nat, duration: int)
    requires WellBehaved(p) && At(p, start, c, n) && Next(c).Some? && NeverBack(clock)
    ensures var (after, outcome) := OneStage(p, c, owner, clock, tick, duration);
            if !LeaseArguments(owner, duration) then (after, outcome) == (c, Raised)
            else if Taken(c, clock(tick)) then (after, outcome) == (c, Idle)
            else if clock(tick + 1) < clock(tick) + duration then
              && !Done(Iterate(p, start, n)) && outcome == Processed(ResultOf(Next(c).value, p(Iterate(p, start, n))))
              && At(p, start, after, n + 1)
            else outcome == Raised && At(p, start, after, n)
  {
    if LeaseArguments(owner, duration) && !Taken(c, clock(tick)) {
      var claimed := ClaimCell(c, owner, clock(tick), duration).0;
      DoneIsCompleted(c);
      NextMatches(c);
      LeaseAt(p, start, c, n, owner, clock(tick), duration);
      ClaimKeepsNext(c, owner, clock(tick), duration);
      if clock(tick + 1) < clock(tick) + duration {
        FreshCommit(p, start, claimed, n, owner, clock(tick + 1));
      } else {
        LateIsRaised(claimed, owner, Next(claimed).value, p(DigestOf(claimed)), clock, tick + 1);
      }
    }
  }

  lemma EndIsDone(p: Processor, start: Digest, n: nat)
    requires !Done(Iterate(p, start, n)) && p(Iterate(p, start, n)).End?
    ensures Done(Iterate(p, start, n + 1))
  {}

  /** The resume took the item to `end` in at most `stages` stages. */
  predicate Finishes(r: Resumed, end: Digest, stages: nat) {
    !r.raised && CellOk(r.cell) && DigestOf(r.cell) == end && Done(end) && |r.results| <= stages
  }

  lemma LoopGoesOn(p: Processor, c: Cell, owner: Id, clock: Clock, tick: nat, duration: int, limit: Option<nat>, after: Cell,
                   result: StageResult)
    requires Next(c).Some? && OneStage(p, c, owner, clock, tick, duration) == (after, Processed(result)) && limit != Some(0)
    ensures result.StageTerminal? ==> ResumeLoop(p, c, owner, clock, tick, duration, limit) == Resumed(after, [result], false)
    ensures result.StageCheckpointed? ==>
      && Remaining(after) < Remaining(c)
      && ResumeLoop(p, c, owner, clock, tick, duration, limit)
         == Prepend(result, ResumeLoop(p, after, owner, clock, tick + 2, duration, OneLess(limit)))
  {
    RoundProgresses(p, c, owner, clock, tick, duration);
  }

  /** A resume of an unfinished item commits the next decision, and goes on if that was a checkpoint. */
  lemma ResumeGoesOn(p: Processor, start: Digest, c: Cell, n: nat, owner: Id, clock: Clock, tick: nat, duration: int,
                     limit: Option<nat>, whole: Resumed) returns (after: Cell, result: StageResult)
    requires WellBehaved(p) && At(p, start, c, n) && !Done(Iterate(p, start, n)) && limit != Some(0)
    requires LeaseArguments(owner, duration) && Timely(clock, duration) && Lapsed(c, clock(tick))
    requires whole == ResumeLoop(p, c, owner, clock, tick, duration, limit)
    ensures At(p, start, after, n + 1) && Lapsed(after, clock(tick + 2))
    ensures result == ResultOf(NextOf(Iterate(p, start, n)).value, p(Iterate(p, start, n)))
    ensures result.StageTerminal? ==> Done(Iterate(p, start, n + 1)) && whole == Resumed(after, [result], false)
    ensures result.StageCheckpointed? ==>
      && Remaining(after) < Remaining(c)
      && whole == Prepend(result, ResumeLoop(p, after, owner, clock, tick + 2, duration, OneLess(limit)))
  {
    RoundCommits(p, start, c, n, owner, clock, tick, duration);
    NextMatches(c);
    after, result := OneStage(p, c, owner, clock, tick, duration).0, ResultOf(Next(c).value, p(Iterate(p, start, n)));
    LoopGoesOn(p, c, owner, clock, tick, duration, limit, after, result);
    if result.StageTerminal? { EndIsDone(p, start, n); }
  }

  lemma OneStageMore(result: StageResult, rest: Resumed, end: Digest, stages: nat, more: nat)
    requires Finishes(rest, end, stages) && stages < more
    ensures Finishes(Prepend(result, rest), end, more)
  {}

  /** An unlimited resume, begun once earlier leases have lapsed, takes the item to the end of the ideal run. */
  lemma {:induction false} ResumeFinishes(p: Processor, start: Digest, c: Cell, n: nat, owner: Id, clock: Clock, tick: nat, duration: int)
    requires WellBehaved(p) && Untouched(start) && At(p, start, c, n)
    requires LeaseArguments(owner, duration) && Timely(clock, duration) && Lapsed(c, clock(tick))
    ensures Remaining(c) <= 5
    ensures Finishes(ResumeLoop(p, c, owner, clock, tick, duration, None), Iterate(p, start, 5), Remaining(c))
    decreases Remaining(c)
  {
    RemainingAtMostFive(c);
    if Done(Iterate(p, start, n)) {
      DoneIsFive(p, start, n);
      NothingToDo(p, c, owner, clock, tick, duration, None);
    } else {
      NextMatches(c);
      var after, result := ResumeGoesOn(p, start, c, n, owner, clock, tick, duration, None,
                                        ResumeLoop(p, c, owner, clock, tick, duration, None));
      if result.StageCheckpointed? {
        ResumeFinishes(p, start, after, n + 1, owner, clock, tick + 2, duration);
        OneStageMore(result, ResumeLoop(p, after, owner, clock, tick + 2, duration, None), Iterate(p, start, 5), Remaining(after),
                Remaining(c));
      } else {
        DoneIsFive(p, start, n + 1);
      }
    }
  }

  /** The start of an item as it was submitted. */
  lemma FreshAt(p: Processor, item: Item)
    requires Fresh(item)
    ensures var c := Cell(item, [], None); At(p, DigestOf(c), c, 0) && Untouched(DigestOf(c)) && Lapsed(c, 0)
  {}
}
