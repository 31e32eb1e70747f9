/** The worker's loop over the durable repository. */
module BulkWorkerControl {
  import opened Prelude
  import opened Repository
  import opened WorkHistory
  import opened RepositoryRuns
  import opened Worker
  import opened StageLimits
  import opened DurableRepositoryControl

  /** The results so far, followed by what the rest of the loop does. */
  function After(results: seq<StageResult>, rest: Resumed): Resumed {
    rest.(results := results + rest.results)
  }

  lemma AfterPrepend(results: seq<StageResult>, result: StageResult, rest: Resumed)
    ensures After(results, Prepend(result, rest)) == After(results + [result], rest)
  {
    assert results + ([result] + rest.results) == (results + [result]) + rest.results;
  }

  /** What a round contributes to the whole loop. */
  lemma RoundJoins(p: Processor, c: Cell, owner: Id, clock: Clock, tick: nat, duration: int, left: Option<nat>,
                   results: seq<StageResult>, whole: Resumed)
    requires left != Some(0) && Next(c).Some?
    requires whole == After(results, ResumeLoop(p, c, owner, clock, tick, duration, left))
    ensures var (after, outcome) := OneStage(p, c, owner, clock, tick, duration);
            match outcome
            case Idle => whole == Resumed(after, results, false)
            case Raised => whole == Resumed(after, results, true)
            case Processed(result) =>
              if result.StageTerminal? then whole == Resumed(after, results + [result], false)
              else Remaining(after) < Remaining(c)
                   && whole == After(results + [result], ResumeLoop(p, after, owner, clock, tick + 2, duration, OneLess(left)))
  {
    RoundProgresses(p, c, owner, clock, tick, duration);
    var (after, outcome) := OneStage(p, c, owner, clock, tick, duration);
    if outcome.Processed? {
      AfterPrepend(results, outcome.result, ResumeLoop(p, after, owner, clock, tick + 2, duration, OneLess(left)));
    }
  }

  lemma LoopStops(p: Processor, c: Cell, owner: Id, clock: Clock, tick: nat, duration: int, left: Option<nat>,
                  results: seq<StageResult>)
    requires left == Some(0) || Next(c).None?
    ensures After(results, ResumeLoop(p, c, owner, clock, tick, duration, left)) == Resumed(c, results, false)
  {}

  lemma LoopStarts(rest: Resumed)
    ensures After([], rest) == rest
  {
    assert [] + rest.results == rest.results;
  }

  /** `after` is `before` with one item's cell moved on to `c`. */
  predicate MovedTo(before: Repo, k: Key, c: Cell, after: Repo) {
    k in before.items && k in after.items && CellAt(after, k) == c && Grows(CellAt(before, k), c) && after == Put(before, k, c)
  }

  lemma WriteTwice<V>(m: map<Key, V>, k: Key, v: V, w: V)
    ensures m[k := v][k := w] == m[k := w]
  {}

  lemma PutTwice(r: Repo, k: Key, c: Cell, d: Cell)
    requires k in r.items && Grows(CellAt(r, k), c) && Grows(c, d)
    ensures Put(Put(r, k, c), k, d) == Put(r, k, d)
  {
    WriteTwice(r.items, k, c.item, d.item);
    WriteTwice(r.histories, k, c.history, d.history);
    if c.terminal.Some? { WriteTwice(r.terminals, k, c.terminal.value, d.terminal.value); }
  }

  lemma MovedTwice(before: Repo, k: Key, c: Cell, between: Repo, d: Cell, after: Repo)
    requires MovedTo(before, k, c, between) && MovedTo(between, k, d, after)
    ensures MovedTo(before, k, d, after)
  {
    PutTwice(before, k, c, d);
  }

  lemma Stays(r: Repo, k: Key)
    requires Consistent(r) && k in r.items
    ensures MovedTo(r, k, CellAt(r, k), r)
  {
    PutBack(r, k);
  }

  /** Where a round leaves the repository and the rest of the loop. */
  lemma RoundEnds(p: Processor, start: Repo, key: Key, before: Repo, c: Cell, after: Repo, d: Cell, outcome: StageOutcome,
                  owner: Id, clock: Clock, tick: nat, duration: int, left: Option<nat>, done: seq<StageResult>, whole: Resumed)
    requires Consistent(start) && MovedTo(start, key, c, before) && MovedTo(before, key, d, after)
    requires left != Some(0) && Next(c).Some? && (d, outcome) == OneStage(p, c, owner, clock, tick, duration)
    requires whole == After(done, ResumeLoop(p, c, owner, clock, tick, duration, left))
    ensures MovedTo(start, key, d, after) && CellAt(after, key) == d
    ensures match outcome
            case Idle => whole == Resumed(d, done, false)
            case Raised => whole == Resumed(d, done, true)
            case Processed(result) =>
              if result.StageTerminal? then whole == Resumed(d, done + [result], false)
              else Remaining(d) < Remaining(c)
                   && whole == After(done + [result], ResumeLoop(p, d, owner, clock, tick + 2, duration, OneLess(left)))
  {
    RoundJoins(p, c, owner, clock, tick, duration, left, done, whole);
    MovedTwice(start, key, c, before, d, after);
  }

  lemma PerformedMoves(r: Repo, k: Key, act: Act)
    requires Consistent(r) && k in r.items
    ensures MovedTo(r, k, Perform(CellAt(r, k), act), ApplyAct(r, k, act))
  {
    ApplyActIsPerform(r, k, act);
    ApplyWork(r, k, act);
    PerformPreserves(CellAt(r, k), act);
  }

  lemma ClaimMoves(r: Repo, k: Key, owner: Id, now: Instant, duration: int)
    requires Consistent(r) && k in r.items && LeaseArguments(owner, duration)
    ensures MovedTo(r, k, ClaimCell(CellAt(r, k), owner, now, duration).0, Repository.ClaimWork(r, k, owner, now, duration).0)
  {
    PerformedMoves(r, k, ClaimAct(owner, now, duration));
  }

  lemma CheckpointMoves(r: Repo, k: Key, owner: Id, stage: Stage, outcome: string, now: Instant, result: Option<ObjectRef>)
    requires Consistent(r) && k in r.items
    ensures MovedTo(r, k, CheckpointCell(CellAt(r, k), owner, stage, outcome, now, result).0,
                    Repository.SaveCheckpoint(r, k, owner, stage, outcome, now, result).0)
  {
    PerformedMoves(r, k, CheckpointAct(owner, stage, outcome, now, result));
  }

  lemma TerminalMoves(r: Repo, k: Key, owner: Id, state: TerminalState, code: Option<string>, details: Option<string>,
                      now: Instant, result: Option<ObjectRef>)
    requires Consistent(r) && k in r.items
    ensures MovedTo(r, k, TerminalizeCell(CellAt(r, k), owner, state, code, details, now, result).0,
                    Repository.Terminalize(r, k, owner, state, code, details, now, result).0)
  {
    PerformedMoves(r, k, TerminalAct(owner, state, code, details, now, result));
  }

  class BulkWorker {
    const repository: DurableRepository
    const processor: Processor
    const clock: Clock
    const duration: int
    /** How often the clock was read. */
    var ticks: nat

    constructor (repository: DurableRepository, processor: Processor, clock: Clock, duration: int)
      ensures this.repository == repository && this.processor == processor && this.clock == clock
      ensures this.duration == duration && ticks == 0
    {
      this.repository, this.processor, this.clock, this.duration, ticks := repository, processor, clock, duration, 0;
    }

    /** Writes a decision under the claim's owner. */
    method WriteDecision(key: Key, owner: Id, stage: Stage, decision: Decision) returns (written: Result<StageResult, WorkError>)
      requires repository.Valid() && key in repository.items
      modifies this`ticks, repository`items, repository`checkpoints, repository`terminals
      ensures repository.Valid() && ticks == old(ticks) + 1
      ensures var (after, w) := Commit(CellAt(old(repository.Work()), key), owner, stage, decision, clock(old(ticks)));
              written == w && MovedTo(old(repository.Work()), key, after, repository.Work())
    {
      var now := clock(ticks);
      ticks := ticks + 1;
      match decision
      case Advance(outcome, result) =>
        CheckpointMoves(repository.Work(), key, owner, stage, outcome, now, result);
        var saved := repository.SaveCheckpoint(key, owner, stage, outcome, now, result);
        return if saved.Ok? then Ok(StageCheckpointed(stage, outcome)) else Err(saved.error);
      case End(state, code, details, result, _) =>
        TerminalMoves(repository.Work(), key, owner, state, code, details, now, result);
        var saved := repository.Terminalize(key, owner, state, code, details, now, result);
        return if saved.Ok? then Ok(StageTerminal(state)) else Err(saved.error);
    }

    /** Writes a decision, and handles a refusal as the dispatch's nested handlers do. */
    method AttemptStage(key: Key, owner: Id, stage: Stage, decision: Decision) returns (outcome: StageOutcome)
      requires repository.Valid() && key in repository.items
      modifies this`ticks, repository`items, repository`checkpoints, repository`terminals
      ensures repository.Valid()
      ensures var (after, o) := WriteOrFallBack(CellAt(old(repository.Work()), key), owner, stage, decision, clock, old(ticks));
              outcome == o && MovedTo(old(repository.Work()), key, after, repository.Work())
      ensures outcome.Processed? && outcome.result.StageCheckpointed? ==> ticks == old(ticks) + 1
      decreases Fallbacks(stage, decision)
    {
      ghost var start := repository.Work();
      var written := WriteDecision(key, owner, stage, decision);
      if written.Ok? { return Processed(written.value); }
      var next := Fallback(stage, decision, written.error);
      if next.None? { return Raised; }
      ghost var between, tick := repository.Work(), ticks;
      outcome := AttemptStage(key, owner, stage, next.value);
      FallbacksEnd(CellAt(between, key), owner, stage, next.value, clock, tick);
      MovedTwice(start, key, CellAt(between, key), between, CellAt(repository.Work(), key), repository.Work());
    }

    /** The stage processor: it writes the decision for the next stage under the claim, or else its fallbacks. */
    method ProcessStage(key: Key, claim: Claim) returns (outcome: StageOutcome)
      requires repository.Valid() && key in repository.items && Next(CellAt(repository.Work(), key)).Some?
      requires claim.item.leaseOwner.Some?
      modifies this`ticks, repository`items, repository`checkpoints, repository`terminals
      ensures repository.Valid()
      ensures var c := CellAt(old(repository.Work()), key);
              var (after, o) := WriteOrFallBack(c, claim.item.leaseOwner.value, Next(c).value, processor(DigestOf(c)), clock, old(ticks));
              outcome == o && MovedTo(old(repository.Work()), key, after, repository.Work())
      ensures outcome.Processed? && outcome.result.StageCheckpointed? ==> ticks == old(ticks) + 1
    {
      var c := repository.Inspect(key);
      outcome := AttemptStage(key, claim.item.leaseOwner.value, Next(c).value, processor(DigestOf(c)));
    }

    method ClaimStage(key: Key, owner: Id) returns (claim: Result<Claim, WorkError>)
      requires repository.Valid() && key in repository.items
      modifies this`ticks, repository`items
      ensures repository.Valid() && ticks == old(ticks) + 1
      ensures var c := CellAt(old(repository.Work()), key);
              if !LeaseArguments(owner, duration) then claim.Err? && MovedTo(old(repository.Work()), key, c, repository.Work())
              else
                var (claimed, granted) := ClaimCell(c, owner, clock(old(ticks)), duration);
                claim == Ok(granted) && MovedTo(old(repository.Work()), key, claimed, repository.Work())
    {
      if LeaseArguments(owner, duration) {
        ClaimMoves(repository.Work(), key, owner, clock(ticks), duration);
      } else {
        Stays(repository.Work(), key);
      }
      claim := repository.ClaimWork(key, owner, clock(ticks), duration);
      ticks := ticks + 1;
    }

    /** One round: claim, then process. */
    method RunStage(key: Key, owner: Id) returns (outcome: StageOutcome)
      requires repository.Valid() && key in repository.items && Next(CellAt(repository.Work(), key)).Some?
      modifies this`ticks, repository`items, repository`checkpoints, repository`terminals
      ensures repository.Valid()
      ensures var (after, o) := OneStage(processor, CellAt(old(repository.Work()), key), owner, clock, old(ticks), duration);
              outcome == o && MovedTo(old(repository.Work()), key, after, repository.Work())
      ensures outcome.Processed? && outcome.result.StageCheckpointed? ==> ticks == old(ticks) + 2
    {
      ghost var start := repository.Work();
      var claim := ClaimStage(key, owner);
      if claim.Err? { return Raised; }
      if claim.value.status != Acquired { return Idle; }
      ghost var claimed := repository.Work();
      ghost var c := CellAt(claimed, key);
      ClaimKeepsNext(CellAt(start, key), owner, clock(old(ticks)), duration);
      outcome := ProcessStage(key, claim.value);
      MovedTwice(start, key, c, claimed, CellAt(repository.Work(), key), repository.Work());
    }

    /** The item has moved on from `start`, and the rest of the loop completes `whole`. */
    ghost predicate OnCourse(start: Repo, key: Key, results: seq<StageResult>, owner: Id, left: Option<nat>, whole: Resumed)
      reads this, repository
    {
      && key in repository.items && MovedTo(start, key, CellAt(repository.Work(), key), repository.Work())
      && whole == After(results, ResumeLoop(processor, CellAt(repository.Work(), key), owner, clock, ticks, duration, left))
    }

    ghost predicate Ended(start: Repo, key: Key, results: seq<StageResult>, raised: bool, whole: Resumed)
      reads repository
    {
      results == whole.results && raised == whole.raised && MovedTo(start, key, whole.cell, repository.Work())
    }

    /** One turn of the loop. */
    method Turn(key: Key, owner: Id, done: seq<StageResult>, ghost left: Option<nat>, ghost start: Repo, ghost whole: Resumed)
      returns (results: seq<StageResult>, raised: bool, more: bool)
      requires repository.Valid() && Consistent(start) && OnCourse(start, key, done, owner, left, whole) && left != Some(0)
      modifies this`ticks, repository`items, repository`checkpoints, repository`terminals
      ensures repository.Valid()
      ensures more ==> OnCourse(start, key, results, owner, OneLess(left), whole)
      ensures more ==> Remaining(CellAt(repository.Work(), key)) < Remaining(CellAt(old(repository.Work()), key))
      ensures !more ==> Ended(start, key, results, raised, whole)
    {
      ghost var before := repository.Work();
      ghost var c := CellAt(before, key);
      var state := repository.ResumeState(key);
      if state.value.next.None? {
        LoopStops(processor, c, owner, clock, ticks, duration, left, done);
        return done, false, false;
      }
      ghost var tick := ticks;
      var outcome := RunStage(key, owner);
      RoundEnds(processor, start, key, before, c, repository.Work(), CellAt(repository.Work(), key), outcome,
                owner, clock, tick, duration, left, done, whole);
      match outcome
      case Idle => return done, false, false;
      case Raised => return done, true, false;
      case Processed(result) =>
        results, raised, more := done + [result], false, !result.StageTerminal?;
        ghost var d := CellAt(repository.Work(), key);
        assert more ==> whole == After(results, ResumeLoop(processor, d, owner, clock, ticks, duration, OneLess(left))) by {
          assert more ==> ticks == tick + 2;
        }
    }

    lemma Begins(key: Key, owner: Id, limit: Option<nat>)
      requires repository.Valid() && key in repository.items
      ensures OnCourse(repository.Work(), key, [], owner, limit,
                       ResumeLoop(processor, CellAt(repository.Work(), key), owner, clock, ticks, duration, limit))
    {
      Stays(repository.Work(), key);
      LoopStarts(ResumeLoop(processor, CellAt(repository.Work(), key), owner, clock, ticks, duration, limit));
    }

    lemma Exhausts(start: Repo, key: Key, results: seq<StageResult>, owner: Id, whole: Resumed)
      requires OnCourse(start, key, results, owner, Some(0), whole)
      ensures Ended(start, key, results, false, whole)
    {
      LoopStops(processor, CellAt(repository.Work(), key), owner, clock, ticks, duration, Some(0), results);
    }

    /** The loop of `resume`, for at most `limit` stages. */
    method RunStages(key: Key, owner: Id, limit: Option<nat>) returns (results: seq<StageResult>, raised: bool)
      requires repository.Valid() && key in repository.items
      modifies this`ticks, repository`items, repository`checkpoints, repository`terminals
      ensures repository.Valid()
      ensures Ended(old(repository.Work()), key, results, raised,
                    ResumeLoop(processor, CellAt(old(repository.Work()), key), owner, clock, old(ticks), duration, limit))
    {
      ghost var start := repository.Work();
      ghost var whole := ResumeLoop(processor, CellAt(start, key), owner, clock, ticks, duration, limit);
      Begins(key, owner, limit);
      results, raised := [], false;
      var left := limit;
      while left != Some(0)
        invariant repository.Valid() && !raised && OnCourse(start, key, results, owner, left, whole)
        decreases Remaining(CellAt(repository.Work(), key))
      {
        var more: bool;
        results, raised, more := Turn(key, owner, results, left, start, whole);
        if !more { return; }
        left, raised := OneLess(left), false;
      }
      Exhausts(start, key, results, owner, whole);
    }

    /** `resume`: a stage limit must be positive, and the work item known. */
    method Resume(key: Key, owner: Id, limit: Option<int>) returns (r: Result<seq<StageResult>, seq<StageResult>>)
      requires repository.Valid()
      modifies this`ticks, repository`items, repository`checkpoints, repository`terminals
      ensures repository.Valid()
      ensures (limit.Some? && limit.value <= 0) || key !in old(repository.items) ==>
        r == Err([]) && repository.Work() == old(repository.Work())
      ensures (limit.Some? ==> limit.value > 0) && key in old(repository.items) ==>
        var whole := ResumeLoop(processor, CellAt(old(repository.Work()), key), owner, clock, old(ticks), duration,
                                if limit.None? then None else Some(limit.value));
        && MovedTo(old(repository.Work()), key, whole.cell, repository.Work())
        && r == (if whole.raised then Err(whole.results) else Ok(whole.results))
        && (limit.Some? ==> |whole.results| <= limit.value)
    {
      if limit.Some? && limit.value <= 0 { return Err([]); }
      if key !in repository.items { return Err([]); }
      var bound: Option<nat> := if limit.None? then None else Some(limit.value);
      ghost var whole := ResumeLoop(processor, CellAt(repository.Work(), key), owner, clock, ticks, duration, bound);
      if bound.Some? {
        LimitHolds(processor, CellAt(repository.Work(), key), owner, clock, ticks, duration, bound.value, whole.results);
      }
      var results, raised := RunStages(key, owner, bound);
      return if raised then Err(results) else Ok(results);
    }
  }
}
