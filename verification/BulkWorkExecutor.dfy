/** Executing claims and reporting jobs over the durable repository and the dead-letter queue. */
module BulkExecutionControl {
  import opened Prelude
  import opened Repository
  import opened RepositoryRuns
  import opened DeadLetters
  import TerminalReports
  import opened DurableRepositoryControl

  class DeadLetterQueue {
    const failing: set<Id>
    var entries: map<Key, DeadLetter>

    constructor (failing: set<Id>)
      ensures this.failing == failing && entries == map[]
    {
      this.failing, entries := failing, map[];
    }

    method Persist(entry: DeadLetter) returns (r: Result<DeadLetter, QueueError>)
      modifies this
      ensures (entries, r) == DeadLetters.Persist(old(entries), failing, entry)
    {
      if entry.itemId in failing { return Err(PersistenceRefused); }
      var key := Key(entry.jobId, entry.key);
      if key in entries {
        if entries[key] != entry { return Err(EvidenceConflict); }
        return Ok(entries[key]);
      }
      entries := entries[key := entry];
      return Ok(entry);
    }
  }

  /** What the handler does with the item: an outcome, or an exception. */
  datatype Answer = Returns(result: HandlerResult) | Raises(name: string, message: string)

  function OutcomeOf(answer: Answer): HandlerResult {
    match answer
    case Returns(result) => result
    case Raises(name, message) => HandlerResult(RetryExhausted, Some(name), Some(message), None, 0, 0)
  }

  class BulkWorkExecutor {
    const repository: DurableRepository
    const deadLetters: DeadLetterQueue
    const clock: nat -> Instant
    var ticks: nat
    var usage: map<Id, JobUsage>

    constructor (repository: DurableRepository, deadLetters: DeadLetterQueue, clock: nat -> Instant)
      ensures this.repository == repository && this.deadLetters == deadLetters && this.clock == clock
      ensures ticks == 0 && usage == map[]
    {
      this.repository, this.deadLetters, this.clock, ticks, usage := repository, deadLetters, clock, 0, map[];
    }

    ghost function View(): State
      reads this, repository, deadLetters
    {
      State(repository.Work(), deadLetters.entries, repository.failures, usage, deadLetters.failing)
    }

    method RecordRefusal(failure: PersistenceFailure)
      requires repository.Valid()
      modifies repository`failures
      ensures repository.Valid() && View() == old(View()).(failures := Record(old(repository.failures), failure))
    {
      repository.RecordPersistenceFailure(failure);
    }

    /** `_persist_dead_letter`. */
    method PersistDeadLetter(t: Terminal)
      requires repository.Valid()
      modifies this`ticks, repository`failures, deadLetters
      ensures repository.Valid() && View() == KeepEvidence(old(View()), t, clock(old(ticks)))
    {
      ghost var before, at := View(), clock(ticks);
      var kept := deadLetters.Persist(LetterFor(t));
      KeepEvidenceForm(before, t, at, deadLetters.entries, kept);
      assert View() == before.(letters := deadLetters.entries);
      if kept.Err? {
        RecordRefusal(FailureFor(t, kept.error, clock(ticks)));
        ticks := ticks + 1;
      }
    }

    method AddUsage(jobId: Id, result: HandlerResult)
      modifies this`usage
      ensures usage == Spend(old(usage), jobId, result)
    {
      if jobId !in usage { usage := usage[jobId := JobUsage(0, 0)]; }
      usage := usage[jobId := JobUsage(usage[jobId].tokens + result.tokens, usage[jobId].cost + result.cost)];
    }

    /** `answer` is what the handler does; its result bytes are already references. */
    method ExecuteClaim(claim: Claim, answer: Answer) returns (r: Result<Terminal, WorkError>)
      requires repository.Valid()
      modifies this, repository, deadLetters
      ensures repository.Valid()
      ensures if claim.status != Acquired || claim.item.leaseOwner.None? then r == Err(BadValue) && View() == old(View())
              else (View(), r) == DeadLetters.ExecuteClaim(old(View()), KeyOf(claim.item), claim.item.leaseOwner.value,
                                                           OutcomeOf(answer), clock(old(ticks)), clock(old(ticks) + 1))
    {
      if claim.status != Acquired || claim.item.leaseOwner.None? { return Err(BadValue); }
      var now := clock(ticks);
      ticks := ticks + 1;
      var result := OutcomeOf(answer);
      r := repository.Terminalize(KeyOf(claim.item), claim.item.leaseOwner.value, result.state, result.code, result.details,
                                  now, result.result);
      if r.Err? { return; }
      AddUsage(claim.item.jobId, result);
      if r.value.state == RetryExhausted {
        PersistDeadLetter(r.value);
      }
    }

    /** `items` is the listing the repository returned. */
    method TerminalReport(jobId: Id, cause: TerminalReports.Cause)
      returns (r: Result<TerminalReports.Report, TerminalReports.ReportError>, ghost items: seq<Terminal>)
      requires repository.Valid()
      modifies this`ticks
      ensures View() == old(View()) && TerminalReports.ListsTerminals(items, repository.Work(), jobId)
      ensures r == TerminalReports.TerminalReport(repository.Work(), jobId, items, cause, clock(old(ticks)))
    {
      var durable := repository.ItemCount(jobId);
      var listed := repository.TerminalItems(jobId);
      items := listed;
      if durable == 0 { return Err(TerminalReports.EmptyJob), items; }
      if |listed| != durable { return Err(TerminalReports.NotAllTerminal), items; }
      r := TerminalReports.BuildReport(jobId, listed, cause, clock(ticks));
      ticks := ticks + 1;
    }
  }
}
