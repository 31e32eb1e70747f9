/** Executing claims and keeping dead-letter evidence (bulk/execution.py, bulk/memory.py). */
module DeadLetters {
  import opened Prelude
  import opened Repository
  import opened WorkHistory
  import opened RepositoryRuns

  datatype DeadLetter = DeadLetter(
    jobId: Id, itemId: Id, key: Id, code: string, details: Option<string>, attempts: nat,
    configuration: ConfigRef, result: Option<ObjectRef>, at: Instant)

  datatype PersistenceFailure = PersistenceFailure(jobId: Id, itemId: Id, operation: string, reason: string, at: Instant)

  datatype QueueError = PersistenceRefused | EvidenceConflict

  datatype HandlerResult = HandlerResult(
    state: TerminalState, code: Option<string>, details: Option<string>, result: Option<ObjectRef>, tokens: nat, cost: nat)

  datatype JobUsage = JobUsage(tokens: nat, cost: nat)

  /** The repository with everything the executor keeps beside it. `failing` is the injected fault set. */
  datatype State = State(
    repo: Repo, letters: map<Key, DeadLetter>, failures: seq<PersistenceFailure>, usage: map<Id, JobUsage>, failing: set<Id>)

  function LetterFor(t: Terminal): DeadLetter {
    DeadLetter(t.jobId, t.itemId, t.key, t.code.GetOr("retry_exhausted"), t.details, t.attempts, t.configuration, t.result, t.at)
  }

  /** `InMemoryDeadLetterQueue.persist`. */
  function Persist(letters: map<Key, DeadLetter>, failing: set<Id>, letter: DeadLetter)
    : (map<Key, DeadLetter>, Result<DeadLetter, QueueError>)
  {
    var k := Key(letter.jobId, letter.key);
    if letter.itemId in failing then (letters, Err(PersistenceRefused))
    else if k in letters then (letters, if letters[k] != letter then Err(EvidenceConflict) else Ok(letter))
    else (letters[k := letter], Ok(letter))
  }

  /** The name and text of the error. */
  function Reason(error: QueueError, itemId: Id): string {
    match error
    case PersistenceRefused => "DeadLetterPersistenceError: dead-letter persistence failed for " + itemId
    case EvidenceConflict => "WorkConflictError: dead-letter evidence is immutable"
  }

  /** What is recorded when the evidence of a terminal record could not be kept. */
  function FailureFor(t: Terminal, error: QueueError, at: Instant): PersistenceFailure {
    PersistenceFailure(t.jobId, t.itemId, "dead_letter_persist", Reason(error, t.itemId), at)
  }

  /** `record_persistence_failure`. */
  function Record(failures: seq<PersistenceFailure>, failure: PersistenceFailure): seq<PersistenceFailure> {
    if failure in failures then failures else failures + [failure]
  }

  /** `_persist_dead_letter`. */
  function KeepEvidence(s: State, t: Terminal, at: Instant): State {
    var (letters, kept) := Persist(s.letters, s.failing, LetterFor(t));
    if kept.Ok? then s.(letters := letters)
    else s.(failures := Record(s.failures, FailureFor(t, kept.error, at)))
  }

  lemma KeepEvidenceForm(s: State, t: Terminal, at: Instant, letters: map<Key, DeadLetter>, kept: Result<DeadLetter, QueueError>)
    requires (letters, kept) == Persist(s.letters, s.failing, LetterFor(t))
    ensures KeepEvidence(s, t, at)
         == if kept.Ok? then s.(letters := letters) else s.(failures := Record(s.failures, FailureFor(t, kept.error, at)))
    ensures kept.Err? ==> letters == s.letters
  {}

  function Spend(usage: map<Id, JobUsage>, jobId: Id, result: HandlerResult): map<Id, JobUsage> {
    var before := if jobId in usage then usage[jobId] else JobUsage(0, 0);
    usage[jobId := JobUsage(before.tokens + result.tokens, before.cost + result.cost)]
  }

  /** What the terminal transaction alone leaves, should the process stop right after it. */
  function TerminalizeOnly(s: State, k: Key, owner: Id, result: HandlerResult, now: Instant): (State, Result<Terminal, WorkError>) {
    var (repo, t) := Terminalize(s.repo, k, owner, result.state, result.code, result.details, now, result.result);
    (s.(repo := repo), t)
  }

  /** `execute_claim` for an acquired claim on `k`; `now` is read before the handler runs, `later` after. */
  function ExecuteClaim(s: State, k: Key, owner: Id, result: HandlerResult, now: Instant, later: Instant)
    : (State, Result<Terminal, WorkError>)
  {
    var (closed, t) := TerminalizeOnly(s, k, owner, result, now);
    if t.Err? then (closed, t)
    else
      var spent := closed.(usage := Spend(closed.usage, k.jobId, result));
      (if t.value.state == RetryExhausted then KeepEvidence(spent, t.value, later) else spent, t)
  }

  // ----- Evidence -----

  predicate Exhausted(s: State, k: Key) {
    k in s.repo.terminals && s.repo.terminals[k].state == RetryExhausted
  }

  /** Dead letters belong to retry-exhausted items and say what their terminal records say. */
  predicate LettersGenuine(s: State) {
    forall k :: k in s.letters ==> Exhausted(s, k) && s.letters[k] == LetterFor(s.repo.terminals[k])
  }

  predicate FailureRecorded(s: State, t: Terminal) {
    exists i :: 0 <= i < |s.failures| && s.failures[i].jobId == t.jobId && s.failures[i].itemId == t.itemId
                && s.failures[i].operation == "dead_letter_persist"
  }

  /** A retry-exhausted item has its dead letter, or, where persistence is refused, a record of that. */
  predicate Witnessed(s: State, k: Key) {
    Exhausted(s, k) ==>
      var t := s.repo.terminals[k];
      if t.itemId in s.failing then FailureRecorded(s, t) else k in s.letters
  }

  predicate Evidenced(s: State) {
    forall k :: k in s.repo.terminals ==> Witnessed(s, k)
  }

  predicate Keyed(terminals: map<Key, Terminal>) {
    forall k :: k in terminals ==> Key(terminals[k].jobId, terminals[k].key) == k
  }

  predicate WellKeyed(s: State) {
    Consistent(s.repo) && Keyed(s.repo.terminals)
  }

  /** A terminal transaction writes one item's terminal record, once. */
  lemma TerminalizeWrites(r: Repo, k: Key, owner: Id, result: HandlerResult, now: Instant)
    requires Consistent(r) && Keyed(r.terminals)
    ensures var (after, t) := Terminalize(r, k, owner, result.state, result.code, result.details, now, result.result);
            && after.terminals == (if t.Ok? then r.terminals[k := t.value] else r.terminals)
            && (t.Ok? && k in r.terminals ==> r.terminals[k] == t.value)
            && (t.Ok? ==> Key(t.value.jobId, t.value.key) == k)
  {
    if k in r.items {
      assert KeyOf(r.items[k]) == k;
      if k in r.terminals { assert r.terminals[k := r.terminals[k]] == r.terminals; }
    }
  }

  lemma TerminalizeConsistent(r: Repo, k: Key, owner: Id, result: HandlerResult, now: Instant)
    requires Consistent(r)
    ensures Consistent(Terminalize(r, k, owner, result.state, result.code, result.details, now, result.result).0)
  {
    var act := TerminalAct(owner, result.state, result.code, result.details, now, result.result);
    assert Terminalize(r, k, owner, result.state, result.code, result.details, now, result.result).0 == ApplyAct(r, k, act);
    ApplyWork(r, k, act);
  }

  lemma TerminalizeEffect(s: State, k: Key, owner: Id, result: HandlerResult, now: Instant)
    requires WellKeyed(s)
    ensures var (after, t) := TerminalizeOnly(s, k, owner, result, now);
            && WellKeyed(after)
            && after.repo.terminals == (if t.Ok? then s.repo.terminals[k := t.value] else s.repo.terminals)
            && (t.Ok? && k in s.repo.terminals ==> s.repo.terminals[k] == t.value)
  {
    TerminalizeWrites(s.repo, k, owner, result, now);
    TerminalizeConsistent(s.repo, k, owner, result, now);
  }

  /** Keeping evidence for a terminal record never meets conflicting evidence. */
  lemma EvidenceNeverConflicts(s: State, k: Key)
    requires WellKeyed(s) && LettersGenuine(s) && Exhausted(s, k)
    ensures Persist(s.letters, s.failing, LetterFor(s.repo.terminals[k])).1 != Err(EvidenceConflict)
  {}

  lemma EvidenceKept(s: State, k: Key, at: Instant)
    requires WellKeyed(s) && LettersGenuine(s) && Exhausted(s, k)
    ensures var after := KeepEvidence(s, s.repo.terminals[k], at);
            && LettersGenuine(after) && Witnessed(after, k)
            && forall other :: other in s.repo.terminals && Witnessed(s, other) ==> Witnessed(after, other)
  {
    var t := s.repo.terminals[k];
    EvidenceNeverConflicts(s, k);
    var after := KeepEvidence(s, t, at);
    assert Key(t.jobId, t.key) == k;
    if t.itemId in s.failing {
      var failure := FailureFor(t, PersistenceRefused, at);
      assert failure in after.failures;
      var i :| 0 <= i < |after.failures| && after.failures[i] == failure;
      forall other | other in s.repo.terminals && Witnessed(s, other) ensures Witnessed(after, other) {
        FailuresGrow(s, after, s.repo.terminals[other]);
      }
    }
  }

  lemma FailuresGrow(s: State, after: State, t: Terminal)
    requires s.failures <= after.failures
    ensures FailureRecorded(s, t) ==> FailureRecorded(after, t)
  {}

  // ----- Runs of completed calls -----

  /** Work of other components: anything but writing terminal records. */
  predicate Ordinary(e: Event) {
    e.WorkEvent? ==> !e.act.TerminalAct?
  }

  datatype Step =
    | ClaimExecuted(k: Key, owner: Id, result: HandlerResult, now: Instant, later: Instant)
    | Meanwhile(event: Event)

  function Do(s: State, step: Step): State {
    match step
    case ClaimExecuted(k, owner, result, now, later) => ExecuteClaim(s, k, owner, result, now, later).0
    case Meanwhile(event) => s.(repo := Apply(s.repo, event))
  }

  function After(failing: set<Id>, steps: seq<Step>): State {
    if steps == [] then State(EMPTY, map[], [], map[], failing)
    else Do(After(failing, steps[..|steps| - 1]), steps[|steps| - 1])
  }

  /** Evidence for one item is a matter of its terminal record, the letters, the failures and the fault set. */
  lemma SameEvidence(s: State, after: State, k: Key)
    requires k in s.repo.terminals && k in after.repo.terminals && after.repo.terminals[k] == s.repo.terminals[k]
    requires after.letters == s.letters && after.failures == s.failures && after.failing == s.failing
    ensures Witnessed(after, k) <==> Witnessed(s, k)
  {}

  /** After the terminal transaction only the item itself may still lack evidence. */
  lemma TerminalizeKeepsOthers(s: State, k: Key, owner: Id, result: HandlerResult, now: Instant, other: Key)
    requires WellKeyed(s) && Evidenced(s)
    ensures var (closed, t) := TerminalizeOnly(s, k, owner, result, now);
            && (other in closed.repo.terminals && (other != k || t.Err?) ==> Witnessed(closed, other))
  {
    TerminalizeEffect(s, k, owner, result, now);
    var closed := TerminalizeOnly(s, k, owner, result, now).0;
    if other in s.repo.terminals && other in closed.repo.terminals {
      assert Witnessed(s, other);
      if closed.repo.terminals[other] == s.repo.terminals[other] { SameEvidence(s, closed, other); }
    }
  }

  lemma TerminalizeGenuine(s: State, k: Key, owner: Id, result: HandlerResult, now: Instant)
    requires WellKeyed(s) && LettersGenuine(s)
    ensures LettersGenuine(TerminalizeOnly(s, k, owner, result, now).0)
  {
    TerminalizeEffect(s, k, owner, result, now);
  }

  /** The rest of the call: usage is added, and a retry-exhausted item gets its evidence. */
  lemma FinishKeeps(closed: State, k: Key, usage: map<Id, JobUsage>, later: Instant)
    requires WellKeyed(closed) && LettersGenuine(closed) && k in closed.repo.terminals
    requires forall other :: other in closed.repo.terminals && other != k ==> Witnessed(closed, other)
    ensures var spent := closed.(usage := usage);
            var after := if Exhausted(closed, k) then KeepEvidence(spent, closed.repo.terminals[k], later) else spent;
            WellKeyed(after) && LettersGenuine(after) && Evidenced(after)
  {
    var spent := closed.(usage := usage);
    forall other | other in spent.repo.terminals && other != k ensures Witnessed(spent, other) {
      SameEvidence(closed, spent, other);
    }
    if Exhausted(closed, k) {
      EvidenceKept(spent, k, later);
    }
  }

  lemma ExecuteKeeps(s: State, k: Key, owner: Id, result: HandlerResult, now: Instant, later: Instant)
    requires WellKeyed(s) && LettersGenuine(s) && Evidenced(s)
    ensures var after := ExecuteClaim(s, k, owner, result, now, later).0;
            WellKeyed(after) && LettersGenuine(after) && Evidenced(after)
  {
    TerminalizeEffect(s, k, owner, result, now);
    TerminalizeGenuine(s, k, owner, result, now);
    var (closed, t) := TerminalizeOnly(s, k, owner, result, now);
    forall other | other in closed.repo.terminals && (other != k || t.Err?) ensures Witnessed(closed, other) {
      TerminalizeKeepsOthers(s, k, owner, result, now, other);
    }
    if t.Ok? {
      FinishKeeps(closed, k, Spend(closed.usage, k.jobId, result), later);
    }
  }

  lemma OrdinaryKeeps(s: State, e: Event)
    requires WellKeyed(s) && LettersGenuine(s) && Evidenced(s) && Ordinary(e)
    ensures var after := s.(repo := Apply(s.repo, e));
            WellKeyed(after) && LettersGenuine(after) && Evidenced(after)
  {
    var after := s.(repo := Apply(s.repo, e));
    OrdinaryTerminals(s.repo, e);
    forall k | k in after.repo.terminals ensures Witnessed(after, k) {
      assert Witnessed(s, k);
    }
  }

  lemma OrdinaryCell(c: Cell, act: Act)
    requires !act.TerminalAct?
    ensures Perform(c, act).terminal == c.terminal
  {}

  lemma OrdinaryWork(r: Repo, k: Key, act: Act)
    requires Consistent(r) && !act.TerminalAct?
    ensures ApplyAct(r, k, act).terminals == r.terminals
  {
    ApplyActIsPerform(r, k, act);
    if k in r.items {
      OrdinaryCell(CellAt(r, k), act);
      if k in r.terminals { assert r.terminals[k := r.terminals[k]] == r.terminals; }
    }
  }

  lemma OrdinaryTerminals(r: Repo, e: Event)
    requires Consistent(r) && Ordinary(e)
    ensures Consistent(Apply(r, e)) && Apply(r, e).terminals == r.terminals
  {
    match e
    case SubmitEvent(_, _, _, _, _, _) => ApplySubmit(r, e);
    case PublishedEvent(_, _) =>
    case WorkEvent(k, act) =>
      ApplyWork(r, k, act);
      OrdinaryWork(r, k, act);
  }

  /**
   * After any run of completed calls, each retry-exhausted item has its dead letter or a recorded persistence
   * failure, and dead letters belong to retry-exhausted items only.
   */
  lemma {:induction false} EvidenceInvariant(failing: set<Id>, steps: seq<Step>)
    requires forall i :: 0 <= i < |steps| && steps[i].Meanwhile? ==> Ordinary(steps[i].event)
    ensures var s := After(failing, steps); WellKeyed(s) && LettersGenuine(s) && Evidenced(s)
  {
    if steps != [] {
      EvidenceInvariant(failing, steps[..|steps| - 1]);
      var before, step := After(failing, steps[..|steps| - 1]), steps[|steps| - 1];
      match step
      case ClaimExecuted(k, owner, result, now, later) => ExecuteKeeps(before, k, owner, result, now, later);
      case Meanwhile(event) => OrdinaryKeeps(before, event);
    }
  }

  /** A process that stopped between the terminal record and its evidence is healed by executing the claim again. */
  lemma ReplayHeals(s: State, k: Key, owner: Id, result: HandlerResult, now: Instant, later: Instant)
    requires WellKeyed(s) && LettersGenuine(s) && Exhausted(s, k) && k in s.repo.items
    requires var t := s.repo.terminals[k];
             result.state == t.state && result.code == t.code && result.details == t.details && result.result.Or(t.result) == t.result
    ensures var (after, t) := ExecuteClaim(s, k, owner, result, now, later);
            t == Ok(s.repo.terminals[k]) && after.repo.terminals == s.repo.terminals && LettersGenuine(after) && Witnessed(after, k)
  {
    TerminalizeEffect(s, k, owner, result, now);
    var (closed, t) := TerminalizeOnly(s, k, owner, result, now);
    assert closed.repo.terminals == s.repo.terminals;
    var spent := closed.(usage := Spend(closed.usage, k.jobId, result));
    EvidenceKept(spent, k, later);
  }

  lemma ExecuteUsage(s: State, k: Key, owner: Id, result: HandlerResult, now: Instant, later: Instant)
    requires ExecuteClaim(s, k, owner, result, now, later).1.Ok?
    ensures var after := ExecuteClaim(s, k, owner, result, now, later).0;
            && after.usage == Spend(s.usage, k.jobId, result)
            && after.repo == Terminalize(s.repo, k, owner, result.state, result.code, result.details, now, result.result).0
  {}

  lemma TerminalizedAgain(r: Repo, k: Key, owner: Id, result: HandlerResult, now: Instant, again: Instant)
    requires Consistent(r)
    requires Terminalize(r, k, owner, result.state, result.code, result.details, now, result.result).1.Ok?
    ensures var (once, t) := Terminalize(r, k, owner, result.state, result.code, result.details, now, result.result);
            Terminalize(once, k, owner, result.state, result.code, result.details, again, result.result).1 == t
  {}

  /** Executing a claim again with the same outcome returns the same record, but its usage is counted again. */
  lemma ReplayCountsUsage(s: State, k: Key, owner: Id, result: HandlerResult, now: Instant, later: Instant, again: Instant)
    requires WellKeyed(s) && ExecuteClaim(s, k, owner, result, now, later).1.Ok?
    ensures var (once, t) := ExecuteClaim(s, k, owner, result, now, later);
            var (twice, same) := ExecuteClaim(once, k, owner, result, again, again);
            && same == t && k.jobId in once.usage && k.jobId in twice.usage
            && twice.usage[k.jobId].tokens == once.usage[k.jobId].tokens + result.tokens
            && twice.usage[k.jobId].cost == once.usage[k.jobId].cost + result.cost
  {
    ExecuteUsage(s, k, owner, result, now, later);
    TerminalizedAgain(s.repo, k, owner, result, now, again);
    var once := ExecuteClaim(s, k, owner, result, now, later).0;
    ExecuteUsage(once, k, owner, result, again, again);
  }

  // ----- What the evidence and the usage say -----

  /** The letter says of its item what its terminal record says. */
  predicate Says(letter: DeadLetter, t: Terminal) {
    && (letter.jobId, letter.itemId, letter.key, letter.configuration) == (t.jobId, t.itemId, t.key, t.configuration)
    && (letter.details, letter.attempts, letter.result, letter.at) == (t.details, t.attempts, t.result, t.at)
    && letter.code == if t.code.Some? then t.code.value else "retry_exhausted"
  }

  /** After any run of completed calls every dead letter says what the terminal record of its item says. */
  lemma LettersSay(failing: set<Id>, steps: seq<Step>, k: Key)
    requires forall i :: 0 <= i < |steps| && steps[i].Meanwhile? ==> Ordinary(steps[i].event)
    requires k in After(failing, steps).letters
    ensures k in After(failing, steps).repo.terminals
    ensures Says(After(failing, steps).letters[k], After(failing, steps).repo.terminals[k])
  {
    EvidenceInvariant(failing, steps);
  }

  lemma RecordOnce(failures: seq<PersistenceFailure>, f: PersistenceFailure)
    requires Distinct(failures)
    ensures Distinct(Record(failures, f))
  {}

  lemma StepOnce(s: State, step: Step)
    requires Distinct(s.failures)
    ensures Distinct(Do(s, step).failures)
  {
    if step.ClaimExecuted? {
      var (closed, t) := TerminalizeOnly(s, step.k, step.owner, step.result, step.now);
      if t.Ok? {
        var kept := Persist(closed.letters, closed.failing, LetterFor(t.value)).1;
        if kept.Err? { RecordOnce(closed.failures, FailureFor(t.value, kept.error, step.later)); }
      }
    }
  }

  /** After any run no persistence failure is recorded twice. */
  lemma {:induction false} FailuresOnce(failing: set<Id>, steps: seq<Step>)
    ensures Distinct(After(failing, steps).failures)
  {
    if steps != [] {
      FailuresOnce(failing, steps[..|steps| - 1]);
      StepOnce(After(failing, steps[..|steps| - 1]), steps[|steps| - 1]);
    }
  }

  /** The step executed a claim of the job, and its terminal record was accepted. */
  predicate Counts(s: State, step: Step, jobId: Id) {
    step.ClaimExecuted? && step.k.jobId == jobId && ExecuteClaim(s, step.k, step.owner, step.result, step.now, step.later).1.Ok?
  }

  function TokensSpent(failing: set<Id>, steps: seq<Step>, jobId: Id): nat {
    if steps == [] then 0
    else
      var n := |steps| - 1;
      TokensSpent(failing, steps[..n], jobId) + if Counts(After(failing, steps[..n]), steps[n], jobId) then steps[n].result.tokens else 0
  }

  function CostSpent(failing: set<Id>, steps: seq<Step>, jobId: Id): nat {
    if steps == [] then 0
    else
      var n := |steps| - 1;
      CostSpent(failing, steps[..n], jobId) + if Counts(After(failing, steps[..n]), steps[n], jobId) then steps[n].result.cost else 0
  }

  lemma UsageAfter(s: State, step: Step, jobId: Id)
    ensures var before, after := (if jobId in s.usage then s.usage[jobId] else JobUsage(0, 0)), Do(s, step).usage;
            (if jobId in after then after[jobId] else JobUsage(0, 0))
            == if Counts(s, step, jobId) then JobUsage(before.tokens + step.result.tokens, before.cost + step.result.cost) else before
  {}

  /** After any run a job has spent the tokens and the cost of the claims executed for it whose records were accepted. */
  lemma {:induction false} UsageIsSpent(failing: set<Id>, steps: seq<Step>, jobId: Id)
    ensures var usage := After(failing, steps).usage;
            (if jobId in usage then usage[jobId] else JobUsage(0, 0))
            == JobUsage(TokensSpent(failing, steps, jobId), CostSpent(failing, steps, jobId))
  {
    if steps != [] {
      var n := |steps| - 1;
      UsageIsSpent(failing, steps[..n], jobId);
      UsageAfter(After(failing, steps[..n]), steps[n], jobId);
    }
  }

  /** The failure says that persistence was refused for a work item that is exhausted. */
  ghost predicate FailureSays(s: State, f: PersistenceFailure) {
    && f.operation == "dead_letter_persist" && f.itemId in s.failing
    && f.reason == "DeadLetterPersistenceError: dead-letter persistence failed for " + f.itemId
    && exists k :: Exhausted(s, k) && (s.repo.terminals[k].jobId, s.repo.terminals[k].itemId) == (f.jobId, f.itemId)
  }

  ghost predicate AllFailuresSay(s: State) {
    forall f :: f in s.failures ==> FailureSays(s, f)
  }

  lemma FailureStillSays(s: State, after: State, f: PersistenceFailure)
    requires FailureSays(s, f) && after.failing == s.failing
    requires forall k :: k in s.repo.terminals ==> k in after.repo.terminals && after.repo.terminals[k] == s.repo.terminals[k]
    ensures FailureSays(after, f)
  {
    var k :| Exhausted(s, k) && (s.repo.terminals[k].jobId, s.repo.terminals[k].itemId) == (f.jobId, f.itemId);
    assert Exhausted(after, k);
  }

  lemma NewFailureSays(s: State, k: Key, at: Instant, f: PersistenceFailure)
    requires WellKeyed(s) && LettersGenuine(s) && Exhausted(s, k)
    requires f in KeepEvidence(s, s.repo.terminals[k], at).failures && f !in s.failures
    ensures FailureSays(s, f)
  {
    EvidenceNeverConflicts(s, k);
    assert f == FailureFor(s.repo.terminals[k], PersistenceRefused, at);
  }

  lemma KeepingSays(s: State, k: Key, at: Instant)
    requires WellKeyed(s) && LettersGenuine(s) && Exhausted(s, k) && AllFailuresSay(s)
    ensures AllFailuresSay(KeepEvidence(s, s.repo.terminals[k], at))
  {
    var after := KeepEvidence(s, s.repo.terminals[k], at);
    assert after.repo == s.repo && after.failing == s.failing;
    forall f | f in after.failures ensures FailureSays(after, f) {
      if f !in s.failures { NewFailureSays(s, k, at, f); }
      FailureStillSays(s, after, f);
    }
  }

  lemma AllStillSay(s: State, after: State)
    requires AllFailuresSay(s) && after.failing == s.failing && after.failures == s.failures
    requires forall k :: k in s.repo.terminals ==> k in after.repo.terminals && after.repo.terminals[k] == s.repo.terminals[k]
    ensures AllFailuresSay(after)
  {
    forall f | f in after.failures ensures FailureSays(after, f) { FailureStillSays(s, after, f); }
  }

  lemma FinishSays(closed: State, k: Key, usage: map<Id, JobUsage>, later: Instant)
    requires WellKeyed(closed) && LettersGenuine(closed) && Exhausted(closed, k) && AllFailuresSay(closed)
    ensures AllFailuresSay(KeepEvidence(closed.(usage := usage), closed.repo.terminals[k], later))
  {
    AllStillSay(closed, closed.(usage := usage));
    KeepingSays(closed.(usage := usage), k, later);
  }

  lemma ExecuteSays(s: State, k: Key, owner: Id, result: HandlerResult, now: Instant, later: Instant)
    requires WellKeyed(s) && LettersGenuine(s) && AllFailuresSay(s)
    ensures AllFailuresSay(ExecuteClaim(s, k, owner, result, now, later).0)
  {
    TerminalizeEffect(s, k, owner, result, now);
    TerminalizeGenuine(s, k, owner, result, now);
    var (closed, t) := TerminalizeOnly(s, k, owner, result, now);
    AllStillSay(s, closed);
    if t.Ok? {
      var usage := Spend(closed.usage, k.jobId, result);
      if t.value.state == RetryExhausted {
        FinishSays(closed, k, usage, later);
      } else {
        AllStillSay(closed, closed.(usage := usage));
      }
    }
  }

  /** After any run of completed calls every recorded failure is that of an exhausted item whose persistence was refused. */
  lemma {:induction false} FailuresSay(failing: set<Id>, steps: seq<Step>)
    requires forall i :: 0 <= i < |steps| && steps[i].Meanwhile? ==> Ordinary(steps[i].event)
    ensures AllFailuresSay(After(failing, steps))
  {
    if steps != [] {
      var n := |steps| - 1;
      var before := After(failing, steps[..n]);
      FailuresSay(failing, steps[..n]);
      EvidenceInvariant(failing, steps[..n]);
      match steps[n]
      case ClaimExecuted(k, owner, result, now, later) => ExecuteSays(before, k, owner, result, now, later);
      case Meanwhile(event) =>
        OrdinaryTerminals(before.repo, event);
        forall f | f in before.failures ensures FailureSays(Do(before, steps[n]), f) {
          FailureStillSays(before, Do(before, steps[n]), f);
        }
    }
  }
}
