/** Which answer a call of effect recovery gives, from what the target replies (bulk/effects.py). */
module EffectAnswers {
  import opened Prelude
  import opened Repository
  import opened Effects

  // ----- What the target replied -----

  /** Verification found no effect, so that the mutation is attempted. */
  predicate FoundNothing(env: Environment) {
    env.verify.VerifyAbsent? || env.verify.VerifyRolledBack?
  }

  predicate TargetCommitted(request: Request, env: Environment) {
    if request.boundary == Shared then env.shared.SharedCommitted? else FoundNothing(env) && env.attempt.AttemptCommitted?
  }

  predicate TargetFound(request: Request, env: Environment) {
    request.boundary == NonShared && env.verify.VerifyCommitted? && SameEffect(env.verify.record, request)
  }

  predicate TargetFoundAnother(request: Request, env: Environment) {
    request.boundary == NonShared && env.verify.VerifyCommitted? && !SameEffect(env.verify.record, request)
  }

  predicate TargetAmbiguous(request: Request, env: Environment) {
    if request.boundary == Shared then env.shared.SharedAmbiguous?
    else env.verify.VerifyAmbiguous? || (FoundNothing(env) && env.attempt.AttemptAmbiguous?)
  }

  /** Which reply was ambiguous. */
  function AmbiguityOf(request: Request, env: Environment): string {
    if request.boundary == Shared then "shared_transaction_outcome_ambiguous"
    else if env.verify.VerifyAmbiguous? then "target_effect_verification_ambiguous"
    else "mutation_commit_outcome_ambiguous"
  }

  predicate TargetRolledBack(request: Request, env: Environment) {
    if request.boundary == Shared then env.shared.SharedRolledBack? || env.shared.SharedAbsent?
    else FoundNothing(env) && env.attempt.AttemptRolledBack?
  }

  predicate TargetRaised(request: Request, env: Environment) {
    if request.boundary == Shared then env.shared.SharedRaised?
    else env.verify.VerifyRaised? || (FoundNothing(env) && env.attempt.AttemptRaised?)
  }

  // ----- The answer -----

  /** The repository knows the request's item. */
  predicate KnownItem(w: World, request: Request) {
    KeyFor(request) in w.repo.items && w.repo.items[KeyFor(request)].itemId == request.item.itemId
  }

  predicate HoldsLease(w: World, request: Request, now: Instant) {
    && KnownItem(w, request) && request.item.leaseOwner.Some? && w.repo.items[KeyFor(request)].attempts >= 1
    && Owned(w.repo.items[KeyFor(request)], request.item.leaseOwner.value, now)
  }

  predicate Completes(w: World, request: Request) {
    && KeyFor(request) in w.repo.items && w.repo.items[KeyFor(request)].state == Completed
    && Next(CellAt(w.repo, KeyFor(request))).None?
  }

  function Last(outcome: Outcome): World
    requires outcome.trail != []
  {
    outcome.trail[|outcome.trail| - 1]
  }

  /** The effect went on record and completed the item. */
  predicate ConcludesWell(outcome: Outcome, request: Request, record: EffectRecord, recovered: bool) {
    && outcome.trail != [] && outcome.result.Ok?
    && (if recovered then outcome.result.value.Recovered? else outcome.result.value.Committed?)
    && outcome.result.value.record == record
    && KeyFor(request) in Last(outcome).book.effects && Last(outcome).book.effects[KeyFor(request)] == record
    && Completes(Last(outcome), request)
  }

  lemma FinishesCell(c: Cell, owner: Id, outcome: string, now: Instant)
    requires Owned(c.item, owner, now) && c.item.attempts >= 1 && !Blank(outcome)
    requires c.history == [] || Latest(c).value.stage != Finished
    ensures var (after, saved) := CheckpointCell(c, owner, Finished, outcome, now, None);
            saved.Ok? && after.item.state == Completed && Next(after).None?
  {}

  lemma RestoreCompletes(w: World, request: Request, record: EffectRecord, now: Instant)
    requires SameEffect(record, request) && HoldsLease(w, request, now)
    requires Next(CellAt(w.repo, KeyFor(request))).Some?
    ensures var (after, saved) := RestoreCheckpoint(w, request, record, now);
            saved.Ok? && Completes(after, request) && after.book == w.book
  {
    OutcomeStated(record.outcome);
    FinishesCell(CellAt(w.repo, KeyFor(request)), request.item.leaseOwner.value, "write_back_committed:" + record.outcome, now);
  }

  lemma ConcludeAnswers(trail: seq<World>, w: World, request: Request, record: EffectRecord, now: Instant, recovered: bool)
    requires SameEffect(record, request) && HoldsLease(w, request, now) && Next(CellAt(w.repo, KeyFor(request))).Some?
    requires KeyFor(request) in w.book.effects ==> w.book.effects[KeyFor(request)] == record
    ensures ConcludesWell(Conclude(trail, w, request, record, now, recovered), request, record, recovered)
  {
    var stored := w.(book := SaveEffect(w.repo, w.book, record).0);
    RestoreCompletes(stored, request, record, now);
  }

  lemma ReconcileAnswers(trail: seq<World>, w: World, request: Request, reason: string, now: Instant)
    requires KnownItem(w, request) && KeyFor(request) !in w.book.pending
    ensures Reconcile(trail, w, request, reason, now).result
         == Ok(ReconciliationRequired(Reconciliation(request.item.jobId, request.item.itemId, request.item.key,
                                                     request.mutation, reason, now)))
  {}

  /** The item waits for its write-back under the caller's lease, at both readings of the clock. */
  predicate AwaitsWriteBack(w: World, request: Request, env: Environment) {
    && HoldsLease(w, request, env.now) && HoldsLease(w, request, env.later)
    && Next(CellAt(w.repo, KeyFor(request))).Some?
  }

  /** The effect record that the target's replies make. */
  function RecordMade(request: Request, env: Environment): EffectRecord
    requires TargetCommitted(request, env) || TargetFound(request, env)
  {
    if request.boundary == Shared then env.shared.record
    else if env.verify.VerifyCommitted? then env.verify.record
    else EffectRecord(request.item.jobId, request.item.itemId, request.item.key, request.mutation, env.attempt.rows,
                      env.attempt.outcome, env.attempt.adapter, env.now)
  }

  predicate AnswersCommitted(outcome: Outcome, request: Request) {
    outcome.trail != [] && outcome.result.Ok? && outcome.result.value.Committed? && Completes(Last(outcome), request)
  }

  predicate AnswersRecovered(outcome: Outcome, request: Request) {
    outcome.trail != [] && outcome.result.Ok? && outcome.result.value.Recovered? && Completes(Last(outcome), request)
  }

  /** What the call answers, whichever way the target replied. */
  predicate AnswersTo(outcome: Outcome, request: Request, env: Environment) {
    && (TargetCommitted(request, env) <==> AnswersCommitted(outcome, request))
    && (TargetCommitted(request, env) <==> outcome.result.Ok? && outcome.result.value.Committed?)
    && (TargetFound(request, env) <==> AnswersRecovered(outcome, request))
    && (TargetFound(request, env) <==> outcome.result.Ok? && outcome.result.value.Recovered?)
    && (TargetCommitted(request, env) || TargetFound(request, env) ==> outcome.result.value.record == RecordMade(request, env))
    && (TargetAmbiguous(request, env) <==> outcome.result.Ok? && outcome.result.value.ReconciliationRequired?)
    && (TargetAmbiguous(request, env) ==> outcome.result.value.pending.reason == AmbiguityOf(request, env))
    && (TargetRolledBack(request, env) <==> outcome.result == Ok(EffectResult.WriteBackFailed))
    && (TargetFoundAnother(request, env) <==> outcome.result == Err(EffectConflict))
    && (TargetRaised(request, env) <==> outcome.result == Err(AdapterRaised))
  }

  lemma SharedAnswers(w: World, request: Request, env: Environment)
    requires request.boundary == Shared && AllOrNothing(request, env) && AwaitsWriteBack(w, request, env)
    requires KeyFor(request) !in w.book.effects && KeyFor(request) !in w.book.pending
    ensures AnswersTo(ViaShared(w, request, env), request, env)
  {
    var done := ExecuteShared(w, request, env);
    match env.shared
    case SharedCommitted(record) => ConcludeAnswers([w, done], done, request, record, env.now, false);
    case SharedAmbiguous => ReconcileAnswers([w, done], done, request, "shared_transaction_outcome_ambiguous", env.now);
    case _ =>
  }

  lemma AttemptAnswers(w: World, request: Request, env: Environment)
    requires request.boundary == NonShared && FoundNothing(env) && AwaitsWriteBack(w, request, env)
    requires KeyFor(request) !in w.book.effects && KeyFor(request) !in w.book.pending
    ensures AnswersTo(Attempt(w, request, env), request, env)
  {
    var done := ExecuteNonShared(w, request, env);
    match env.attempt
    case AttemptCommitted(rows, outcome, adapter) =>
      var record := EffectRecord(request.item.jobId, request.item.itemId, request.item.key, request.mutation,
                                 rows, outcome, adapter, env.now);
      ConcludeAnswers([w, done], done, request, record, env.later, false);
    case AttemptAmbiguous => ReconcileAnswers([w, done], done, request, "mutation_commit_outcome_ambiguous", env.now);
    case _ =>
  }

  lemma NonSharedAnswers(w: World, request: Request, env: Environment)
    requires request.boundary == NonShared && AwaitsWriteBack(w, request, env)
    requires KeyFor(request) !in w.book.effects && KeyFor(request) !in w.book.pending
    ensures AnswersTo(ViaNonShared(w, request, env), request, env)
  {
    match env.verify
    case VerifyCommitted(record) =>
      if SameEffect(record, request) { ConcludeAnswers([w], w, request, record, env.now, true); }
    case VerifyAmbiguous => ReconcileAnswers([w], w, request, "target_effect_verification_ambiguous", env.now);
    case VerifyRaised =>
    case _ => AttemptAnswers(w, request, env);
  }

  /**
   * A call with nothing on record, made under the item's lease: it answers committed, with the item completed, if and only
   * if the target committed; recovered, with the item completed, if and only if verification found the effect; that
   * reconciliation is required if and only if a reply was ambiguous; that the write-back failed if and only if it was rolled
   * back; and it raises if and only if the target raised or verification found another effect.
   */
  lemma AnswerIff(w: World, request: Request, context: Context, env: Environment)
    requires Untried(w, request, context) && Truthful(w, request, env) && AwaitsWriteBack(w, request, env)
    ensures AnswersTo(Execute(w, request, context, env), request, env)
  {
    if request.boundary == Shared { SharedAnswers(w, request, env); } else { NonSharedAnswers(w, request, env); }
  }

  // ----- Without the lease, and with something on record -----

  /** The work item cannot be completed, and the effect is on record for a later call. */
  predicate ConcludesLate(outcome: Outcome, request: Request, record: EffectRecord) {
    && outcome.result == Err(WorkFailed(LeaseLost)) && outcome.trail != []
    && KeyFor(request) in Last(outcome).book.effects && Last(outcome).book.effects[KeyFor(request)] == record
  }

  /** The item still waits, but not under the caller's lease. */
  predicate Lost(w: World, request: Request, now: Instant) {
    && KnownItem(w, request) && request.item.leaseOwner.Some? && Next(CellAt(w.repo, KeyFor(request))).Some?
    && !Owned(w.repo.items[KeyFor(request)], request.item.leaseOwner.value, now)
  }

  lemma ConcludeLate(trail: seq<World>, w: World, request: Request, record: EffectRecord, now: Instant, recovered: bool)
    requires SameEffect(record, request) && Lost(w, request, now)
    requires KeyFor(request) in w.book.effects ==> w.book.effects[KeyFor(request)] == record
    ensures ConcludesLate(Conclude(trail, w, request, record, now, recovered), request, record)
  {}

  /** A shared transaction that committed without the lease raises, with its effect on record. */
  lemma LostLeaseKeepsEffect(w: World, request: Request, context: Context, env: Environment)
    requires Untried(w, request, context) && Truthful(w, request, env) && request.boundary == Shared
    requires env.shared.SharedCommitted? && Lost(w, request, env.now)
    ensures ConcludesLate(Execute(w, request, context, env), request, env.shared.record)
  {
    var done := ExecuteShared(w, request, env);
    ConcludeLate([w, done], done, request, env.shared.record, env.now, false);
  }

  /** What is on record decides the answer: its own mutation is answered from the record, another one is refused. */
  lemma RecordedAnswers(w: World, request: Request, context: Context, env: Environment)
    requires context.bulk && request.item.configuration == context.configuration
    requires KeyFor(request) !in w.book.effects && KeyFor(request) in w.book.pending
    ensures Execute(w, request, context, env)
         == Outcome([w], if SameReconciliation(w.book.pending[KeyFor(request)], request)
                         then Ok(ReconciliationRequired(w.book.pending[KeyFor(request)])) else Err(EffectConflict))
  {}

  /** An effect is saved once for a key; the same record is returned again, another one is a conflict, and so is another item's. */
  lemma SaveEffectAnswers(r: Repo, b: Book, record: EffectRecord)
    ensures var (after, answer), k := SaveEffect(r, b, record), Key(record.jobId, record.key);
            && after.pending == b.pending
            && (if k !in r.items then answer == Err(WorkFailed(NotFound)) && after == b
                else if r.items[k].itemId != record.itemId || (k in b.effects && b.effects[k] != record)
                then answer == Err(WorkFailed(Conflict)) && after == b
                else answer == Ok(record) && after.effects == b.effects[k := record])
  {
    var k := Key(record.jobId, record.key);
    if k in b.effects { assert b.effects[k := b.effects[k]] == b.effects; }
  }

  /** A reconciliation is kept once for a key; for the same mutation and reason the kept one is returned, others are conflicts. */
  lemma SaveReconciliationAnswers(r: Repo, b: Book, record: Reconciliation)
    ensures var (after, answer), k := SaveReconciliation(r, b, record), Key(record.jobId, record.key);
            && after.effects == b.effects
            && (if k !in r.items then answer == Err(WorkFailed(NotFound)) && after == b
                else if r.items[k].itemId != record.itemId then answer == Err(WorkFailed(Conflict)) && after == b
                else if k !in b.pending then answer == Ok(record) && after.pending == b.pending[k := record]
                else after == b && answer == if (b.pending[k].mutation, b.pending[k].reason) == (record.mutation, record.reason)
                                             then Ok(b.pending[k]) else Err(WorkFailed(Conflict)))
  {}
}
