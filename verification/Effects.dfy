/** Effect execution and recovery across transaction boundaries (bulk/effects.py, bulk/effect_models.py, bulk/ports.py). */
module Effects {
  import opened Prelude
  import opened Repository

  datatype Boundary = Shared | NonShared

  /** What a write-back does to the target, as far as its idempotency is concerned. */
  datatype Mutation = Mutation(dataset: string, scope: string, digest: string)

  datatype EffectRecord = EffectRecord(
    jobId: Id, itemId: Id, key: Id, mutation: Mutation, rows: nat, outcome: string, adapter: string, at: Instant)

  datatype Reconciliation = Reconciliation(
    jobId: Id, itemId: Id, key: Id, mutation: Mutation, reason: string, at: Instant)

  /** A request carries the item as its acquired claim saw it. */
  datatype Request = Request(item: Item, mutation: Mutation, boundary: Boundary)

  datatype Context = Context(bulk: bool, configuration: ConfigRef)

  datatype EffectError = BadContext | EffectConflict | NoLease | WorkFailed(error: WorkError) | AdapterRaised

  datatype EffectResult =
    | Committed(record: EffectRecord, checkpoint: Checkpoint)
    | Recovered(record: EffectRecord, checkpoint: Checkpoint, reason: string)
    | ReconciliationRequired(pending: Reconciliation)
    | WriteBackFailed

  // ----- The effect tables of the repository -----

  datatype Book = Book(effects: map<Key, EffectRecord>, pending: map<Key, Reconciliation>)

  function SaveEffect(r: Repo, b: Book, record: EffectRecord): (Book, Result<EffectRecord, EffectError>) {
    var k := Key(record.jobId, record.key);
    if k !in r.items then (b, Err(WorkFailed(NotFound)))
    else if r.items[k].itemId != record.itemId then (b, Err(WorkFailed(Conflict)))
    else if k in b.effects then
      (b, if b.effects[k] != record then Err(WorkFailed(Conflict)) else Ok(record))
    else (b.(effects := b.effects[k := record]), Ok(record))
  }

  function SaveReconciliation(r: Repo, b: Book, record: Reconciliation): (Book, Result<Reconciliation, EffectError>) {
    var k := Key(record.jobId, record.key);
    if k !in r.items then (b, Err(WorkFailed(NotFound)))
    else if r.items[k].itemId != record.itemId then (b, Err(WorkFailed(Conflict)))
    else if k in b.pending then
      (b, if b.pending[k].mutation != record.mutation || b.pending[k].reason != record.reason
          then Err(WorkFailed(Conflict)) else Ok(b.pending[k]))
    else (b.(pending := b.pending[k := record]), Ok(record))
  }

  // ----- The world: the repository, its effect tables, and the mutations the target has applied -----

  datatype World = World(repo: Repo, book: Book, applied: map<Key, seq<Mutation>>)

  function AppliedTo(w: World, k: Key): seq<Mutation> {
    if k in w.applied then w.applied[k] else []
  }

  function ApplyMutation(w: World, k: Key, m: Mutation): World {
    w.(applied := w.applied[k := AppliedTo(w, k) + [m]])
  }

  function KeyFor(request: Request): Key { Key(request.item.jobId, request.item.key) }

  /** `_assert_same_effect` accepts the record. */
  predicate SameEffect(record: EffectRecord, request: Request) {
    && (record.jobId, record.itemId, record.key) == (request.item.jobId, request.item.itemId, request.item.key)
    && record.mutation == request.mutation
  }

  predicate SameReconciliation(record: Reconciliation, request: Request) {
    && (record.jobId, record.itemId, record.key) == (request.item.jobId, request.item.itemId, request.item.key)
    && record.mutation == request.mutation
  }

  datatype SharedReply = SharedCommitted(record: EffectRecord) | SharedAmbiguous | SharedRolledBack | SharedAbsent | SharedRaised
  datatype VerifyReply = VerifyCommitted(record: EffectRecord) | VerifyAmbiguous | VerifyAbsent | VerifyRolledBack | VerifyRaised
  datatype AttemptReply =
    AttemptCommitted(rows: nat, outcome: string, adapter: string) | AttemptAmbiguous | AttemptRolledBack | AttemptRaised

  /**
   * What the target answers during one call, whether an executed mutation was applied, and what the clock reads.
   * `stored` is the effect record a shared transaction commits with its mutation; `later` is the second reading of
   * a call that records a new effect and then checkpoints.
   */
  datatype Environment = Environment(
    shared: SharedReply, verify: VerifyReply, attempt: AttemptReply, applies: bool, stored: EffectRecord,
    now: Instant, later: Instant)

  /** `execute_shared`: the mutation and its effect record are committed together or not at all. */
  function ExecuteShared(w: World, request: Request, env: Environment): World {
    if env.applies then
      ApplyMutation(w, KeyFor(request), request.mutation).(book := w.book.(effects := w.book.effects[KeyFor(request) := env.stored]))
    else w
  }

  /** `execute_non_shared`. */
  function ExecuteNonShared(w: World, request: Request, env: Environment): World {
    if env.applies then ApplyMutation(w, KeyFor(request), request.mutation) else w
  }

  /** What a call leaves behind after each of its sub-steps, in order, and how it ends. */
  datatype Outcome = Outcome(trail: seq<World>, result: Result<EffectResult, EffectError>)

  /** `_restore_checkpoint`. */
  function RestoreCheckpoint(w: World, request: Request, record: EffectRecord, now: Instant): (World, Result<Checkpoint, EffectError>) {
    var k := Key(record.jobId, record.key);
    if k !in w.repo.items then (w, Err(WorkFailed(NotFound)))
    else
      var latest := Latest(CellAt(w.repo, k));
      if latest.Some? && latest.value.stage == Finished then (w, Ok(latest.value))
      else if request.item.leaseOwner.None? then (w, Err(NoLease))
      else
        var (repo, saved) := SaveCheckpoint(w.repo, k, request.item.leaseOwner.value, Finished,
                                            "write_back_committed:" + record.outcome, now, None);
        (w.(repo := repo), if saved.Err? then Err(WorkFailed(saved.error)) else Ok(saved.value))
  }

  /** Saves the effect and restores the checkpoint, coming from `trail`. */
  function Conclude(trail: seq<World>, w: World, request: Request, record: EffectRecord, now: Instant, recovered: bool): Outcome {
    var (book, saved) := SaveEffect(w.repo, w.book, record);
    var stored := w.(book := book);
    if saved.Err? then Outcome(trail + [stored], Err(saved.error))
    else Restore(trail + [stored], stored, request, saved.value, now,
                 if recovered then Some("target_effect_recovered") else None)
  }

  function Restore(trail: seq<World>, w: World, request: Request, record: EffectRecord, now: Instant, recovered: Option<string>): Outcome {
    var (restored, checkpoint) := RestoreCheckpoint(w, request, record, now);
    Outcome(trail + [restored],
            if checkpoint.Err? then Err(checkpoint.error)
            else if recovered.Some? then Ok(Recovered(record, checkpoint.value, recovered.value))
            else Ok(Committed(record, checkpoint.value)))
  }

  /** `_reconcile`. */
  function Reconcile(trail: seq<World>, w: World, request: Request, reason: string, now: Instant): Outcome {
    var record := Reconciliation(request.item.jobId, request.item.itemId, request.item.key, request.mutation, reason, now);
    var (book, saved) := SaveReconciliation(w.repo, w.book, record);
    Outcome(trail + [w.(book := book)], if saved.Err? then Err(saved.error) else Ok(ReconciliationRequired(saved.value)))
  }

  function ViaShared(w: World, request: Request, env: Environment): Outcome {
    var done := ExecuteShared(w, request, env);
    match env.shared
    case SharedRaised => Outcome([w, done], Err(AdapterRaised))
    case SharedCommitted(record) =>
      if !SameEffect(record, request) then Outcome([w, done], Err(EffectConflict))
      else Conclude([w, done], done, request, record, env.now, false)
    case SharedAmbiguous => Reconcile([w, done], done, request, "shared_transaction_outcome_ambiguous", env.now)
    case SharedRolledBack => Outcome([w, done], Ok(EffectResult.WriteBackFailed))
    case SharedAbsent => Outcome([w, done], Ok(EffectResult.WriteBackFailed))
  }

  function Attempt(w: World, request: Request, env: Environment): Outcome {
    var done := ExecuteNonShared(w, request, env);
    match env.attempt
    case AttemptRaised => Outcome([w, done], Err(AdapterRaised))
    case AttemptRolledBack => Outcome([w, done], Ok(EffectResult.WriteBackFailed))
    case AttemptAmbiguous => Reconcile([w, done], done, request, "mutation_commit_outcome_ambiguous", env.now)
    case AttemptCommitted(rows, outcome, adapter) =>
      var record := EffectRecord(request.item.jobId, request.item.itemId, request.item.key, request.mutation,
                                 rows, outcome, adapter, env.now);
      Conclude([w, done], done, request, record, env.later, false)
  }

  function ViaNonShared(w: World, request: Request, env: Environment): Outcome {
    match env.verify
    case VerifyRaised => Outcome([w], Err(AdapterRaised))
    case VerifyCommitted(record) =>
      if !SameEffect(record, request) then Outcome([w], Err(EffectConflict))
      else Conclude([w], w, request, record, env.now, true)
    case VerifyAmbiguous => Reconcile([w], w, request, "target_effect_verification_ambiguous", env.now)
    case VerifyAbsent => Attempt(w, request, env)
    case VerifyRolledBack => Attempt(w, request, env)
  }

  /** `EffectRecoveryCoordinator.execute`. */
  function Execute(w: World, request: Request, context: Context, env: Environment): Outcome {
    var k := KeyFor(request);
    if !context.bulk || request.item.configuration != context.configuration then Outcome([w], Err(BadContext))
    else if k in w.book.effects then
      if !SameEffect(w.book.effects[k], request) then Outcome([w], Err(EffectConflict))
      else Restore([w], w, request, w.book.effects[k], env.now, Some("committed_effect_recovered"))
    else if k in w.book.pending then
      if !SameReconciliation(w.book.pending[k], request) then Outcome([w], Err(EffectConflict))
      else Outcome([w], Ok(ReconciliationRequired(w.book.pending[k])))
    else if request.boundary == Shared then ViaShared(w, request, env)
    else ViaNonShared(w, request, env)
  }

  // ----- The target's side of the protocol -----

  /** A raised error or a roll-back means nothing was applied; a committed answer means it was. */
  predicate AllOrNothing(request: Request, env: Environment) {
    && (request.boundary == Shared ==>
          && (env.shared.SharedCommitted? ==> env.applies && env.shared.record == env.stored)
          && (env.shared.SharedRaised? || env.shared.SharedRolledBack? || env.shared.SharedAbsent? ==> !env.applies)
          && SameEffect(env.stored, request))
    && (request.boundary == NonShared ==>
          && (env.attempt.AttemptCommitted? ==> env.applies)
          && (env.attempt.AttemptRaised? || env.attempt.AttemptRolledBack? ==> !env.applies))
  }

  function Digests(mutations: seq<Mutation>): (digests: seq<string>)
    ensures |digests| == |mutations|
    ensures forall i :: 0 <= i < |digests| ==> digests[i] == mutations[i].digest
  {
    Map((m: Mutation) => m.digest, mutations)
  }

  /**
   * A definite verification answer is true of the key and digest it was asked about: absent or rolled back, no mutation of that
   * digest was applied under the key; committed, the reported one was.
   */
  predicate Truthful(w: World, request: Request, env: Environment) {
    && AllOrNothing(request, env)
    && (request.boundary == NonShared ==>
          && (env.verify.VerifyAbsent? || env.verify.VerifyRolledBack? ==>
                request.mutation.digest !in Digests(AppliedTo(w, KeyFor(request))))
          && (env.verify.VerifyCommitted? ==>
                && (env.verify.record.jobId, env.verify.record.key) == (request.item.jobId, request.item.key)
                && env.verify.record.mutation in AppliedTo(w, KeyFor(request))))
  }

  /** An absent or rolled-back answer is true of the whole idempotency key, whatever digest was asked about. */
  predicate TruthfulForKey(w: World, request: Request, env: Environment) {
    && Truthful(w, request, env)
    && (request.boundary == NonShared && (env.verify.VerifyAbsent? || env.verify.VerifyRolledBack?) ==>
          AppliedTo(w, KeyFor(request)) == [])
  }

  /** A saved effect was applied; under a shared transaction nothing is applied without its record. */
  predicate KeyOk(w: World, k: Key, boundary: Boundary) {
    && (k in w.book.effects ==> w.book.effects[k].mutation in AppliedTo(w, k))
    && (boundary == Shared && AppliedTo(w, k) != [] ==> k in w.book.effects)
  }

  /** No digest is applied twice, and so no mutation is. */
  predicate Once(w: World, k: Key, boundary: Boundary) {
    KeyOk(w, k, boundary) && Distinct(Digests(AppliedTo(w, k)))
  }

  /** At most one logical mutation at all. */
  predicate Single(w: World, k: Key, boundary: Boundary) {
    KeyOk(w, k, boundary) && |AppliedTo(w, k)| <= 1
  }

  /** What was awaiting reconciliation still is, and only `k` may have been added. */
  ghost predicate PendingKept(before: Book, after: Book, k: Key) {
    && (forall x :: x in before.pending ==> x in after.pending && after.pending[x] == before.pending[x])
    && (forall x :: x in after.pending && x !in before.pending ==> x == k)
  }

  /** Sub-steps after the target was reached do not touch it, and only add the record of an applied mutation. */
  ghost predicate Bookkeeping(before: World, after: World, k: Key) {
    && after.applied == before.applied
    && (k in before.book.effects ==> k in after.book.effects && after.book.effects[k] == before.book.effects[k])
    && (k in after.book.effects && k !in before.book.effects ==> after.book.effects[k].mutation in AppliedTo(before, k))
    && (forall other :: other != k ==> (other in after.book.effects <==> other in before.book.effects))
    && (forall other :: other != k && other in before.book.effects ==> after.book.effects[other] == before.book.effects[other])
    && PendingKept(before.book, after.book, k)
  }

  lemma RestoreBooks(w: World, request: Request, record: EffectRecord, now: Instant, k: Key)
    ensures Bookkeeping(w, RestoreCheckpoint(w, request, record, now).0, k)
    ensures RestoreCheckpoint(w, request, record, now).0.book == w.book
  {}

  lemma SaveBooks(w: World, record: EffectRecord, k: Key)
    requires Key(record.jobId, record.key) == k && record.mutation in AppliedTo(w, k)
    ensures Bookkeeping(w, w.(book := SaveEffect(w.repo, w.book, record).0), k)
  {}

  lemma BookkeepingTwice(w: World, x: World, y: World, k: Key)
    requires Bookkeeping(w, x, k) && y.book == x.book && y.applied == x.applied
    ensures Bookkeeping(w, y, k)
  {}

  lemma ConcludeBooks(trail: seq<World>, w: World, request: Request, record: EffectRecord, now: Instant, recovered: bool)
    requires Key(record.jobId, record.key) == KeyFor(request) && record.mutation in AppliedTo(w, KeyFor(request))
    ensures forall i :: |trail| <= i < |Conclude(trail, w, request, record, now, recovered).trail| ==>
      Bookkeeping(w, Conclude(trail, w, request, record, now, recovered).trail[i], KeyFor(request))
    ensures trail <= Conclude(trail, w, request, record, now, recovered).trail
  {
    var k := KeyFor(request);
    var (book, saved) := SaveEffect(w.repo, w.book, record);
    var stored := w.(book := book);
    SaveBooks(w, record, k);
    if saved.Ok? {
      var restored := RestoreCheckpoint(stored, request, saved.value, now).0;
      RestoreBooks(stored, request, saved.value, now, k);
      BookkeepingTwice(w, stored, restored, k);
      assert Conclude(trail, w, request, record, now, recovered).trail == trail + [stored] + [restored];
    } else {
      assert Conclude(trail, w, request, record, now, recovered).trail == trail + [stored];
    }
  }

  lemma ReconcileBooks(trail: seq<World>, w: World, request: Request, reason: string, now: Instant)
    ensures forall i :: |trail| <= i < |Reconcile(trail, w, request, reason, now).trail| ==>
      Bookkeeping(w, Reconcile(trail, w, request, reason, now).trail[i], KeyFor(request))
    ensures trail <= Reconcile(trail, w, request, reason, now).trail
  {}

  /** The call gets as far as asking the target to apply the mutation. */
  predicate ReachesTarget(w: World, request: Request, context: Context, env: Environment) {
    && Untried(w, request, context)
    && (request.boundary == NonShared ==> env.verify.VerifyAbsent? || env.verify.VerifyRolledBack?)
  }

  function TargetStep(w: World, request: Request, env: Environment): World {
    if request.boundary == Shared then ExecuteShared(w, request, env) else ExecuteNonShared(w, request, env)
  }

  lemma SharedTrail(w: World, request: Request, env: Environment, i: nat)
    requires request.boundary == Shared && AllOrNothing(request, env) && i < |ViaShared(w, request, env).trail|
    ensures var x, done := ViaShared(w, request, env).trail[i], ExecuteShared(w, request, env);
            x == w || Bookkeeping(done, x, KeyFor(request))
  {
    var done := ExecuteShared(w, request, env);
    match env.shared
    case SharedCommitted(record) => ConcludeBooks([w, done], done, request, record, env.now, false);
    case SharedAmbiguous => ReconcileBooks([w, done], done, request, "shared_transaction_outcome_ambiguous", env.now);
    case _ =>
  }

  lemma AttemptTrail(w: World, request: Request, env: Environment, i: nat)
    requires request.boundary == NonShared && AllOrNothing(request, env) && i < |Attempt(w, request, env).trail|
    ensures var x, done := Attempt(w, request, env).trail[i], ExecuteNonShared(w, request, env);
            x == w || Bookkeeping(done, x, KeyFor(request))
  {
    var done := ExecuteNonShared(w, request, env);
    match env.attempt
    case AttemptCommitted(rows, outcome, adapter) =>
      var record := EffectRecord(request.item.jobId, request.item.itemId, request.item.key, request.mutation,
                                 rows, outcome, adapter, env.now);
      ConcludeBooks([w, done], done, request, record, env.later, false);
    case AttemptAmbiguous => ReconcileBooks([w, done], done, request, "mutation_commit_outcome_ambiguous", env.now);
    case _ =>
  }

  lemma VerifyTrail(w: World, request: Request, env: Environment, i: nat)
    requires request.boundary == NonShared && Truthful(w, request, env)
    requires env.verify.VerifyCommitted? || env.verify.VerifyAmbiguous? || env.verify.VerifyRaised?
    requires i < |ViaNonShared(w, request, env).trail|
    ensures Bookkeeping(w, ViaNonShared(w, request, env).trail[i], KeyFor(request))
  {
    match env.verify
    case VerifyCommitted(record) =>
      if SameEffect(record, request) { ConcludeBooks([w], w, request, record, env.now, true); }
    case VerifyAmbiguous => ReconcileBooks([w], w, request, "target_effect_verification_ambiguous", env.now);
    case _ =>
  }

  /** The call is for the bulk path and its configuration, and its key has nothing on record. */
  predicate Untried(w: World, request: Request, context: Context) {
    && context.bulk && request.item.configuration == context.configuration
    && KeyFor(request) !in w.book.effects && KeyFor(request) !in w.book.pending
  }

  lemma ClosedTrail(w: World, request: Request, context: Context, env: Environment, i: nat)
    requires !Untried(w, request, context) && i < |Execute(w, request, context, env).trail|
    ensures Bookkeeping(w, Execute(w, request, context, env).trail[i], KeyFor(request))
  {
    if KeyFor(request) in w.book.effects {
      RestoreBooks(w, request, w.book.effects[KeyFor(request)], env.now, KeyFor(request));
    }
  }

  /** Wherever a call is cut, at most its one target step has happened, followed by bookkeeping. */
  lemma TrailForm(w: World, request: Request, context: Context, env: Environment, i: nat)
    requires Truthful(w, request, env) && i < |Execute(w, request, context, env).trail|
    ensures var x := Execute(w, request, context, env).trail[i];
            || Bookkeeping(w, x, KeyFor(request))
            || (ReachesTarget(w, request, context, env) && Bookkeeping(TargetStep(w, request, env), x, KeyFor(request)))
  {
    if !Untried(w, request, context) {
      ClosedTrail(w, request, context, env, i);
    } else if request.boundary == Shared {
      SharedTrail(w, request, env, i);
    } else if env.verify.VerifyAbsent? || env.verify.VerifyRolledBack? {
      AttemptTrail(w, request, env, i);
    } else {
      VerifyTrail(w, request, env, i);
    }
  }

  lemma TargetStepOnce(w: World, request: Request, context: Context, env: Environment)
    requires Once(w, KeyFor(request), request.boundary) && Truthful(w, request, env)
    requires ReachesTarget(w, request, context, env)
    ensures Once(TargetStep(w, request, env), KeyFor(request), request.boundary)
  {}

  lemma TargetStepSingle(w: World, request: Request, context: Context, env: Environment)
    requires Single(w, KeyFor(request), request.boundary) && TruthfulForKey(w, request, env)
    requires ReachesTarget(w, request, context, env)
    ensures Single(TargetStep(w, request, env), KeyFor(request), request.boundary)
  {}

  lemma BookkeepingKeeps(w: World, x: World, k: Key, boundary: Boundary)
    requires Bookkeeping(w, x, k) && KeyOk(w, k, boundary)
    ensures KeyOk(x, k, boundary) && AppliedTo(x, k) == AppliedTo(w, k)
  {}

  /** Other keys are never touched by a call. */
  lemma OtherKeysKept(w: World, request: Request, context: Context, env: Environment, i: nat, other: Key, boundary: Boundary)
    requires Truthful(w, request, env) && i < |Execute(w, request, context, env).trail| && other != KeyFor(request)
    requires KeyOk(w, other, boundary)
    ensures KeyOk(Execute(w, request, context, env).trail[i], other, boundary)
    ensures AppliedTo(Execute(w, request, context, env).trail[i], other) == AppliedTo(w, other)
  {
    TrailForm(w, request, context, env, i);
  }

  // ----- Runs of calls, each cut anywhere -----

  /** A call that got to sub-step `cut` before the process stopped, or anything else that happened to the work items. */
  datatype Step =
    | Call(request: Request, context: Context, env: Environment, cut: nat)
    | Elsewhere(repo: Repo)

  predicate Steps(before: World, step: Step, after: World) {
    match step
    case Elsewhere(repo) => after == before.(repo := repo)
    case Call(request, context, env, cut) =>
      var trail := Execute(before, request, context, env).trail;
      cut < |trail| && after == trail[cut]
  }

  datatype Trust = OfDigest | OfKey

  /** The boundary of a key is fixed, and the target answers as far as it is trusted. */
  predicate Honest(before: World, step: Step, boundary: Key -> Boundary, trust: Trust) {
    step.Call? ==>
      && step.request.boundary == boundary(KeyFor(step.request))
      && (if trust == OfKey then TruthfulForKey(before, step.request, step.env) else Truthful(before, step.request, step.env))
  }

  ghost predicate Run(worlds: seq<World>, steps: seq<Step>, boundary: Key -> Boundary, trust: Trust) {
    && |worlds| == |steps| + 1
    && worlds[0].book == Book(map[], map[]) && worlds[0].applied == map[]
    && forall i :: 0 <= i < |steps| ==> Steps(worlds[i], steps[i], worlds[i + 1]) && Honest(worlds[i], steps[i], boundary, trust)
  }

  lemma StepOnce(before: World, step: Step, after: World, boundary: Key -> Boundary, trust: Trust, k: Key)
    requires Steps(before, step, after) && Honest(before, step, boundary, trust) && Once(before, k, boundary(k))
    ensures Once(after, k, boundary(k))
  {
    if step.Call? {
      var request := step.request;
      if k == KeyFor(request) {
        TrailForm(before, request, step.context, step.env, step.cut);
        if Bookkeeping(before, after, k) {
          BookkeepingKeeps(before, after, k, boundary(k));
        } else {
          TargetStepOnce(before, request, step.context, step.env);
          BookkeepingKeeps(TargetStep(before, request, step.env), after, k, boundary(k));
        }
      } else {
        OtherKeysKept(before, request, step.context, step.env, step.cut, k, boundary(k));
      }
    }
  }

  /** A target that answers this call truly of the whole key keeps the key at one mutation. */
  lemma StepSingle(before: World, step: Step, after: World, boundary: Key -> Boundary, trust: Trust, k: Key)
    requires Steps(before, step, after) && Honest(before, step, boundary, trust) && Single(before, k, boundary(k))
    requires step.Call? && KeyFor(step.request) == k ==> TruthfulForKey(before, step.request, step.env)
    ensures Single(after, k, boundary(k))
  {
    if step.Call? {
      var request := step.request;
      if k == KeyFor(request) {
        TrailForm(before, request, step.context, step.env, step.cut);
        if Bookkeeping(before, after, k) {
          BookkeepingKeeps(before, after, k, boundary(k));
        } else {
          TargetStepSingle(before, request, step.context, step.env);
          BookkeepingKeeps(TargetStep(before, request, step.env), after, k, boundary(k));
        }
      } else {
        OtherKeysKept(before, request, step.context, step.env, step.cut, k, boundary(k));
      }
    }
  }

  /** Over every run, however calls are cut and answered, no digest is applied twice under a key. */
  lemma {:induction false} NoMutationTwice(worlds: seq<World>, steps: seq<Step>, boundary: Key -> Boundary, trust: Trust, n: nat, k: Key)
    requires Run(worlds, steps, boundary, trust) && n < |worlds|
    ensures Once(worlds[n], k, boundary(k))
  {
    if n > 0 {
      NoMutationTwice(worlds, steps, boundary, trust, n - 1, k);
      StepOnce(worlds[n - 1], steps[n - 1], worlds[n], boundary, trust, k);
    }
  }

  /** A shared transaction is never repeated, and a target trusted for the key answers for all of it. */
  lemma {:induction false} RunSingle(worlds: seq<World>, steps: seq<Step>, boundary: Key -> Boundary, trust: Trust, n: nat, k: Key)
    requires Run(worlds, steps, boundary, trust) && n < |worlds| && (trust == OfKey || boundary(k) == Shared)
    ensures Single(worlds[n], k, boundary(k))
  {
    if n > 0 {
      RunSingle(worlds, steps, boundary, trust, n - 1, k);
      StepSingle(worlds[n - 1], steps[n - 1], worlds[n], boundary, trust, k);
    }
  }

  lemma SingleIsTheSaved(w: World, k: Key, boundary: Boundary)
    requires Single(w, k, boundary) && k in w.book.effects
    ensures AppliedTo(w, k) == [w.book.effects[k].mutation]
  {}

  // ----- When a key carries at most one mutation -----

  /** Every call under the key asks for one of these mutations. */
  predicate Asks(steps: seq<Step>, k: Key, asked: set<Mutation>) {
    forall i :: 0 <= i < |steps| && steps[i].Call? && KeyFor(steps[i].request) == k ==> steps[i].request.mutation in asked
  }

  predicate OnlyOf(w: World, k: Key, asked: set<Mutation>) {
    forall i :: 0 <= i < |AppliedTo(w, k)| ==> AppliedTo(w, k)[i] in asked
  }

  lemma TargetStepOnlyOf(w: World, request: Request, env: Environment, asked: set<Mutation>)
    requires OnlyOf(w, KeyFor(request), asked) && request.mutation in asked
    ensures OnlyOf(TargetStep(w, request, env), KeyFor(request), asked)
  {
    var before, after := AppliedTo(w, KeyFor(request)), AppliedTo(TargetStep(w, request, env), KeyFor(request));
    assert after == before || after == before + [request.mutation];
  }

  lemma SameOnlyOf(w: World, x: World, k: Key, asked: set<Mutation>)
    requires OnlyOf(w, k, asked) && AppliedTo(x, k) == AppliedTo(w, k)
    ensures OnlyOf(x, k, asked)
  {}

  lemma StepOnlyOf(before: World, step: Step, after: World, boundary: Key -> Boundary, trust: Trust, k: Key, asked: set<Mutation>)
    requires Steps(before, step, after) && Honest(before, step, boundary, trust)
    requires KeyOk(before, k, boundary(k)) && OnlyOf(before, k, asked)
    requires step.Call? && KeyFor(step.request) == k ==> step.request.mutation in asked
    ensures OnlyOf(after, k, asked)
  {
    if step.Elsewhere? {
      SameOnlyOf(before, after, k, asked);
    } else if k != KeyFor(step.request) {
      OtherKeysKept(before, step.request, step.context, step.env, step.cut, k, boundary(k));
      SameOnlyOf(before, after, k, asked);
    } else {
      TrailForm(before, step.request, step.context, step.env, step.cut);
      if Bookkeeping(before, after, k) {
        SameOnlyOf(before, after, k, asked);
      } else {
        TargetStepOnlyOf(before, step.request, step.env, asked);
        SameOnlyOf(TargetStep(before, step.request, step.env), after, k, asked);
      }
    }
  }

  /** Nothing is applied under a key that no call asked for. */
  lemma {:induction false} OnlyWhatWasAsked(worlds: seq<World>, steps: seq<Step>, boundary: Key -> Boundary, trust: Trust, n: nat,
                                            k: Key, asked: set<Mutation>)
    requires Run(worlds, steps, boundary, trust) && n < |worlds| && Asks(steps, k, asked)
    ensures OnlyOf(worlds[n], k, asked)
  {
    if n > 0 {
      OnlyWhatWasAsked(worlds, steps, boundary, trust, n - 1, k, asked);
      NoMutationTwice(worlds, steps, boundary, trust, n - 1, k);
      StepOnlyOf(worlds[n - 1], steps[n - 1], worlds[n], boundary, trust, k, asked);
    }
  }

  lemma EqualNotDistinct(digests: seq<string>, digest: string)
    requires |digests| > 1 && forall i :: 0 <= i < |digests| ==> digests[i] == digest
    ensures !Distinct(digests)
  {
    assert digests[0] == digests[1];
  }

  /**
   * With verification answers true of the key and digest asked about, and a caller that always asks for the same
   * mutation under the key, that mutation is applied at most once, whatever is cut; a saved effect says it was.
   */
  lemma AtMostOneMutation(worlds: seq<World>, steps: seq<Step>, boundary: Key -> Boundary, n: nat, k: Key, m: Mutation)
    requires Run(worlds, steps, boundary, OfDigest) && n < |worlds| && Asks(steps, k, {m})
    ensures AppliedTo(worlds[n], k) == [] || AppliedTo(worlds[n], k) == [m]
    ensures k in worlds[n].book.effects ==> AppliedTo(worlds[n], k) == [m] && worlds[n].book.effects[k].mutation == m
  {
    NoMutationTwice(worlds, steps, boundary, OfDigest, n, k);
    OnlyWhatWasAsked(worlds, steps, boundary, OfDigest, n, k, {m});
    var applied := AppliedTo(worlds[n], k);
    if |applied| > 1 { EqualNotDistinct(Digests(applied), m.digest); }
    assert |applied| == 1 ==> applied == [applied[0]];
  }

  /** A target that answers for the whole key, or a shared transaction, bounds the key whatever callers ask for. */
  lemma KeyTruthBoundsKey(worlds: seq<World>, steps: seq<Step>, boundary: Key -> Boundary, trust: Trust, n: nat, k: Key)
    requires Run(worlds, steps, boundary, trust) && n < |worlds| && (trust == OfKey || boundary(k) == Shared)
    ensures |AppliedTo(worlds[n], k)| <= 1
    ensures k in worlds[n].book.effects ==> AppliedTo(worlds[n], k) == [worlds[n].book.effects[k].mutation]
  {
    RunSingle(worlds, steps, boundary, trust, n, k);
    if k in worlds[n].book.effects {
      SingleIsTheSaved(worlds[n], k, boundary(k));
    }
  }

  /** A call on a fresh non-shared key that is cut right after the target committed its mutation. */
  function CutCall(item: Item, m: Mutation): Step {
    var env := Environment(SharedRaised, VerifyAbsent, AttemptCommitted(1, "committed", "v1"), true,
                           EffectRecord(item.jobId, item.itemId, item.key, m, 1, "committed", "v1", 0), 0, 0);
    Call(Request(item, m, NonShared), Context(true, item.configuration), env, 1)
  }

  lemma CutCallApplies(w: World, item: Item, m: Mutation, boundary: Key -> Boundary)
    requires var k := Key(item.jobId, item.key);
             && k !in w.book.effects && k !in w.book.pending && m.digest !in Digests(AppliedTo(w, k)) && boundary(k) == NonShared
    ensures var after := ApplyMutation(w, Key(item.jobId, item.key), m);
            Steps(w, CutCall(item, m), after) && Honest(w, CutCall(item, m), boundary, OfDigest)
  {
    var step, after := CutCall(item, m), ApplyMutation(w, Key(item.jobId, item.key), m);
    assert Execute(w, step.request, step.context, step.env).trail[..2] == [w, after];
  }

  /**
   * Under a non-shared key two mutations of different digests can both be applied: a run from empty tables, honest about
   * every digest asked about, in which the first call stops before it saved its effect.
   */
  lemma TwoMutationsRun(item: Item, first: Mutation, second: Mutation, boundary: Key -> Boundary)
    returns (worlds: seq<World>, steps: seq<Step>)
    requires first.digest != second.digest && boundary(Key(item.jobId, item.key)) == NonShared
    ensures Run(worlds, steps, boundary, OfDigest) && |worlds| == 3
    ensures steps == [CutCall(item, first), CutCall(item, second)]
    ensures AppliedTo(worlds[2], Key(item.jobId, item.key)) == [first, second]
  {
    var k := Key(item.jobId, item.key);
    var start := World(EMPTY, Book(map[], map[]), map[]);
    var one := ApplyMutation(start, k, first);
    var two := ApplyMutation(one, k, second);
    CutCallApplies(start, item, first, boundary);
    CutCallApplies(one, item, second, boundary);
    worlds, steps := [start, one, two], [CutCall(item, first), CutCall(item, second)];
    assert AppliedTo(one, k) == [] + [first] && AppliedTo(two, k) == ([] + [first]) + [second];
  }

  /** However calls that ask for these mutations are cut and answered, the key never carries two. */
  ghost predicate AlwaysAtMostOne(boundary: Key -> Boundary, k: Key, asked: set<Mutation>) {
    forall worlds: seq<World>, steps: seq<Step>, n: nat ::
      Run(worlds, steps, boundary, OfDigest) && Asks(steps, k, asked) && n < |worlds| ==> |AppliedTo(worlds[n], k)| <= 1
  }

  predicate OneDigest(asked: set<Mutation>) {
    forall m1, m2 :: m1 in asked && m2 in asked ==> m1.digest == m2.digest
  }

  lemma OneAskedBounds(worlds: seq<World>, steps: seq<Step>, boundary: Key -> Boundary, n: nat, k: Key,
                       asked: set<Mutation>)
    requires Run(worlds, steps, boundary, OfDigest) && Asks(steps, k, asked) && n < |worlds|
    requires OneDigest(asked)
    ensures |AppliedTo(worlds[n], k)| <= 1
  {
    OnlyWhatWasAsked(worlds, steps, boundary, OfDigest, n, k, asked);
    NoMutationTwice(worlds, steps, boundary, OfDigest, n, k);
    var applied := AppliedTo(worlds[n], k);
    if |applied| > 1 { EqualNotDistinct(Digests(applied), applied[0].digest); }
  }

  lemma TwoAskedBreak(boundary: Key -> Boundary, k: Key, asked: set<Mutation>, first: Mutation, second: Mutation)
    requires boundary(k) == NonShared && first in asked && second in asked && first.digest != second.digest
    ensures !AlwaysAtMostOne(boundary, k, asked)
  {
    var payload := ObjectRef("memory://payload", "hash", PayloadArtifact, 0);
    var item := Item(k.jobId, "item", k.name, payload, ConfigRef("profile", "v1"), InProgress, 1, Some("worker"), Some(1), None, 1);
    var worlds, steps := TwoMutationsRun(item, first, second, boundary);
    assert Asks(steps, k, asked);
    assert |AppliedTo(worlds[2], k)| == 2;
  }

  /**
   * The exact condition, on what callers ask for: a key carries at most one mutation in every run honest about each
   * digest if and only if its transactions are shared or all calls under it ask for the same digest.
   */
  lemma AtMostOneIff(boundary: Key -> Boundary, k: Key, asked: set<Mutation>)
    ensures AlwaysAtMostOne(boundary, k, asked) <==>
      boundary(k) == Shared || OneDigest(asked)
  {
    if boundary(k) == Shared || OneDigest(asked) {
      forall worlds: seq<World>, steps: seq<Step>, n: nat
        | Run(worlds, steps, boundary, OfDigest) && Asks(steps, k, asked) && n < |worlds|
        ensures |AppliedTo(worlds[n], k)| <= 1
      {
        if boundary(k) == Shared {
          KeyTruthBoundsKey(worlds, steps, boundary, OfDigest, n, k);
        } else {
          OneAskedBounds(worlds, steps, boundary, n, k, asked);
        }
      }
    } else {
      var first, second :| first in asked && second in asked && first.digest != second.digest;
      TwoAskedBreak(boundary, k, asked, first, second);
    }
  }

  // ----- What a call may still do -----

  /** The key has an effect or a reconciliation on record. */
  predicate Recorded(w: World, k: Key) {
    k in w.book.effects || k in w.book.pending
  }

  /** A recorded key keeps exactly the records it has, and nothing more is applied under it. */
  predicate Persists(before: World, after: World, k: Key) {
    Recorded(before, k) ==>
      && (k in after.book.effects <==> k in before.book.effects) && (k in after.book.pending <==> k in before.book.pending)
      && (k in before.book.effects ==> after.book.effects[k] == before.book.effects[k])
      && (k in before.book.pending ==> after.book.pending[k] == before.book.pending[k])
      && AppliedTo(after, k) == AppliedTo(before, k)
  }

  /** On a recorded key a call, wherever it is cut, changes neither the tables nor the target. */
  lemma RecordedCall(w: World, request: Request, context: Context, env: Environment, i: nat)
    requires Recorded(w, KeyFor(request)) && i < |Execute(w, request, context, env).trail|
    ensures Execute(w, request, context, env).trail[i].applied == w.applied
    ensures Execute(w, request, context, env).trail[i].book == w.book
  {}

  lemma OtherKeyPersists(before: World, step: Step, after: World, k: Key)
    requires Steps(before, step, after) && step.Call? && k != KeyFor(step.request)
    requires Truthful(before, step.request, step.env)
    ensures Persists(before, after, k)
  {
    TrailForm(before, step.request, step.context, step.env, step.cut);
  }

  lemma StepPersists(before: World, step: Step, after: World, boundary: Key -> Boundary, trust: Trust, k: Key)
    requires Steps(before, step, after) && Honest(before, step, boundary, trust)
    ensures Persists(before, after, k)
  {
    if step.Call? {
      if k != KeyFor(step.request) {
        OtherKeyPersists(before, step, after, k);
      } else if Recorded(before, k) {
        RecordedCall(before, step.request, step.context, step.env, step.cut);
      }
    }
  }

  lemma PersistsTwice(a: World, b: World, c: World, k: Key)
    requires Persists(a, b, k) && Persists(b, c, k)
    ensures Persists(a, c, k)
  {}

  lemma {:induction false} PersistsAlong(worlds: seq<World>, i: nat, j: nat, k: Key)
    requires i <= j < |worlds| && forall n :: 0 <= n < |worlds| - 1 ==> Persists(worlds[n], worlds[n + 1], k)
    ensures Persists(worlds[i], worlds[j], k)
    decreases j
  {
    if i < j {
      PersistsAlong(worlds, i, j - 1, k);
      PersistsTwice(worlds[i], worlds[j - 1], worlds[j - 1 + 1], k);
    }
  }

  /**
   * Once a key has an effect or a reconciliation on record, it keeps that record, and gets no other, for the rest of every
   * run; and no later call, on this key or another and cut anywhere, has the target apply anything under it.
   */
  lemma RecordedKeysAreClosed(worlds: seq<World>, steps: seq<Step>, boundary: Key -> Boundary, trust: Trust, i: nat, j: nat, k: Key)
    requires Run(worlds, steps, boundary, trust) && i <= j < |worlds|
    ensures Persists(worlds[i], worlds[j], k)
  {
    forall n | 0 <= n < |worlds| - 1 ensures Persists(worlds[n], worlds[n + 1], k) {
      StepPersists(worlds[n], steps[n], worlds[n + 1], boundary, trust, k);
    }
    PersistsAlong(worlds, i, j, k);
  }

  /** The mutation on record under the key: of its effect, or else of what awaits reconciliation. */
  function RecordedMutation(w: World, k: Key): Mutation
    requires Recorded(w, k)
  {
    if k in w.book.effects then w.book.effects[k].mutation else w.book.pending[k].mutation
  }

  lemma RefusedNow(w: World, request: Request, context: Context, env: Environment)
    requires context.bulk && request.item.configuration == context.configuration
    requires Recorded(w, KeyFor(request)) && RecordedMutation(w, KeyFor(request)) != request.mutation
    ensures Execute(w, request, context, env) == Outcome([w], Err(EffectConflict))
  {}

  /** From the moment a mutation is on record, every later call of the run that asks for another is refused and changes nothing. */
  lemma DifferentMutationRefused(worlds: seq<World>, steps: seq<Step>, boundary: Key -> Boundary, trust: Trust, i: nat, j: nat, k: Key)
    requires Run(worlds, steps, boundary, trust) && i <= j < |steps| && Recorded(worlds[i], k)
    requires steps[j].Call? && KeyFor(steps[j].request) == k && steps[j].context.bulk
    requires steps[j].request.item.configuration == steps[j].context.configuration
    requires RecordedMutation(worlds[i], k) != steps[j].request.mutation
    ensures Execute(worlds[j], steps[j].request, steps[j].context, steps[j].env) == Outcome([worlds[j]], Err(EffectConflict))
    ensures worlds[j + 1] == worlds[j]
  {
    RecordedKeysAreClosed(worlds, steps, boundary, trust, i, j, k);
    RefusedNow(worlds[j], steps[j].request, steps[j].context, steps[j].env);
    assert Steps(worlds[j], steps[j], worlds[j + 1]);
  }

  lemma FinishCell(c: Cell, owner: Id, outcome: string, now: Instant)
    requires Owned(c.item, owner, now) && c.item.attempts >= 1 && !Blank(outcome)
    requires c.history == [] || Latest(c).value.stage != Finished
    ensures var (after, saved) := CheckpointCell(c, owner, Finished, outcome, now, None);
            saved.Ok? && saved.value.stage == Finished && Latest(after) == Some(saved.value)
  {}

  lemma OutcomeStated(outcome: string)
    ensures !Blank("write_back_committed:" + outcome)
  {
    var stated := "write_back_committed:" + outcome;
    assert stated[0] == 'w' && stated[0] in stated;
  }

  lemma RestoreFinishes(w: World, request: Request, record: EffectRecord, now: Instant)
    requires var k := Key(record.jobId, record.key);
             && k in w.repo.items && request.item.leaseOwner.Some? && w.repo.items[k].attempts >= 1
             && Owned(w.repo.items[k], request.item.leaseOwner.value, now)
    ensures var (after, saved) := RestoreCheckpoint(w, request, record, now);
            var k := Key(record.jobId, record.key);
            && saved.Ok? && saved.value.stage == Finished
            && k in after.repo.items && Latest(CellAt(after.repo, k)) == Some(saved.value)
  {
    var c := CellAt(w.repo, Key(record.jobId, record.key));
    OutcomeStated(record.outcome);
    if c.history == [] || Latest(c).value.stage != Finished {
      FinishCell(c, request.item.leaseOwner.value, "write_back_committed:" + record.outcome, now);
    }
  }

  /** With the lease and a recorded effect, a repeated call reports the same effect and completes the work item. */
  lemma RecoveryCompletes(w: World, request: Request, context: Context, env: Environment)
    requires context.bulk && request.item.configuration == context.configuration
    requires var k := KeyFor(request);
             && k in w.book.effects && SameEffect(w.book.effects[k], request)
             && k in w.repo.items && request.item.leaseOwner.Some? && w.repo.items[k].attempts >= 1
             && Owned(w.repo.items[k], request.item.leaseOwner.value, env.now)
    ensures var outcome, k := Execute(w, request, context, env), KeyFor(request);
            && outcome.result.Ok? && outcome.result.value.Recovered?
            && outcome.result.value.record == w.book.effects[k]
            && outcome.trail != [] && k in outcome.trail[|outcome.trail| - 1].repo.items
            && Next(CellAt(outcome.trail[|outcome.trail| - 1].repo, k)).None?
  {
    RestoreFinishes(w, request, w.book.effects[KeyFor(request)], env.now);
  }

  // ----- What a result says -----

  /** The effect is on record under the request's key, was applied, and completed the work item with this checkpoint. */
  ghost predicate Settled(w: World, request: Request, record: EffectRecord, checkpoint: Checkpoint) {
    var k := KeyFor(request);
    && SameEffect(record, request) && k in w.book.effects && w.book.effects[k] == record && record.mutation in AppliedTo(w, k)
    && k in w.repo.items && Latest(CellAt(w.repo, k)) == Some(checkpoint) && checkpoint.stage == Finished
  }

  /** What each answer of a call means for the world it leaves. */
  ghost predicate TellsTruth(before: World, request: Request, outcome: Outcome) {
    outcome.trail != [] &&
    var last := outcome.trail[|outcome.trail| - 1];
    outcome.result.Ok? ==>
      match outcome.result.value
      case Committed(record, checkpoint) => Settled(last, request, record, checkpoint)
      case Recovered(record, checkpoint, _) => Settled(last, request, record, checkpoint)
      case ReconciliationRequired(pending) =>
        KeyFor(request) in last.book.pending && last.book.pending[KeyFor(request)] == pending && SameReconciliation(pending, request)
      case WriteBackFailed => last == before
  }

  lemma CheckpointLatest(c: Cell, owner: Id, outcome: string, now: Instant)
    ensures var (after, saved) := CheckpointCell(c, owner, Finished, outcome, now, None);
            saved.Ok? ==> saved.value.stage == Finished && Latest(after) == Some(saved.value)
  {}

  lemma RestoreTells(trail: seq<World>, w: World, request: Request, record: EffectRecord, now: Instant, recovered: Option<string>,
                     before: World)
    requires SameEffect(record, request) && KeyFor(request) in w.book.effects && w.book.effects[KeyFor(request)] == record
    requires record.mutation in AppliedTo(w, KeyFor(request))
    ensures TellsTruth(before, request, Restore(trail, w, request, record, now, recovered))
  {
    var k := KeyFor(request);
    if k in w.repo.items && request.item.leaseOwner.Some? {
      CheckpointLatest(CellAt(w.repo, k), request.item.leaseOwner.value, "write_back_committed:" + record.outcome, now);
    }
  }

  lemma ConcludeTells(trail: seq<World>, w: World, request: Request, record: EffectRecord, now: Instant, recovered: bool, before: World)
    requires SameEffect(record, request) && record.mutation in AppliedTo(w, KeyFor(request))
    ensures TellsTruth(before, request, Conclude(trail, w, request, record, now, recovered))
  {
    var (book, saved) := SaveEffect(w.repo, w.book, record);
    var stored := w.(book := book);
    if saved.Ok? {
      RestoreTells(trail + [stored], stored, request, saved.value, now,
                   if recovered then Some("target_effect_recovered") else None, before);
    }
  }

  lemma ReconcileTells(trail: seq<World>, w: World, request: Request, reason: string, now: Instant, before: World)
    requires KeyFor(request) !in w.book.pending
    ensures TellsTruth(before, request, Reconcile(trail, w, request, reason, now))
  {}

  lemma SharedTells(w: World, request: Request, env: Environment)
    requires request.boundary == Shared && AllOrNothing(request, env) && KeyFor(request) !in w.book.pending
    ensures TellsTruth(w, request, ViaShared(w, request, env))
  {
    var done := ExecuteShared(w, request, env);
    match env.shared
    case SharedCommitted(record) => ConcludeTells([w, done], done, request, record, env.now, false, w);
    case SharedAmbiguous => ReconcileTells([w, done], done, request, "shared_transaction_outcome_ambiguous", env.now, w);
    case _ =>
  }

  lemma AttemptTells(w: World, request: Request, env: Environment)
    requires request.boundary == NonShared && AllOrNothing(request, env) && KeyFor(request) !in w.book.pending
    ensures TellsTruth(w, request, Attempt(w, request, env))
  {
    var done := ExecuteNonShared(w, request, env);
    match env.attempt
    case AttemptCommitted(rows, outcome, adapter) =>
      var record := EffectRecord(request.item.jobId, request.item.itemId, request.item.key, request.mutation,
                                 rows, outcome, adapter, env.now);
      ConcludeTells([w, done], done, request, record, env.later, false, w);
    case AttemptAmbiguous => ReconcileTells([w, done], done, request, "mutation_commit_outcome_ambiguous", env.now, w);
    case _ =>
  }

  lemma NonSharedTells(w: World, request: Request, env: Environment)
    requires request.boundary == NonShared && Truthful(w, request, env) && KeyFor(request) !in w.book.pending
    ensures TellsTruth(w, request, ViaNonShared(w, request, env))
  {
    match env.verify
    case VerifyCommitted(record) =>
      if SameEffect(record, request) { ConcludeTells([w], w, request, record, env.now, true, w); }
    case VerifyAmbiguous => ReconcileTells([w], w, request, "target_effect_verification_ambiguous", env.now, w);
    case VerifyRaised =>
    case _ => AttemptTells(w, request, env);
  }

  /**
   * A call that answers committed or recovered leaves the effect on record, applied and the item completed by it; one
   * that asks for reconciliation leaves that on record; one that reports a failed write-back has changed nothing.
   */
  lemma ResultsAreTrue(w: World, request: Request, context: Context, env: Environment)
    requires KeyOk(w, KeyFor(request), request.boundary) && Truthful(w, request, env)
    ensures TellsTruth(w, request, Execute(w, request, context, env))
  {
    var k := KeyFor(request);
    if context.bulk && request.item.configuration == context.configuration {
      if k in w.book.effects {
        if SameEffect(w.book.effects[k], request) {
          RestoreTells([w], w, request, w.book.effects[k], env.now, Some("committed_effect_recovered"), w);
        }
      } else if k !in w.book.pending {
        if request.boundary == Shared { SharedTells(w, request, env); } else { NonSharedTells(w, request, env); }
      }
    }
  }
}
