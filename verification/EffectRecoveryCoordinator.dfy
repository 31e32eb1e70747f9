/** The recovery coordinator over the durable repository and an effect adapter. */
module EffectRecoveryControl {
  import opened Prelude
  import opened Repository
  import opened Effects
  import opened DurableRepositoryControl

  /** The target of write-backs: the mutations it has applied under each key. Its answers are given to each call. */
  class EffectAdapter {
    var applied: map<Key, seq<Mutation>>

    constructor ()
      ensures applied == map[]
    {
      applied := map[];
    }

    function AppliedUnder(key: Key): seq<Mutation>
      reads this
    {
      if key in applied then applied[key] else []
    }

    /** One transaction for the mutation and its effect record. */
    method ExecuteShared(repository: DurableRepository, request: Request, env: Environment) returns (reply: SharedReply)
      modifies this, repository`effects
      ensures World(repository.Work(), repository.Books(), applied)
           == Effects.ExecuteShared(World(old(repository.Work()), old(repository.Books()), old(applied)), request, env)
      ensures reply == env.shared
    {
      if env.applies {
        applied := applied[KeyFor(request) := AppliedUnder(KeyFor(request)) + [request.mutation]];
        repository.effects := repository.effects[KeyFor(request) := env.stored];
      }
      return env.shared;
    }

    method ExecuteNonShared(request: Request, env: Environment) returns (reply: AttemptReply)
      modifies this
      ensures applied == if env.applies then old(applied)[KeyFor(request) := old(AppliedUnder(KeyFor(request))) + [request.mutation]]
                         else old(applied)
      ensures reply == env.attempt
    {
      if env.applies {
        applied := applied[KeyFor(request) := AppliedUnder(KeyFor(request)) + [request.mutation]];
      }
      return env.attempt;
    }
  }

  /** The call ended in this world with this result. */
  predicate EndsIn(outcome: Outcome, w: World, r: Result<EffectResult, EffectError>) {
    outcome.trail != [] && outcome.trail[|outcome.trail| - 1] == w && outcome.result == r
  }

  class EffectRecoveryCoordinator {
    const repository: DurableRepository
    const adapter: EffectAdapter

    constructor (repository: DurableRepository, adapter: EffectAdapter)
      ensures this.repository == repository && this.adapter == adapter
    {
      this.repository, this.adapter := repository, adapter;
    }

    ghost function View(): World
      reads repository, adapter
    {
      World(repository.Work(), repository.Books(), adapter.applied)
    }

    /** `_restore_checkpoint`. */
    method RestoreCheckpoint(request: Request, record: EffectRecord, now: Instant) returns (r: Result<Checkpoint, EffectError>)
      requires repository.Valid()
      modifies repository`items, repository`checkpoints
      ensures repository.Valid() && (View(), r) == Effects.RestoreCheckpoint(old(View()), request, record, now)
    {
      var key := Key(record.jobId, record.key);
      var state := repository.ResumeState(key);
      if state.Err? { return Err(WorkFailed(state.error)); }
      var latest := state.value.latest;
      if latest.Some? && latest.value.stage == Finished { return Ok(latest.value); }
      var owner := request.item.leaseOwner;
      if owner.None? { return Err(NoLease); }
      var saved := repository.SaveCheckpoint(key, owner.value, Finished, "write_back_committed:" + record.outcome, now, None);
      return if saved.Err? then Err(WorkFailed(saved.error)) else Ok(saved.value);
    }

    /** `_reconcile`. */
    method Reconcile(request: Request, reason: string, now: Instant, ghost trail: seq<World>) returns (r: Result<EffectResult, EffectError>)
      requires repository.Valid()
      modifies repository`reconciliations
      ensures repository.Valid() && EndsIn(Effects.Reconcile(trail, old(View()), request, reason, now), View(), r)
    {
      var saved := repository.SaveReconciliation(
        Reconciliation(request.item.jobId, request.item.itemId, request.item.key, request.mutation, reason, now));
      return if saved.Err? then Err(saved.error) else Ok(ReconciliationRequired(saved.value));
    }

    /** Reports a recorded effect once its checkpoint is in place. */
    method Restore(request: Request, record: EffectRecord, now: Instant, recovered: Option<string>, ghost trail: seq<World>)
      returns (r: Result<EffectResult, EffectError>)
      requires repository.Valid()
      modifies repository`items, repository`checkpoints
      ensures repository.Valid() && EndsIn(Effects.Restore(trail, old(View()), request, record, now, recovered), View(), r)
    {
      var checkpoint := RestoreCheckpoint(request, record, now);
      if checkpoint.Err? { return Err(checkpoint.error); }
      return Ok(if recovered.Some? then Recovered(record, checkpoint.value, recovered.value) else Committed(record, checkpoint.value));
    }

    /** Saves the effect, then restores the checkpoint. */
    method Conclude(request: Request, record: EffectRecord, now: Instant, recovered: bool, ghost trail: seq<World>)
      returns (r: Result<EffectResult, EffectError>)
      requires repository.Valid()
      modifies repository`effects, repository`items, repository`checkpoints
      ensures repository.Valid() && EndsIn(Effects.Conclude(trail, old(View()), request, record, now, recovered), View(), r)
    {
      var saved := repository.SaveEffect(record);
      if saved.Err? { return Err(saved.error); }
      r := Restore(request, saved.value, now, if recovered then Some("target_effect_recovered") else None, trail + [View()]);
    }

    method ExecuteShared(request: Request, env: Environment) returns (r: Result<EffectResult, EffectError>)
      requires repository.Valid()
      modifies repository, adapter
      ensures repository.Valid() && EndsIn(ViaShared(old(View()), request, env), View(), r)
    {
      ghost var w := View();
      var evidence := adapter.ExecuteShared(repository, request, env);
      match evidence
      case SharedRaised => return Err(AdapterRaised);
      case SharedCommitted(record) =>
        if !SameEffect(record, request) { return Err(EffectConflict); }
        r := Conclude(request, record, env.now, false, [w, View()]);
      case SharedAmbiguous => r := Reconcile(request, "shared_transaction_outcome_ambiguous", env.now, [w, View()]);
      case SharedRolledBack => return Ok(EffectResult.WriteBackFailed);
      case SharedAbsent => return Ok(EffectResult.WriteBackFailed);
    }

    method AttemptNonShared(request: Request, env: Environment) returns (r: Result<EffectResult, EffectError>)
      requires repository.Valid()
      modifies repository, adapter
      ensures repository.Valid() && EndsIn(Attempt(old(View()), request, env), View(), r)
    {
      ghost var w := View();
      var attempt := adapter.ExecuteNonShared(request, env);
      match attempt
      case AttemptRaised => return Err(AdapterRaised);
      case AttemptRolledBack => return Ok(EffectResult.WriteBackFailed);
      case AttemptAmbiguous => r := Reconcile(request, "mutation_commit_outcome_ambiguous", env.now, [w, View()]);
      case AttemptCommitted(rows, outcome, version) =>
        var record := EffectRecord(request.item.jobId, request.item.itemId, request.item.key, request.mutation,
                                   rows, outcome, version, env.now);
        r := Conclude(request, record, env.later, false, [w, View()]);
    }

    method ExecuteNonShared(request: Request, env: Environment) returns (r: Result<EffectResult, EffectError>)
      requires repository.Valid()
      modifies repository, adapter
      ensures repository.Valid() && EndsIn(ViaNonShared(old(View()), request, env), View(), r)
    {
      match env.verify
      case VerifyRaised => return Err(AdapterRaised);
      case VerifyCommitted(record) =>
        if !SameEffect(record, request) { return Err(EffectConflict); }
        r := Conclude(request, record, env.now, true, [View()]);
      case VerifyAmbiguous => r := Reconcile(request, "target_effect_verification_ambiguous", env.now, [View()]);
      case VerifyAbsent => r := AttemptNonShared(request, env);
      case VerifyRolledBack => r := AttemptNonShared(request, env);
    }

    method Execute(request: Request, context: Context, env: Environment) returns (r: Result<EffectResult, EffectError>)
      requires repository.Valid()
      modifies repository, adapter
      ensures repository.Valid() && EndsIn(Effects.Execute(old(View()), request, context, env), View(), r)
    {
      if !context.bulk { return Err(BadContext); }
      if request.item.configuration != context.configuration { return Err(BadContext); }
      var key := KeyFor(request);
      if key in repository.effects {
        var existing := repository.effects[key];
        if !SameEffect(existing, request) { return Err(EffectConflict); }
        r := Restore(request, existing, env.now, Some("committed_effect_recovered"), [View()]);
        return;
      }
      if key in repository.reconciliations {
        var pending := repository.reconciliations[key];
        if !SameReconciliation(pending, request) { return Err(EffectConflict); }
        return Ok(ReconciliationRequired(pending));
      }
      if request.boundary == Shared {
        r := ExecuteShared(request, env);
      } else {
        r := ExecuteNonShared(request, env);
      }
    }
  }
}
