/** Model-routing values (domain/model_routing.py). */
module ModelRouting {
  import opened Prelude

  datatype Path = Interactive | Bulk

  datatype Candidate = Candidate(
    modelId: Id, providerId: Id, capabilities: set<string>, dataClasses: set<string>,
    cost: nat, priority: int, latency: nat, quality: real)

  datatype Operation = Operation(
    id: Id, tenant: Id, scopeId: Id, path: Path, required: set<string>, tokens: nat,
    minimumQuality: real, dataClasses: set<string>, deadline: Option<Instant>, reserve: nat)

  datatype PolicyDecision = Allow | Deny | Indeterminate

  datatype Policy = Policy(
    version: string, decision: PolicyDecision, available: bool, valid: bool,
    providers: set<Id>, dataClasses: set<string>, minimumQuality: real)
}
