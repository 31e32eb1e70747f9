/** Economical selection and fair scheduling of model operations (model_routing/router.py). */
module Router {
  import opened Prelude
  import opened ModelRouting
  import opened Capacity
  import Sorting

  // ----- Eligibility -----

  datatype Reason =
    | PolicyUnavailable | PolicyInvalid | PolicyDenied | ProviderDenied | DataPolicyDenied
    | CapabilityMissing | QualityIneligible | BudgetIneligible | DeadlineIneligible

  /** Whether the budget can still take a candidate's estimate for an operation. */
  type Availability = (Operation, Candidate) -> bool

  function When(condition: bool, reason: Reason): seq<Reason> {
    if condition then [reason] else []
  }

  function CompletionAt(operation: Operation, candidate: Candidate, now: Instant): Instant {
    now + 1000 * (candidate.latency + operation.reserve)
  }

  /** `_reasons`. */
  function Reasons(operation: Operation, candidate: Candidate, policy: Option<Policy>, now: Instant, budget: Availability)
    : seq<Reason>
  {
    if policy.None? || !policy.value.available then [PolicyUnavailable]
    else if !policy.value.valid then [PolicyInvalid]
    else if policy.value.decision != Allow then [PolicyDenied]
    else
      When(candidate.providerId !in policy.value.providers, ProviderDenied)
      + When(!(operation.dataClasses <= policy.value.dataClasses) || !(operation.dataClasses <= candidate.dataClasses),
             DataPolicyDenied)
      + When(!(operation.required <= candidate.capabilities), CapabilityMissing)
      + When(candidate.quality < (if operation.minimumQuality >= policy.value.minimumQuality
                                  then operation.minimumQuality else policy.value.minimumQuality), QualityIneligible)
      + When(!budget(operation, candidate), BudgetIneligible)
      + When(operation.deadline.Some? && CompletionAt(operation, candidate, now) > operation.deadline.value, DeadlineIneligible)
  }

  predicate Eligible(operation: Operation, candidate: Candidate, policy: Option<Policy>, now: Instant, budget: Availability) {
    Reasons(operation, candidate, policy, now, budget) == []
  }

  /** A candidate is eligible exactly when every gate lets it through. */
  lemma EligibleIff(operation: Operation, candidate: Candidate, policy: Option<Policy>, now: Instant, budget: Availability)
    ensures Eligible(operation, candidate, policy, now, budget) <==>
      && policy.Some? && policy.value.available && policy.value.valid && policy.value.decision == Allow
      && candidate.providerId in policy.value.providers
      && operation.dataClasses <= policy.value.dataClasses * candidate.dataClasses
      && operation.required <= candidate.capabilities
      && candidate.quality >= operation.minimumQuality && candidate.quality >= policy.value.minimumQuality
      && budget(operation, candidate)
      && (operation.deadline.Some? ==> now + 1000 * candidate.latency + 1000 * operation.reserve <= operation.deadline.value)
  {}

  /** The policy lets candidates be looked at. */
  predicate PolicyAllows(policy: Option<Policy>) {
    policy.Some? && policy.value.available && policy.value.valid && policy.value.decision == Allow
  }

  /** The gate of the reason is closed to the candidate. */
  predicate Closed(operation: Operation, candidate: Candidate, policy: Policy, now: Instant, budget: Availability, r: Reason) {
    match r
    case ProviderDenied => candidate.providerId !in policy.providers
    case DataPolicyDenied => exists c :: c in operation.dataClasses && (c !in policy.dataClasses || c !in candidate.dataClasses)
    case CapabilityMissing => exists c :: c in operation.required && c !in candidate.capabilities
    case QualityIneligible => candidate.quality < operation.minimumQuality || candidate.quality < policy.minimumQuality
    case BudgetIneligible => !budget(operation, candidate)
    case DeadlineIneligible =>
      operation.deadline.Some? && now + 1000 * candidate.latency + 1000 * operation.reserve > operation.deadline.value
    case _ => false
  }

  /** Only the first failing of the policy is reported, and otherwise every gate that is closed. */
  lemma ReasonsIff(operation: Operation, candidate: Candidate, policy: Option<Policy>, now: Instant, budget: Availability, r: Reason)
    ensures r in Reasons(operation, candidate, policy, now, budget) <==>
      if PolicyAllows(policy) then Closed(operation, candidate, policy.value, now, budget, r)
      else r == if policy.None? || !policy.value.available then PolicyUnavailable
                else if !policy.value.valid then PolicyInvalid else PolicyDenied
  {}

  // ----- Admission -----

  datatype Failure = NoEligibleModel | DeadlineFailure | CapacityUnavailable

  datatype Verdict = Verdict(candidate: Candidate, reasons: seq<Reason>)

  datatype ModelAdmission =
    | Granted(candidate: Candidate, lease: Lease, eligibility: seq<Verdict>)
    | Denied(failure: Failure, eligibility: seq<Verdict>)

  /** The order (cost, -priority, model id). */
  predicate Cheaper(a: Candidate, b: Candidate) {
    if a.cost != b.cost then a.cost < b.cost
    else if a.priority != b.priority then a.priority > b.priority
    else TextLe(a.modelId, b.modelId)
  }

  lemma CheaperIsPreorder()
    ensures Sorting.Preorder(Cheaper)
  {
    forall a, b ensures Cheaper(a, b) || Cheaper(b, a) {
      TextLeTotal(a.modelId, b.modelId);
    }
    forall a, b, c | Cheaper(a, b) && Cheaper(b, c) ensures Cheaper(a, c) {
      if a.cost == b.cost == c.cost && a.priority == b.priority == c.priority {
        TextLeTransitive(a.modelId, b.modelId, c.modelId);
      }
    }
  }

  function Evaluate(operation: Operation, candidates: seq<Candidate>, policy: Option<Policy>, now: Instant, budget: Availability)
    : (r: seq<Verdict>)
  {
    Map(c => Verdict(c, Reasons(operation, c, policy, now, budget)), candidates)
  }

  /** The eligible candidates, cheapest first. */
  function Ranked(operation: Operation, candidates: seq<Candidate>, policy: Option<Policy>, now: Instant, budget: Availability)
    : seq<Candidate>
  {
    Sorting.Sort(Cheaper, Filter(c => Eligible(operation, c, policy, now, budget), candidates))
  }

  function NoneEligible(eligibility: seq<Verdict>): Failure {
    var reasons := set v, r | v in eligibility && r in v.reasons :: r;
    if reasons == {DeadlineIneligible} then DeadlineFailure else NoEligibleModel
  }

  function Admit(p: Pool, operation: Operation, candidates: seq<Candidate>, policy: Option<Policy>, now: Instant,
                 budget: Availability): (Pool, ModelAdmission)
  {
    var eligibility := Evaluate(operation, candidates, policy, now, budget);
    var ranked := Ranked(operation, candidates, policy, now, budget);
    if ranked == [] then (p, Denied(NoneEligible(eligibility), eligibility))
    else
      var (after, admission) := AcquireFirst(p, operation, ranked, now);
      (after, match admission
        case None => Denied(CapacityUnavailable, eligibility)
        case Some(a) => Granted(a.candidate, a.lease, eligibility))
  }

  /** The candidate is eligible and every limited scope has room for the operation now. */
  ghost predicate Takes(b: Book, operation: Operation, candidate: Candidate, policy: Option<Policy>, now: Instant,
                        budget: Availability)
  {
    Eligible(operation, candidate, policy, now, budget) && Admissible(b, operation, candidate, now)
  }

  /** `candidates[i]` is the first admissible candidate. */
  ghost predicate FirstFit(b: Book, operation: Operation, candidates: seq<Candidate>, now: Instant, i: nat) {
    && i < |candidates| && Admissible(b, operation, candidates[i], now)
    && forall j :: 0 <= j < i ==> !Admissible(b, operation, candidates[j], now)
  }

  ghost predicate NoneFits(b: Book, operation: Operation, candidates: seq<Candidate>, now: Instant) {
    forall c :: c in candidates ==> !Admissible(b, operation, c, now)
  }

  lemma FirstFitShift(b: Book, operation: Operation, candidates: seq<Candidate>, now: Instant, k: nat)
    requires candidates != [] && !Admissible(b, operation, candidates[0], now)
    ensures FirstFit(b, operation, candidates[1..], now, k) ==> FirstFit(b, operation, candidates, now, k + 1)
    ensures NoneFits(b, operation, candidates[1..], now) ==> NoneFits(b, operation, candidates, now)
  {
    assert forall j :: 1 <= j < |candidates| ==> candidates[j] == candidates[1..][j - 1];
    assert forall c :: c in candidates ==> c == candidates[0] || c in candidates[1..];
  }

  lemma {:induction false} AdmitFromFirst(b: Book, operation: Operation, candidates: seq<Candidate>, now: Instant)
    returns (i: nat)
    ensures var admission := AdmitFrom(b, operation, candidates, now).1;
            if admission.Some?
            then FirstFit(b, operation, candidates, now, i) && candidates[i] == admission.value.candidate
            else NoneFits(b, operation, candidates, now)
  {
    i := 0;
    if candidates != [] && !Admissible(b, operation, candidates[0], now) {
      var k := AdmitFromFirst(b, operation, candidates[1..], now);
      i := k + 1;
      FirstFitShift(b, operation, candidates, now, k);
    }
  }

  lemma RankedElements(operation: Operation, candidates: seq<Candidate>, policy: Option<Policy>, now: Instant, budget: Availability)
    ensures var ranked := Ranked(operation, candidates, policy, now, budget);
            && Sorting.Sorted(Cheaper, ranked)
            && forall c :: c in ranked <==> c in candidates && Eligible(operation, c, policy, now, budget)
  {
    var eligible := Filter(c => Eligible(operation, c, policy, now, budget), candidates);
    CheaperIsPreorder();
    Sorting.SortSorted(Cheaper, eligible);
    Sorting.SameElements(Sorting.Sort(Cheaper, eligible), eligible);
  }

  /** The candidate admitted is least by cost, priority and model id among those that could be admitted now. */
  lemma EconomicalAdmission(p: Pool, b: Book, operation: Operation, candidates: seq<Candidate>, policy: Option<Policy>,
                            clock: Instant, now: Instant, budget: Availability, c: Candidate)
    requires Refines(p, b, clock) && clock <= now
    requires Admit(p, operation, candidates, policy, now, budget).1.Granted?
    ensures var chosen := Admit(p, operation, candidates, policy, now, budget).1.candidate;
            && chosen in candidates && Takes(b, operation, chosen, policy, now, budget)
            && (c in candidates && Takes(b, operation, c, policy, now, budget) ==> Cheaper(chosen, c))
  {
    var ranked := Ranked(operation, candidates, policy, now, budget);
    RankedElements(operation, candidates, policy, now, budget);
    AcquireRefines(p, b, operation, ranked, clock, now);
    var i := AdmitFromFirst(b, operation, ranked, now);
    if c in candidates && Takes(b, operation, c, policy, now, budget) {
      assert c in ranked;
      var j :| 0 <= j < |ranked| && ranked[j] == c;
      CheaperIsPreorder();
      assert Cheaper(c, c);
    }
  }

  ghost predicate SomeEligible(operation: Operation, candidates: seq<Candidate>, policy: Option<Policy>, now: Instant,
                               budget: Availability)
  {
    exists c :: c in candidates && Eligible(operation, c, policy, now, budget)
  }

  ghost predicate SomeTakes(b: Book, operation: Operation, candidates: seq<Candidate>, policy: Option<Policy>, now: Instant,
                            budget: Availability)
  {
    exists c :: c in candidates && Takes(b, operation, c, policy, now, budget)
  }

  lemma RankedTakes(b: Book, operation: Operation, candidates: seq<Candidate>, policy: Option<Policy>, now: Instant,
                    budget: Availability)
    ensures var ranked := Ranked(operation, candidates, policy, now, budget);
            && (ranked != [] <==> SomeEligible(operation, candidates, policy, now, budget))
            && ((forall c :: c in ranked ==> !Admissible(b, operation, c, now))
                <==> !SomeTakes(b, operation, candidates, policy, now, budget))
  {
    var ranked := Ranked(operation, candidates, policy, now, budget);
    RankedElements(operation, candidates, policy, now, budget);
    if ranked != [] { assert ranked[0] in candidates; }
    if c :| c in candidates && Eligible(operation, c, policy, now, budget) { assert c in ranked; }
  }

  /** Why an operation is denied: no eligible candidate, or a lease already held, or no room for any. */
  lemma DenialIff(p: Pool, b: Book, operation: Operation, candidates: seq<Candidate>, policy: Option<Policy>,
                  clock: Instant, now: Instant, budget: Availability)
    requires Refines(p, b, clock) && clock <= now
    ensures var r := Admit(p, operation, candidates, policy, now, budget).1;
            && (r.Denied? && r.failure == CapacityUnavailable <==>
                && SomeEligible(operation, candidates, policy, now, budget)
                && (operation.id in p.leases || !SomeTakes(b, operation, candidates, policy, now, budget)))
            && (r.Denied? && r.failure != CapacityUnavailable <==>
                !SomeEligible(operation, candidates, policy, now, budget))
  {
    var ranked := Ranked(operation, candidates, policy, now, budget);
    RankedTakes(b, operation, candidates, policy, now, budget);
    AcquireRefines(p, b, operation, ranked, clock, now);
    var i := AdmitFromFirst(b, operation, ranked, now);
    if AdmitFrom(b, operation, ranked, now).1.Some? { assert ranked[i] in ranked; }
  }

  lemma ReasonListed(operation: Operation, candidates: seq<Candidate>, policy: Option<Policy>, now: Instant, budget: Availability,
                     c: Candidate, r: Reason)
    requires c in candidates && r in Reasons(operation, c, policy, now, budget)
    ensures exists v :: v in Evaluate(operation, candidates, policy, now, budget) && r in v.reasons
  {
    var i :| 0 <= i < |candidates| && candidates[i] == c;
    assert Evaluate(operation, candidates, policy, now, budget)[i].reasons == Reasons(operation, c, policy, now, budget);
  }

  /** Nothing but its deadline keeps the candidate out. */
  predicate LateOnly(operation: Operation, c: Candidate, policy: Option<Policy>, now: Instant, budget: Availability) {
    forall r :: r in Reasons(operation, c, policy, now, budget) <==> r == DeadlineIneligible
  }

  lemma LateEverywhere(operation: Operation, candidates: seq<Candidate>, policy: Option<Policy>, now: Instant, budget: Availability,
                       reasons: set<Reason>)
    requires candidates != [] && forall c :: c in candidates ==> LateOnly(operation, c, policy, now, budget)
    requires reasons == set v, r | v in Evaluate(operation, candidates, policy, now, budget) && r in v.reasons :: r
    ensures reasons == {DeadlineIneligible}
  {
    assert LateOnly(operation, candidates[0], policy, now, budget);
    ReasonListed(operation, candidates, policy, now, budget, candidates[0], DeadlineIneligible);
    forall r | r in reasons ensures r == DeadlineIneligible {
      var v :| v in Evaluate(operation, candidates, policy, now, budget) && r in v.reasons;
      var i :| 0 <= i < |candidates| && Evaluate(operation, candidates, policy, now, budget)[i] == v;
      assert LateOnly(operation, candidates[i], policy, now, budget);
    }
  }

  lemma OnlyLate(operation: Operation, candidates: seq<Candidate>, policy: Option<Policy>, now: Instant, budget: Availability,
                 reasons: set<Reason>, c: Candidate)
    requires !SomeEligible(operation, candidates, policy, now, budget) && c in candidates && reasons == {DeadlineIneligible}
    requires reasons == set v, r | v in Evaluate(operation, candidates, policy, now, budget) && r in v.reasons :: r
    ensures LateOnly(operation, c, policy, now, budget)
  {
    var mine := Reasons(operation, c, policy, now, budget);
    assert !Eligible(operation, c, policy, now, budget);
    forall r | r in mine ensures r == DeadlineIneligible {
      ReasonListed(operation, candidates, policy, now, budget, c, r);
      assert r in reasons;
    }
    assert mine[0] in mine;
  }

  /** When no candidate is eligible, the deadline is the failure exactly when it alone keeps every candidate out. */
  lemma DeadlineFailureIff(operation: Operation, candidates: seq<Candidate>, policy: Option<Policy>, now: Instant, budget: Availability)
    requires !SomeEligible(operation, candidates, policy, now, budget)
    ensures NoneEligible(Evaluate(operation, candidates, policy, now, budget)) == DeadlineFailure <==>
      candidates != [] && forall c :: c in candidates ==> LateOnly(operation, c, policy, now, budget)
  {
    var reasons := set v, r | v in Evaluate(operation, candidates, policy, now, budget) && r in v.reasons :: r;
    if reasons == {DeadlineIneligible} {
      assert DeadlineIneligible in reasons;
      forall c | c in candidates ensures LateOnly(operation, c, policy, now, budget) {
        OnlyLate(operation, candidates, policy, now, budget, reasons, c);
      }
    } else if candidates != [] && forall c :: c in candidates ==> LateOnly(operation, c, policy, now, budget) {
      LateEverywhere(operation, candidates, policy, now, budget, reasons);
    }
  }

  /** A denied operation leaves nothing the reference can see. */
  lemma AdmitRefines(p: Pool, b: Book, operation: Operation, candidates: seq<Candidate>, policy: Option<Policy>,
                     clock: Instant, now: Instant, budget: Availability)
    requires Refines(p, b, clock) && clock <= now
    requires Admit(p, operation, candidates, policy, now, budget).1.Denied?
    ensures Refines(Admit(p, operation, candidates, policy, now, budget).0, b, now)
  {
    var ranked := Ranked(operation, candidates, policy, now, budget);
    Later(p, b, clock, now);
    AcquireRefines(p, b, operation, ranked, clock, now);
    if operation.id !in b.leases && AdmitFrom(b, operation, ranked, now).1.None? {
      RefusalKeepsBook(b, operation, ranked, now);
    }
  }

  /** No candidate that could be admitted now costs less; at the same cost none has a higher priority; then none an earlier id. */
  lemma CheapestAdmitted(p: Pool, b: Book, operation: Operation, candidates: seq<Candidate>, policy: Option<Policy>,
                         clock: Instant, now: Instant, budget: Availability, c: Candidate)
    requires Refines(p, b, clock) && clock <= now
    requires Admit(p, operation, candidates, policy, now, budget).1.Granted?
    requires c in candidates && Takes(b, operation, c, policy, now, budget)
    ensures var chosen := Admit(p, operation, candidates, policy, now, budget).1.candidate;
            && chosen.cost <= c.cost
            && (chosen.cost == c.cost ==> chosen.priority >= c.priority)
            && (chosen.cost == c.cost && chosen.priority == c.priority ==> !LessText(c.modelId, chosen.modelId))
  {
    EconomicalAdmission(p, b, operation, candidates, policy, clock, now, budget, c);
    var chosen := Admit(p, operation, candidates, policy, now, budget).1.candidate;
    LessTextIff(c.modelId, chosen.modelId);
    if LessText(c.modelId, chosen.modelId) && TextLe(chosen.modelId, c.modelId) {
      TextLeAntisymmetric(c.modelId, chosen.modelId);
    }
  }
}
