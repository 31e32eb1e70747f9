/** The promises of the capacity pool in terms of the calls made and their answers alone (model_routing/capacity.py). */
module CapacityCalls {
  import opened Prelude
  import opened ModelRouting
  import opened Capacity
  import opened CapacityBounds
  import Router

  // ----- Which scopes an operation counts on -----

  predicate CountsOn(s: Scope, operation: Operation, candidate: Candidate) {
    match s.kind
    case SystemKind => s.identifier == "system"
    case RequestKind => operation.path == Interactive && s.identifier == operation.scopeId
    case JobKind => operation.path == Bulk && s.identifier == operation.scopeId
    case TenantKind => s.identifier == operation.tenant
    case ProviderKind => s.identifier == candidate.providerId
    case ModelKind => s.identifier == candidate.modelId
  }

  lemma ScopesCount(s: Scope, operation: Operation, candidate: Candidate)
    ensures s in ScopesFor(operation, candidate) <==> CountsOn(s, operation, candidate)
  {
    var scopes := ScopesFor(operation, candidate);
    if CountsOn(s, operation, candidate) {
      match s.kind
      case SystemKind => assert s == scopes[0];
      case RequestKind => assert s == scopes[1];
      case JobKind => assert s == scopes[1];
      case TenantKind => assert s == scopes[2];
      case ProviderKind => assert s == scopes[3];
      case ModelKind => assert s == scopes[4];
    }
  }

  lemma ConfiguredCounts(limits: map<Scope, Limit>, operation: Operation, candidate: Candidate, s: Scope)
    ensures s in Configured(limits, operation, candidate) <==> s in limits && CountsOn(s, operation, candidate)
  {
    ScopesCount(s, operation, candidate);
  }

  /** A lease holds exactly the limited scopes the operation and its candidate count on. */
  lemma LeaseScopes(p: Pool, operation: Operation, candidates: seq<Candidate>, now: Instant, s: Scope)
    requires AcquireFirst(p, operation, candidates, now).1.Some?
    ensures var admission := AcquireFirst(p, operation, candidates, now).1.value;
            && admission.lease.operationId == operation.id && admission.candidate in candidates
            && (s in admission.lease.scopes <==> s in p.limits && CountsOn(s, operation, admission.candidate))
  {
    AllScopesOrNone(p, operation, candidates, now);
    ConfiguredCounts(p.limits, operation, AcquireFirst(p, operation, candidates, now).1.value.candidate, s);
  }

  // ----- What the calls and answers say -----

  /** An operation that holds capacity, the candidate it was admitted for, and the lease it was given. */
  datatype Grant = Grant(operation: Operation, candidate: Candidate, lease: Lease)

  function AfterCall(running: map<Id, Grant>, call: Call, answer: Answer): map<Id, Grant> {
    match (call, answer)
    case (AcquireCall(operation, _, _), Admitted(Some(admission))) => 
      running[operation.id := Grant(operation, admission.candidate, admission.lease)]
    case (ReleaseCall(lease), Released(true)) => running - {lease.operationId}
    case _ => running
  }

  /** The operations admitted and not released. */
  function Running(running: map<Id, Grant>, calls: seq<Call>, answers: seq<Answer>): map<Id, Grant>
    decreases |calls|
  {
    if calls == [] || answers == [] then running
    else Running(AfterCall(running, calls[0], answers[0]), calls[1..], answers[1..])
  }

  function RunningOn(running: map<Id, Grant>, s: Scope): set<Id> {
    set id | id in running && CountsOn(s, running[id].operation, running[id].candidate)
  }

  /** The call was admitted on the scope within (from, to]. */
  predicate AdmittedOn(call: Call, answer: Answer, s: Scope, from: Instant, to: Instant) {
    && call.AcquireCall? && answer.Admitted? && answer.admission.Some?
    && CountsOn(s, call.operation, answer.admission.value.candidate) && from < call.now <= to
  }

  function RequestsOn(calls: seq<Call>, answers: seq<Answer>, s: Scope, from: Instant, to: Instant): nat {
    if calls == [] || answers == [] then 0
    else RequestsOn(calls[1..], answers[1..], s, from, to) + if AdmittedOn(calls[0], answers[0], s, from, to) then 1 else 0
  }

  function TokensOn(calls: seq<Call>, answers: seq<Answer>, s: Scope, from: Instant, to: Instant): nat {
    if calls == [] || answers == [] then 0
    else
      TokensOn(calls[1..], answers[1..], s, from, to)
      + if AdmittedOn(calls[0], answers[0], s, from, to) then calls[0].operation.tokens else 0
  }

  // ----- They agree with the leases and admissions -----

  /** The admission names the limited scopes its call counts on. */
  predicate NamesScopes(limits: map<Scope, Limit>, call: Call, answer: Answer) {
    call.AcquireCall? && answer.Admitted? && answer.admission.Some? ==>
      forall s :: s in limits ==>
        (s in answer.admission.value.lease.scopes <==> CountsOn(s, call.operation, answer.admission.value.candidate))
  }

  predicate AllNameScopes(limits: map<Scope, Limit>, calls: seq<Call>, answers: seq<Answer>)
    decreases |calls|
  {
    calls == [] || answers == [] || (NamesScopes(limits, calls[0], answers[0]) && AllNameScopes(limits, calls[1..], answers[1..]))
  }

  /** The leases are those of the running operations. */
  predicate LeasesAgree(limits: map<Scope, Limit>, leases: map<Id, Lease>, running: map<Id, Grant>) {
    && leases.Keys == running.Keys && (forall id :: id in leases ==> leases[id] == running[id].lease)
    && forall id, s :: id in leases && s in limits ==>
         (s in leases[id].scopes <==> CountsOn(s, running[id].operation, running[id].candidate))
  }

  lemma {:induction false} AdmitFromShape(b: Book, operation: Operation, candidates: seq<Candidate>, now: Instant)
    ensures var (after, admission) := AdmitFrom(b, operation, candidates, now);
            && after.limits == b.limits
            && match admission
               case None => after.leases == b.leases
               case Some(a) =>
                 && a.lease == Lease(operation.id, Configured(b.limits, operation, a.candidate))
                 && after.leases == b.leases[operation.id := a.lease]
  {
    if candidates != [] { AdmitFromShape(b, operation, candidates[1..], now); }
  }

  lemma KeepAgrees(b: Book, running: map<Id, Grant>, call: Call)
    requires LeasesAgree(b.limits, b.leases, running)
    ensures var (after, answer) := Keep(b, call);
            && after.limits == b.limits && NamesScopes(b.limits, call, answer)
            && LeasesAgree(b.limits, after.leases, AfterCall(running, call, answer))
  {
    match call
    case AcquireCall(operation, candidates, now) =>
      AdmitFromShape(b, operation, candidates, now);
      var admission := Keep(b, call).1.admission;
      if admission.Some? {
        forall s ensures s in admission.value.lease.scopes <==> s in b.limits && CountsOn(s, operation, admission.value.candidate) {
          ConfiguredCounts(b.limits, operation, admission.value.candidate, s);
        }
      }
    case ReleaseCall(lease) =>
  }

  lemma {:induction false} RunAgrees(b: Book, running: map<Id, Grant>, calls: seq<Call>)
    requires LeasesAgree(b.limits, b.leases, running)
    ensures var (last, answers) := RunBook(b, calls);
            && last.limits == b.limits && |answers| == |calls| && AllNameScopes(b.limits, calls, answers)
            && LeasesAgree(b.limits, last.leases, Running(running, calls, answers))
    decreases |calls|
  {
    if calls != [] {
      var (next, answer) := Keep(b, calls[0]);
      KeepAgrees(b, running, calls[0]);
      RunAgrees(next, AfterCall(running, calls[0], answer), calls[1..]);
      var answers := RunBook(next, calls[1..]).1;
      assert ([answer] + answers)[1..] == answers;
    }
  }

  lemma HoldersAreRunning(limits: map<Scope, Limit>, leases: map<Id, Lease>, running: map<Id, Grant>, s: Scope)
    requires LeasesAgree(limits, leases, running) && s in limits
    ensures Holders(leases, s) == RunningOn(running, s)
  {}

  function Between(events: seq<Event>, from: Instant, to: Instant): seq<Event> {
    Filter((e: Event) => from < e.at <= to, events)
  }

  lemma BetweenOne(e: Event, events: seq<Event>, from: Instant, to: Instant)
    ensures Between([e] + events, from, to) == if from < e.at <= to then [e] + Between(events, from, to) else Between(events, from, to)
  {
    FilterConcat((x: Event) => from < x.at <= to, [e], events);
    FilterOne((x: Event) => from < x.at <= to, e);
  }

  lemma {:induction false} CallsAreAdmissions(limits: map<Scope, Limit>, calls: seq<Call>, answers: seq<Answer>, s: Scope,
                                              from: Instant, to: Instant)
    requires s in limits && AllNameScopes(limits, calls, answers)
    ensures |Between(Admissions(calls, answers, s), from, to)| == RequestsOn(calls, answers, s, from, to)
    ensures Tokens(Between(Admissions(calls, answers, s), from, to)) == TokensOn(calls, answers, s, from, to)
    decreases |calls|
  {
    if calls != [] && answers != [] {
      CallsAreAdmissions(limits, calls[1..], answers[1..], s, from, to);
      var rest := Admissions(calls[1..], answers[1..], s);
      var first := AdmissionOf(calls[0], answers[0], s);
      if first == [] {
        assert first + rest == rest;
      } else {
        BetweenOne(first[0], rest, from, to);
        TokensConcat([first[0]], Between(rest, from, to));
      }
    }
  }

  // ----- The bounds -----

  /** Every 60-second window of every run keeps to the limits of every scope, counting the admitted calls themselves. */
  lemma CallWindowBound(limits: map<Scope, Limit>, calls: seq<Call>, clock: Instant, s: Scope, from: Instant)
    requires Chronological(calls, clock) && s in limits
    ensures var answers := Run(Empty(limits), calls).1;
            && (limits[s].requests.Some? ==> RequestsOn(calls, answers, s, from, from + 60_000_000) <= limits[s].requests.value)
            && (limits[s].tokens.Some? ==> TokensOn(calls, answers, s, from, from + 60_000_000) <= limits[s].tokens.value)
  {
    var b := BlankBook(limits);
    EmptyRefines(limits, clock);
    RunRefines(Empty(limits), b, calls, clock);
    RunAgrees(b, map[], calls);
    RollingWindowBound(limits, calls, clock, s, from);
    CallsAreAdmissions(limits, calls, RunBook(b, calls).1, s, from, from + WINDOW);
    var admissions := Admissions(calls, RunBook(b, calls).1, s);
    assert InWindow(admissions, from) == Between(admissions, from, from + WINDOW);
  }

  /** At any time of any run no scope has more operations admitted and not released than its concurrency limit. */
  lemma ConcurrencyBound(limits: map<Scope, Limit>, calls: seq<Call>, clock: Instant, s: Scope)
    requires Chronological(calls, clock) && s in limits && limits[s].concurrency.Some?
    ensures |RunningOn(Running(map[], calls, Run(Empty(limits), calls).1), s)| <= limits[s].concurrency.value
  {
    var b := BlankBook(limits);
    EmptyRefines(limits, clock);
    RunRefines(Empty(limits), b, calls, clock);
    RunAgrees(b, map[], calls);
    ActiveCountsLeases(limits, calls, clock, s);
    HoldersAreRunning(limits, RunBook(b, calls).0.leases, Running(map[], calls, RunBook(b, calls).1), s);
  }

  // ----- Exactly what is admitted -----

  /** One more operation on the scope stays within its limits. */
  predicate StaysWithin(limit: Limit, running: nat, requests: nat, tokens: nat, operation: Operation) {
    && (limit.concurrency.Some? ==> running + 1 <= limit.concurrency.value)
    && (limit.requests.Some? ==> requests + 1 <= limit.requests.value)
    && (limit.tokens.Some? ==> tokens + operation.tokens <= limit.tokens.value)
  }

  /** So it does on every limited scope the operation and candidate count on, after these calls and answers. */
  ghost predicate MayRun(limits: map<Scope, Limit>, calls: seq<Call>, answers: seq<Answer>, operation: Operation,
                         candidate: Candidate, now: Instant)
  {
    forall s :: s in limits && CountsOn(s, operation, candidate) ==>
      StaysWithin(limits[s], |RunningOn(Running(map[], calls, answers), s)|,
                  RequestsOn(calls, answers, s, now - 60_000_000, now), TokensOn(calls, answers, s, now - 60_000_000, now), operation)
  }

  lemma {:induction false} FilterSame(f: Event -> bool, g: Event -> bool, events: seq<Event>)
    requires forall i :: 0 <= i < |events| ==> f(events[i]) == g(events[i])
    ensures Filter(f, events) == Filter(g, events)
  {
    if events != [] { FilterSame(f, g, events[1..]); }
  }

  lemma RecentIsBetween(events: seq<Event>, now: Instant)
    requires Timely(events, now)
    ensures Recent(events, now) == Between(events, now - WINDOW, now)
  {
    FilterSame((e: Event) => e.at > now - WINDOW, (e: Event) => now - WINDOW < e.at <= now, events);
  }

  /** What the book knows of one scope, in terms of the calls. */
  lemma ScopeAccounts(limits: map<Scope, Limit>, b: Book, calls: seq<Call>, answers: seq<Answer>, s: Scope, clock: Instant,
                      now: Instant)
    requires s in limits && b.limits == limits && clock <= now && ScopeKept(b, clock, s)
    requires LeasesAgree(limits, b.leases, Running(map[], calls, answers)) && AllNameScopes(limits, calls, answers)
    requires EventsOf(b.admitted, s) == Admissions(calls, answers, s)
    ensures |Holders(b.leases, s)| == |RunningOn(Running(map[], calls, answers), s)|
    ensures |Recent(EventsOf(b.admitted, s), now)| == RequestsOn(calls, answers, s, now - 60_000_000, now)
    ensures Tokens(Recent(EventsOf(b.admitted, s), now)) == TokensOn(calls, answers, s, now - 60_000_000, now)
  {
    HoldersAreRunning(limits, b.leases, Running(map[], calls, answers), s);
    RecentIsBetween(EventsOf(b.admitted, s), now);
    CallsAreAdmissions(limits, calls, answers, s, now - WINDOW, now);
  }

  /** The book stands where these calls and answers lead from an empty pool. */
  ghost predicate Stands(limits: map<Scope, Limit>, b: Book, calls: seq<Call>, answers: seq<Answer>, clock: Instant) {
    && b.limits == limits && Kept(b, clock) && AllNameScopes(limits, calls, answers)
    && LeasesAgree(limits, b.leases, Running(map[], calls, answers))
    && forall s :: EventsOf(b.admitted, s) == Admissions(calls, answers, s)
  }

  lemma RunStands(limits: map<Scope, Limit>, calls: seq<Call>, clock: Instant) returns (b: Book)
    requires Chronological(calls, clock)
    ensures Refines(Run(Empty(limits), calls).0, b, Clock(calls, clock))
    ensures Stands(limits, b, calls, Run(Empty(limits), calls).1, Clock(calls, clock))
  {
    var blank := BlankBook(limits);
    EmptyRefines(limits, clock);
    RunRefines(Empty(limits), blank, calls, clock);
    RunAgrees(blank, map[], calls);
    RunKept(blank, calls, clock);
    b := RunBook(blank, calls).0;
    forall s ensures EventsOf(b.admitted, s) == Admissions(calls, Run(Empty(limits), calls).1, s) {
      BookRecordsAdmissions(blank, calls, s);
      assert [] + Admissions(calls, RunBook(blank, calls).1, s) == Admissions(calls, RunBook(blank, calls).1, s);
    }
  }

  lemma AdmissibleIffMayRun(limits: map<Scope, Limit>, b: Book, calls: seq<Call>, answers: seq<Answer>, clock: Instant,
                            operation: Operation, candidate: Candidate, now: Instant)
    requires Stands(limits, b, calls, answers, clock) && clock <= now
    ensures Admissible(b, operation, candidate, now) <==> MayRun(limits, calls, answers, operation, candidate, now)
  {
    forall s ensures s in Configured(limits, operation, candidate) <==> s in limits && CountsOn(s, operation, candidate) {
      ConfiguredCounts(limits, operation, candidate, s);
    }
    forall s | s in limits
      ensures |Holders(b.leases, s)| == |RunningOn(Running(map[], calls, answers), s)|
      ensures |Recent(EventsOf(b.admitted, s), now)| == RequestsOn(calls, answers, s, now - 60_000_000, now)
      ensures Tokens(Recent(EventsOf(b.admitted, s), now)) == TokensOn(calls, answers, s, now - 60_000_000, now)
    {
      assert ScopeKept(b, clock, s);
      ScopeAccounts(limits, b, calls, answers, s, clock, now);
    }
  }

  /** The admission is for the first candidate that may run. */
  ghost predicate AdmitsFirst(limits: map<Scope, Limit>, calls: seq<Call>, answers: seq<Answer>, operation: Operation,
                              candidates: seq<Candidate>, now: Instant, chosen: Candidate)
  {
    exists i :: 0 <= i < |candidates| && candidates[i] == chosen && MayRun(limits, calls, answers, operation, candidates[i], now)
      && forall j :: 0 <= j < i ==> !MayRun(limits, calls, answers, operation, candidates[j], now)
  }

  /**
   * After any run, an operation is admitted if and only if it holds no capacity and some candidate may run: one more operation
   * keeps every scope that it and the candidate count on within its concurrency and, over the last 60 seconds, its requests
   * and tokens. It is admitted for the first such candidate.
   */
  lemma AdmissionIff(limits: map<Scope, Limit>, calls: seq<Call>, clock: Instant, operation: Operation, candidates: seq<Candidate>,
                     now: Instant)
    requires Chronological(calls, clock) && Clock(calls, clock) <= now
    ensures var (p, answers) := Run(Empty(limits), calls);
            var admission := AcquireFirst(p, operation, candidates, now).1;
            && (admission.Some? <==>
                  && operation.id !in Running(map[], calls, answers)
                  && exists c :: c in candidates && MayRun(limits, calls, answers, operation, c, now))
            && (admission.Some? ==> AdmitsFirst(limits, calls, answers, operation, candidates, now, admission.value.candidate))
  {
    var b := RunStands(limits, calls, clock);
    var (p, answers) := Run(Empty(limits), calls);
    AcquireRefines(p, b, operation, candidates, Clock(calls, clock), now);
    forall c ensures Admissible(b, operation, c, now) <==> MayRun(limits, calls, answers, operation, c, now) {
      AdmissibleIffMayRun(limits, b, calls, answers, Clock(calls, clock), operation, c, now);
    }
    var i := Router.AdmitFromFirst(b, operation, candidates, now);
    if operation.id !in b.leases && AdmitFrom(b, operation, candidates, now).1.Some? {
      assert candidates[i] in candidates;
    }
  }

  /** After any run, a lease is taken back if and only if it is the one its operation was admitted with and still holds. */
  lemma ReleaseIff(limits: map<Scope, Limit>, calls: seq<Call>, clock: Instant, lease: Lease)
    requires Chronological(calls, clock)
    ensures var (p, answers) := Run(Empty(limits), calls);
            var running := Running(map[], calls, answers);
            Release(p, lease).1 <==> lease.operationId in running && running[lease.operationId].lease == lease
  {
    var b := RunStands(limits, calls, clock);
  }
}
