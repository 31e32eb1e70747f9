/** Invoking the packs of a task: every resource taken for a pack is settled (composition/prototype.py). */
module Invocation {
  import opened Prelude
  import opened ModelRouting
  import B = Budget
  import C = Capacity
  import R = Router

  type Usage = B.Usage

  /** What the model service does with one pack. */
  datatype Service<T> = Answers(output: T, usage: Usage) | Fails

  /** One pack: the operation planned for it, its token estimates, the identifier drawn for its reservation. */
  datatype Call<T> = Call(
    operation: Operation, candidates: seq<Candidate>, policy: Option<Policy>, now: Instant,
    input: nat, output: nat, reservationId: Id, service: Service<T>)

  datatype Resources = Resources(ledger: B.Ledger, pool: C.Pool)

  datatype Failure = PlanningFailed(reason: R.Failure) | BudgetExhausted(scopes: seq<B.Scope>) | BudgetRaised(error: B.BudgetError)
                   | ServiceFailed

  /** One pack's end: its output, or the failure that ends the invocation, and what was charged for it, if anything. */
  datatype PackEnd<T> = PackEnd(resources: Resources, output: Result<T, Failure>, charge: Option<Usage>)

  datatype Invoked<T> = Invoked(resources: Resources, outputs: seq<T>, failure: Option<Failure>, charges: seq<Usage>)

  /** `actual or plan.estimate`. */
  function Due<T>(service: Service<T>, estimate: Usage): Usage {
    match service
    case Answers(_, usage) => usage
    case Fails => estimate
  }

  lemma ReservedKeeps(l: B.Ledger, executionId: Id, estimate: Usage, id: Id)
    requires B.Inv(l)
    ensures var (after, r) := B.Reserve(l, executionId, estimate, id);
            (r.Ok? ==> B.Inv(after) && B.Covered(after))
            && (r.Ok? && r.value.Reserved? ==> r.value.reservation.id == id && !B.BadId(l, id))
  {
    var (after, r) := B.Reserve(l, executionId, estimate, id);
    if r.Ok? {
      if r.value.Reserved? { B.ReserveKeepsInvariant(l, executionId, estimate, id); }
      B.ConservedCovers(after);
    }
  }

  /** The ledger's part of one turn: what is left in it, how the turn ends, and what was charged. */
  datatype Settled<T> = Settled(ledger: B.Ledger, output: Result<T, Failure>, charge: Option<Usage>)

  function ReserveAndSettle<T>(l: B.Ledger, executionId: Id, estimate: Usage, id: Id, service: Service<T>): (r: Settled<T>)
    requires B.Inv(l)
  {
    var (reserved, decision) := B.Reserve(l, executionId, estimate, id);
    if decision.Err? then Settled(reserved, Err(BudgetRaised(decision.error)), None)
    else if decision.value.Refused? then Settled(reserved, Err(BudgetExhausted(decision.value.exhaustion.scopes)), None)
    else
      ReservedKeeps(l, executionId, estimate, id);
      Settled(B.Reconcile(reserved, decision.value.reservation.id, Due(service, estimate)).0,
              if service.Answers? then Ok(service.output) else Err(ServiceFailed), Some(Due(service, estimate)))
  }

  /** One turn of `_invoke_packs`, with its `finally` block. */
  function InvokeOne<T>(s: Resources, executionId: Id, call: Call<T>, available: R.Availability): (r: PackEnd<T>)
    requires B.Inv(s.ledger)
  {
    var (admitted, admission) := R.Admit(s.pool, call.operation, call.candidates, call.policy, call.now, available);
    if admission.Denied? then PackEnd(s.(pool := admitted), Err(PlanningFailed(admission.failure)), None)
    else
      var settled := ReserveAndSettle(s.ledger, executionId, B.Usage(admission.candidate.cost, call.input, call.output),
                                      call.reservationId, call.service);
      PackEnd(Resources(settled.ledger, C.Release(admitted, admission.lease).0), settled.output, settled.charge)
  }

  lemma SettlingKeepsInvariant<T>(l: B.Ledger, executionId: Id, estimate: Usage, id: Id, service: Service<T>)
    requires B.Inv(l)
    ensures var r := ReserveAndSettle(l, executionId, estimate, id, service);
            && (!B.BadId(l, id) ==> B.Inv(r.ledger))
            && (r.output.Ok? ==> !B.BadId(l, id))
  {
    ReservedKeeps(l, executionId, estimate, id);
    if !B.BadId(l, id) {
      B.ReserveKeepsInvariant(l, executionId, estimate, id);
      B.ReconcileKeepsInvariant(B.Reserve(l, executionId, estimate, id).0, id, Due(service, estimate));
    }
  }

  lemma OneKeepsInvariant<T>(s: Resources, executionId: Id, call: Call<T>, available: R.Availability)
    requires B.Inv(s.ledger)
    ensures var r := InvokeOne(s, executionId, call, available);
            !B.BadId(s.ledger, call.reservationId) || r.output.Ok? ==> B.Inv(r.resources.ledger)
  {
    var admission := R.Admit(s.pool, call.operation, call.candidates, call.policy, call.now, available).1;
    if admission.Granted? {
      SettlingKeepsInvariant(s.ledger, executionId, B.Usage(admission.candidate.cost, call.input, call.output),
                             call.reservationId, call.service);
    }
  }

  /** `_invoke_packs`. */
  function InvokePacks<T>(s: Resources, executionId: Id, calls: seq<Call<T>>, available: R.Availability): (r: Invoked<T>)
    requires B.Inv(s.ledger)
    decreases |calls|
  {
    if calls == [] then Invoked(s, [], None, [])
    else
      var one := InvokeOne(s, executionId, calls[0], available);
      var charged := if one.charge.Some? then [one.charge.value] else [];
      match one.output
      case Err(failure) => Invoked(one.resources, [], Some(failure), charged)
      case Ok(output) =>
        OneKeepsInvariant(s, executionId, calls[0], available);
        var rest := InvokePacks(one.resources, executionId, calls[1..], available);
        Invoked(rest.resources, [output] + rest.outputs, rest.failure, charged + rest.charges)
  }

  // ----- Capacity is returned -----

  /** The same leases, and the same number of active operations on every scope. */
  ghost predicate SameHoldings(p: C.Pool, after: C.Pool) {
    p.limits == after.limits && p.leases == after.leases && forall s :: C.ActiveOf(p.active, s) == C.ActiveOf(after.active, s)
  }

  lemma {:induction false} AcquireForm(p: C.Pool, operation: Operation, candidates: seq<Candidate>, now: Instant)
    requires operation.id !in p.leases
    ensures var (after, a) := C.AcquireFrom(p, operation, candidates, now);
            && after.limits == p.limits
            && (a.None? ==> after.active == p.active && after.leases == p.leases)
            && (a.Some? ==>
                  var lease := a.value.lease;
                  && lease.operationId == operation.id && after.leases == p.leases[operation.id := lease]
                  && after.active == C.Bumped(p.active, lease.scopes, 1))
    decreases |candidates|
  {
    if candidates != [] {
      var scopes := C.Configured(p.limits, operation, candidates[0]);
      var pruned := p.(events := C.Pruned(p.events, scopes, now - C.WINDOW));
      if !C.FitsScopes(pruned, scopes, operation.tokens) {
        AcquireForm(pruned, operation, candidates[1..], now);
      }
    }
  }

  /** Releasing what an admission took restores the holdings; a denied admission takes nothing. */
  lemma AdmitThenRelease(p: C.Pool, operation: Operation, candidates: seq<Candidate>, policy: Option<Policy>, now: Instant,
                         available: R.Availability)
    ensures var (after, admission) := R.Admit(p, operation, candidates, policy, now, available);
            if admission.Denied? then SameHoldings(p, after)
            else C.Release(after, admission.lease).1 && SameHoldings(p, C.Release(after, admission.lease).0)
  {
    var ranked := R.Ranked(operation, candidates, policy, now, available);
    if ranked != [] && operation.id !in p.leases {
      AcquireForm(p, operation, ranked, now);
      var (after, a) := C.AcquireFrom(p, operation, ranked, now);
      if a.Some? {
        TakeBack(p, after, a.value.lease);
      }
    }
  }

  lemma TakeBack(p: C.Pool, after: C.Pool, lease: C.Lease)
    requires lease.operationId !in p.leases && after.limits == p.limits
    requires after.leases == p.leases[lease.operationId := lease] && after.active == C.Bumped(p.active, lease.scopes, 1)
    ensures C.Release(after, lease).1 && SameHoldings(p, C.Release(after, lease).0)
  {
    var released := C.Release(after, lease).0;
    assert released.leases == p.leases;
    forall s ensures C.ActiveOf(p.active, s) == C.ActiveOf(released.active, s) {
      assert C.ActiveOf(after.active, s) == C.ActiveOf(p.active, s) + if s in lease.scopes then 1 else 0;
    }
  }

  // ----- The budget is settled -----

  ghost function ActiveIds(l: B.Ledger): set<Id> {
    set id | id in l.reservations && l.reservations[id].receipt.None?
  }

  predicate Bound(l: B.Ledger, executionId: Id, s: B.Scope) {
    executionId in l.bindings && s in l.bindings[executionId].scopes
  }

  function Sum(charges: seq<Usage>): Usage {
    if charges == [] then B.ZERO else B.Add(charges[0], Sum(charges[1..]))
  }

  /** Nothing stays reserved, and the execution's scopes have paid exactly the charges. */
  ghost predicate Charged(l: B.Ledger, after: B.Ledger, executionId: Id, charges: seq<Usage>) {
    && after.bindings == l.bindings && after.balances.Keys == l.balances.Keys && ActiveIds(after) == ActiveIds(l)
    && (forall id :: id in l.reservations ==> id in after.reservations && after.reservations[id] == l.reservations[id])
    && forall s :: s in l.balances ==>
         && after.balances[s].limit == l.balances[s].limit && after.balances[s].reserved == l.balances[s].reserved
         && after.balances[s].actual
            == if Bound(l, executionId, s) then B.Add(l.balances[s].actual, Sum(charges)) else l.balances[s].actual
  }

  lemma NothingCharged(l: B.Ledger, executionId: Id)
    ensures Charged(l, l, executionId, [])
  {}

  lemma SumOne(u: Usage)
    ensures Sum([u]) == u
  {
    assert [u][1..] == [];
  }

  lemma ReserveForm(l: B.Ledger, executionId: Id, estimate: Usage, id: Id)
    requires B.Inv(l) && B.Reserve(l, executionId, estimate, id).1.Ok? && B.Reserve(l, executionId, estimate, id).1.value.Reserved?
    ensures executionId in l.bindings && id !in l.reservations
    ensures var (after, r) := B.Reserve(l, executionId, estimate, id);
            var record := B.Record(r.value.reservation, None);
            && record.reservation.scopes == l.bindings[executionId].scopes && record.reservation.estimate == estimate
            && record.reservation.id == id
            && after.bindings == l.bindings && after.reservations == l.reservations[id := record]
            && after.balances == B.Debit(l.balances, l.bindings[executionId].scopes, estimate)
  {}

  /** Debiting and then settling the same estimate leaves only the charge. */
  lemma DebitThenSettle(balances: map<B.Scope, B.Balance>, scopes: seq<B.Scope>, estimate: Usage, due: Usage, s: B.Scope)
    requires s in balances && B.Settleable(B.Debit(balances, scopes, estimate), scopes, estimate)
    ensures var after := B.Settle(B.Debit(balances, scopes, estimate), scopes, estimate, due)[s];
            && after.limit == balances[s].limit && after.reserved == balances[s].reserved
            && after.actual == if s in scopes then B.Add(balances[s].actual, due) else balances[s].actual
  {
    var debited := B.Debit(balances, scopes, estimate)[s];
    if s in scopes { AddSubtract(balances[s].reserved, estimate); }
  }

  lemma AddSubtract(u: Usage, e: Usage)
    ensures B.Covers(B.Add(u, e), e) && B.Subtract(B.Add(u, e), e) == u
  {}

  lemma OpenedAndClosed(rs: B.Reservations, id: Id, open: B.Record, closed: B.Record)
    requires id !in rs && closed.receipt.Some?
    ensures var after := rs[id := open][id := closed];
            && (forall x :: x in rs ==> x in after && after[x] == rs[x])
            && (set x | x in after && after[x].receipt.None?) == (set x | x in rs && rs[x].receipt.None?)
  {
    var after := rs[id := open][id := closed];
    forall x ensures x in after && after[x].receipt.None? <==> x in rs && rs[x].receipt.None? {}
  }

  lemma ReconcileForm(l: B.Ledger, id: Id, due: Usage)
    requires B.Covered(l) && id in l.reservations && l.reservations[id].receipt.None?
    ensures var (after, r) := B.Reconcile(l, id, due);
            var reservation := l.reservations[id].reservation;
            && r.Ok? && B.Settleable(l.balances, reservation.scopes, reservation.estimate)
            && after.bindings == l.bindings && after.balances == B.Settle(l.balances, reservation.scopes, reservation.estimate, due)
            && id in after.reservations && after.reservations[id].receipt.Some?
            && after.reservations == l.reservations[id := after.reservations[id]]
  {}

  /** A reservation reconciled at once leaves only its charge. */
  lemma SettledAtOnce(l: B.Ledger, executionId: Id, estimate: Usage, id: Id, due: Usage, reserved: B.Ledger, after: B.Ledger)
    requires B.Inv(l) && B.Covered(reserved) && reserved == B.Reserve(l, executionId, estimate, id).0
    requires var r := B.Reserve(l, executionId, estimate, id).1; r.Ok? && r.value.Reserved?
    requires after == B.Reconcile(reserved, id, due).0
    ensures B.Reconcile(reserved, id, due).1.Ok? && Charged(l, after, executionId, [due])
    ensures after.reservations.Keys == l.reservations.Keys + {id}
  {
    ReserveForm(l, executionId, estimate, id);
    ReconcileForm(reserved, id, due);
    OpenedAndClosed(l.reservations, id, reserved.reservations[id], after.reservations[id]);
    ChargedOnce(l, after, executionId, estimate, due);
  }

  lemma ChargedOnce(l: B.Ledger, after: B.Ledger, executionId: Id, estimate: Usage, due: Usage)
    requires executionId in l.bindings && after.bindings == l.bindings && ActiveIds(after) == ActiveIds(l)
    requires forall id :: id in l.reservations ==> id in after.reservations && after.reservations[id] == l.reservations[id]
    requires var scopes := l.bindings[executionId].scopes;
             && B.Settleable(B.Debit(l.balances, scopes, estimate), scopes, estimate)
             && after.balances == B.Settle(B.Debit(l.balances, scopes, estimate), scopes, estimate, due)
    ensures Charged(l, after, executionId, [due])
  {
    SumOne(due);
    forall s | s in l.balances
      ensures after.balances[s].limit == l.balances[s].limit && after.balances[s].reserved == l.balances[s].reserved
      ensures after.balances[s].actual
           == if Bound(l, executionId, s) then B.Add(l.balances[s].actual, Sum([due])) else l.balances[s].actual
    {
      DebitThenSettle(l.balances, l.bindings[executionId].scopes, estimate, due, s);
    }
  }

  /** The ledger's part of one turn leaves only the charge. */
  lemma SettlingBalances<T>(l: B.Ledger, executionId: Id, estimate: Usage, id: Id, service: Service<T>)
    requires B.Inv(l) && !B.BadId(l, id)
    ensures var r := ReserveAndSettle(l, executionId, estimate, id, service);
            && Charged(l, r.ledger, executionId, if r.charge.Some? then [r.charge.value] else [])
            && r.ledger.reservations.Keys <= l.reservations.Keys + {id}
  {
    NothingCharged(l, executionId);
    var (reserved, decision) := B.Reserve(l, executionId, estimate, id);
    if decision.Ok? && decision.value.Reserved? {
      ReservedKeeps(l, executionId, estimate, id);
      SettledAtOnce(l, executionId, estimate, id, Due(service, estimate), reserved, B.Reconcile(reserved, id, Due(service, estimate)).0);
    }
  }

  /** One pack: capacity is returned, and the ledger shows the charge and no reservation. */
  lemma OneBalances<T>(s: Resources, executionId: Id, call: Call<T>, available: R.Availability)
    requires B.Inv(s.ledger) && !B.BadId(s.ledger, call.reservationId)
    ensures var r := InvokeOne(s, executionId, call, available);
            && SameHoldings(s.pool, r.resources.pool)
            && Charged(s.ledger, r.resources.ledger, executionId, if r.charge.Some? then [r.charge.value] else [])
            && r.resources.ledger.reservations.Keys <= s.ledger.reservations.Keys + {call.reservationId}
  {
    AdmitThenRelease(s.pool, call.operation, call.candidates, call.policy, call.now, available);
    NothingCharged(s.ledger, executionId);
    var admission := R.Admit(s.pool, call.operation, call.candidates, call.policy, call.now, available).1;
    if admission.Granted? {
      SettlingBalances(s.ledger, executionId, B.Usage(admission.candidate.cost, call.input, call.output),
                       call.reservationId, call.service);
    }
  }

  lemma ChargedTwice(l: B.Ledger, between: B.Ledger, after: B.Ledger, executionId: Id, first: seq<Usage>, rest: seq<Usage>)
    requires |first| == 1 && Charged(l, between, executionId, first) && Charged(between, after, executionId, rest)
    ensures Charged(l, after, executionId, first + rest)
  {
    SumOne(first[0]);
    assert first == [first[0]] && (first + rest)[1..] == rest;
    forall s | s in l.balances
      ensures after.balances[s].actual
           == if Bound(l, executionId, s) then B.Add(l.balances[s].actual, Sum(first + rest)) else l.balances[s].actual
    {}
  }

  ghost predicate FreshIds<T>(l: B.Ledger, calls: seq<Call<T>>) {
    && (forall i :: 0 <= i < |calls| ==> !B.BadId(l, calls[i].reservationId))
    && (forall i, j :: 0 <= i < j < |calls| ==> calls[i].reservationId != calls[j].reservationId)
  }

  lemma StillFresh<T>(l: B.Ledger, after: B.Ledger, calls: seq<Call<T>>)
    requires calls != [] && FreshIds(l, calls) && after.reservations.Keys <= l.reservations.Keys + {calls[0].reservationId}
    ensures FreshIds(after, calls[1..])
  {
    forall i | 0 <= i < |calls[1..]| ensures !B.BadId(after, calls[1..][i].reservationId) {
      assert calls[1..][i] == calls[i + 1] && !B.BadId(l, calls[i + 1].reservationId);
    }
  }

  /**
   * However the invocation ends, the capacity leases and active reservations are those at entry, and each scope of
   * the execution has paid the charges of the reserved packs and nothing else.
   */
  lemma {:induction false} ResourcesBalance<T>(s: Resources, executionId: Id, calls: seq<Call<T>>, available: R.Availability)
    requires B.Inv(s.ledger) && FreshIds(s.ledger, calls)
    ensures var r := InvokePacks(s, executionId, calls, available);
            && SameHoldings(s.pool, r.resources.pool) && Charged(s.ledger, r.resources.ledger, executionId, r.charges)
            && B.Inv(r.resources.ledger)
    decreases |calls|
  {
    if calls == [] {
      NothingCharged(s.ledger, executionId);
    } else {
      OneBalances(s, executionId, calls[0], available);
      OneKeepsInvariant(s, executionId, calls[0], available);
      var one := InvokeOne(s, executionId, calls[0], available);
      if one.output.Ok? {
        StillFresh(s.ledger, one.resources.ledger, calls);
        ResourcesBalance(one.resources, executionId, calls[1..], available);
        var rest := InvokePacks(one.resources, executionId, calls[1..], available);
        ChargedTwice(s.ledger, one.resources.ledger, rest.resources.ledger, executionId, [one.charge.value], rest.charges);
      }
    }
  }

  /** The charge of pack `i` is the usage its service reported, or else its own estimate. */
  ghost predicate ChargedFor<T>(call: Call<T>, charge: Usage) {
    match call.service
    case Answers(_, usage) => charge == usage
    case Fails => charge.input == call.input && charge.output == call.output
                  && exists c :: c in call.candidates && charge.cost == c.cost
  }

  lemma OneCharge<T>(s: Resources, executionId: Id, call: Call<T>, available: R.Availability)
    requires B.Inv(s.ledger)
    ensures var r := InvokeOne(s, executionId, call, available);
            && (r.charge.Some? ==> ChargedFor(call, r.charge.value))
            && (r.output.Ok? ==> r.charge.Some? && call.service.Answers? && r.output.value == call.service.output)
            && (r.output == Err(ServiceFailed) <==> r.charge.Some? && r.output.Err?)
  {
    var (admitted, admission) := R.Admit(s.pool, call.operation, call.candidates, call.policy, call.now, available);
    if admission.Granted? {
      AdmittedIsCandidate(s.pool, call.operation, call.candidates, call.policy, call.now, available);
    }
  }

  lemma AdmittedIsCandidate(p: C.Pool, operation: Operation, candidates: seq<Candidate>, policy: Option<Policy>, now: Instant,
                            available: R.Availability)
    requires R.Admit(p, operation, candidates, policy, now, available).1.Granted?
    ensures R.Admit(p, operation, candidates, policy, now, available).1.candidate in candidates
  {
    var eligible := Filter(c => R.Eligible(operation, c, policy, now, available), candidates);
    var ranked := R.Sorting.Sort(R.Cheaper, eligible);
    R.Sorting.SameElements(ranked, eligible);
    AcquiredIsCandidate(p, operation, R.Ranked(operation, candidates, policy, now, available), now);
  }

  lemma {:induction false} AcquiredIsCandidate(p: C.Pool, operation: Operation, candidates: seq<Candidate>, now: Instant)
    requires C.AcquireFrom(p, operation, candidates, now).1.Some?
    ensures C.AcquireFrom(p, operation, candidates, now).1.value.candidate in candidates
    decreases |candidates|
  {
    var scopes := C.Configured(p.limits, operation, candidates[0]);
    var pruned := p.(events := C.Pruned(p.events, scopes, now - C.WINDOW));
    if !C.FitsScopes(pruned, scopes, operation.tokens) {
      AcquiredIsCandidate(pruned, operation, candidates[1..], now);
    }
  }

  /** Charges and outputs follow the packs in order. */
  ghost predicate Follows<T>(calls: seq<Call<T>>, r: Invoked<T>) {
    && |r.outputs| <= |r.charges| <= |calls|
    && (forall i :: 0 <= i < |r.charges| ==> ChargedFor(calls[i], r.charges[i]))
    && (forall i :: 0 <= i < |r.outputs| ==> calls[i].service.Answers? && r.outputs[i] == calls[i].service.output)
    && (r.failure.None? <==> |r.outputs| == |calls|)
    && (|r.charges| == |r.outputs| + if r.failure == Some(ServiceFailed) then 1 else 0)
  }

  lemma FollowsOne<T>(calls: seq<Call<T>>, charge: Usage, rest: Invoked<T>, whole: Invoked<T>)
    requires calls != [] && calls[0].service.Answers? && ChargedFor(calls[0], charge) && Follows(calls[1..], rest)
    requires whole.outputs == [calls[0].service.output] + rest.outputs && whole.charges == [charge] + rest.charges
    requires whole.failure == rest.failure
    ensures Follows(calls, whole)
  {
    assert forall i :: 1 <= i < |calls| ==> calls[i] == calls[1..][i - 1];
    forall i | 0 <= i < |whole.charges| ensures ChargedFor(calls[i], whole.charges[i]) {
      if i > 0 { assert ChargedFor(calls[1..][i - 1], rest.charges[i - 1]); }
    }
  }

  /** The packs that were charged are a prefix of the packs, each at its due; outputs come from them in order. */
  lemma {:induction false} ChargesFollowPacks<T>(s: Resources, executionId: Id, calls: seq<Call<T>>, available: R.Availability)
    requires B.Inv(s.ledger)
    ensures Follows(calls, InvokePacks(s, executionId, calls, available))
    decreases |calls|
  {
    if calls != [] {
      OneCharge(s, executionId, calls[0], available);
      var one := InvokeOne(s, executionId, calls[0], available);
      if one.output.Ok? {
        OneKeepsInvariant(s, executionId, calls[0], available);
        ChargesFollowPacks(one.resources, executionId, calls[1..], available);
        FollowsOne(calls, one.charge.value, InvokePacks(one.resources, executionId, calls[1..], available),
                   InvokePacks(s, executionId, calls, available));
      }
    }
  }

  // ----- How a turn ends -----

  /** The reservation the turn asks for, once it was admitted. */
  function Asked<T>(s: Resources, executionId: Id, call: Call<T>, admission: R.ModelAdmission): Result<B.Decision, B.BudgetError>
    requires B.Inv(s.ledger) && admission.Granted?
  {
    B.Reserve(s.ledger, executionId, B.Usage(admission.candidate.cost, call.input, call.output), call.reservationId).1
  }

  /**
   * A pack is answered if and only if it is admitted, its estimate is reserved and the service answers; it is then charged what
   * the service reports. A failing service charges the estimate; without an admission or a reservation nothing is charged.
   */
  lemma TurnIff<T>(s: Resources, executionId: Id, call: Call<T>, available: R.Availability)
    requires B.Inv(s.ledger)
    ensures var one := InvokeOne(s, executionId, call, available);
            var admission := R.Admit(s.pool, call.operation, call.candidates, call.policy, call.now, available).1;
            if admission.Denied? then one.output == Err(PlanningFailed(admission.failure)) && one.charge == None
            else
              match Asked(s, executionId, call, admission)
              case Err(error) => one.output == Err(BudgetRaised(error)) && one.charge == None
              case Ok(Refused(exhaustion)) => one.output == Err(BudgetExhausted(exhaustion.scopes)) && one.charge == None
              case Ok(Reserved(_)) =>
                if call.service.Answers? then one.output == Ok(call.service.output) && one.charge == Some(call.service.usage)
                else one.output == Err(ServiceFailed)
                     && one.charge == Some(B.Usage(admission.candidate.cost, call.input, call.output))
  {}

  lemma AnsweredByService<T>(s: Resources, executionId: Id, call: Call<T>, available: R.Availability)
    requires B.Inv(s.ledger) && InvokeOne(s, executionId, call, available).output.Ok?
    ensures call.service.Answers? && InvokeOne(s, executionId, call, available).output.value == call.service.output
  {}

  /** The first outputs are those of the first packs' services. */
  predicate OutputsOf<T(==)>(outputs: seq<T>, calls: seq<Call<T>>) {
    && |outputs| <= |calls|
    && forall i :: 0 <= i < |outputs| ==> calls[i].service.Answers? && outputs[i] == calls[i].service.output
  }

  lemma OutputsCons<T>(outputs: seq<T>, calls: seq<Call<T>>)
    requires calls != [] && calls[0].service.Answers? && OutputsOf(outputs, calls[1..])
    ensures OutputsOf([calls[0].service.output] + outputs, calls)
  {
    assert forall i :: 1 <= i < |calls| ==> calls[i] == calls[1..][i - 1];
  }

  /** The packs are tried in order up to the first that is not answered, whose failure ends the invocation. */
  lemma {:induction false} StopsAtFailure<T>(s: Resources, executionId: Id, calls: seq<Call<T>>, available: R.Availability)
    requires B.Inv(s.ledger)
    ensures var r := InvokePacks(s, executionId, calls, available);
            OutputsOf(r.outputs, calls) && (r.failure.None? <==> |r.outputs| == |calls|)
    decreases |calls|
  {
    if calls != [] {
      var one := InvokeOne(s, executionId, calls[0], available);
      if one.output.Ok? {
        AnsweredByService(s, executionId, calls[0], available);
        OneKeepsInvariant(s, executionId, calls[0], available);
        StopsAtFailure(one.resources, executionId, calls[1..], available);
        OutputsCons(InvokePacks(one.resources, executionId, calls[1..], available).outputs, calls);
      }
    }
  }
}
