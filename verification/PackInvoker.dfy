/** The loop of `_invoke_packs` over the budget controller and the router. */
module PackInvocationControl {
  import opened Prelude
  import opened Invocation
  import B = Budget
  import R = Router
  import opened BudgetControl
  import opened ModelRouterControl

  /** The invocation so far, followed by the rest of it. */
  function Following<T>(outputs: seq<T>, charges: seq<Usage>, rest: Invoked<T>): Invoked<T> {
    rest.(outputs := outputs + rest.outputs, charges := charges + rest.charges)
  }

  function ChargeList(charge: Option<Usage>): seq<Usage> {
    if charge.Some? then [charge.value] else []
  }

  lemma FollowingNothing<T>(rest: Invoked<T>)
    ensures Following([], [], rest) == rest
  {
    assert [] + rest.outputs == rest.outputs && [] + rest.charges == rest.charges;
  }

  lemma FollowingOne<T>(outputs: seq<T>, charges: seq<Usage>, output: T, paid: seq<Usage>, rest: Invoked<T>)
    ensures Following(outputs, charges, Invoked(rest.resources, [output] + rest.outputs, rest.failure, paid + rest.charges))
         == Following(outputs + [output], charges + paid, rest)
  {
    assert outputs + ([output] + rest.outputs) == (outputs + [output]) + rest.outputs;
    assert charges + (paid + rest.charges) == (charges + paid) + rest.charges;
  }

  /** A turn either ends the invocation or adds to it. */
  lemma TurnJoins<T>(s: Resources, executionId: Id, calls: seq<Call<T>>, available: R.Availability, outputs: seq<T>,
                     charges: seq<Usage>, one: PackEnd<T>)
    requires B.Inv(s.ledger) && calls != [] && one == InvokeOne(s, executionId, calls[0], available)
    ensures var whole := Following(outputs, charges, InvokePacks(s, executionId, calls, available));
            var paid := charges + ChargeList(one.charge);
            match one.output
            case Err(failure) => whole == Invoked(one.resources, outputs, Some(failure), paid)
            case Ok(output) =>
              && B.Inv(one.resources.ledger)
              && whole == Following(outputs + [output], paid, InvokePacks(one.resources, executionId, calls[1..], available))
  {
    if one.output.Ok? {
      OneKeepsInvariant(s, executionId, calls[0], available);
      FollowingOne(outputs, charges, one.output.value, ChargeList(one.charge),
                   InvokePacks(one.resources, executionId, calls[1..], available));
    }
  }

  class PackInvoker {
    const controller: BudgetController
    const router: ModelRouter

    constructor (controller: BudgetController, router: ModelRouter)
      ensures this.controller == controller && this.router == router
    {
      this.controller, this.router := controller, router;
    }

    ghost function View(): Resources
      reads controller, router, router.capacity
    {
      Resources(controller.View(), router.capacity.View())
    }

    /** One turn: plan, reserve, invoke, and in every case settle what was taken. */
    method InvokePack<T>(executionId: Id, call: Call<T>) returns (output: Result<T, Failure>, ghost charge: Option<Usage>)
      requires B.Inv(controller.View()) && router.capacity.Valid()
      modifies controller, router.capacity
      ensures router.capacity.Valid()
      ensures PackEnd(View(), output, charge) == InvokeOne(old(View()), executionId, call, router.budget)
    {
      charge := None;
      var admission := router.Admit(call.operation, call.candidates, call.policy, call.now);
      if admission.Denied? { return Err(PlanningFailed(admission.failure)), None; }
      var estimate := B.Usage(admission.candidate.cost, call.input, call.output);
      ReservedKeeps(controller.View(), executionId, estimate, call.reservationId);
      var decision := controller.Reserve(executionId, estimate, call.reservationId);
      if decision.Err? {
        output := Err(BudgetRaised(decision.error));
      } else if decision.value.Refused? {
        output := Err(BudgetExhausted(decision.value.exhaustion.scopes));
      } else {
        output := if call.service.Answers? then Ok(call.service.output) else Err(ServiceFailed);
        charge := Some(Due(call.service, estimate));
        var receipt := controller.Reconcile(decision.value.reservation.id, Due(call.service, estimate));
      }
      var done := router.Complete(admission.lease);
    }

    method InvokeAll<T>(executionId: Id, calls: seq<Call<T>>)
      returns (outputs: seq<T>, failure: Option<Failure>, ghost charges: seq<Usage>)
      requires B.Inv(controller.View()) && router.capacity.Valid()
      modifies controller, router.capacity
      ensures router.capacity.Valid()
      ensures Invoked(View(), outputs, failure, charges) == InvokePacks(old(View()), executionId, calls, router.budget)
    {
      outputs, failure, charges := [], None, [];
      ghost var whole := InvokePacks(View(), executionId, calls, router.budget);
      FollowingNothing(whole);
      for i := 0 to |calls|
        invariant router.capacity.Valid() && B.Inv(controller.View()) && failure == None
        invariant whole == Following(outputs, charges, InvokePacks(View(), executionId, calls[i..], router.budget))
      {
        assert calls[i..][0] == calls[i] && calls[i..][1..] == calls[i + 1..];
        TurnJoins(View(), executionId, calls[i..], router.budget, outputs, charges,
                  InvokeOne(View(), executionId, calls[i], router.budget));
        var output: Result<T, Failure>;
        ghost var charge: Option<Usage>;
        output, charge := InvokePack(executionId, calls[i]);
        charges := charges + ChargeList(charge);
        if output.Err? { return outputs, Some(output.error), charges; }
        outputs := outputs + [output.value];
      }
      assert calls[|calls|..] == [];
    }
  }
}
