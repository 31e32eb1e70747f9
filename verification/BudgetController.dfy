/** The budget controller: the ledger of module Budget, updated in place under one lock. */
module BudgetControl {
  import opened Prelude
  import opened Budget

  class BudgetController {
    var balances: map<Scope, Balance>
    var bindings: map<Id, Binding>
    var reservations: map<Id, Record>

    ghost function View(): Ledger
      reads this
    {
      Ledger(balances, bindings, reservations)
    }

    constructor (limits: map<Scope, Usage>)
      ensures View() == Open(limits)
    {
      balances := map s | s in limits :: Balance(limits[s], ZERO, ZERO, 0);
      bindings := map[];
      reservations := map[];
    }

    method Bind(executionId: Id, version: string, scopes: seq<Scope>) returns (r: Result<Binding, BudgetError>)
      modifies this
      ensures (View(), r) == Budget.Bind(old(View()), executionId, version, scopes)
    {
      var normalized := Dedupe(scopes);
      if normalized == [] { return Err(NoScope); }
      if !Known(balances, normalized) { return Err(UnknownScope); }
      var proposed := Binding(executionId, version, normalized);
      if executionId in bindings && bindings[executionId] != proposed { return Err(BindingConflict); }
      bindings := bindings[executionId := proposed];
      return Ok(proposed);
    }

    /** `_exhaustion`. */
    method FindExhaustion(scopes: seq<Scope>, usage: Usage) returns (r: Option<Exhaustion>)
      requires Known(balances, scopes)
      ensures r == if ShortScopes(balances, scopes, usage) == [] then None else Some(Shortage(balances, scopes, usage))
    {
      var exhausted: seq<Scope> := [];
      var cost, tokens := false, false;
      for i := 0 to |scopes|
        invariant Known(balances, scopes[..i])
        invariant exhausted == ShortScopes(balances, scopes[..i], usage)
        invariant cost == CostShort(balances, scopes[..i], usage)
        invariant tokens == TokensShort(balances, scopes[..i], usage)
      {
        ShortStep(balances, scopes, i, usage);
        var balance := balances[scopes[i]];
        if Lacks(balance, usage) { exhausted := exhausted + [scopes[i]]; }
        if LacksCost(balance, usage) { cost := true; }
        if LacksTokens(balance, usage) { tokens := true; }
      }
      assert scopes[..|scopes|] == scopes;
      if exhausted == [] { return None; }
      var dimensions := (if cost then [CostDimension] else []) + (if tokens then [TokensDimension] else []);
      return Some(Budget.Exhaustion.Exhaustion(exhausted, dimensions));
    }

    /** The loop of `reserve`: one scope after another is debited. */
    method DebitAll(scopes: seq<Scope>, estimate: Usage) returns (revisions: seq<(Scope, nat)>)
      requires Known(balances, scopes) && Distinct(scopes)
      modifies this`balances
      ensures balances == Debit(old(balances), scopes, estimate)
      ensures revisions == Revisions(old(balances), scopes)
    {
      revisions := [];
      for i := 0 to |scopes|
        invariant balances == Debit(old(balances), scopes[..i], estimate)
        invariant revisions == Revisions(old(balances), scopes)[..i]
      {
        DebitStep(old(balances), scopes, i, estimate);
        var s := scopes[i];
        var balance := balances[s];
        balances := balances[s := balance.(reserved := Add(balance.reserved, estimate), revision := balance.revision + 1)];
        revisions := revisions + [(s, balance.revision + 1)];
      }
      assert scopes[..|scopes|] == scopes;
    }

    /** The loop of `reconcile`: the estimate of each scope is replaced by the actual usage. */
    method SettleAll(scopes: seq<Scope>, estimate: Usage, actual: Usage) returns (revisions: seq<(Scope, nat)>)
      requires Known(balances, scopes) && Distinct(scopes) && Settleable(balances, scopes, estimate)
      modifies this`balances
      ensures balances == Settle(old(balances), scopes, estimate, actual)
      ensures revisions == Revisions(old(balances), scopes)
    {
      revisions := [];
      for i := 0 to |scopes|
        invariant Settleable(old(balances), scopes[..i], estimate)
        invariant balances == Settle(old(balances), scopes[..i], estimate, actual)
        invariant revisions == Revisions(old(balances), scopes)[..i]
      {
        SettleStep(old(balances), scopes, i, estimate, actual);
        var s := scopes[i];
        var balance := balances[s];
        balances := balances[s := balance.(reserved := Subtract(balance.reserved, estimate),
                                           actual := Add(balance.actual, actual), revision := balance.revision + 1)];
        revisions := revisions + [(s, balance.revision + 1)];
      }
      assert scopes[..|scopes|] == scopes;
    }

    method Reserve(executionId: Id, estimate: Usage, id: Id) returns (r: Result<Decision, BudgetError>)
      requires BindingsKnown(View())
      modifies this
      ensures (View(), r) == Budget.Reserve(old(View()), executionId, estimate, id)
    {
      if executionId !in bindings { return Err(NoBinding); }
      var scopes := bindings[executionId].scopes;
      var exhaustion := FindExhaustion(scopes, estimate);
      if exhaustion.Some? { return Ok(Refused(exhaustion.value)); }
      var revisions := DebitAll(scopes, estimate);
      if Blank(id) || id in reservations { return Err(BadIdentifier); }
      var reservation := Reservation(id, executionId, scopes, estimate, revisions, Active);
      reservations := reservations[id := Record(reservation, None)];
      return Ok(Reserved(reservation));
    }

    method Reconcile(id: Id, actual: Usage) returns (r: Result<Receipt, BudgetError>)
      requires Covered(View())
      modifies this
      ensures (View(), r) == Budget.Reconcile(old(View()), id, actual)
    {
      if id !in reservations { return Err(ReservationNotFound); }
      var record := reservations[id];
      if record.receipt.Some? {
        return if record.receipt.value.actual == actual then Ok(record.receipt.value) else Err(ReservationConflict);
      }
      var reservation := record.reservation;
      var revisions := SettleAll(reservation.scopes, reservation.estimate, actual);
      var receipt := Receipt(id, actual, Released(reservation.estimate, actual), revisions);
      reservations := reservations[id := Record(reservation.(state := Reconciled), Some(receipt))];
      return Ok(receipt);
    }
  }
}
