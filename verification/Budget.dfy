/** The multi-scope budget ledger (control_plane/budget.py). */
module Budget {
  import opened Prelude

  type Scope = Id

  datatype Usage = Usage(cost: nat, input: nat, output: nat) {
    function Tokens(): nat { input + output }
  }

  const ZERO := Usage(0, 0, 0)

  datatype Balance = Balance(limit: Usage, reserved: Usage, actual: Usage, revision: nat)
  datatype Binding = Binding(executionId: Id, configurationVersion: string, scopes: seq<Scope>)
  datatype ReservationState = Active | Reconciled
  datatype Reservation = Reservation(
    id: Id, executionId: Id, scopes: seq<Scope>, estimate: Usage,
    revisions: seq<(Scope, nat)>, state: ReservationState)
  datatype Receipt = Receipt(id: Id, actual: Usage, released: Usage, revisions: seq<(Scope, nat)>)
  datatype Record = Record(reservation: Reservation, receipt: Option<Receipt>)

  datatype Dimension = CostDimension | TokensDimension
  datatype Exhaustion = Exhaustion(scopes: seq<Scope>, dimensions: seq<Dimension>)
  datatype Decision = Reserved(reservation: Reservation) | Refused(exhaustion: Exhaustion)

  datatype BudgetError = NoBinding | NoScope | UnknownScope | BindingConflict
                       | ReservationNotFound | ReservationConflict | BadIdentifier

  datatype Ledger = Ledger(
    balances: map<Scope, Balance>, bindings: map<Id, Binding>, reservations: map<Id, Record>)

  // ----- Usage arithmetic -----

  function Add(left: Usage, right: Usage): Usage {
    Usage(left.cost + right.cost, left.input + right.input, left.output + right.output)
  }

  predicate Covers(left: Usage, right: Usage) {
    left.cost >= right.cost && left.input >= right.input && left.output >= right.output
  }

  /** A negative component would be refused by the `Usage` constructor. */
  function Subtract(left: Usage, right: Usage): Usage
    requires Covers(left, right)
  {
    Usage(left.cost - right.cost, left.input - right.input, left.output - right.output)
  }

  predicate LacksCost(balance: Balance, usage: Usage) {
    usage.cost > balance.limit.cost - balance.reserved.cost - balance.actual.cost
  }

  predicate LacksTokens(balance: Balance, usage: Usage) {
    usage.Tokens() > balance.limit.Tokens() - balance.reserved.Tokens() - balance.actual.Tokens()
  }

  predicate Lacks(balance: Balance, usage: Usage) {
    LacksCost(balance, usage) || LacksTokens(balance, usage)
  }

  // ----- Transitions -----

  predicate Known(balances: map<Scope, Balance>, scopes: seq<Scope>) {
    forall s :: s in scopes ==> s in balances
  }

  function Bind(l: Ledger, executionId: Id, version: string, scopes: seq<Scope>): (Ledger, Result<Binding, BudgetError>)
  {
    var normalized := Dedupe(scopes);
    if normalized == [] then (l, Err(NoScope))
    else if !Known(l.balances, normalized) then (l, Err(UnknownScope))
    else
      var proposed := Binding(executionId, version, normalized);
      if executionId in l.bindings && l.bindings[executionId] != proposed then (l, Err(BindingConflict))
      else (l.(bindings := l.bindings[executionId := proposed]), Ok(proposed))
  }

  /** The scopes too short for `usage`, in binding order. */
  function ShortScopes(balances: map<Scope, Balance>, scopes: seq<Scope>, usage: Usage): (r: seq<Scope>)
    requires Known(balances, scopes)
    ensures r == [] <==> forall s :: s in scopes ==> !Lacks(balances[s], usage)
    ensures forall s :: s in r <==> s in scopes && Lacks(balances[s], usage)
  {
    if scopes == [] then []
    else
      var last := scopes[|scopes| - 1];
      assert scopes == scopes[..|scopes| - 1] + [last];
      var init := ShortScopes(balances, scopes[..|scopes| - 1], usage);
      if Lacks(balances[last], usage) then init + [last] else init
  }

  predicate CostShort(balances: map<Scope, Balance>, scopes: seq<Scope>, usage: Usage)
    requires Known(balances, scopes)
  {
    exists s :: s in scopes && LacksCost(balances[s], usage)
  }

  predicate TokensShort(balances: map<Scope, Balance>, scopes: seq<Scope>, usage: Usage)
    requires Known(balances, scopes)
  {
    exists s :: s in scopes && LacksTokens(balances[s], usage)
  }

  lemma ShortStep(balances: map<Scope, Balance>, scopes: seq<Scope>, i: nat, usage: Usage)
    requires Known(balances, scopes) && i < |scopes|
    ensures Known(balances, scopes[..i]) && Known(balances, scopes[..i + 1])
    ensures var s := scopes[i];
            && ShortScopes(balances, scopes[..i + 1], usage)
               == ShortScopes(balances, scopes[..i], usage) + (if Lacks(balances[s], usage) then [s] else [])
            && CostShort(balances, scopes[..i + 1], usage)
               == (CostShort(balances, scopes[..i], usage) || LacksCost(balances[s], usage))
            && TokensShort(balances, scopes[..i + 1], usage)
               == (TokensShort(balances, scopes[..i], usage) || LacksTokens(balances[s], usage))
  {
    assert scopes[..i + 1] == scopes[..i] + [scopes[i]];
    assert scopes[..i + 1][..i] == scopes[..i];
  }

  function Shortage(balances: map<Scope, Balance>, scopes: seq<Scope>, usage: Usage): Exhaustion
    requires Known(balances, scopes)
  {
    var cost, tokens := CostShort(balances, scopes, usage), TokensShort(balances, scopes, usage);
    Exhaustion(ShortScopes(balances, scopes, usage),
               (if cost then [CostDimension] else []) + (if tokens then [TokensDimension] else []))
  }

  function Debit(balances: map<Scope, Balance>, scopes: seq<Scope>, estimate: Usage): (r: map<Scope, Balance>)
    ensures r.Keys == balances.Keys
  {
    map s | s in balances :: if s in scopes
      then balances[s].(reserved := Add(balances[s].reserved, estimate), revision := balances[s].revision + 1)
      else balances[s]
  }

  function Settle(balances: map<Scope, Balance>, scopes: seq<Scope>, estimate: Usage, actual: Usage): (r: map<Scope, Balance>)
    requires Settleable(balances, scopes, estimate)
    ensures r.Keys == balances.Keys
  {
    map s | s in balances :: if s in scopes
      then balances[s].(reserved := Subtract(balances[s].reserved, estimate),
                        actual := Add(balances[s].actual, actual), revision := balances[s].revision + 1)
      else balances[s]
  }

  /** The revision each scope reaches by the next step. */
  function Revisions(balances: map<Scope, Balance>, scopes: seq<Scope>): (r: seq<(Scope, nat)>)
    requires Known(balances, scopes)
  {
    seq(|scopes|, i requires 0 <= i < |scopes| => (scopes[i], balances[scopes[i]].revision + 1))
  }

  lemma DebitStep(balances: map<Scope, Balance>, scopes: seq<Scope>, i: nat, estimate: Usage)
    requires Known(balances, scopes) && Distinct(scopes) && i < |scopes|
    ensures var s, partial := scopes[i], Debit(balances, scopes[..i], estimate);
            && s in partial && partial[s] == balances[s]
            && Debit(balances, scopes[..i + 1], estimate)
               == partial[s := partial[s].(reserved := Add(partial[s].reserved, estimate), revision := partial[s].revision + 1)]
  {
    assert scopes[i] !in scopes[..i];
    assert scopes[..i + 1] == scopes[..i] + [scopes[i]];
  }

  predicate Settleable(balances: map<Scope, Balance>, scopes: seq<Scope>, estimate: Usage) {
    forall s :: s in scopes && s in balances ==> Covers(balances[s].reserved, estimate)
  }

  lemma SettleStep(balances: map<Scope, Balance>, scopes: seq<Scope>, i: nat, estimate: Usage, actual: Usage)
    requires Known(balances, scopes) && Distinct(scopes) && i < |scopes| && Settleable(balances, scopes, estimate)
    ensures Settleable(balances, scopes[..i], estimate) && Settleable(balances, scopes[..i + 1], estimate)
    ensures var s, partial := scopes[i], Settle(balances, scopes[..i], estimate, actual);
            && s in partial && partial[s] == balances[s] && Covers(partial[s].reserved, estimate)
            && Settle(balances, scopes[..i + 1], estimate, actual)
               == partial[s := partial[s].(reserved := Subtract(partial[s].reserved, estimate),
                                           actual := Add(partial[s].actual, actual), revision := partial[s].revision + 1)]
  {
    assert scopes[i] !in scopes[..i];
    assert scopes[..i + 1] == scopes[..i] + [scopes[i]];
  }

  predicate BadId(l: Ledger, id: Id) {
    Blank(id) || id in l.reservations
  }

  /** `id` is what the identifier source yields. It is drawn after the balances are debited. */
  function Reserve(l: Ledger, executionId: Id, estimate: Usage, id: Id): (r: (Ledger, Result<Decision, BudgetError>))
    requires BindingsKnown(l)
  {
    if executionId !in l.bindings then (l, Err(NoBinding))
    else
      var scopes := l.bindings[executionId].scopes;
      if ShortScopes(l.balances, scopes, estimate) != [] then
        (l, Ok(Refused(Shortage(l.balances, scopes, estimate))))
      else
        var debited := l.(balances := Debit(l.balances, scopes, estimate));
        if BadId(l, id) then (debited, Err(BadIdentifier))
        else
          var reservation := Reservation(id, executionId, scopes, estimate, Revisions(l.balances, scopes), Active);
          (debited.(reservations := l.reservations[id := Record(reservation, None)]), Ok(Reserved(reservation)))
  }

  function Released(estimate: Usage, actual: Usage): Usage {
    Usage(Max(estimate.cost - actual.cost, 0), Max(estimate.input - actual.input, 0),
          Max(estimate.output - actual.output, 0))
  }

  function Reconcile(l: Ledger, id: Id, actual: Usage): (r: (Ledger, Result<Receipt, BudgetError>))
    requires Covered(l)
  {
    if id !in l.reservations then (l, Err(ReservationNotFound))
    else
      var record := l.reservations[id];
      if record.receipt.Some? then
        (l, if record.receipt.value.actual == actual then Ok(record.receipt.value) else Err(ReservationConflict))
      else
        var reservation := record.reservation;
        var receipt := Receipt(id, actual, Released(reservation.estimate, actual), Revisions(l.balances, reservation.scopes));
        (l.(balances := Settle(l.balances, reservation.scopes, reservation.estimate, actual),
            reservations := l.reservations[id := Record(reservation.(state := Reconciled), Some(receipt))]),
         Ok(receipt))
  }

  // ----- Sums over reservations -----

  ghost function Total(m: map<Id, Usage>): Usage
    decreases |m|
  {
    if m == map[] then ZERO
    else
      var k :| k in m;
      Add(m[k], Total(m - {k}))
  }

  lemma {:induction false} TotalRemove(m: map<Id, Usage>, k: Id)
    requires k in m
    ensures Total(m) == Add(m[k], Total(m - {k}))
    decreases |m|
  {
    var first :| first in m && Total(m) == Add(m[first], Total(m - {first}));
    if first != k {
      var a, b := m - {first}, m - {k};
      TotalRemove(a, k);
      TotalRemove(b, first);
      var c := a - {k};
      assert c == b - {first};
      assert Total(m) == Add(m[first], Add(m[k], Total(c)));
      assert Total(b) == Add(m[first], Total(c));
      assert Total(m) == Add(m[k], Total(b));
    }
  }

  lemma TotalInsert(m: map<Id, Usage>, k: Id, u: Usage)
    requires k !in m
    ensures Total(m[k := u]) == Add(u, Total(m))
  {
    TotalRemove(m[k := u], k);
    assert m[k := u] - {k} == m;
  }

  predicate Holds(record: Record, s: Scope) {
    s in record.reservation.scopes
  }

  type Reservations = map<Id, Record>

  ghost function ActiveOn(rs: Reservations, s: Scope): map<Id, Usage> {
    map id | id in rs && rs[id].receipt.None? && Holds(rs[id], s) :: rs[id].reservation.estimate
  }

  ghost function SettledOn(rs: Reservations, s: Scope): map<Id, Usage> {
    map id | id in rs && rs[id].receipt.Some? && Holds(rs[id], s) :: rs[id].receipt.value.actual
  }

  /** By how much an actual exceeds its estimate, in cost and in total tokens. */
  function Overrun(estimate: Usage, actual: Usage): Usage {
    Usage(Max(actual.cost - estimate.cost, 0), Max(actual.Tokens() - estimate.Tokens(), 0), 0)
  }

  ghost function OverrunsOn(rs: Reservations, s: Scope): map<Id, Usage> {
    map id | id in rs && rs[id].receipt.Some? && Holds(rs[id], s)
      :: Overrun(rs[id].reservation.estimate, rs[id].receipt.value.actual)
  }

  /** A fresh reservation adds its estimate to the active sums of its scopes... */
  lemma ActiveAfterOpening(rs: Reservations, id: Id, record: Record, s: Scope)
    requires id !in rs && record.receipt.None?
    ensures Total(ActiveOn(rs[id := record], s))
         == if Holds(record, s) then Add(record.reservation.estimate, Total(ActiveOn(rs, s))) else Total(ActiveOn(rs, s))
  {
    if Holds(record, s) {
      assert ActiveOn(rs[id := record], s) == ActiveOn(rs, s)[id := record.reservation.estimate];
      TotalInsert(ActiveOn(rs, s), id, record.reservation.estimate);
    } else {
      assert ActiveOn(rs[id := record], s) == ActiveOn(rs, s);
    }
  }

  /** ... and nothing to the sums over settled reservations. */
  lemma SettledAfterOpening(rs: Reservations, id: Id, record: Record, s: Scope)
    requires id !in rs && record.receipt.None?
    ensures SettledOn(rs[id := record], s) == SettledOn(rs, s)
  {
    assert SettledOn(rs[id := record], s).Keys == SettledOn(rs, s).Keys;
  }

  lemma OverrunsAfterOpening(rs: Reservations, id: Id, record: Record, s: Scope)
    requires id !in rs && record.receipt.None?
    ensures OverrunsOn(rs[id := record], s) == OverrunsOn(rs, s)
  {
    assert OverrunsOn(rs[id := record], s).Keys == OverrunsOn(rs, s).Keys;
  }

  /** `record` is `rs[id]` with a receipt. */
  ghost predicate Closes(rs: Reservations, id: Id, record: Record) {
    && id in rs && rs[id].receipt.None? && record.receipt.Some?
    && record.reservation.scopes == rs[id].reservation.scopes
    && record.reservation.estimate == rs[id].reservation.estimate
  }

  lemma ActiveAfterClosing(rs: Reservations, id: Id, record: Record, s: Scope)
    requires Closes(rs, id, record)
    ensures Total(ActiveOn(rs, s))
         == if Holds(record, s) then Add(record.reservation.estimate, Total(ActiveOn(rs[id := record], s)))
            else Total(ActiveOn(rs[id := record], s))
  {
    if Holds(record, s) {
      assert ActiveOn(rs[id := record], s) == ActiveOn(rs, s) - {id};
      TotalRemove(ActiveOn(rs, s), id);
    } else {
      assert ActiveOn(rs[id := record], s) == ActiveOn(rs, s);
    }
  }

  lemma SettledAfterClosing(rs: Reservations, id: Id, record: Record, s: Scope)
    requires Closes(rs, id, record)
    ensures Total(SettledOn(rs[id := record], s))
         == if Holds(record, s) then Add(record.receipt.value.actual, Total(SettledOn(rs, s))) else Total(SettledOn(rs, s))
  {
    if Holds(record, s) {
      assert SettledOn(rs[id := record], s) == SettledOn(rs, s)[id := record.receipt.value.actual];
      TotalInsert(SettledOn(rs, s), id, record.receipt.value.actual);
    } else {
      assert SettledOn(rs[id := record], s) == SettledOn(rs, s);
    }
  }

  lemma OverrunsAfterClosing(rs: Reservations, id: Id, record: Record, s: Scope)
    requires Closes(rs, id, record)
    ensures Total(OverrunsOn(rs[id := record], s))
         == if Holds(record, s)
            then Add(Overrun(record.reservation.estimate, record.receipt.value.actual), Total(OverrunsOn(rs, s)))
            else Total(OverrunsOn(rs, s))
  {
    var overrun := Overrun(record.reservation.estimate, record.receipt.value.actual);
    if Holds(record, s) {
      assert OverrunsOn(rs[id := record], s) == OverrunsOn(rs, s)[id := overrun];
      TotalInsert(OverrunsOn(rs, s), id, overrun);
    } else {
      assert OverrunsOn(rs[id := record], s) == OverrunsOn(rs, s);
    }
  }

  // ----- The invariant -----

  predicate BindingsKnown(l: Ledger) {
    forall e :: e in l.bindings ==> Known(l.balances, l.bindings[e].scopes) && Distinct(l.bindings[e].scopes)
  }

  predicate RecordsKnown(l: Ledger) {
    forall id :: id in l.reservations ==>
      && Known(l.balances, l.reservations[id].reservation.scopes)
      && Distinct(l.reservations[id].reservation.scopes)
      && l.reservations[id].reservation.id == id
      && (l.reservations[id].reservation.state == Active <==> l.reservations[id].receipt.None?)
  }

  /** What is reserved covers every active reservation, so `Reconcile` never subtracts below zero. */
  predicate Covered(l: Ledger) {
    RecordsKnown(l) && forall id, s :: id in l.reservations && l.reservations[id].receipt.None?
                                       && s in l.reservations[id].reservation.scopes ==>
                         Covers(l.balances[s].reserved, l.reservations[id].reservation.estimate)
  }

  ghost predicate ScopeConserved(l: Ledger, s: Scope)
    requires s in l.balances
  {
    && l.balances[s].reserved == Total(ActiveOn(l.reservations, s))
    && l.balances[s].actual == Total(SettledOn(l.reservations, s))
  }

  /** Every scope's reserved and actual usage are the sums over its reservations. */
  ghost predicate Conserved(l: Ledger) {
    forall s :: s in l.balances ==> ScopeConserved(l, s)
  }

  predicate WithinLimit(b: Balance, overruns: Usage) {
    && b.reserved.cost + b.actual.cost <= b.limit.cost + overruns.cost
    && b.reserved.Tokens() + b.actual.Tokens() <= b.limit.Tokens() + overruns.Tokens()
  }

  ghost predicate ScopeBounded(l: Ledger, s: Scope)
    requires s in l.balances
  {
    WithinLimit(l.balances[s], Total(OverrunsOn(l.reservations, s)))
  }

  /** No scope is overdrawn by more than its reconciled reservations overran their estimates. */
  ghost predicate Bounded(l: Ledger) {
    forall s :: s in l.balances ==> ScopeBounded(l, s)
  }

  ghost predicate Inv(l: Ledger) {
    BindingsKnown(l) && RecordsKnown(l) && Conserved(l) && Bounded(l)
  }

  lemma ConservedCovers(l: Ledger)
    requires RecordsKnown(l) && Conserved(l)
    ensures Covered(l)
  {
    forall id, s | id in l.reservations && l.reservations[id].receipt.None? && s in l.reservations[id].reservation.scopes
      ensures Covers(l.balances[s].reserved, l.reservations[id].reservation.estimate)
    {
      assert ScopeConserved(l, s);
      TotalRemove(ActiveOn(l.reservations, s), id);
    }
  }

  // ----- Every step keeps the invariant -----

  lemma BindEffect(l: Ledger, executionId: Id, version: string, scopes: seq<Scope>)
    requires BindingsKnown(l)
    ensures var after := Bind(l, executionId, version, scopes).0;
            after.balances == l.balances && after.reservations == l.reservations && BindingsKnown(after)
  {}

  lemma SameSums(l: Ledger, after: Ledger)
    requires Inv(l) && after.balances == l.balances && after.reservations == l.reservations && BindingsKnown(after)
    ensures Inv(after)
  {
    forall s | s in after.balances ensures ScopeConserved(after, s) && ScopeBounded(after, s) {
      assert ScopeConserved(l, s) && ScopeBounded(l, s);
    }
  }

  lemma BindKeepsInvariant(l: Ledger, executionId: Id, version: string, scopes: seq<Scope>)
    requires Inv(l)
    ensures Inv(Bind(l, executionId, version, scopes).0)
  {
    BindEffect(l, executionId, version, scopes);
    SameSums(l, Bind(l, executionId, version, scopes).0);
  }

  /** A reservation under a fresh identifier adds its estimate to the sums of its scopes. */
  lemma ReserveScope(l: Ledger, executionId: Id, estimate: Usage, id: Id, s: Scope)
    requires Inv(l) && s in l.balances
    requires var r := Reserve(l, executionId, estimate, id).1; r.Ok? && r.value.Reserved?
    ensures var after := Reserve(l, executionId, estimate, id).0;
            s in after.balances && ScopeConserved(after, s) && ScopeBounded(after, s)
  {
    assert ScopeConserved(l, s) && ScopeBounded(l, s);
    var (after, r) := Reserve(l, executionId, estimate, id);
    var record := Record(r.value.reservation, None);
    ActiveAfterOpening(l.reservations, id, record, s);
    SettledAfterOpening(l.reservations, id, record, s);
    OverrunsAfterOpening(l.reservations, id, record, s);
    if s in l.bindings[executionId].scopes {
      assert !Lacks(l.balances[s], estimate);
    }
  }

  lemma ReserveKeepsInvariant(l: Ledger, executionId: Id, estimate: Usage, id: Id)
    requires Inv(l) && !BadId(l, id)
    ensures Inv(Reserve(l, executionId, estimate, id).0)
  {
    var (after, r) := Reserve(l, executionId, estimate, id);
    if r.Ok? && r.value.Reserved? {
      forall s | s in after.balances ensures ScopeConserved(after, s) && ScopeBounded(after, s) {
        ReserveScope(l, executionId, estimate, id, s);
      }
    }
  }

  /** How one scope's balance answers to the closing of a reservation. */
  ghost predicate Settles(b: Balance, after: Balance, record: Record, s: Scope)
    requires record.receipt.Some?
  {
    var estimate, actual := record.reservation.estimate, record.receipt.value.actual;
    if Holds(record, s) then
      && Covers(b.reserved, estimate)
      && after == b.(reserved := Subtract(b.reserved, estimate), actual := Add(b.actual, actual), revision := b.revision + 1)
    else after == b
  }

  /** Reconciling moves one reservation from the active sum to the settled sum of its scopes. */
  lemma SettleConserves(l: Ledger, after: Ledger, id: Id, record: Record, s: Scope)
    requires s in l.balances && s in after.balances && ScopeConserved(l, s)
    requires Closes(l.reservations, id, record) && after.reservations == l.reservations[id := record]
    requires Settles(l.balances[s], after.balances[s], record, s)
    ensures ScopeConserved(after, s)
  {
    ActiveAfterClosing(l.reservations, id, record, s);
    SettledAfterClosing(l.reservations, id, record, s);
  }

  lemma SettleWithinLimit(b: Balance, after: Balance, record: Record, s: Scope, overruns: Usage)
    requires record.receipt.Some? && Holds(record, s) && Settles(b, after, record, s) && WithinLimit(b, overruns)
    ensures WithinLimit(after, Add(Overrun(record.reservation.estimate, record.receipt.value.actual), overruns))
  {}

  /** What an actual exceeds its estimate by is what the bound of its scopes grows by. */
  lemma SettleBounded(l: Ledger, after: Ledger, id: Id, record: Record, s: Scope)
    requires s in l.balances && s in after.balances && ScopeBounded(l, s)
    requires Closes(l.reservations, id, record) && after.reservations == l.reservations[id := record]
    requires Settles(l.balances[s], after.balances[s], record, s)
    ensures ScopeBounded(after, s)
  {
    OverrunsAfterClosing(l.reservations, id, record, s);
    if Holds(record, s) {
      SettleWithinLimit(l.balances[s], after.balances[s], record, s, Total(OverrunsOn(l.reservations, s)));
    }
  }

  lemma ReconcileKeepsInvariant(l: Ledger, id: Id, actual: Usage)
    requires Inv(l)
    ensures Covered(l) && Inv(Reconcile(l, id, actual).0)
  {
    ConservedCovers(l);
    if id in l.reservations && l.reservations[id].receipt.None? {
      var after := Reconcile(l, id, actual).0;
      forall s | s in after.balances ensures ScopeConserved(after, s) && ScopeBounded(after, s) {
        assert ScopeConserved(l, s) && ScopeBounded(l, s);
        SettleConserves(l, after, id, after.reservations[id], s);
        SettleBounded(l, after, id, after.reservations[id], s);
      }
    }
  }

  // ----- Runs -----

  datatype Event =
    | BindEvent(executionId: Id, version: string, scopes: seq<Scope>)
    | ReserveEvent(executionId: Id, estimate: Usage, id: Id)
    | ReconcileEvent(id: Id, actual: Usage)

  /** Everything that happened to a controller built from `limits`. */
  datatype History = Opened(limits: map<Scope, Usage>) | After(past: History, event: Event)

  function Open(limits: map<Scope, Usage>): Ledger {
    Ledger(map s | s in limits :: Balance(limits[s], ZERO, ZERO, 0), map[], map[])
  }

  function ApplyEvent(l: Ledger, e: Event): Ledger
    requires BindingsKnown(l) && Covered(l)
  {
    match e
    case BindEvent(executionId, version, scopes) => Bind(l, executionId, version, scopes).0
    case ReserveEvent(executionId, estimate, id) => Reserve(l, executionId, estimate, id).0
    case ReconcileEvent(id, actual) => Reconcile(l, id, actual).0
  }

  /** `l` is reached by `h`, every identifier drawn being fresh and non-blank. */
  ghost predicate Reaches(h: History, l: Ledger) {
    match h
    case Opened(limits) => l == Open(limits)
    case After(past, event) => exists before :: Reaches(past, before) && Steps(before, event, l)
  }

  ghost predicate Steps(before: Ledger, event: Event, after: Ledger) {
    && BindingsKnown(before) && Covered(before)
    && (event.ReserveEvent? ==> !BadId(before, event.id))
    && after == ApplyEvent(before, event)
  }

  /** A scope no reservation has touched. */
  lemma UntouchedScope(l: Ledger, s: Scope)
    requires s in l.balances && l.reservations == map[]
    requires l.balances[s].reserved == l.balances[s].actual == ZERO
    ensures ScopeConserved(l, s) && ScopeBounded(l, s)
  {
    assert ActiveOn(l.reservations, s) == map[];
    assert SettledOn(l.reservations, s) == map[];
    assert OverrunsOn(l.reservations, s) == map[];
  }

  lemma UntouchedInvariant(l: Ledger)
    requires l.reservations == map[] && BindingsKnown(l)
    requires forall s :: s in l.balances ==> l.balances[s].reserved == l.balances[s].actual == ZERO
    ensures Inv(l)
  {
    forall s | s in l.balances ensures ScopeConserved(l, s) && ScopeBounded(l, s) {
      UntouchedScope(l, s);
    }
  }

  lemma OpenInvariant(limits: map<Scope, Usage>)
    ensures Inv(Open(limits))
  {
    UntouchedInvariant(Open(limits));
  }

  lemma StepKeepsInvariant(before: Ledger, event: Event, after: Ledger)
    requires Inv(before) && Steps(before, event, after)
    ensures Inv(after)
  {
    match event
    case BindEvent(executionId, version, scopes) => BindKeepsInvariant(before, executionId, version, scopes);
    case ReserveEvent(executionId, estimate, id) => ReserveKeepsInvariant(before, executionId, estimate, id);
    case ReconcileEvent(id, actual) => ReconcileKeepsInvariant(before, id, actual);
  }

  /** In every reachable ledger usage is conserved and the overdraft bounded. */
  lemma {:induction false} ReachableInvariant(h: History, l: Ledger)
    requires Reaches(h, l)
    ensures Inv(l) && Covered(l)
  {
    match h {
      case Opened(limits) => OpenInvariant(limits);
      case After(past, event) =>
        var before :| Reaches(past, before) && Steps(before, event, l);
        ReachableInvariant(past, before);
        StepKeepsInvariant(before, event, l);
    }
    ConservedCovers(l);
  }

  // ----- What a reservation promises -----

  /** A refusal names exactly the short scopes, and the dimensions in which some scope is short. */
  lemma RefusalIff(l: Ledger, executionId: Id, estimate: Usage, id: Id)
    requires BindingsKnown(l) && executionId in l.bindings && !BadId(l, id)
    ensures var r, scopes := Reserve(l, executionId, estimate, id).1, l.bindings[executionId].scopes;
            && (r.Ok? && r.value.Refused? <==> exists s :: s in scopes && Lacks(l.balances[s], estimate))
            && (r.Ok? && r.value.Refused? ==>
                  && (forall s :: s in r.value.exhaustion.scopes <==> s in scopes && Lacks(l.balances[s], estimate))
                  && (CostDimension in r.value.exhaustion.dimensions <==> exists s :: s in scopes && LacksCost(l.balances[s], estimate))
                  && (TokensDimension in r.value.exhaustion.dimensions
                      <==> exists s :: s in scopes && LacksTokens(l.balances[s], estimate)))
  {}

  /** The revisions handed out are those the scopes have afterwards. */
  predicate Current(balances: map<Scope, Balance>, scopes: seq<Scope>, revisions: seq<(Scope, nat)>) {
    && |revisions| == |scopes|
    && forall i :: 0 <= i < |scopes| ==>
         scopes[i] in balances && revisions[i].0 == scopes[i] && revisions[i].1 == balances[scopes[i]].revision
  }

  lemma DebitRevisions(balances: map<Scope, Balance>, scopes: seq<Scope>, estimate: Usage)
    requires Known(balances, scopes)
    ensures Current(Debit(balances, scopes, estimate), scopes, Revisions(balances, scopes))
  {}

  lemma SettleRevisions(balances: map<Scope, Balance>, scopes: seq<Scope>, estimate: Usage, actual: Usage)
    requires Known(balances, scopes) && Settleable(balances, scopes, estimate)
    ensures Current(Settle(balances, scopes, estimate, actual), scopes, Revisions(balances, scopes))
  {}

  lemma ReservedRevisions(l: Ledger, executionId: Id, estimate: Usage, id: Id)
    requires BindingsKnown(l) && Reserve(l, executionId, estimate, id).1.Ok? && Reserve(l, executionId, estimate, id).1.value.Reserved?
    ensures var (after, r) := Reserve(l, executionId, estimate, id);
            Current(after.balances, r.value.reservation.scopes, r.value.reservation.revisions)
  {
    DebitRevisions(l.balances, l.bindings[executionId].scopes, estimate);
  }

  lemma ReceiptRevisions(l: Ledger, id: Id, actual: Usage)
    requires Covered(l) && id in l.reservations && l.reservations[id].receipt.None?
    ensures var (after, r) := Reconcile(l, id, actual);
            r.Ok? && Current(after.balances, l.reservations[id].reservation.scopes, r.value.revisions)
  {
    SettleRevisions(l.balances, l.reservations[id].reservation.scopes, l.reservations[id].reservation.estimate, actual);
  }

  /** What a receipt releases is the unused part of the estimate, component by component. */
  lemma ReceiptAccounts(l: Ledger, id: Id, actual: Usage)
    requires Covered(l) && id in l.reservations && l.reservations[id].receipt.None?
    ensures var estimate, receipt := l.reservations[id].reservation.estimate, Reconcile(l, id, actual).1.value;
            && receipt.actual == actual
            && actual.cost + receipt.released.cost == Max(estimate.cost, actual.cost)
            && actual.input + receipt.released.input == Max(estimate.input, actual.input)
            && actual.output + receipt.released.output == Max(estimate.output, actual.output)
  {}

  predicate HasRoom(l: Ledger, executionId: Id, estimate: Usage)
    requires BindingsKnown(l)
  {
    executionId in l.bindings &&
    forall s :: s in l.bindings[executionId].scopes ==> !Lacks(l.balances[s], estimate)
  }

  /** A reservation is made in all scopes of the binding or in none. */
  lemma AllScopesOrNone(l: Ledger, executionId: Id, estimate: Usage, id: Id)
    requires BindingsKnown(l) && !BadId(l, id)
    ensures var (after, r) := Reserve(l, executionId, estimate, id);
            && (r.Ok? && r.value.Reserved? <==> HasRoom(l, executionId, estimate))
            && (!HasRoom(l, executionId, estimate) ==> after == l)
            && (HasRoom(l, executionId, estimate) ==> forall s :: s in l.balances ==>
                  var gained := if s in l.bindings[executionId].scopes then estimate else ZERO;
                  after.balances[s].reserved == Add(l.balances[s].reserved, gained)
                  && after.balances[s].actual == l.balances[s].actual)
  {
  }

  /** The balances are debited before the identifier is drawn: a bad one leaves a debit without a reservation. */
  lemma ReserveConservesIff(l: Ledger, executionId: Id, estimate: Usage, id: Id)
    requires Inv(l) && (executionId in l.bindings ==> l.bindings[executionId].scopes != [])
    ensures Conserved(Reserve(l, executionId, estimate, id).0)
       <==> !(HasRoom(l, executionId, estimate) && BadId(l, id) && estimate != ZERO)
  {
    var after := Reserve(l, executionId, estimate, id).0;
    if !BadId(l, id) {
      ReserveKeepsInvariant(l, executionId, estimate, id);
    } else if HasRoom(l, executionId, estimate) {
      LeakedDebit(l, after, l.bindings[executionId].scopes, estimate);
    }
  }

  lemma AddNothing(u: Usage, e: Usage)
    ensures Add(u, e) == u <==> e == ZERO
  {}

  /** What one scope holds against its sums. */
  predicate Matching(b: Balance, reserved: Usage, actual: Usage) {
    b.reserved == reserved && b.actual == actual
  }

  lemma DebitedScope(b: Balance, after: Balance, held: bool, estimate: Usage, reserved: Usage, actual: Usage)
    requires Matching(b, reserved, actual) && after.actual == b.actual
    requires after.reserved == if held then Add(b.reserved, estimate) else b.reserved
    ensures Matching(after, reserved, actual) <==> !held || estimate == ZERO
  {
    AddNothing(b.reserved, estimate);
  }

  lemma LeakedScope(l: Ledger, after: Ledger, scopes: seq<Scope>, estimate: Usage, s: Scope)
    requires s in l.balances && ScopeConserved(l, s)
    requires after == l.(balances := Debit(l.balances, scopes, estimate))
    ensures ScopeConserved(after, s) <==> s !in scopes || estimate == ZERO
  {
    var reserved, actual := Total(ActiveOn(l.reservations, s)), Total(SettledOn(l.reservations, s));
    DebitedScope(l.balances[s], after.balances[s], s in scopes, estimate, reserved, actual);
  }

  lemma LeakedDebit(l: Ledger, after: Ledger, scopes: seq<Scope>, estimate: Usage)
    requires Conserved(l) && scopes != [] && scopes[0] in l.balances
    requires after == l.(balances := Debit(l.balances, scopes, estimate))
    ensures Conserved(after) <==> estimate == ZERO
  {
    forall s | s in l.balances ensures ScopeConserved(after, s) <==> s !in scopes || estimate == ZERO {
      assert ScopeConserved(l, s);
      LeakedScope(l, after, scopes, estimate, s);
    }
    if Conserved(after) {
      assert ScopeConserved(after, scopes[0]);
    }
  }

  /** A refused identifier leaves the debit of every bound scope behind, and no reservation that could release it. */
  lemma BadIdentifierLeaks(l: Ledger, executionId: Id, estimate: Usage, id: Id)
    requires BindingsKnown(l) && HasRoom(l, executionId, estimate) && BadId(l, id)
    ensures var (after, r) := Reserve(l, executionId, estimate, id);
            r == Err(BadIdentifier) && after.reservations == l.reservations
            && forall s :: s in l.bindings[executionId].scopes && s in l.balances ==>
                 after.balances[s].reserved == Add(l.balances[s].reserved, estimate)
  {}

  /** `l` was opened with these limits and then bound one execution to one scope. */
  ghost predicate JustBound(l: Ledger, limits: map<Scope, Usage>, run: Id, scope: Scope) {
    scope in limits && l == Bind(Open(limits), run, "v1", [scope]).0
  }

  lemma JustBoundIsReached(l: Ledger, limits: map<Scope, Usage>, run: Id, scope: Scope)
    requires JustBound(l, limits, run, scope)
    ensures Reaches(After(Opened(limits), BindEvent(run, "v1", [scope])), l)
  {
    assert Reaches(Opened(limits), Open(limits)) && Steps(Open(limits), BindEvent(run, "v1", [scope]), l);
  }

  /** One scope, nothing reserved or paid yet. */
  ghost predicate Unused(l: Ledger, run: Id, scope: Scope, limit: Usage) {
    && BindingsKnown(l) && l.reservations == map[]
    && run in l.bindings && l.bindings[run].scopes == [scope]
    && scope in l.balances && l.balances[scope] == Balance(limit, ZERO, ZERO, 0)
  }

  lemma JustBoundIsUnused(l: Ledger, limits: map<Scope, Usage>, run: Id, scope: Scope)
    requires JustBound(l, limits, run, scope)
    ensures Unused(l, run, scope, limits[scope])
  {
    assert Dedupe([scope]) == [scope] by { assert [scope][..0] == []; }
  }

  lemma UnusedHasRoom(l: Ledger, run: Id, scope: Scope, limit: Usage, estimate: Usage)
    requires Unused(l, run, scope, limit) && estimate.cost <= limit.cost && estimate.Tokens() <= limit.Tokens()
    ensures HasRoom(l, run, estimate)
  {
    forall s | s in l.bindings[run].scopes ensures !Lacks(l.balances[s], estimate) {
      assert s == scope;
    }
  }

  /** What a refused identifier leaves in one bound scope. */
  lemma BadIdentifierLeaksAt(l: Ledger, executionId: Id, estimate: Usage, id: Id, s: Scope)
    requires BindingsKnown(l) && HasRoom(l, executionId, estimate) && BadId(l, id) && s in l.bindings[executionId].scopes
    ensures var (after, r) := Reserve(l, executionId, estimate, id);
            r == Err(BadIdentifier) && after.reservations == l.reservations
            && s in after.balances && after.balances[s].reserved == Add(l.balances[s].reserved, estimate)
  {
    BadIdentifierLeaks(l, executionId, estimate, id);
  }

  lemma AddToNothing(e: Usage)
    ensures Add(ZERO, e) == e
  {}

  lemma UnusedLeaks(l: Ledger, run: Id, scope: Scope, limit: Usage, estimate: Usage, id: Id)
    requires Unused(l, run, scope, limit) && Blank(id)
    requires estimate.cost <= limit.cost && estimate.Tokens() <= limit.Tokens()
    ensures var (after, r) := Reserve(l, run, estimate, id);
            r == Err(BadIdentifier) && after.reservations == map[] && scope in after.balances && after.balances[scope].reserved == estimate
  {
    UnusedHasRoom(l, run, scope, limit, estimate);
    BadIdentifierLeaksAt(l, run, estimate, id, scope);
    AddToNothing(estimate);
  }

  /** In a ledger just opened and bound, hence reachable, a blank identifier for an estimate that fits reserves it for good. */
  lemma BlankIdentifierLeaks(l: Ledger, limits: map<Scope, Usage>, run: Id, scope: Scope, estimate: Usage, id: Id)
    requires JustBound(l, limits, run, scope) && Blank(id)
    requires estimate.cost <= limits[scope].cost && estimate.Tokens() <= limits[scope].Tokens()
    ensures Reaches(After(Opened(limits), BindEvent(run, "v1", [scope])), l) && BindingsKnown(l)
    ensures var (after, r) := Reserve(l, run, estimate, id);
            r == Err(BadIdentifier) && after.reservations == map[] && scope in after.balances && after.balances[scope].reserved == estimate
  {
    JustBoundIsReached(l, limits, run, scope);
    JustBoundIsUnused(l, limits, run, scope);
    UnusedLeaks(l, run, scope, limits[scope], estimate, id);
  }

  /** Reconciling again with the same actual usage returns the same receipt and changes nothing. */
  lemma ReconcileIdempotent(l: Ledger, id: Id, actual: Usage, again: Usage)
    requires Inv(l) && Covered(l) && Reconcile(l, id, actual).1.Ok?
    ensures var (after, receipt) := Reconcile(l, id, actual);
            Covered(after) &&
            Reconcile(after, id, again) == (after, if again == actual then receipt else Err(ReservationConflict))
  {
    ReconcileKeepsInvariant(l, id, actual);
    ConservedCovers(Reconcile(l, id, actual).0);
  }

  // ----- Exactly when a reservation is granted -----

  /** What the scope's reservations hold and have spent, with one more estimate, is within its limit. */
  ghost predicate HoldsOneMore(l: Ledger, s: Scope, estimate: Usage)
    requires s in l.balances
  {
    var active, settled, limit := Total(ActiveOn(l.reservations, s)), Total(SettledOn(l.reservations, s)), l.balances[s].limit;
    && active.cost + settled.cost + estimate.cost <= limit.cost
    && active.input + active.output + settled.input + settled.output + estimate.input + estimate.output <= limit.input + limit.output
  }

  /**
   * In every reachable ledger a reservation under a bound execution is granted if and only if, in every bound scope, the
   * estimates of its active reservations, the actuals of its reconciled ones and this estimate are together within the limit,
   * in cost and in total tokens; otherwise it is refused, and an execution without a binding is an error.
   */
  lemma GrantedIff(h: History, l: Ledger, executionId: Id, estimate: Usage, id: Id)
    requires Reaches(h, l) && !BadId(l, id)
    ensures BindingsKnown(l)
    ensures var r := Reserve(l, executionId, estimate, id).1;
            if executionId !in l.bindings then r == Err(NoBinding)
            else r.Ok? && (r.value.Reserved? <==> forall s :: s in l.bindings[executionId].scopes ==> HoldsOneMore(l, s, estimate))
  {
    ReachableInvariant(h, l);
    if executionId in l.bindings {
      forall s | s in l.bindings[executionId].scopes ensures Lacks(l.balances[s], estimate) <==> !HoldsOneMore(l, s, estimate) {
        assert ScopeConserved(l, s);
      }
    }
  }

  /** Binding needs a scope, knows every scope, and happens once: again with the same version and scopes it is the same binding. */
  lemma BindAnswers(l: Ledger, executionId: Id, version: string, scopes: seq<Scope>)
    ensures var (after, r) := Bind(l, executionId, version, scopes);
            var known, bound := (forall s :: s in scopes ==> s in l.balances), executionId in l.bindings;
            && (r == Err(NoScope) <==> scopes == [])
            && (r == Err(UnknownScope) <==> scopes != [] && !known)
            && (r.Ok? ==> scopes != [] && known && r.value.executionId == executionId && r.value.configurationVersion == version
                          && Distinct(r.value.scopes) && (forall s :: s in r.value.scopes <==> s in scopes)
                          && executionId in after.bindings && after.bindings[executionId] == r.value
                          && (bound ==> l.bindings[executionId] == r.value && after == l))
            && (r.Err? ==> after == l)
            && (scopes != [] && known && !bound ==> r.Ok?)
  {
    var normalized := Dedupe(scopes);
    assert forall i :: 0 <= i < |scopes| ==> scopes[i] in normalized;
    if scopes != [] { assert scopes[0] in normalized; }
    if executionId in l.bindings { assert l.bindings[executionId := l.bindings[executionId]] == l.bindings; }
  }

  /** The scope cannot take the estimate in cost, or in total tokens. */
  ghost predicate CostExceeded(l: Ledger, s: Scope, estimate: Usage)
    requires s in l.balances
  {
    Total(ActiveOn(l.reservations, s)).cost + Total(SettledOn(l.reservations, s)).cost + estimate.cost > l.balances[s].limit.cost
  }

  ghost predicate TokensExceeded(l: Ledger, s: Scope, estimate: Usage)
    requires s in l.balances
  {
    var active, settled, limit := Total(ActiveOn(l.reservations, s)), Total(SettledOn(l.reservations, s)), l.balances[s].limit;
    active.input + active.output + settled.input + settled.output + estimate.input + estimate.output > limit.input + limit.output
  }

  /** The sums decide what a scope lacks. */
  lemma LackIsExcess(h: History, l: Ledger, s: Scope, estimate: Usage)
    requires Reaches(h, l) && s in l.balances
    ensures LacksCost(l.balances[s], estimate) <==> CostExceeded(l, s, estimate)
    ensures LacksTokens(l.balances[s], estimate) <==> TokensExceeded(l, s, estimate)
  {
    ReachableInvariant(h, l);
    assert ScopeConserved(l, s);
  }

  lemma ShortageNames(balances: map<Scope, Balance>, scopes: seq<Scope>, usage: Usage)
    requires Known(balances, scopes) && ShortScopes(balances, scopes, usage) != []
    ensures var e := Shortage(balances, scopes, usage);
            var cost, tokens := CostShort(balances, scopes, usage), TokensShort(balances, scopes, usage);
            && e.scopes == ShortScopes(balances, scopes, usage)
            && e.dimensions == if cost && tokens then [CostDimension, TokensDimension]
                               else if cost then [CostDimension] else [TokensDimension]
  {}

  /** For each of the scopes the sums decide what it lacks. */
  ghost predicate SumsDecide(l: Ledger, scopes: seq<Scope>, estimate: Usage)
    requires Known(l.balances, scopes)
  {
    forall s :: s in scopes ==>
      && (LacksCost(l.balances[s], estimate) <==> CostExceeded(l, s, estimate))
      && (LacksTokens(l.balances[s], estimate) <==> TokensExceeded(l, s, estimate))
  }

  lemma ReachedSumsDecide(h: History, l: Ledger, scopes: seq<Scope>, estimate: Usage)
    requires Reaches(h, l) && Known(l.balances, scopes)
    ensures SumsDecide(l, scopes, estimate)
  {
    forall s | s in scopes
      ensures LacksCost(l.balances[s], estimate) <==> CostExceeded(l, s, estimate)
      ensures LacksTokens(l.balances[s], estimate) <==> TokensExceeded(l, s, estimate)
    {
      LackIsExcess(h, l, s, estimate);
    }
  }

  lemma ShortIsExceeded(l: Ledger, scopes: seq<Scope>, estimate: Usage)
    requires Known(l.balances, scopes) && SumsDecide(l, scopes, estimate)
    ensures CostShort(l.balances, scopes, estimate) <==> exists s :: s in scopes && CostExceeded(l, s, estimate)
    ensures TokensShort(l.balances, scopes, estimate) <==> exists s :: s in scopes && TokensExceeded(l, s, estimate)
    ensures forall s :: s in ShortScopes(l.balances, scopes, estimate) <==>
      s in scopes && (CostExceeded(l, s, estimate) || TokensExceeded(l, s, estimate))
  {}

  /**
   * In every reachable ledger a refusal names the scopes that some sum exceeds, in binding order, and cost and tokens, in that
   * order, where some bound scope is exceeded in them.
   */
  lemma RefusalNames(h: History, l: Ledger, executionId: Id, estimate: Usage, id: Id)
    requires Reaches(h, l) && executionId in l.bindings && BindingsKnown(l)
    requires Reserve(l, executionId, estimate, id).1.Ok? && Reserve(l, executionId, estimate, id).1.value.Refused?
    ensures var scopes, e := l.bindings[executionId].scopes, Reserve(l, executionId, estimate, id).1.value.exhaustion;
            var cost := exists s :: s in scopes && CostExceeded(l, s, estimate);
            var tokens := exists s :: s in scopes && TokensExceeded(l, s, estimate);
            && (forall s :: s in e.scopes <==> s in scopes && (CostExceeded(l, s, estimate) || TokensExceeded(l, s, estimate)))
            && InOrderOf(e.scopes, scopes)
            && e.dimensions == if cost && tokens then [CostDimension, TokensDimension]
                               else if cost then [CostDimension] else [TokensDimension]
  {
    var scopes := l.bindings[executionId].scopes;
    ReachedSumsDecide(h, l, scopes, estimate);
    ShortIsExceeded(l, scopes, estimate);
    ShortageNames(l.balances, scopes, estimate);
    ShortInOrder(l.balances, scopes, estimate);
  }

  /** One after another where the other sequence has them. */
  predicate InOrderOf(some: seq<Scope>, all: seq<Scope>) {
    some == [] ||
    (all != [] && if some[|some| - 1] == all[|all| - 1] then InOrderOf(some[..|some| - 1], all[..|all| - 1])
                  else InOrderOf(some, all[..|all| - 1]))
  }

  lemma {:induction false} ShortInOrder(balances: map<Scope, Balance>, scopes: seq<Scope>, usage: Usage)
    requires Known(balances, scopes) && Distinct(scopes)
    ensures InOrderOf(ShortScopes(balances, scopes, usage), scopes)
  {
    if scopes != [] {
      var n := |scopes| - 1;
      ShortInOrder(balances, scopes[..n], usage);
      var init := ShortScopes(balances, scopes[..n], usage);
      if Lacks(balances[scopes[n]], usage) {
        assert (init + [scopes[n]])[..|init|] == init;
      } else if init != [] {
        assert init[|init| - 1] in init;
        assert init[|init| - 1] != scopes[n];
      }
    }
  }
}
