/** Hierarchical concurrency and rolling one-minute admission (model_routing/capacity.py). */
module Capacity {
  import opened Prelude
  import opened ModelRouting

  datatype ScopeKind = SystemKind | RequestKind | JobKind | TenantKind | ProviderKind | ModelKind
  datatype Scope = Scope(kind: ScopeKind, identifier: Id)
  datatype Limit = Limit(concurrency: Option<nat>, requests: Option<nat>, tokens: Option<nat>)
  datatype Lease = Lease(operationId: Id, scopes: seq<Scope>)
  datatype Admission = Admission(candidate: Candidate, lease: Lease)
  datatype Event = Event(at: Instant, tokens: nat)

  const WINDOW: int := 60_000_000

  datatype Pool = Pool(
    limits: map<Scope, Limit>, active: map<Scope, int>, events: map<Scope, seq<Event>>, leases: map<Id, Lease>)

  // ----- Scopes -----

  function ScopesFor(operation: Operation, candidate: Candidate): (r: seq<Scope>)
    ensures Distinct(r)
  {
    [Scope(SystemKind, "system"),
     Scope(if operation.path == Interactive then RequestKind else JobKind, operation.scopeId),
     Scope(TenantKind, operation.tenant),
     Scope(ProviderKind, candidate.providerId),
     Scope(ModelKind, candidate.modelId)]
  }

  /** The scopes of one candidate that carry a limit. */
  function Configured(limits: map<Scope, Limit>, operation: Operation, candidate: Candidate): (r: seq<Scope>)
    ensures Distinct(r)
    ensures forall s :: s in r <==> s in limits && s in ScopesFor(operation, candidate)
  {
    FilterDistinct(s => s in limits, ScopesFor(operation, candidate));
    Filter(s => s in limits, ScopesFor(operation, candidate))
  }

  lemma {:induction false} FilterDistinct(keep: Scope -> bool, s: seq<Scope>)
    requires Distinct(s)
    ensures Distinct(Filter(keep, s))
  {
    if s != [] {
      FilterDistinct(keep, s[1..]);
      assert s[0] !in Filter(keep, s[1..]);
    }
  }

  // ----- Counters and deques: absent keys read as zero and empty -----

  function ActiveOf(active: map<Scope, int>, s: Scope): int {
    if s in active then active[s] else 0
  }

  function EventsOf(events: map<Scope, seq<Event>>, s: Scope): seq<Event> {
    if s in events then events[s] else []
  }

  function Bumped(active: map<Scope, int>, scopes: seq<Scope>, delta: int): map<Scope, int> {
    map s | s in active.Keys + (set x | x in scopes) ::
      ActiveOf(active, s) + if s in scopes then delta else 0
  }

  function Appended(events: map<Scope, seq<Event>>, scopes: seq<Scope>, event: Event): map<Scope, seq<Event>> {
    map s | s in events.Keys + (set x | x in scopes) ::
      if s in scopes then EventsOf(events, s) + [event] else EventsOf(events, s)
  }

  /** Pops events from the front while they are no later than `cutoff`. */
  function Expire(events: seq<Event>, cutoff: Instant): seq<Event> {
    if events == [] || events[0].at > cutoff then events else Expire(events[1..], cutoff)
  }

  function Pruned(events: map<Scope, seq<Event>>, scopes: seq<Scope>, cutoff: Instant): map<Scope, seq<Event>> {
    map s | s in events.Keys + (set x | x in scopes) ::
      if s in scopes then Expire(EventsOf(events, s), cutoff) else EventsOf(events, s)
  }

  function Tokens(events: seq<Event>): nat {
    if events == [] then 0 else events[0].tokens + Tokens(events[1..])
  }

  /** One scope's limits leave room for one more request of `tokens` tokens. */
  predicate Room(limit: Limit, active: int, events: seq<Event>, tokens: nat) {
    && (limit.concurrency.Some? ==> active < limit.concurrency.value)
    && (limit.requests.Some? ==> |events| < limit.requests.value)
    && (limit.tokens.Some? ==> Tokens(events) + tokens <= limit.tokens.value)
  }

  predicate FitsScopes(p: Pool, scopes: seq<Scope>, tokens: nat)
    requires forall s :: s in scopes ==> s in p.limits
  {
    forall s :: s in scopes ==> Room(p.limits[s], ActiveOf(p.active, s), EventsOf(p.events, s), tokens)
  }

  // ----- Transitions -----

  function Take(p: Pool, operation: Operation, scopes: seq<Scope>, now: Instant): Pool {
    p.(active := Bumped(p.active, scopes, 1),
       events := Appended(p.events, scopes, Event(now, operation.tokens)),
       leases := p.leases[operation.id := Lease(operation.id, scopes)])
  }

  function AcquireFrom(p: Pool, operation: Operation, candidates: seq<Candidate>, now: Instant)
    : (Pool, Option<Admission>)
    decreases |candidates|
  {
    if candidates == [] then (p, None)
    else
      var scopes := Configured(p.limits, operation, candidates[0]);
      var pruned := p.(events := Pruned(p.events, scopes, now - WINDOW));
      if FitsScopes(pruned, scopes, operation.tokens) then
        (Take(pruned, operation, scopes, now), Some(Admission(candidates[0], Lease(operation.id, scopes))))
      else AcquireFrom(pruned, operation, candidates[1..], now)
  }

  function AcquireFirst(p: Pool, operation: Operation, candidates: seq<Candidate>, now: Instant): (Pool, Option<Admission>) {
    if operation.id in p.leases then (p, None) else AcquireFrom(p, operation, candidates, now)
  }

  function Release(p: Pool, lease: Lease): (Pool, bool) {
    if lease.operationId !in p.leases || p.leases[lease.operationId] != lease then (p, false)
    else (p.(active := Bumped(p.active, lease.scopes, -1), leases := p.leases - {lease.operationId}), true)
  }

  // ----- The reference: outstanding leases and everything ever admitted, nothing pruned -----

  datatype Book = Book(limits: map<Scope, Limit>, leases: map<Id, Lease>, admitted: map<Scope, seq<Event>>)

  ghost function Holders(leases: map<Id, Lease>, s: Scope): set<Id> {
    set id | id in leases && s in leases[id].scopes
  }

  /** The admissions of the minute that ends now. */
  function Recent(events: seq<Event>, now: Instant): seq<Event> {
    Filter((e: Event) => e.at > now - WINDOW, events)
  }

  /** Every limited scope of the candidate has room for the operation. */
  ghost predicate Admissible(b: Book, operation: Operation, candidate: Candidate, now: Instant) {
    forall s :: s in Configured(b.limits, operation, candidate) ==>
      Room(b.limits[s], |Holders(b.leases, s)|, Recent(EventsOf(b.admitted, s), now), operation.tokens)
  }

  ghost function Admit(b: Book, operation: Operation, candidate: Candidate, now: Instant): Book {
    var scopes := Configured(b.limits, operation, candidate);
    b.(leases := b.leases[operation.id := Lease(operation.id, scopes)],
       admitted := Appended(b.admitted, scopes, Event(now, operation.tokens)))
  }

  /** The first admissible candidate is admitted; a refusal changes nothing. */
  ghost function AdmitFrom(b: Book, operation: Operation, candidates: seq<Candidate>, now: Instant): (Book, Option<Admission>) {
    if candidates == [] then (b, None)
    else if Admissible(b, operation, candidates[0], now) then
      (Admit(b, operation, candidates[0], now),
       Some(Admission(candidates[0], Lease(operation.id, Configured(b.limits, operation, candidates[0])))))
    else AdmitFrom(b, operation, candidates[1..], now)
  }

  ghost function AdmitFirst(b: Book, operation: Operation, candidates: seq<Candidate>, now: Instant): (Book, Option<Admission>) {
    if operation.id in b.leases then (b, None) else AdmitFrom(b, operation, candidates, now)
  }

  function Return(b: Book, lease: Lease): (Book, bool) {
    if lease.operationId !in b.leases || b.leases[lease.operationId] != lease then (b, false)
    else (b.(leases := b.leases - {lease.operationId}), true)
  }

  // ----- The pool refines the reference -----

  predicate Ordered(events: seq<Event>) {
    forall i, j :: 0 <= i < j < |events| ==> events[i].at <= events[j].at
  }

  /** In order and not ahead of the clock. */
  predicate Timely(events: seq<Event>, now: Instant) {
    Ordered(events) && forall i :: 0 <= i < |events| ==> events[i].at <= now
  }

  ghost predicate ScopeRefines(p: Pool, b: Book, now: Instant, s: Scope) {
    && ActiveOf(p.active, s) == |Holders(b.leases, s)|
    && Timely(EventsOf(p.events, s), now)
    && Recent(EventsOf(p.events, s), now) == Recent(EventsOf(b.admitted, s), now)
  }

  ghost predicate Refines(p: Pool, b: Book, now: Instant) {
    p.limits == b.limits && p.leases == b.leases && forall s :: ScopeRefines(p, b, now, s)
  }

  lemma {:induction false} ExpireIsFilter(events: seq<Event>, now: Instant)
    requires Ordered(events)
    ensures Expire(events, now - WINDOW) == Recent(events, now)
  {
    if events != [] {
      if events[0].at > now - WINDOW {
        AllRecent(events, now);
      } else {
        ExpireIsFilter(events[1..], now);
      }
    }
  }

  lemma {:induction false} ExpireTimely(events: seq<Event>, cutoff: Instant, now: Instant)
    requires Timely(events, now)
    ensures Timely(Expire(events, cutoff), now)
  {
    if events != [] && events[0].at <= cutoff {
      ExpireTimely(events[1..], cutoff, now);
    }
  }

  lemma {:induction false} AllRecent(events: seq<Event>, now: Instant)
    requires forall i :: 0 <= i < |events| ==> events[i].at > now - WINDOW
    ensures Recent(events, now) == events
  {
    if events != [] {
      AllRecent(events[1..], now);
    }
  }

  /** What is recent later was recent before. */
  lemma {:induction false} RecentTwice(events: seq<Event>, earlier: Instant, now: Instant)
    requires earlier <= now
    ensures Recent(Recent(events, earlier), now) == Recent(events, now)
  {
    if events != [] {
      RecentTwice(events[1..], earlier, now);
      if events[0].at > earlier - WINDOW {
        assert ([events[0]] + Recent(events[1..], earlier))[1..] == Recent(events[1..], earlier);
      }
    }
  }

  /** Time passing keeps a scope refined. */
  lemma ScopeLater(p: Pool, b: Book, earlier: Instant, now: Instant, s: Scope)
    requires ScopeRefines(p, b, earlier, s) && earlier <= now
    ensures ScopeRefines(p, b, now, s)
  {
    RecentTwice(EventsOf(p.events, s), earlier, now);
    RecentTwice(EventsOf(b.admitted, s), earlier, now);
  }

  lemma Later(p: Pool, b: Book, earlier: Instant, now: Instant)
    requires Refines(p, b, earlier) && earlier <= now
    ensures Refines(p, b, now)
  {
    forall s ensures ScopeRefines(p, b, now, s) {
      ScopeLater(p, b, earlier, now, s);
    }
  }

  /** Pruning is not seen by the reference, and leaves exactly the recent admissions. */
  lemma PruneScope(p: Pool, pruned: Pool, b: Book, now: Instant, scopes: seq<Scope>, s: Scope)
    requires ScopeRefines(p, b, now, s)
    requires pruned == p.(events := Pruned(p.events, scopes, now - WINDOW))
    ensures ScopeRefines(pruned, b, now, s)
    ensures s in scopes ==> EventsOf(pruned.events, s) == Recent(EventsOf(b.admitted, s), now)
  {
    ExpireIsFilter(EventsOf(p.events, s), now);
    ExpireTimely(EventsOf(p.events, s), now - WINDOW, now);
    RecentTwice(EventsOf(p.events, s), now, now);
  }

  lemma PruneRefines(p: Pool, pruned: Pool, b: Book, now: Instant, scopes: seq<Scope>)
    requires Refines(p, b, now)
    requires pruned == p.(events := Pruned(p.events, scopes, now - WINDOW))
    ensures Refines(pruned, b, now)
  {
    forall s ensures ScopeRefines(pruned, b, now, s) {
      assert ScopeRefines(p, b, now, s);
      PruneScope(p, pruned, b, now, scopes, s);
    }
  }

  /** On pruned deques `_fits` decides what the reference decides. */
  lemma FitsIsAdmissible(p: Pool, pruned: Pool, b: Book, operation: Operation, candidate: Candidate, now: Instant)
    requires Refines(p, b, now)
    requires pruned == p.(events := Pruned(p.events, Configured(p.limits, operation, candidate), now - WINDOW))
    ensures FitsScopes(pruned, Configured(p.limits, operation, candidate), operation.tokens)
       <==> Admissible(b, operation, candidate, now)
  {
    var scopes := Configured(p.limits, operation, candidate);
    forall s | s in scopes
      ensures ActiveOf(pruned.active, s) == |Holders(b.leases, s)|
      ensures EventsOf(pruned.events, s) == Recent(EventsOf(b.admitted, s), now)
    {
      assert ScopeRefines(p, b, now, s);
      PruneScope(p, pruned, b, now, scopes, s);
    }
  }

  lemma HoldersAfterGrant(leases: map<Id, Lease>, lease: Lease, s: Scope)
    requires lease.operationId !in leases
    ensures |Holders(leases[lease.operationId := lease], s)|
         == |Holders(leases, s)| + if s in lease.scopes then 1 else 0
  {
    var after := leases[lease.operationId := lease];
    if s in lease.scopes {
      assert Holders(after, s) == Holders(leases, s) + {lease.operationId};
    } else {
      assert Holders(after, s) == Holders(leases, s);
    }
  }

  lemma HoldersAfterReturn(leases: map<Id, Lease>, id: Id, s: Scope)
    requires id in leases
    ensures |Holders(leases, s)| == |Holders(leases - {id}, s)| + if s in leases[id].scopes then 1 else 0
  {
    if s in leases[id].scopes {
      assert Holders(leases, s) == Holders(leases - {id}, s) + {id};
    } else {
      assert Holders(leases, s) == Holders(leases - {id}, s);
    }
  }

  lemma RecentAppend(events: seq<Event>, e: Event, now: Instant)
    ensures Recent(events + [e], now) == if e.at > now - WINDOW then Recent(events, now) + [e] else Recent(events, now)
  {
    FilterConcat((x: Event) => x.at > now - WINDOW, events, [e]);
  }

  lemma AppendTimely(events: seq<Event>, e: Event)
    requires Timely(events, e.at)
    ensures Timely(events + [e], e.at)
  {}

  /** One scope's side of a grant. */
  lemma GrantScope(p: Pool, b: Book, after: Pool, granted: Book, lease: Lease, e: Event, s: Scope)
    requires ScopeRefines(p, b, e.at, s) && lease.operationId !in b.leases
    requires granted.leases == b.leases[lease.operationId := lease]
    requires ActiveOf(after.active, s) == ActiveOf(p.active, s) + if s in lease.scopes then 1 else 0
    requires EventsOf(after.events, s) == if s in lease.scopes then EventsOf(p.events, s) + [e] else EventsOf(p.events, s)
    requires EventsOf(granted.admitted, s)
          == if s in lease.scopes then EventsOf(b.admitted, s) + [e] else EventsOf(b.admitted, s)
    ensures ScopeRefines(after, granted, e.at, s)
  {
    HoldersAfterGrant(b.leases, lease, s);
    AppendTimely(EventsOf(p.events, s), e);
    RecentAppend(EventsOf(p.events, s), e, e.at);
    RecentAppend(EventsOf(b.admitted, s), e, e.at);
  }

  lemma TakeRefines(p: Pool, b: Book, operation: Operation, candidate: Candidate, now: Instant)
    requires Refines(p, b, now) && operation.id !in p.leases
    ensures Refines(Take(p, operation, Configured(p.limits, operation, candidate), now),
                    Admit(b, operation, candidate, now), now)
  {
    var after, admitted := Take(p, operation, Configured(p.limits, operation, candidate), now), Admit(b, operation, candidate, now);
    forall s ensures ScopeRefines(after, admitted, now, s) {
      assert ScopeRefines(p, b, now, s);
      GrantScope(p, b, after, admitted, after.leases[operation.id], Event(now, operation.tokens), s);
    }
  }

  lemma {:induction false} AcquireFromRefines(p: Pool, b: Book, operation: Operation, candidates: seq<Candidate>, now: Instant)
    requires Refines(p, b, now) && operation.id !in p.leases
    ensures AcquireFrom(p, operation, candidates, now).1 == AdmitFrom(b, operation, candidates, now).1
    ensures Refines(AcquireFrom(p, operation, candidates, now).0, AdmitFrom(b, operation, candidates, now).0, now)
    decreases |candidates|
  {
    if candidates != [] {
      var scopes := Configured(p.limits, operation, candidates[0]);
      var pruned := p.(events := Pruned(p.events, scopes, now - WINDOW));
      FitsIsAdmissible(p, pruned, b, operation, candidates[0], now);
      PruneRefines(p, pruned, b, now, scopes);
      if Admissible(b, operation, candidates[0], now) {
        TakeRefines(pruned, b, operation, candidates[0], now);
      } else {
        AcquireFromRefines(pruned, b, operation, candidates[1..], now);
      }
    }
  }

  /** The pruning pool admits exactly what the reference admits, and goes on refining it. */
  lemma AcquireRefines(p: Pool, b: Book, operation: Operation, candidates: seq<Candidate>, clock: Instant, now: Instant)
    requires Refines(p, b, clock) && clock <= now
    ensures AcquireFirst(p, operation, candidates, now).1 == AdmitFirst(b, operation, candidates, now).1
    ensures Refines(AcquireFirst(p, operation, candidates, now).0, AdmitFirst(b, operation, candidates, now).0, now)
  {
    Later(p, b, clock, now);
    if operation.id !in p.leases {
      AcquireFromRefines(p, b, operation, candidates, now);
    }
  }

  lemma ReleaseRefines(p: Pool, b: Book, lease: Lease, clock: Instant)
    requires Refines(p, b, clock)
    ensures Release(p, lease).1 == Return(b, lease).1
    ensures Refines(Release(p, lease).0, Return(b, lease).0, clock)
  {
    var after, returned := Release(p, lease).0, Return(b, lease).0;
    if Return(b, lease).1 {
      forall s ensures ScopeRefines(after, returned, clock, s) {
        assert ScopeRefines(p, b, clock, s);
        HoldersAfterReturn(b.leases, lease.operationId, s);
      }
    }
  }

  // ----- Runs -----

  datatype Call =
    | AcquireCall(operation: Operation, candidates: seq<Candidate>, now: Instant)
    | ReleaseCall(lease: Lease)

  datatype Answer = Admitted(admission: Option<Admission>) | Released(done: bool)

  /** Calls never go back in time. */
  predicate Chronological(calls: seq<Call>, clock: Instant) {
    calls == [] ||
    if calls[0].AcquireCall? then clock <= calls[0].now && Chronological(calls[1..], calls[0].now)
    else Chronological(calls[1..], clock)
  }

  function Clock(calls: seq<Call>, clock: Instant): Instant {
    if calls == [] then clock
    else Clock(calls[1..], if calls[0].AcquireCall? then calls[0].now else clock)
  }

  function Serve(p: Pool, call: Call): (Pool, Answer) {
    match call
    case AcquireCall(operation, candidates, now) =>
      var (after, admission) := AcquireFirst(p, operation, candidates, now); (after, Admitted(admission))
    case ReleaseCall(lease) => var (after, done) := Release(p, lease); (after, Released(done))
  }

  ghost function Keep(b: Book, call: Call): (Book, Answer) {
    match call
    case AcquireCall(operation, candidates, now) =>
      var (after, admission) := AdmitFirst(b, operation, candidates, now); (after, Admitted(admission))
    case ReleaseCall(lease) => var (after, done) := Return(b, lease); (after, Released(done))
  }

  function Run(p: Pool, calls: seq<Call>): (Pool, seq<Answer>)
    decreases |calls|
  {
    if calls == [] then (p, [])
    else
      var (next, answer) := Serve(p, calls[0]);
      var (last, answers) := Run(next, calls[1..]);
      (last, [answer] + answers)
  }

  ghost function RunBook(b: Book, calls: seq<Call>): (Book, seq<Answer>)
    decreases |calls|
  {
    if calls == [] then (b, [])
    else
      var (next, answer) := Keep(b, calls[0]);
      var (last, answers) := RunBook(next, calls[1..]);
      (last, [answer] + answers)
  }

  /** Whole runs: the same answers, and the same accounts at the end. */
  lemma {:induction false} RunRefines(p: Pool, b: Book, calls: seq<Call>, clock: Instant)
    requires Refines(p, b, clock) && Chronological(calls, clock)
    ensures Run(p, calls).1 == RunBook(b, calls).1
    ensures Refines(Run(p, calls).0, RunBook(b, calls).0, Clock(calls, clock))
    decreases |calls|
  {
    if calls != [] {
      match calls[0]
      case AcquireCall(operation, candidates, now) =>
        AcquireRefines(p, b, operation, candidates, clock, now);
        RunRefines(AcquireFirst(p, operation, candidates, now).0, AdmitFirst(b, operation, candidates, now).0, calls[1..], now);
      case ReleaseCall(lease) =>
        ReleaseRefines(p, b, lease, clock);
        RunRefines(Release(p, lease).0, Return(b, lease).0, calls[1..], clock);
    }
  }

  lemma {:induction false} RefusalKeepsBook(b: Book, operation: Operation, candidates: seq<Candidate>, now: Instant)
    requires AdmitFrom(b, operation, candidates, now).1.None?
    ensures AdmitFrom(b, operation, candidates, now).0 == b
  {
    if candidates != [] {
      RefusalKeepsBook(b, operation, candidates[1..], now);
    }
  }

  /** A refused acquisition prunes, but no later decision at later times can tell. */
  lemma RefusalInvisible(p: Pool, b: Book, operation: Operation, candidates: seq<Candidate>, clock: Instant, now: Instant,
                         calls: seq<Call>)
    requires Refines(p, b, clock) && clock <= now && Chronological(calls, now)
    requires AcquireFirst(p, operation, candidates, now).1.None?
    ensures Run(AcquireFirst(p, operation, candidates, now).0, calls).1 == Run(p, calls).1
  {
    AcquireRefines(p, b, operation, candidates, clock, now);
    if operation.id !in b.leases {
      RefusalKeepsBook(b, operation, candidates, now);
    }
    Later(p, b, clock, now);
    RunRefines(p, b, calls, now);
    RunRefines(AcquireFirst(p, operation, candidates, now).0, b, calls, now);
  }
}
