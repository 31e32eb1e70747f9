/** What the limits promise over whole runs of the capacity pool. */
module CapacityBounds {
  import opened Prelude
  import opened ModelRouting
  import opened Capacity

  /** The admissions later than `from` and no later than a minute after it. */
  function InWindow(events: seq<Event>, from: Instant): seq<Event> {
    Filter((e: Event) => from < e.at <= from + WINDOW, events)
  }

  predicate WithinRate(limit: Limit, events: seq<Event>) {
    && (limit.requests.Some? ==> |events| <= limit.requests.value)
    && (limit.tokens.Some? ==> Tokens(events) <= limit.tokens.value)
  }

  /** When each event was admitted, the minute ending with it was within the limits. */
  predicate Paced(limit: Limit, events: seq<Event>) {
    events == [] ||
    var init, last := events[..|events| - 1], events[|events| - 1];
    Paced(limit, init) && WithinRate(limit, Recent(events, last.at))
  }

  lemma {:induction false} TokensConcat(a: seq<Event>, b: seq<Event>)
    ensures Tokens(a + b) == Tokens(a) + Tokens(b)
  {
    if a == [] {
      assert a + b == b;
    } else {
      TokensConcat(a[1..], b);
      assert (a + b)[1..] == a[1..] + b;
    }
  }

  lemma {:induction false} FilterGrows(small: Event -> bool, large: Event -> bool, events: seq<Event>)
    requires forall i :: 0 <= i < |events| && small(events[i]) ==> large(events[i])
    ensures |Filter(small, events)| <= |Filter(large, events)|
    ensures Tokens(Filter(small, events)) <= Tokens(Filter(large, events))
  {
    if events != [] {
      FilterGrows(small, large, events[1..]);
      var s, l := Filter(small, events[1..]), Filter(large, events[1..]);
      assert ([events[0]] + s)[1..] == s && ([events[0]] + l)[1..] == l;
    }
  }

  lemma {:induction false} FilterNothing(keep: Event -> bool, events: seq<Event>)
    requires forall i :: 0 <= i < |events| ==> !keep(events[i])
    ensures Filter(keep, events) == []
  {
    if events != [] {
      FilterNothing(keep, events[1..]);
    }
  }

  /** A paced history is within its limits in every one-minute window, wherever the window starts. */
  lemma {:induction false} PacedBoundsWindows(limit: Limit, events: seq<Event>, from: Instant)
    requires Ordered(events) && Paced(limit, events)
    ensures WithinRate(limit, InWindow(events, from))
  {
    if events != [] {
      var n := |events| - 1;
      var init, last := events[..n], events[n];
      assert events == init + [last];
      var inside := (e: Event) => from < e.at <= from + WINDOW;
      if last.at > from + WINDOW {
        PacedBoundsWindows(limit, init, from);
        FilterConcat(inside, init, [last]);
        assert Filter(inside, [last]) == [];
        assert InWindow(events, from) == InWindow(init, from);
      } else if last.at <= from {
        FilterNothing(inside, events);
      } else {
        FilterGrows(inside, (e: Event) => e.at > last.at - WINDOW, events);
      }
    }
  }

  /** Admitting into a scope that has room keeps its history paced. */
  lemma RoomKeepsPace(limit: Limit, active: int, events: seq<Event>, e: Event)
    requires Paced(limit, events) && Room(limit, active, Recent(events, e.at), e.tokens)
    ensures Paced(limit, events + [e])
  {
    var grown := events + [e];
    assert grown[..|grown| - 1] == events;
    RecentAppend(events, e, e.at);
    TokensConcat(Recent(events, e.at), [e]);
    assert Tokens([e]) == e.tokens;
  }

  // ----- The reference book keeps within its limits -----

  ghost predicate ScopeKept(b: Book, clock: Instant, s: Scope)
    requires s in b.limits
  {
    && Timely(EventsOf(b.admitted, s), clock)
    && Paced(b.limits[s], EventsOf(b.admitted, s))
    && (b.limits[s].concurrency.Some? ==> |Holders(b.leases, s)| <= b.limits[s].concurrency.value)
  }

  ghost predicate Kept(b: Book, clock: Instant) {
    forall s :: s in b.limits ==> ScopeKept(b, clock, s)
  }

  lemma AdmitScope(b: Book, operation: Operation, candidate: Candidate, clock: Instant, now: Instant, s: Scope)
    requires s in b.limits && ScopeKept(b, clock, s) && clock <= now && operation.id !in b.leases
    requires Admissible(b, operation, candidate, now)
    ensures ScopeKept(Admit(b, operation, candidate, now), now, s)
  {
    var scopes := Configured(b.limits, operation, candidate);
    var e := Event(now, operation.tokens);
    HoldersAfterGrant(b.leases, Lease(operation.id, scopes), s);
    if s in scopes {
      RoomKeepsPace(b.limits[s], |Holders(b.leases, s)|, EventsOf(b.admitted, s), e);
      AppendTimely(EventsOf(b.admitted, s), e);
    }
  }

  lemma KeptLater(b: Book, clock: Instant, now: Instant)
    requires Kept(b, clock) && clock <= now
    ensures Kept(b, now)
  {
    forall s | s in b.limits ensures ScopeKept(b, now, s) {
      assert ScopeKept(b, clock, s);
    }
  }

  lemma {:induction false} AdmitFromKept(b: Book, operation: Operation, candidates: seq<Candidate>, clock: Instant, now: Instant)
    requires Kept(b, clock) && clock <= now && operation.id !in b.leases
    ensures Kept(AdmitFrom(b, operation, candidates, now).0, now)
  {
    if candidates == [] {
      KeptLater(b, clock, now);
    } else if Admissible(b, operation, candidates[0], now) {
      var after := Admit(b, operation, candidates[0], now);
      forall s | s in after.limits ensures ScopeKept(after, now, s) {
        assert ScopeKept(b, clock, s);
        AdmitScope(b, operation, candidates[0], clock, now, s);
      }
    } else {
      AdmitFromKept(b, operation, candidates[1..], clock, now);
    }
  }

  lemma AdmitFirstKept(b: Book, operation: Operation, candidates: seq<Candidate>, clock: Instant, now: Instant)
    requires Kept(b, clock) && clock <= now
    ensures Kept(AdmitFirst(b, operation, candidates, now).0, now)
  {
    if operation.id in b.leases {
      KeptLater(b, clock, now);
    } else {
      AdmitFromKept(b, operation, candidates, clock, now);
    }
  }

  lemma ReturnKept(b: Book, lease: Lease, clock: Instant)
    requires Kept(b, clock)
    ensures Kept(Return(b, lease).0, clock)
  {
    var after := Return(b, lease).0;
    if Return(b, lease).1 {
      forall s | s in after.limits ensures ScopeKept(after, clock, s) {
        assert ScopeKept(b, clock, s);
        HoldersAfterReturn(b.leases, lease.operationId, s);
      }
    }
  }

  lemma {:induction false} RunKept(b: Book, calls: seq<Call>, clock: Instant)
    requires Kept(b, clock) && Chronological(calls, clock)
    ensures Kept(RunBook(b, calls).0, Clock(calls, clock))
    ensures RunBook(b, calls).0.limits == b.limits
    decreases |calls|
  {
    if calls != [] {
      match calls[0]
      case AcquireCall(operation, candidates, now) =>
        AdmitFirstKept(b, operation, candidates, clock, now);
        AdmitFromLimits(b, operation, candidates, now);
        RunKept(AdmitFirst(b, operation, candidates, now).0, calls[1..], now);
      case ReleaseCall(lease) =>
        ReturnKept(b, lease, clock);
        RunKept(Return(b, lease).0, calls[1..], clock);
    }
  }

  lemma {:induction false} AdmitFromLimits(b: Book, operation: Operation, candidates: seq<Candidate>, now: Instant)
    ensures AdmitFrom(b, operation, candidates, now).0.limits == b.limits
  {
    if candidates != [] {
      AdmitFromLimits(b, operation, candidates[1..], now);
    }
  }

  // ----- What the pool itself was seen to do -----

  /** The admissions on `s` that the answers of a run report. */
  function Admissions(calls: seq<Call>, answers: seq<Answer>, s: Scope): seq<Event> {
    if calls == [] || answers == [] then []
    else
      AdmissionOf(calls[0], answers[0], s) + Admissions(calls[1..], answers[1..], s)
  }

  lemma {:induction false} AdmitFromRecords(b: Book, operation: Operation, candidates: seq<Candidate>, now: Instant, s: Scope)
    ensures var (after, admission) := AdmitFrom(b, operation, candidates, now);
            EventsOf(after.admitted, s)
            == if admission.Some? && s in admission.value.lease.scopes
               then EventsOf(b.admitted, s) + [Event(now, operation.tokens)] else EventsOf(b.admitted, s)
  {
    if candidates != [] {
      AdmitFromRecords(b, operation, candidates[1..], now, s);
    }
  }

  /** The admission on `s` that one answer reports. */
  function AdmissionOf(call: Call, answer: Answer, s: Scope): seq<Event> {
    if && call.AcquireCall? && answer.Admitted? && answer.admission.Some?
       && s in answer.admission.value.lease.scopes
    then [Event(call.now, call.operation.tokens)] else []
  }

  lemma KeepRecords(b: Book, call: Call, s: Scope)
    ensures EventsOf(Keep(b, call).0.admitted, s) == EventsOf(b.admitted, s) + AdmissionOf(call, Keep(b, call).1, s)
  {
    assert EventsOf(b.admitted, s) + [] == EventsOf(b.admitted, s);
    if call.AcquireCall? {
      AdmitFromRecords(b, call.operation, call.candidates, call.now, s);
    }
  }

  lemma AdmissionsCons(call: Call, rest: seq<Call>, answer: Answer, answers: seq<Answer>, s: Scope)
    ensures Admissions([call] + rest, [answer] + answers, s) == AdmissionOf(call, answer, s) + Admissions(rest, answers, s)
  {
    assert ([call] + rest)[1..] == rest && ([answer] + answers)[1..] == answers;
  }

  lemma RegroupEvents(a: seq<Event>, b: seq<Event>, c: seq<Event>)
    ensures (a + b) + c == a + (b + c)
  {}

  lemma {:induction false} BookRecordsAdmissions(b: Book, calls: seq<Call>, s: Scope)
    ensures EventsOf(RunBook(b, calls).0.admitted, s)
         == EventsOf(b.admitted, s) + Admissions(calls, RunBook(b, calls).1, s)
    decreases |calls|
  {
    if calls == [] {
      assert EventsOf(b.admitted, s) + [] == EventsOf(b.admitted, s);
    } else {
      var (next, answer) := Keep(b, calls[0]);
      KeepRecords(b, calls[0], s);
      BookRecordsAdmissions(next, calls[1..], s);
      var answers := RunBook(next, calls[1..]).1;
      AdmissionsCons(calls[0], calls[1..], answer, answers, s);
      assert calls == [calls[0]] + calls[1..];
      RegroupEvents(EventsOf(b.admitted, s), AdmissionOf(calls[0], answer, s), Admissions(calls[1..], answers, s));
    }
  }

  function Empty(limits: map<Scope, Limit>): Pool {
    Pool(limits, map[], map[], map[])
  }

  ghost function BlankBook(limits: map<Scope, Limit>): Book {
    Book(limits, map[], map[])
  }

  lemma EmptyRefines(limits: map<Scope, Limit>, clock: Instant)
    ensures Refines(Empty(limits), BlankBook(limits), clock) && Kept(BlankBook(limits), clock)
  {
    forall s ensures Holders(map[], s) == {} {}
  }

  /**
   * In every window (from, from + 60s] of every run the admissions on a limited scope, and their tokens,
   * stay within its per-minute limits, whatever was released meanwhile.
   */
  lemma RollingWindowBound(limits: map<Scope, Limit>, calls: seq<Call>, clock: Instant, s: Scope, from: Instant)
    requires Chronological(calls, clock) && s in limits
    ensures WithinRate(limits[s], InWindow(Admissions(calls, Run(Empty(limits), calls).1, s), from))
  {
    var b := BlankBook(limits);
    EmptyRefines(limits, clock);
    RunRefines(Empty(limits), b, calls, clock);
    RunKept(b, calls, clock);
    BookRecordsAdmissions(b, calls, s);
    var admissions := Admissions(calls, RunBook(b, calls).1, s);
    assert [] + admissions == admissions;
    assert ScopeKept(RunBook(b, calls).0, Clock(calls, clock), s);
    PacedBoundsWindows(limits[s], admissions, from);
  }

  /** The pruned deque holds what the full history holds of the last minute. */
  lemma DequeIsRecentHistory(limits: map<Scope, Limit>, calls: seq<Call>, clock: Instant, s: Scope)
    requires Chronological(calls, clock)
    ensures var (p, answers) := Run(Empty(limits), calls);
            Recent(EventsOf(p.events, s), Clock(calls, clock)) == Recent(Admissions(calls, answers, s), Clock(calls, clock))
  {
    var b := BlankBook(limits);
    EmptyRefines(limits, clock);
    RunRefines(Empty(limits), b, calls, clock);
    BookRecordsAdmissions(b, calls, s);
    assert [] + Admissions(calls, RunBook(b, calls).1, s) == Admissions(calls, RunBook(b, calls).1, s);
    assert ScopeRefines(Run(Empty(limits), calls).0, RunBook(b, calls).0, Clock(calls, clock), s);
  }

  /** A scope's counter is the number of outstanding leases that contain it, within its concurrency limit. */
  lemma ActiveCountsLeases(limits: map<Scope, Limit>, calls: seq<Call>, clock: Instant, s: Scope)
    requires Chronological(calls, clock) && s in limits
    ensures var p := Run(Empty(limits), calls).0;
            && ActiveOf(p.active, s) == |Holders(p.leases, s)| >= 0
            && (limits[s].concurrency.Some? ==> ActiveOf(p.active, s) <= limits[s].concurrency.value)
  {
    var b := BlankBook(limits);
    EmptyRefines(limits, clock);
    RunRefines(Empty(limits), b, calls, clock);
    RunKept(b, calls, clock);
    assert ScopeRefines(Run(Empty(limits), calls).0, RunBook(b, calls).0, Clock(calls, clock), s);
    assert ScopeKept(RunBook(b, calls).0, Clock(calls, clock), s);
  }

  /** An acquisition takes every configured scope of the candidate it returns, or nothing at all. */
  lemma {:induction false} AllScopesOrNone(p: Pool, operation: Operation, candidates: seq<Candidate>, now: Instant)
    ensures var (after, admission) := AcquireFrom(p, operation, candidates, now);
            match admission
            case None => after.active == p.active && after.leases == p.leases
            case Some(a) =>
              && a.candidate in candidates
              && a.lease == Lease(operation.id, Configured(p.limits, operation, a.candidate))
              && after.leases == p.leases[operation.id := a.lease]
              && after.active == Bumped(p.active, a.lease.scopes, 1)
    decreases |candidates|
  {
    if candidates != [] {
      var scopes := Configured(p.limits, operation, candidates[0]);
      AllScopesOrNone(p.(events := Pruned(p.events, scopes, now - WINDOW)), operation, candidates[1..], now);
    }
  }
}
