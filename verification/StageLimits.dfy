/** What a stage limit does to a resume (bulk/worker.py). */
module StageLimits {
  import opened Prelude
  import opened Repository
  import opened WorkHistory
  import opened Worker

  lemma LoopIdles(p: Processor, c: Cell, owner: Id, clock: Clock, tick: nat, duration: int, limit: Option<nat>)
    requires limit != Some(0) && Next(c).Some? && !OneStage(p, c, owner, clock, tick, duration).1.Processed?
    ensures ResumeLoop(p, c, owner, clock, tick, duration, limit).results == []
  {}

  /** The results of a limited resume: at most one, or one and those of a resume limited to one fewer. */
  lemma OneFewer(p: Processor, c: Cell, owner: Id, clock: Clock, tick: nat, duration: int, limit: nat, results: seq<StageResult>)
    returns (more: bool, after: Cell, result: StageResult)
    requires limit > 0 && Next(c).Some? && results == ResumeLoop(p, c, owner, clock, tick, duration, Some(limit)).results
    ensures !more ==> |results| <= 1
    ensures more ==> Remaining(after) < Remaining(c)
    ensures more ==> results == [result] + ResumeLoop(p, after, owner, clock, tick + 2, duration, Some(limit - 1)).results
  {
    var outcome: StageOutcome;
    after, outcome := OneStage(p, c, owner, clock, tick, duration).0, OneStage(p, c, owner, clock, tick, duration).1;
    more := outcome.Processed? && outcome.result.StageCheckpointed?;
    if outcome.Processed? {
      result := outcome.result;
      LoopGoesOn(p, c, owner, clock, tick, duration, Some(limit), after, result);
    } else {
      result := StageTerminal(Cancelled);
      LoopIdles(p, c, owner, clock, tick, duration, Some(limit));
    }
  }

  /** Whatever the item, the clock and the names, a resume processes no more stages than its limit. */
  lemma {:induction false} LimitHolds(p: Processor, c: Cell, owner: Id, clock: Clock, tick: nat, duration: int, limit: nat,
                                      results: seq<StageResult>)
    requires results == ResumeLoop(p, c, owner, clock, tick, duration, Some(limit)).results
    ensures |results| <= limit
    decreases limit
  {
    if limit > 0 && Next(c).Some? {
      var more, after, result := OneFewer(p, c, owner, clock, tick, duration, limit, results);
      if more {
        var rest := ResumeLoop(p, after, owner, clock, tick + 2, duration, Some(limit - 1)).results;
        LimitHolds(p, after, owner, clock, tick + 2, duration, limit - 1, rest);
      }
    }
  }

  /** The result is what the `n`-th decision of the ideal run reports. */
  predicate ReportsAt(p: Processor, start: Digest, n: nat, result: StageResult) {
    var d := Iterate(p, start, n);
    !Done(d) && result == ResultOf(NextOf(d).value, p(d))
  }

  /** The results are those of the decisions from the `n`-th on, one by one. */
  predicate Reports(p: Processor, start: Digest, n: nat, results: seq<StageResult>) {
    forall i :: 0 <= i < |results| ==> ReportsAt(p, start, n + i, results[i])
  }

  /** The item stands behind its last result; it is done there, or the limit was reached. */
  predicate StopsAt(p: Processor, start: Digest, n: nat, r: Resumed, limit: Option<nat>) {
    && !r.raised && At(p, start, r.cell, n + |r.results|)
    && (Done(Iterate(p, start, n + |r.results|)) || limit == Some(|r.results|))
    && (limit.Some? ==> |r.results| <= limit.value)
  }

  lemma ReportsMore(p: Processor, start: Digest, n: nat, result: StageResult, rest: seq<StageResult>)
    requires ReportsAt(p, start, n, result) && Reports(p, start, n + 1, rest)
    ensures Reports(p, start, n, [result] + rest)
  {
    var results := [result] + rest;
    forall i | 0 <= i < |results| ensures ReportsAt(p, start, n + i, results[i]) {
      if i > 0 { assert ReportsAt(p, start, n + 1 + (i - 1), rest[i - 1]); }
    }
  }

  lemma StopsMore(p: Processor, start: Digest, n: nat, result: StageResult, rest: Resumed, limit: Option<nat>, less: Option<nat>)
    requires limit != Some(0) && less == if limit.None? then None else Some(limit.value - 1)
    requires StopsAt(p, start, n + 1, rest, less)
    ensures StopsAt(p, start, n, Prepend(result, rest), limit)
  {
    assert n + |Prepend(result, rest).results| == n + 1 + |rest.results|;
  }

  lemma StopsNow(p: Processor, start: Digest, c: Cell, n: nat, result: StageResult, limit: Option<nat>)
    requires At(p, start, c, n + 1) && Done(Iterate(p, start, n + 1)) && ReportsAt(p, start, n, result) && limit != Some(0)
    ensures Reports(p, start, n, [result]) && StopsAt(p, start, n, Resumed(c, [result], false), limit)
  {
    ReportsMore(p, start, n, result, []);
    assert [result] + [] == [result];
  }

  lemma StopsHere(p: Processor, start: Digest, c: Cell, n: nat, limit: Option<nat>)
    requires At(p, start, c, n) && (Done(Iterate(p, start, n)) || limit == Some(0))
    ensures Reports(p, start, n, []) && StopsAt(p, start, n, Resumed(c, [], false), limit)
  {}

  /** One stage in front of what the rest of the resume does. */
  lemma Joins(p: Processor, start: Digest, n: nat, result: StageResult, rest: Resumed, limit: Option<nat>, less: Option<nat>)
    requires limit != Some(0) && less == if limit.None? then None else Some(limit.value - 1)
    requires ReportsAt(p, start, n, result) && Reports(p, start, n + 1, rest.results) && StopsAt(p, start, n + 1, rest, less)
    ensures Reports(p, start, n, Prepend(result, rest).results) && StopsAt(p, start, n, Prepend(result, rest), limit)
  {
    ReportsMore(p, start, n, result, rest.results);
    StopsMore(p, start, n, result, rest, limit, less);
  }

  /** A resume begun once leases have lapsed makes the decisions of the ideal run one by one, until it is done or at its limit. */
  lemma {:induction false} ResumeReports(p: Processor, start: Digest, c: Cell, n: nat, owner: Id, clock: Clock, tick: nat,
                                         duration: int, limit: Option<nat>, r: Resumed)
    requires WellBehaved(p) && At(p, start, c, n)
    requires LeaseArguments(owner, duration) && Timely(clock, duration) && Lapsed(c, clock(tick))
    requires r == ResumeLoop(p, c, owner, clock, tick, duration, limit)
    ensures Reports(p, start, n, r.results) && StopsAt(p, start, n, r, limit)
    decreases Remaining(c)
  {
    if Done(Iterate(p, start, n)) || limit == Some(0) {
      if limit != Some(0) { NothingToDo(p, c, owner, clock, tick, duration, limit); }
      StopsHere(p, start, c, n, limit);
    } else {
      var after, result := ResumeGoesOn(p, start, c, n, owner, clock, tick, duration, limit, r);
      if result.StageCheckpointed? {
        var less := if limit.None? then None else Some(limit.value - 1);
        var rest := ResumeLoop(p, after, owner, clock, tick + 2, duration, less);
        ResumeReports(p, start, after, n + 1, owner, clock, tick + 2, duration, less, rest);
        Joins(p, start, n, result, rest, limit, less);
      } else {
        StopsNow(p, start, after, n, result, limit);
      }
    }
  }

  function Min(a: nat, b: nat): nat { if a <= b then a else b }

  lemma NotDoneWithin(p: Processor, start: Digest, n: nat, results: seq<StageResult>, k: nat)
    requires Reports(p, start, n, results) && k < |results|
    ensures !Done(Iterate(p, start, n + k))
  {
    assert ReportsAt(p, start, n + k, results[k]);
  }

  lemma SameReports(p: Processor, start: Digest, n: nat, a: seq<StageResult>, b: seq<StageResult>, i: nat)
    requires Reports(p, start, n, a) && Reports(p, start, n, b) && i < |a| && i < |b|
    ensures a[i] == b[i]
  {
    assert ReportsAt(p, start, n + i, a[i]) && ReportsAt(p, start, n + i, b[i]);
  }

  /** `limited` gives the first min(k, m) of the m results of `whole`, and stands behind them. */
  predicate CutAt(p: Processor, start: Digest, n: nat, limited: Resumed, whole: Resumed, k: nat) {
    var stages := Min(k, |whole.results|);
    && !limited.raised && limited.results == whole.results[..stages]
    && At(p, start, limited.cell, n + stages) && Done(Iterate(p, start, n + |whole.results|))
  }

  lemma ReportsCut(p: Processor, start: Digest, n: nat, limited: Resumed, whole: Resumed, k: nat)
    requires Reports(p, start, n, limited.results) && StopsAt(p, start, n, limited, Some(k))
    requires Reports(p, start, n, whole.results) && StopsAt(p, start, n, whole, None)
    ensures CutAt(p, start, n, limited, whole, k)
  {
    var a, b := limited.results, whole.results;
    if |b| < |a| { NotDoneWithin(p, start, n, a, |b|); }
    if |a| < |b| { NotDoneWithin(p, start, n, b, |a|); }
    forall i | 0 <= i < |a| && i < |b| ensures a[i] == b[i] { SameReports(p, start, n, a, b, i); }
  }

  /**
   * Of the m results of an unlimited resume, one limited to k stages gives the first min(k, m), and leaves the item
   * exactly that many decisions further along the ideal run.
   */
  lemma LimitedResume(p: Processor, start: Digest, c: Cell, n: nat, owner: Id, clock: Clock, tick: nat, duration: int, k: nat)
    requires WellBehaved(p) && At(p, start, c, n)
    requires LeaseArguments(owner, duration) && Timely(clock, duration) && Lapsed(c, clock(tick))
    ensures CutAt(p, start, n, ResumeLoop(p, c, owner, clock, tick, duration, Some(k)),
                  ResumeLoop(p, c, owner, clock, tick, duration, None), k)
  {
    var whole := ResumeLoop(p, c, owner, clock, tick, duration, None);
    var limited := ResumeLoop(p, c, owner, clock, tick, duration, Some(k));
    ResumeReports(p, start, c, n, owner, clock, tick, duration, None, whole);
    ResumeReports(p, start, c, n, owner, clock, tick, duration, Some(k), limited);
    ReportsCut(p, start, n, limited, whole, k);
  }
}
