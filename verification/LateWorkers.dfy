/** What crashes, limited resumes and late workers make of an item (bulk/worker.py, composition/prototype.py). */
module LateWorkers {
  import opened Prelude
  import opened Repository
  import opened WorkHistory
  import opened Worker
  import opened Workers

  /** An item nobody has worked on, and no worker under way. */
  function Opened(item: Item): Shop {
    Shop(Cell(item, [], None), map[])
  }

  function StartOf(item: Item): Digest {
    DigestOf(Opened(item).cell)
  }

  function Direct(p: Processor, item: Item, owner: Id, clock: Clock, duration: int): Resumed {
    ResumeLoop(p, Opened(item).cell, owner, clock, 0, duration, None)
  }

  /** No step of any worker changes the item any more. */
  ghost predicate IsFinal(q: Dispatch, name: Names, s: Shop) {
    forall steps :: TakeAll(q, name, s, steps).cell == s.cell
  }

  lemma DoneIsFinal(q: Dispatch, name: Names, s: Shop)
    requires CellOk(s.cell) && Done(DigestOf(s.cell))
    ensures IsFinal(q, name, s)
  {
    DoneIsCompleted(s.cell);
    forall steps ensures TakeAll(q, name, s, steps).cell == s.cell { CompletedStays(q, name, s, steps); }
  }

  lemma ResumeOnPath(p: Processor, start: Digest, c: Cell, owner: Id, clock: Clock, duration: int)
    requires WellBehaved(p) && Untouched(start) && OnPath(p, start, c)
    requires LeaseArguments(owner, duration) && Timely(clock, duration) && Lapsed(c, clock(0))
    ensures Finishes(ResumeLoop(p, c, owner, clock, 0, duration, None), Iterate(p, start, 5), 5)
  {
    var n: nat :| At(p, start, c, n);
    ResumeFinishes(p, start, c, n, owner, clock, 0, duration);
  }

  lemma DirectFinishes(p: Processor, item: Item, owner: Id, clock: Clock, duration: int)
    requires WellBehaved(p) && Fresh(item) && LeaseArguments(owner, duration) && Timely(clock, duration)
    ensures Finishes(Direct(p, item, owner, clock, duration), Iterate(p, StartOf(item), 5), 5)
  {
    FreshAt(p, item);
    ResumeFinishes(p, StartOf(item), Opened(item).cell, 0, owner, clock, 0, duration);
  }

  /** Both ended alike, without an error, in at most five stages. */
  predicate EndAlike(direct: Resumed, resumed: Resumed) {
    && !direct.raised && !resumed.raised && |direct.results| <= 5 && |resumed.results| <= 5
    && DigestOf(resumed.cell) == DigestOf(direct.cell) && Done(DigestOf(direct.cell))
  }

  /**
   * Crash and resume make no difference: after any steps of workers with names of their own, an unlimited resume begun once
   * leases have lapsed leaves the same stages, outcomes, results and terminal state as one uninterrupted resume, for good.
   */
  lemma CrashResumeEquivalence(q: Dispatch, item: Item, name: Names, workers: set<WorkerId>, steps: seq<WorkerStep>,
                               owner: Id, clock: Clock, duration: int, other: Id, clock': Clock, duration': int)
    requires WellBehaved(InOneRead(q)) && Fresh(item) && NamesTellApart(name, workers)
    requires OnlyBy(steps, workers) && Lawful(q, name, Opened(item), steps)
    requires LeaseArguments(owner, duration) && Timely(clock, duration)
    requires LeaseArguments(other, duration') && Timely(clock', duration')
    requires Lapsed(TakeAll(q, name, Opened(item), steps).cell, clock'(0))
    ensures var reached := TakeAll(q, name, Opened(item), steps);
            var resumed := ResumeLoop(InOneRead(q), reached.cell, other, clock', 0, duration', None);
            EndAlike(Direct(InOneRead(q), item, owner, clock, duration), resumed) && IsFinal(q, name, reached.(cell := resumed.cell))
  {
    var p := InOneRead(q);
    FreshAt(p, item);
    DirectFinishes(p, item, owner, clock, duration);
    AlwaysOnPath(q, StartOf(item), name, workers, Opened(item).cell, 0, steps);
    var reached := TakeAll(q, name, Opened(item), steps);
    ResumeOnPath(p, StartOf(item), reached.cell, other, clock', duration');
    DoneIsFinal(q, name, reached.(cell := ResumeLoop(p, reached.cell, other, clock', 0, duration', None).cell));
  }

  // ----- One name for two workers -----

  /** How the item ends once a late checkpoint was refused under a name that holds the lease. */
  const FENCED := End(RetryExhausted, Some("CheckpointTransitionError"), Some("checkpoint stages cannot move backwards"), None, false)

  /** The item ended by this decision, which brings no result, and is otherwise as before. */
  predicate EndedBy(d: Digest, before: Digest, last: Decision) {
    last.End? && d == before.(end := Some(Ending(last.state, last.code, last.details, before.result)))
  }

  /** One worker claims and processes a stage at time 1. */
  function Round(v: WorkerId): seq<WorkerStep> {
    [Claims(v, 1, 1)] + [Reads(v)] + [Writes(v, 1)]
  }

  /** One worker claims; the other brings a checkpoint decided on earlier and falls back on ending the item. */
  function Intrusion(w: WorkerId, v: WorkerId): seq<WorkerStep> {
    [Claims(v, 1, 1)] + ([Writes(w, 1)] + [FallsBack(w, 1)])
  }

  /**
   * The first worker claims, decides on the first stage, and falls behind; the second processes two stages and claims the
   * third; then the first brings its checkpoint, which is refused, and ends the item instead.
   */
  function SharedNameSteps(w: WorkerId, v: WorkerId): seq<WorkerStep> {
    ([Claims(w, 0, 1)] + [Reads(w)]) + (Round(v) + (Round(v) + Intrusion(w, v)))
  }

  lemma LeadsWider(q: Dispatch, name: Names, few: set<WorkerId>, many: set<WorkerId>, s: Shop, steps: seq<WorkerStep>, to: Shop)
    requires Leads(q, name, few, s, steps, to) && few <= many
    ensures Leads(q, name, many, s, steps, to)
  {}

  /** A stage claimed and processed by an idle worker is the next of the ideal run. */
  lemma RoundTaken(q: Dispatch, start: Digest, name: Names, s: Shop, n: nat, v: WorkerId) returns (to: Shop)
    requires WellBehaved(InOneRead(q)) && At(InOneRead(q), start, s.cell, n) && !Done(Iterate(InOneRead(q), start, n))
    requires v !in s.at && !Blank(name(v)) && Lapsed(s.cell, 1)
    ensures Leads(q, name, {v}, s, Round(v), to)
    ensures to.at == s.at && At(InOneRead(q), start, to.cell, n + 1) && Lapsed(to.cell, 1)
  {
    var claimed := ClaimCell(s.cell, name(v), 1, 1).0;
    DoneIsCompleted(s.cell);
    NextMatches(s.cell);
    LapsedIsClaimed(s.cell, name(v), 1, 1, 1);
    ClaimAndRead(q, name, s, v, 1, 1);
    LeaseAt(InOneRead(q), start, s.cell, n, name(v), 1, 1);
    NextMatches(claimed);
    var mid := Shop(claimed, s.at[v := HasDecision(Next(claimed).value, InOneRead(q)(DigestOf(claimed)))]);
    to := NextWritten(q, start, name, s, n, v, mid);
    LeadsThen(q, name, {v}, s, [Claims(v, 1, 1)] + [Reads(v)], mid, [Writes(v, 1)], to);
  }

  lemma NextWritten(q: Dispatch, start: Digest, name: Names, s: Shop, n: nat, v: WorkerId, mid: Shop) returns (to: Shop)
    requires WellBehaved(InOneRead(q)) && At(InOneRead(q), start, mid.cell, n) && !Done(Iterate(InOneRead(q), start, n))
    requires Owned(mid.cell.item, name(v), 1) && v !in s.at
    requires var d := Iterate(InOneRead(q), start, n); mid.at == s.at[v := HasDecision(NextOf(d).value, InOneRead(q)(d))]
    ensures Leads(q, name, {v}, mid, [Writes(v, 1)], to)
    ensures to.at == s.at && At(InOneRead(q), start, to.cell, n + 1) && Lapsed(to.cell, 1)
  {
    FreshCommit(InOneRead(q), start, mid.cell, n, name(v), 1);
    to := TakeStep(q, name, mid, Writes(v, 1));
    LeadsOne(q, name, {v}, mid, Writes(v, 1));
    assert to.at == s.at;
  }

  /** A checkpoint for the first stage, brought once a later one is on record under the same name's lease. */
  lemma LateCheckpoint(c: Cell, owner: Id, decision: Decision)
    requires Owned(c.item, owner, 1) && decision.Advance? && c.history != [] && Rank(Latest(c).value.stage) > 0
    ensures Commit(c, owner, Accepted, decision, 1) == (c, Err(StageBackwards))
    ensures Fallback(Accepted, decision, StageBackwards) == Some(FENCED)
  {}

  lemma FencedIsStated()
    ensures Stated(FENCED)
  {
    assert FENCED.code.value[0] in FENCED.code.value;
  }

  /** Whoever brings an end under the name that holds the lease ends the item. */
  lemma LateEnd(c: Cell, owner: Id, stage: Stage, last: Decision)
    requires CellOk(c) && Owned(c.item, owner, 1) && last.End? && Stated(last) && last.result.None?
    ensures var (after, written) := Commit(c, owner, stage, last, 1);
            written.Ok? && CellOk(after) && EndedBy(DigestOf(after), DigestOf(c), last)
  {
    assert c.terminal.None?;
    TerminalizeKeeps(c, owner, last.state, last.code, last.details, 1, None);
  }

  lemma IntrusionEnds(q: Dispatch, name: Names, s: Shop, w: WorkerId, v: WorkerId, decision: Decision) returns (to: Shop)
    requires CellOk(s.cell) && !Done(DigestOf(s.cell)) && Lapsed(s.cell, 1) && Next(s.cell) == Some(ResultStored)
    requires w != v && name(w) == name(v) && !Blank(name(w)) && decision.Advance?
    requires s.at == map[w := HasDecision(Accepted, decision)]
    ensures Leads(q, name, {w, v}, s, Intrusion(w, v), to)
    ensures CellOk(to.cell) && EndedBy(DigestOf(to.cell), DigestOf(s.cell), FENCED)
  {
    var claimed := ClaimCell(s.cell, name(v), 1, 1).0;
    DoneIsCompleted(s.cell);
    LapsedIsClaimed(s.cell, name(v), 1, 1, 1);
    ClaimKeeps(s.cell, name(v), 1, 1);
    ClaimKeepsDigest(s.cell, name(v), 1, 1);
    ClaimKeepsNext(s.cell, name(v), 1, 1);
    var one := TakeStep(q, name, s, Claims(v, 1, 1));
    LeadsOne(q, name, {w, v}, s, Claims(v, 1, 1));
    to := LateFallback(q, name, one, w, v, decision);
    LeadsThen(q, name, {w, v}, s, [Claims(v, 1, 1)], one, [Writes(w, 1)] + [FallsBack(w, 1)], to);
  }

  lemma LateFallback(q: Dispatch, name: Names, s: Shop, w: WorkerId, v: WorkerId, decision: Decision) returns (to: Shop)
    requires CellOk(s.cell) && Owned(s.cell.item, name(w), 1) && Next(s.cell) == Some(ResultStored)
    requires decision.Advance? && w in s.at && s.at[w] == HasDecision(Accepted, decision)
    ensures Leads(q, name, {w, v}, s, [Writes(w, 1)] + [FallsBack(w, 1)], to)
    ensures CellOk(to.cell) && EndedBy(DigestOf(to.cell), DigestOf(s.cell), FENCED)
  {
    LateCheckpoint(s.cell, name(w), decision);
    var refused := Shop(s.cell, s.at[w := WasRefused(Accepted, FENCED, 1)]);
    LeadsOne(q, name, {w, v}, s, Writes(w, 1));
    to := FencedFallsBack(q, name, refused, w, v);
    LeadsThen(q, name, {w, v}, s, [Writes(w, 1)], refused, [FallsBack(w, 1)], to);
  }

  lemma FencedFallsBack(q: Dispatch, name: Names, s: Shop, w: WorkerId, v: WorkerId) returns (to: Shop)
    requires CellOk(s.cell) && Owned(s.cell.item, name(w), 1) && w in s.at && s.at[w] == WasRefused(Accepted, FENCED, 1)
    ensures Leads(q, name, {w, v}, s, [FallsBack(w, 1)], to)
    ensures CellOk(to.cell) && EndedBy(DigestOf(to.cell), DigestOf(s.cell), FENCED)
  {
    FencedIsStated();
    LateEnd(s.cell, name(w), Accepted, FENCED);
    to := TakeStep(q, name, s, FallsBack(w, 1));
    LeadsOne(q, name, {w, v}, s, FallsBack(w, 1));
  }

  lemma NotDoneBefore(p: Processor, start: Digest, n: nat, m: nat)
    requires n <= m && !Done(Iterate(p, start, m))
    ensures !Done(Iterate(p, start, n))
  {
    if Done(Iterate(p, start, n)) { DoneStays(p, start, n, m); }
  }

  lemma {:induction false} StepsStay(p: Processor, start: Digest, n: nat, m: nat)
    requires n <= m
    ensures |Iterate(p, start, n).steps| <= |Iterate(p, start, m).steps|
  {
    if n < m { StepsStay(p, start, n, m - 1); }
  }

  /** An item that ended before a stage the processor takes it past is not on the ideal run. */
  lemma EndedEarlyIsOff(p: Processor, start: Digest, c: Cell, n: nat)
    requires Untouched(start) && !Done(Iterate(p, start, n)) && DigestOf(c).end.Some? && |DigestOf(c).steps| < n
    ensures !OnPath(p, start, c)
  {
    StagesInOrder(p, start, n);
    forall k: nat ensures Iterate(p, start, k) != DigestOf(c) {
      if k <= n { NotDoneBefore(p, start, k, n); } else { StepsStay(p, start, n, k); }
    }
  }

  /** As many stages as decisions: none of them ended the item. */
  lemma {:induction false} FullSteps(p: Processor, d: Digest, n: nat)
    requires Untouched(d) && n < 5 && |Iterate(p, d, n).steps| >= n
    ensures !Done(Iterate(p, d, n))
  {
    if n > 0 {
      if Done(Iterate(p, d, n - 1)) { FullSteps(p, d, n - 1); }
      StagesInOrder(p, d, n - 1);
    }
  }

  /** The first worker has decided on the first stage of a fresh item. */
  lemma FirstDecides(q: Dispatch, item: Item, name: Names, w: WorkerId) returns (to: Shop)
    requires Fresh(item) && !Blank(name(w)) && !Done(Iterate(InOneRead(q), StartOf(item), 1))
    ensures Leads(q, name, {w}, Opened(item), [Claims(w, 0, 1)] + [Reads(w)], to)
    ensures At(InOneRead(q), StartOf(item), to.cell, 0) && Lapsed(to.cell, 1)
    ensures var decision := InOneRead(q)(StartOf(item)); decision.Advance? && to.at == map[w := HasDecision(Accepted, decision)]
  {
    var s := Opened(item);
    FreshAt(InOneRead(q), item);
    ClaimAndRead(q, name, s, w, 0, 1);
    LeaseAt(InOneRead(q), StartOf(item), s.cell, 0, name(w), 0, 1);
    ClaimKeepsDigest(s.cell, name(w), 0, 1);
    assert Iterate(InOneRead(q), StartOf(item), 1) == Ideal(InOneRead(q), Iterate(InOneRead(q), StartOf(item), 0));
    to := TakeAll(q, name, s, [Claims(w, 0, 1)] + [Reads(w)]);
  }

  /** The others process two stages and claim the third, and the late worker ends the item. */
  lemma ThenIntrudes(q: Dispatch, start: Digest, name: Names, w: WorkerId, v: WorkerId, s: Shop, decision: Decision) returns (to: Shop)
    requires WellBehaved(InOneRead(q)) && Untouched(start) && !Done(Iterate(InOneRead(q), start, 2))
    requires w != v && name(w) == name(v) && !Blank(name(w))
    requires At(InOneRead(q), start, s.cell, 0) && Lapsed(s.cell, 1) && decision.Advance?
    requires s.at == map[w := HasDecision(Accepted, decision)]
    ensures Leads(q, name, {w, v}, s, Round(v) + (Round(v) + Intrusion(w, v)), to)
    ensures CellOk(to.cell) && EndedBy(DigestOf(to.cell), Iterate(InOneRead(q), start, 2), FENCED)
  {
    var p := InOneRead(q);
    NotDoneBefore(p, start, 0, 2);
    NotDoneBefore(p, start, 1, 2);
    var one := RoundTaken(q, start, name, s, 0, v);
    var two := RoundTaken(q, start, name, one, 1, v);
    NextMatches(two.cell);
    StagesInOrder(p, start, 2);
    assert NextOf(Iterate(p, start, 2)) == Some(ResultStored);
    to := IntrusionEnds(q, name, two, w, v, decision);
    LeadsWider(q, name, {v}, {w, v}, one, Round(v), two);
    LeadsThen(q, name, {w, v}, one, Round(v), two, Intrusion(w, v), to);
    LeadsWider(q, name, {v}, {w, v}, s, Round(v), one);
    LeadsThen(q, name, {w, v}, s, Round(v), one, Round(v) + Intrusion(w, v), to);
  }

  /**
   * With one owner name for two workers, a run from a fresh item, in which no clock goes back, that ends the item as
   * retry-exhausted after two stages, though the processor takes it past the third.
   */
  lemma SharedNameRun(q: Dispatch, item: Item, name: Names, w: WorkerId, v: WorkerId) returns (to: Shop)
    requires WellBehaved(InOneRead(q)) && Fresh(item) && !Done(Iterate(InOneRead(q), StartOf(item), 3))
    requires w != v && name(w) == name(v) && !Blank(name(w))
    ensures Leads(q, name, {w, v}, Opened(item), SharedNameSteps(w, v), to)
    ensures CellOk(to.cell) && EndedBy(DigestOf(to.cell), Iterate(InOneRead(q), StartOf(item), 2), FENCED)
    ensures DigestOf(to.cell).end.Some? && |DigestOf(to.cell).steps| < 3 && !OnPath(InOneRead(q), StartOf(item), to.cell)
  {
    var p, start := InOneRead(q), StartOf(item);
    FreshAt(p, item);
    NotDoneBefore(p, start, 1, 3);
    NotDoneBefore(p, start, 2, 3);
    var s := FirstDecides(q, item, name, w);
    to := ThenIntrudes(q, start, name, w, v, s, p(start));
    LeadsWider(q, name, {w}, {w, v}, Opened(item), [Claims(w, 0, 1)] + [Reads(w)], s);
    LeadsThen(q, name, {w, v}, Opened(item), [Claims(w, 0, 1)] + [Reads(w)], s, Round(v) + (Round(v) + Intrusion(w, v)), to);
    StagesInOrder(p, start, 2);
    EndedEarlyIsOff(p, start, to.cell, 3);
  }

  // ----- Exactly when late workers make no difference -----

  /** Every lawful run of these workers on the item keeps it on the ideal run. */
  ghost predicate AllOnPath(q: Dispatch, item: Item, name: Names, workers: set<WorkerId>) {
    forall steps :: OnlyBy(steps, workers) && Lawful(q, name, Opened(item), steps) ==>
      OnPath(InOneRead(q), StartOf(item), TakeAll(q, name, Opened(item), steps).cell)
  }

  /** Every resume begun once leases have lapsed ends here, without an error. */
  ghost predicate ResumesTo(p: Processor, c: Cell, end: Digest) {
    forall owner: Id, clock: Clock, duration: int :: LeaseArguments(owner, duration) && Timely(clock, duration) && Lapsed(c, clock(0)) ==>
      Finishes(ResumeLoop(p, c, owner, clock, 0, duration, None), end, 5)
  }

  /** Whatever these workers did to the item, a resume takes it to `end`. */
  ghost predicate AllResumeTo(q: Dispatch, item: Item, name: Names, workers: set<WorkerId>, end: Digest) {
    forall steps :: OnlyBy(steps, workers) && Lawful(q, name, Opened(item), steps) ==>
      ResumesTo(InOneRead(q), TakeAll(q, name, Opened(item), steps).cell, end)
  }

  /** Two workers share a name, and so there is a run off the ideal one. */
  lemma SharedNameLeavesPath(q: Dispatch, item: Item, name: Names, workers: set<WorkerId>) returns (steps: seq<WorkerStep>)
    requires WellBehaved(InOneRead(q)) && Fresh(item) && !Done(Iterate(InOneRead(q), StartOf(item), 3))
    requires !NamesTellApart(name, workers)
    ensures OnlyBy(steps, workers) && Lawful(q, name, Opened(item), steps)
    ensures var c := TakeAll(q, name, Opened(item), steps).cell;
            CellOk(c) && DigestOf(c).end.Some? && |DigestOf(c).steps| < 3 && !OnPath(InOneRead(q), StartOf(item), c)
  {
    var w, v :| w in workers && v in workers && w != v && !Blank(name(w)) && name(w) == name(v);
    var to := SharedNameRun(q, item, name, w, v);
    LeadsWider(q, name, {w, v}, workers, Opened(item), SharedNameSteps(w, v), to);
    steps := SharedNameSteps(w, v);
  }

  /**
   * For an item the processor takes past its third stage: whatever the workers do, it is on the ideal run, if and only if
   * no two of them use one owner name.
   */
  lemma OnPathIff(q: Dispatch, item: Item, name: Names, workers: set<WorkerId>)
    requires WellBehaved(InOneRead(q)) && Fresh(item) && !Done(Iterate(InOneRead(q), StartOf(item), 3))
    ensures AllOnPath(q, item, name, workers) <==> NamesTellApart(name, workers)
  {
    if NamesTellApart(name, workers) {
      FreshAt(InOneRead(q), item);
      forall steps | OnlyBy(steps, workers) && Lawful(q, name, Opened(item), steps)
        ensures OnPath(InOneRead(q), StartOf(item), TakeAll(q, name, Opened(item), steps).cell)
      {
        AlwaysOnPath(q, StartOf(item), name, workers, Opened(item).cell, 0, steps);
      }
    } else {
      var steps := SharedNameLeavesPath(q, item, name, workers);
    }
  }

  lemma OnPathResumesTo(p: Processor, start: Digest, c: Cell)
    requires WellBehaved(p) && Untouched(start) && OnPath(p, start, c)
    ensures ResumesTo(p, c, Iterate(p, start, 5))
  {
    forall owner: Id, clock: Clock, duration: int | LeaseArguments(owner, duration) && Timely(clock, duration) && Lapsed(c, clock(0))
      ensures Finishes(ResumeLoop(p, c, owner, clock, 0, duration, None), Iterate(p, start, 5), 5)
    {
      ResumeOnPath(p, start, c, owner, clock, duration);
    }
  }

  lemma DoneResumesToItself(p: Processor, c: Cell, owner: Id, clock: Clock, duration: int, end: Digest)
    requires CellOk(c) && Done(DigestOf(c)) && ResumesTo(p, c, end)
    requires LeaseArguments(owner, duration) && Timely(clock, duration)
    ensures DigestOf(c) == end
  {
    DoneIsCompleted(c);
    NothingToDo(p, c, owner, clock, 0, duration, None);
    assert Finishes(ResumeLoop(p, c, owner, clock, 0, duration, None), end, 5);
  }

  /**
   * For an item the processor takes past its third stage: whatever the workers did, a resume ends as one uninterrupted
   * resume does, if and only if no two of them use one owner name.
   */
  lemma CrashResumeIff(q: Dispatch, item: Item, name: Names, workers: set<WorkerId>, owner: Id, clock: Clock, duration: int)
    requires WellBehaved(InOneRead(q)) && Fresh(item) && !Done(Iterate(InOneRead(q), StartOf(item), 3))
    requires LeaseArguments(owner, duration) && Timely(clock, duration)
    ensures AllResumeTo(q, item, name, workers, DigestOf(Direct(InOneRead(q), item, owner, clock, duration).cell))
            <==> NamesTellApart(name, workers)
  {
    var p := InOneRead(q);
    FreshAt(p, item);
    DirectFinishes(p, item, owner, clock, duration);
    if NamesTellApart(name, workers) {
      forall steps | OnlyBy(steps, workers) && Lawful(q, name, Opened(item), steps)
        ensures ResumesTo(p, TakeAll(q, name, Opened(item), steps).cell, Iterate(p, StartOf(item), 5))
      {
        AlwaysOnPath(q, StartOf(item), name, workers, Opened(item).cell, 0, steps);
        OnPathResumesTo(p, StartOf(item), TakeAll(q, name, Opened(item), steps).cell);
      }
    } else {
      var steps := SharedNameLeavesPath(q, item, name, workers);
      var c := TakeAll(q, name, Opened(item), steps).cell;
      if ResumesTo(p, c, Iterate(p, StartOf(item), 5)) {
        DoneResumesToItself(p, c, owner, clock, duration, Iterate(p, StartOf(item), 5));
        assert At(p, StartOf(item), c, 5);
      }
    }
  }

  // ----- Limited resumes and crashes in the middle of a stage -----

  datatype Episode =
    | Resumes(owner: Id, clock: Clock, tick: nat, duration: int, limit: Option<nat>)
    | CrashesInStage(owner: Id, now: Instant, duration: int)

  /** The worker's clock does not go back while it resumes. */
  ghost predicate Steady(episode: Episode) {
    episode.Resumes? ==> NeverBack(episode.clock)
  }

  function Play(p: Processor, c: Cell, episode: Episode): Cell {
    match episode
    case Resumes(owner, clock, tick, duration, limit) => ResumeLoop(p, c, owner, clock, tick, duration, limit).cell
    case CrashesInStage(owner, now, duration) => Perform(c, ClaimAct(owner, now, duration))
  }

  function PlayAll(p: Processor, c: Cell, episodes: seq<Episode>): Cell
    decreases |episodes|
  {
    if episodes == [] then c else PlayAll(p, Play(p, c, episodes[0]), episodes[1..])
  }

  function OwnName(w: WorkerId): Id { w }

  lemma PlayOnPath(q: Dispatch, start: Digest, c: Cell, n: nat, episode: Episode) returns (m: nat)
    requires WellBehaved(InOneRead(q)) && At(InOneRead(q), start, c, n) && Steady(episode)
    ensures At(InOneRead(q), start, Play(InOneRead(q), c, episode), m)
  {
    m := n;
    match episode {
      case Resumes(owner, clock, tick, duration, limit) =>
        m := ResumeStaysOnPath(q, start, c, n, owner, clock, tick, duration, limit);
      case CrashesInStage(owner, now, duration) =>
        LeaseAt(InOneRead(q), start, c, n, owner, now, duration);
    }
  }

  /** A resume is steps of one worker, which shares its name with no other. */
  lemma ResumeStaysOnPath(q: Dispatch, start: Digest, c: Cell, n: nat, owner: Id, clock: Clock, tick: nat, duration: int,
                          limit: Option<nat>) returns (m: nat)
    requires WellBehaved(InOneRead(q)) && At(InOneRead(q), start, c, n) && NeverBack(clock)
    ensures At(InOneRead(q), start, ResumeLoop(InOneRead(q), c, owner, clock, tick, duration, limit).cell, m)
  {
    var steps := ResumeIsSteps(q, OwnName, Shop(c, map[]), owner, clock, tick, duration, limit);
    m := StaysGoing(q, start, OwnName, {owner}, Shop(c, map[]), n, steps);
  }

  lemma {:induction false} PlayAllOnPath(q: Dispatch, start: Digest, c: Cell, n: nat, episodes: seq<Episode>) returns (m: nat)
    requires WellBehaved(InOneRead(q)) && At(InOneRead(q), start, c, n)
    requires forall i :: 0 <= i < |episodes| ==> Steady(episodes[i])
    ensures At(InOneRead(q), start, PlayAll(InOneRead(q), c, episodes), m)
    decreases |episodes|
  {
    m := n;
    if episodes != [] {
      m := PlayOnPath(q, start, c, n, episodes[0]);
      m := PlayAllOnPath(q, start, Play(InOneRead(q), c, episodes[0]), m, episodes[1..]);
    }
  }

  /**
   * Any sequence of limited resumes and crashes in the middle of a stage, under any names, followed by an unlimited resume
   * once leases have lapsed, ends where one uninterrupted resume ends.
   */
  lemma EpisodesMakeNoDifference(q: Dispatch, item: Item, episodes: seq<Episode>, owner: Id, clock: Clock, duration: int,
                                 other: Id, clock': Clock, duration': int)
    requires WellBehaved(InOneRead(q)) && Fresh(item)
    requires forall i :: 0 <= i < |episodes| ==> Steady(episodes[i])
    requires LeaseArguments(owner, duration) && Timely(clock, duration)
    requires LeaseArguments(other, duration') && Timely(clock', duration')
    requires Lapsed(PlayAll(InOneRead(q), Opened(item).cell, episodes), clock'(0))
    ensures EndAlike(Direct(InOneRead(q), item, owner, clock, duration),
                     ResumeLoop(InOneRead(q), PlayAll(InOneRead(q), Opened(item).cell, episodes), other, clock', 0, duration', None))
  {
    var p := InOneRead(q);
    FreshAt(p, item);
    DirectFinishes(p, item, owner, clock, duration);
    var m := PlayAllOnPath(q, StartOf(item), Opened(item).cell, 0, episodes);
    ResumeOnPath(p, StartOf(item), PlayAll(p, Opened(item).cell, episodes), other, clock', duration');
  }
}
