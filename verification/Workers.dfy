/** Several workers on one work item, step by step (bulk/worker.py, composition/prototype.py). */
module Workers {
  import opened Prelude
  import opened Repository
  import opened WorkHistory
  import opened Worker

  /** Which worker it is, apart from the owner name it claims under. */
  type WorkerId = Id

  type Names = WorkerId -> Id

  /**
   * The stage dispatch. It takes the payload and the latest result from what the item was when it was claimed, and the
   * next stage and the accepted checkpoint from a reading of its own.
   */
  type Dispatch = (Digest, Digest) -> Decision

  function InOneRead(q: Dispatch): Processor {
    (d: Digest) => q(d, d)
  }

  /** Where a worker is between its steps. */
  datatype Phase =
    | HasClaim(claim: Digest)
    | HasDecision(stage: Stage, decision: Decision)
    | WasRefused(stage: Stage, decision: Decision, at: Instant)

  /** The item, and the workers that are not idle. */
  datatype Shop = Shop(cell: Cell, at: map<WorkerId, Phase>)

  datatype WorkerStep =
    | Claims(worker: WorkerId, now: Instant, duration: int)
    | Reads(worker: WorkerId)
    | Writes(worker: WorkerId, now: Instant)
    | FallsBack(worker: WorkerId, now: Instant)
    | Renews(worker: WorkerId, now: Instant, duration: int)
    | Crashes(worker: WorkerId)

  /** What a worker goes on to write; with no stage left the dispatch raises, and the stage does not matter. */
  function Decides(q: Dispatch, claim: Digest, read: Digest): Phase {
    HasDecision(NextOf(read).GetOr(Finished), q(claim, read))
  }

  /** One write of a worker: it is done, or the write was refused and leaves a fallback, or it raises. */
  function Tries(s: Shop, w: WorkerId, owner: Id, stage: Stage, decision: Decision, now: Instant): Shop {
    var (after, written) := Commit(s.cell, owner, stage, decision, now);
    if written.Err? && Fallback(stage, decision, written.error).Some? then
      Shop(after, s.at[w := WasRefused(stage, Fallback(stage, decision, written.error).value, now)])
    else Shop(after, s.at - {w})
  }

  /** The step may be taken by its worker where it stands. */
  predicate Ready(s: Shop, step: WorkerStep) {
    match step
    case Claims(w, _, _) => w !in s.at
    case Reads(w) => w in s.at && s.at[w].HasClaim?
    case Writes(w, _) => w in s.at && s.at[w].HasDecision?
    case FallsBack(w, _) => w in s.at && s.at[w].WasRefused?
    case Renews(w, _, _) => w in s.at
    case Crashes(w) => w in s.at
  }

  /** One atomic step of some worker; a step its worker is not ready for does nothing. */
  function TakeStep(q: Dispatch, name: Names, s: Shop, step: WorkerStep): Shop {
    if !Ready(s, step) then s
    else
      match step
      case Claims(w, now, duration) =>
        if !LeaseArguments(name(w), duration) then s
        else
          var (claimed, claim) := ClaimCell(s.cell, name(w), now, duration);
          if claim.status != Acquired then s else Shop(claimed, s.at[w := HasClaim(DigestOf(claimed))])
      case Reads(w) => s.(at := s.at[w := Decides(q, s.at[w].claim, DigestOf(s.cell))])
      case Writes(w, now) => Tries(s, w, name(w), s.at[w].stage, s.at[w].decision, now)
      case FallsBack(w, now) => Tries(s, w, name(w), s.at[w].stage, s.at[w].decision, now)
      case Renews(w, now, duration) =>
        if LeaseArguments(name(w), duration) then s.(cell := RenewCell(s.cell, name(w), now, duration).0) else s
      case Crashes(w) => s.(at := s.at - {w})
  }

  function TakeAll(q: Dispatch, name: Names, s: Shop, steps: seq<WorkerStep>): Shop
    decreases |steps|
  {
    if steps == [] then s else TakeAll(q, name, TakeStep(q, name, s, steps[0]), steps[1..])
  }

  /** A worker that was refused reads no earlier time afterwards. */
  predicate KeepsTime(s: Shop, step: WorkerStep) {
    (step.FallsBack? || step.Renews?) && step.worker in s.at && s.at[step.worker].WasRefused? ==> s.at[step.worker].at <= step.now
  }

  /** Any interleaving of the workers' steps in which no worker's own clock goes back. */
  predicate Lawful(q: Dispatch, name: Names, s: Shop, steps: seq<WorkerStep>)
    decreases |steps|
  {
    steps == [] || (KeepsTime(s, steps[0]) && Lawful(q, name, TakeStep(q, name, s, steps[0]), steps[1..]))
  }

  predicate OnlyBy(steps: seq<WorkerStep>, workers: set<WorkerId>) {
    forall i :: 0 <= i < |steps| ==> steps[i].worker in workers
  }

  /** No two of the workers use one owner name; a blank one is no name, since it is refused. */
  ghost predicate NamesTellApart(name: Names, workers: set<WorkerId>) {
    forall w, v :: w in workers && v in workers && w != v && !Blank(name(w)) ==> name(w) != name(v)
  }

  // ----- Distinct names: late writes and fallbacks are refused -----

  /** While the lease is under a worker's name, what it took from the item is still so. */
  predicate UpToDate(p: Processor, c: Cell, owner: Id, phase: Phase) {
    c.item.state == InProgress && c.item.leaseOwner == Some(owner) ==>
      match phase
      case HasClaim(claim) => claim == DigestOf(c)
      case HasDecision(stage, decision) => NextOf(DigestOf(c)) == Some(stage) && decision == p(DigestOf(c))
      case WasRefused(_, _, at) => c.item.leaseExpires.Some? && c.item.leaseExpires.value <= at
  }

  ghost predicate WorkersOk(q: Dispatch, name: Names, workers: set<WorkerId>, s: Shop) {
    forall w :: w in s.at ==> w in workers && !Blank(name(w)) && UpToDate(InOneRead(q), s.cell, name(w), s.at[w])
  }

  /** The item is somewhere on the ideal run. */
  ghost predicate OnPath(p: Processor, start: Digest, c: Cell) {
    exists n: nat :: At(p, start, c, n)
  }

  /** Workers other than `w` hold no lease here. */
  predicate HeldByAtMost(name: Names, w: WorkerId, c: Cell) {
    c.item.state == InProgress ==> c.item.leaseOwner == Some(name(w))
  }

  /** Once `w` has claimed, or the lease is given up, only `w` still has to be looked at. */
  lemma OthersOk(q: Dispatch, name: Names, workers: set<WorkerId>, s: Shop, w: WorkerId, after: Shop)
    requires WorkersOk(q, name, workers, s) && NamesTellApart(name, workers) && w in workers
    requires HeldByAtMost(name, w, after.cell)
    requires forall v :: v in after.at && v != w ==> v in s.at && after.at[v] == s.at[v]
    requires w in after.at ==> !Blank(name(w)) && UpToDate(InOneRead(q), after.cell, name(w), after.at[w])
    ensures WorkersOk(q, name, workers, after)
  {}

  /** Where the item does not change, only the worker that steps has to be looked at. */
  lemma SameCellOk(q: Dispatch, name: Names, workers: set<WorkerId>, s: Shop, w: WorkerId, after: Shop)
    requires WorkersOk(q, name, workers, s) && w in workers && after.cell == s.cell
    requires forall v :: v in after.at && v != w ==> v in s.at && after.at[v] == s.at[v]
    requires w in after.at ==> !Blank(name(w)) && UpToDate(InOneRead(q), after.cell, name(w), after.at[w])
    ensures WorkersOk(q, name, workers, after)
  {}

  /** The item moved along the ideal run and the workers know what they may. */
  ghost predicate Going(q: Dispatch, start: Digest, name: Names, workers: set<WorkerId>, s: Shop, n: nat) {
    At(InOneRead(q), start, s.cell, n) && WorkersOk(q, name, workers, s)
  }

  lemma ClaimsGoing(q: Dispatch, start: Digest, name: Names, workers: set<WorkerId>, s: Shop, n: nat, step: WorkerStep)
    requires NamesTellApart(name, workers) && Going(q, start, name, workers, s, n) && step.worker in workers && step.Claims?
    ensures Going(q, start, name, workers, TakeStep(q, name, s, step), n)
  {
    var after := TakeStep(q, name, s, step);
    LeaseAt(InOneRead(q), start, s.cell, n, name(step.worker), step.now, step.duration);
    if after != s { OthersOk(q, name, workers, s, step.worker, after); }
  }

  lemma ReadsGoing(q: Dispatch, start: Digest, name: Names, workers: set<WorkerId>, s: Shop, n: nat, step: WorkerStep)
    requires Going(q, start, name, workers, s, n) && step.worker in workers && step.Reads?
    ensures Going(q, start, name, workers, TakeStep(q, name, s, step), n)
  {
    DoneIsCompleted(s.cell);
    SameCellOk(q, name, workers, s, step.worker, TakeStep(q, name, s, step));
  }

  lemma RenewsGoing(q: Dispatch, start: Digest, name: Names, workers: set<WorkerId>, s: Shop, n: nat, step: WorkerStep)
    requires NamesTellApart(name, workers) && Going(q, start, name, workers, s, n) && step.worker in workers && step.Renews?
    requires KeepsTime(s, step)
    ensures Going(q, start, name, workers, TakeStep(q, name, s, step), n)
  {
    var after, w := TakeStep(q, name, s, step), step.worker;
    LeaseAt(InOneRead(q), start, s.cell, n, name(w), step.now, step.duration);
    ClaimKeepsDigest(s.cell, name(w), step.now, step.duration);
    if after.cell != s.cell { OthersOk(q, name, workers, s, w, after); }
  }

  /** A write the lease holder has decided on and not been refused is the next decision of the ideal run. */
  lemma OwnedTry(q: Dispatch, start: Digest, name: Names, workers: set<WorkerId>, s: Shop, n: nat, w: WorkerId, now: Instant)
    requires WellBehaved(InOneRead(q)) && NamesTellApart(name, workers) && Going(q, start, name, workers, s, n) && w in workers
    requires w in s.at && s.at[w].HasDecision? && Owned(s.cell.item, name(w), now)
    ensures Going(q, start, name, workers, Tries(s, w, name(w), s.at[w].stage, s.at[w].decision, now), n + 1)
  {
    var after := Tries(s, w, name(w), s.at[w].stage, s.at[w].decision, now);
    DoneIsCompleted(s.cell);
    FreshCommit(InOneRead(q), start, s.cell, n, name(w), now);
    OthersOk(q, name, workers, s, w, after);
  }

  /** A write without the lease changes nothing, and neither will its fallback. */
  lemma UnownedTry(q: Dispatch, start: Digest, name: Names, workers: set<WorkerId>, s: Shop, n: nat, w: WorkerId, stage: Stage,
                   decision: Decision, now: Instant)
    requires Going(q, start, name, workers, s, n) && w in s.at && !Owned(s.cell.item, name(w), now)
    ensures Going(q, start, name, workers, Tries(s, w, name(w), stage, decision, now), n)
  {
    NotOwnedNoCommit(s.cell, name(w), stage, decision, now);
    SameCellOk(q, name, workers, s, w, Tries(s, w, name(w), stage, decision, now));
  }

  lemma CrashesGoing(q: Dispatch, start: Digest, name: Names, workers: set<WorkerId>, s: Shop, n: nat, step: WorkerStep)
    requires Going(q, start, name, workers, s, n) && step.Crashes?
    ensures Going(q, start, name, workers, TakeStep(q, name, s, step), n)
  {}

  lemma TakeGoing(q: Dispatch, start: Digest, name: Names, workers: set<WorkerId>, s: Shop, n: nat, step: WorkerStep) returns (m: nat)
    requires WellBehaved(InOneRead(q)) && NamesTellApart(name, workers) && Going(q, start, name, workers, s, n)
    requires step.worker in workers && KeepsTime(s, step)
    ensures Going(q, start, name, workers, TakeStep(q, name, s, step), m)
  {
    m := n;
    var w := step.worker;
    if Ready(s, step) {
      match step {
        case Claims(_, _, _) => ClaimsGoing(q, start, name, workers, s, n, step);
        case Reads(_) => ReadsGoing(q, start, name, workers, s, n, step);
        case Renews(_, _, _) => RenewsGoing(q, start, name, workers, s, n, step);
        case Crashes(_) => CrashesGoing(q, start, name, workers, s, n, step);
        case Writes(_, now) =>
          if Owned(s.cell.item, name(w), now) {
            m := n + 1;
            OwnedTry(q, start, name, workers, s, n, w, now);
          } else {
            UnownedTry(q, start, name, workers, s, n, w, s.at[w].stage, s.at[w].decision, now);
          }
        case FallsBack(_, now) => UnownedTry(q, start, name, workers, s, n, w, s.at[w].stage, s.at[w].decision, now);
      }
    }
  }

  lemma {:induction false} StaysGoing(q: Dispatch, start: Digest, name: Names, workers: set<WorkerId>, s: Shop, n: nat,
                                      steps: seq<WorkerStep>) returns (m: nat)
    requires WellBehaved(InOneRead(q)) && NamesTellApart(name, workers) && Going(q, start, name, workers, s, n)
    requires OnlyBy(steps, workers) && Lawful(q, name, s, steps)
    ensures Going(q, start, name, workers, TakeAll(q, name, s, steps), m)
    decreases |steps|
  {
    m := n;
    if steps != [] {
      m := TakeGoing(q, start, name, workers, s, n, steps[0]);
      m := StaysGoing(q, start, name, workers, TakeStep(q, name, s, steps[0]), m, steps[1..]);
    }
  }

  /**
   * Whatever workers with names of their own claim, read, renew, write, fall back on, crash or bring late, the item is on
   * the ideal run.
   */
  lemma AlwaysOnPath(q: Dispatch, start: Digest, name: Names, workers: set<WorkerId>, c: Cell, n: nat, steps: seq<WorkerStep>)
    requires WellBehaved(InOneRead(q)) && NamesTellApart(name, workers) && At(InOneRead(q), start, c, n)
    requires OnlyBy(steps, workers) && Lawful(q, name, Shop(c, map[]), steps)
    ensures OnPath(InOneRead(q), start, TakeAll(q, name, Shop(c, map[]), steps).cell)
  {
    var m := StaysGoing(q, start, name, workers, Shop(c, map[]), n, steps);
  }

  // ----- A completed item -----

  lemma CompletedStaysOne(q: Dispatch, name: Names, s: Shop, step: WorkerStep)
    requires s.cell.item.state == Completed
    ensures TakeStep(q, name, s, step).cell == s.cell
  {}

  /** Nothing any worker brings late changes a completed item, whatever the names and clocks. */
  lemma {:induction false} CompletedStays(q: Dispatch, name: Names, s: Shop, steps: seq<WorkerStep>)
    requires s.cell.item.state == Completed
    ensures TakeAll(q, name, s, steps).cell == s.cell
    decreases |steps|
  {
    if steps != [] {
      CompletedStaysOne(q, name, s, steps[0]);
      CompletedStays(q, name, TakeStep(q, name, s, steps[0]), steps[1..]);
    }
  }

  // ----- The loop as worker steps -----

  /** The steps of these workers lead lawfully from one shop to another. */
  predicate Leads(q: Dispatch, name: Names, workers: set<WorkerId>, s: Shop, steps: seq<WorkerStep>, to: Shop) {
    Lawful(q, name, s, steps) && OnlyBy(steps, workers) && TakeAll(q, name, s, steps) == to
  }

  lemma {:induction false} LeadsThen(q: Dispatch, name: Names, workers: set<WorkerId>, s: Shop, first: seq<WorkerStep>, mid: Shop,
                                     second: seq<WorkerStep>, to: Shop)
    requires Leads(q, name, workers, s, first, mid) && Leads(q, name, workers, mid, second, to)
    ensures Leads(q, name, workers, s, first + second, to)
    decreases |first|
  {
    if first == [] {
      assert first + second == second;
    } else {
      LeadsThen(q, name, workers, TakeStep(q, name, s, first[0]), first[1..], mid, second, to);
      assert (first + second)[1..] == first[1..] + second;
    }
  }

  lemma LeadsOne(q: Dispatch, name: Names, workers: set<WorkerId>, s: Shop, step: WorkerStep)
    requires KeepsTime(s, step) && step.worker in workers
    ensures Leads(q, name, workers, s, [step], TakeStep(q, name, s, step))
  {
    assert [step][1..] == [];
  }

  /** The worker is about to write the decision, for the first time or as a fallback. */
  predicate AboutTo(phase: Phase, stage: Stage, decision: Decision, now: Instant) {
    phase == HasDecision(stage, decision) || (phase.WasRefused? && phase == WasRefused(stage, decision, phase.at) && phase.at <= now)
  }

  lemma {:induction false} AttemptIsSteps(q: Dispatch, name: Names, c: Cell, at: map<WorkerId, Phase>, w: WorkerId, phase: Phase,
                                          stage: Stage, decision: Decision, clock: Clock, tick: nat) returns (steps: seq<WorkerStep>)
    requires w !in at && AboutTo(phase, stage, decision, clock(tick)) && NeverBack(clock)
    ensures Leads(q, name, {w}, Shop(c, at[w := phase]), steps, Shop(WriteOrFallBack(c, name(w), stage, decision, clock, tick).0, at))
    decreases Fallbacks(stage, decision)
  {
    var s := Shop(c, at[w := phase]);
    var step := if phase.HasDecision? then Writes(w, clock(tick)) else FallsBack(w, clock(tick));
    steps := [step];
    LeadsOne(q, name, {w}, s, step);
    var (after, written) := Commit(c, name(w), stage, decision, clock(tick));
    if written.Err? && Fallback(stage, decision, written.error).Some? {
      var next := Fallback(stage, decision, written.error).value;
      var refused := WasRefused(stage, next, clock(tick));
      assert TicksOn(clock, tick);
      assert at[w := phase][w := refused] == at[w := refused];
      var rest := AttemptIsSteps(q, name, after, at, w, refused, stage, next, clock, tick + 1);
      LeadsThen(q, name, {w}, s, steps, Shop(after, at[w := refused]), rest,
                Shop(WriteOrFallBack(c, name(w), stage, decision, clock, tick).0, at));
      steps := steps + rest;
    } else {
      assert at[w := phase] - {w} == at;
    }
  }

  /** Claiming, then reading the item as it was claimed. */
  lemma ClaimAndRead(q: Dispatch, name: Names, s: Shop, w: WorkerId, now: Instant, duration: int)
    requires w !in s.at && LeaseArguments(name(w), duration) && Next(s.cell).Some?
    requires ClaimCell(s.cell, name(w), now, duration).1.status == Acquired
    ensures var claimed := ClaimCell(s.cell, name(w), now, duration).0;
            && Next(claimed).Some?
            && Leads(q, name, {w}, s, [Claims(w, now, duration)] + [Reads(w)],
                     Shop(claimed, s.at[w := HasDecision(Next(claimed).value, InOneRead(q)(DigestOf(claimed)))]))
  {
    var claimed := ClaimCell(s.cell, name(w), now, duration).0;
    var mid := Shop(claimed, s.at[w := HasClaim(DigestOf(claimed))]);
    var decided := HasDecision(Next(claimed).value, InOneRead(q)(DigestOf(claimed)));
    ClaimKeepsNext(s.cell, name(w), now, duration);
    NextMatches(claimed);
    LeadsOne(q, name, {w}, s, Claims(w, now, duration));
    LeadsOne(q, name, {w}, mid, Reads(w));
    assert mid.at[w := decided] == s.at[w := decided];
    LeadsThen(q, name, {w}, s, [Claims(w, now, duration)], mid, [Reads(w)], Shop(claimed, s.at[w := decided]));
  }

  lemma RoundIsSteps(q: Dispatch, name: Names, s: Shop, w: WorkerId, clock: Clock, tick: nat, duration: int)
    returns (steps: seq<WorkerStep>)
    requires w !in s.at && Next(s.cell).Some? && NeverBack(clock)
    ensures Leads(q, name, {w}, s, steps, Shop(OneStage(InOneRead(q), s.cell, name(w), clock, tick, duration).0, s.at))
  {
    steps := [];
    if LeaseArguments(name(w), duration) && ClaimCell(s.cell, name(w), clock(tick), duration).1.status == Acquired {
      var claimed := ClaimCell(s.cell, name(w), clock(tick), duration).0;
      var stage, decision := Next(claimed).value, InOneRead(q)(DigestOf(claimed));
      ClaimAndRead(q, name, s, w, clock(tick), duration);
      var rest := AttemptIsSteps(q, name, claimed, s.at, w, HasDecision(stage, decision), stage, decision, clock, tick + 1);
      var first := [Claims(w, clock(tick), duration)] + [Reads(w)];
      LeadsThen(q, name, {w}, s, first, Shop(claimed, s.at[w := HasDecision(stage, decision)]), rest,
                Shop(WriteOrFallBack(claimed, name(w), stage, decision, clock, tick + 1).0, s.at));
      steps := first + rest;
    }
  }

  /** Every run of the loop by an idle worker, however limited, is a lawful list of that worker's steps. */
  lemma {:induction false} ResumeIsSteps(q: Dispatch, name: Names, s: Shop, w: WorkerId, clock: Clock, tick: nat, duration: int,
                                         limit: Option<nat>) returns (steps: seq<WorkerStep>)
    requires w !in s.at && NeverBack(clock)
    ensures Leads(q, name, {w}, s, steps, Shop(ResumeLoop(InOneRead(q), s.cell, name(w), clock, tick, duration, limit).cell, s.at))
    decreases Remaining(s.cell)
  {
    steps := [];
    if limit != Some(0) && Next(s.cell).Some? {
      steps := RoundIsSteps(q, name, s, w, clock, tick, duration);
      var (after, outcome) := OneStage(InOneRead(q), s.cell, name(w), clock, tick, duration);
      if outcome.Processed? && outcome.result.StageCheckpointed? {
        RoundProgresses(InOneRead(q), s.cell, name(w), clock, tick, duration);
        var rest := ResumeIsSteps(q, name, Shop(after, s.at), w, clock, tick + 2, duration, OneLess(limit));
        LeadsThen(q, name, {w}, s, steps, Shop(after, s.at), rest,
                  Shop(ResumeLoop(InOneRead(q), after, name(w), clock, tick + 2, duration, OneLess(limit)).cell, s.at));
        steps := steps + rest;
      }
    }
  }
}
