/** The stage dispatch of the bulk pipeline, and what a work item comes to (composition/prototype.py). */
module Pipeline {
  import opened Prelude
  import opened Repository
  import opened WorkHistory
  import opened Worker
  import opened Workers
  import opened LateWorkers

  /** A stage that cannot go on: a task failure, a security rejection, or any other exception. */
  datatype StageFailure = StageFailure(state: TerminalState, code: string, details: string)

  datatype WriteOutcome = WrittenBack(outcome: string) | Persisted(output: ObjectRef) | NotWritten(status: string, reasons: string)

  type Produces = Result<ObjectRef, StageFailure>
  type Effected = Result<WriteOutcome, StageFailure>

  /** What the stages compute from the objects that earlier stages stored. */
  datatype Services = Services(
    isTask: ObjectRef -> bool,
    prepare: ObjectRef -> Produces,
    invoke: ObjectRef -> Produces,
    parse: (ObjectRef, ObjectRef) -> Produces,
    validate: (ObjectRef, ObjectRef) -> Produces,
    write: (ObjectRef, ObjectRef) -> Effected,
    validateOutput: ObjectRef -> Result<bool, StageFailure>,
    writeOutput: ObjectRef -> Effected)

  const NO_REFERENCE := StageFailure(RetryExhausted, "AttributeError", "'NoneType' object has no attribute 'reference'")
  const NO_CHECKPOINT := StageFailure(RetryExhausted, "StopIteration", "")
  const NO_STAGE := StageFailure(RetryExhausted, "RuntimeError", "unsupported resume stage: None")

  /** The end written while a failure is handled. */
  function Fail(f: StageFailure): Decision {
    End(f.state, Some(f.code), Some(f.details), None, false)
  }

  function Store(outcome: string, made: Produces): Decision {
    match made
    case Ok(reference) => Advance(outcome, Some(reference))
    case Err(f) => Fail(f)
  }

  /** `_write_accepted`. */
  function Close(written: Effected): Decision {
    match written
    case Ok(WrittenBack(text)) => Advance("write_back_committed:" + text, None)
    case Ok(Persisted(output)) => End(Succeeded, None, None, Some(output), true)
    case Ok(NotWritten(status, reasons)) => End(WriteBackFailed, Some(status), Some(reasons), None, true)
    case Err(f) => Fail(f)
  }

  const INVALID := StageFailure(ValidationFailed, "validation_failed", "invalid output")

  /** The validation of an item without a task, whose rejection is written where a refusal is still caught. */
  function Judge(valid: Result<bool, StageFailure>, output: ObjectRef): Decision {
    match valid
    case Ok(true) => Advance("accepted", Some(output))
    case Ok(false) => End(INVALID.state, Some(INVALID.code), Some(INVALID.details), None, true)
    case Err(f) => Fail(f)
  }

  /** The first checkpoint of the accepted stage. */
  function AcceptedStep(steps: seq<Progress>): Option<Progress> {
    if steps == [] then None
    else if steps[0].stage == Accepted then Some(steps[0])
    else AcceptedStep(steps[1..])
  }

  /** A stage that reads the prepared task from the checkpoints and the latest result from the claim. */
  function WithPrepared(claim: Digest, read: Digest, go: (ObjectRef, ObjectRef) -> Decision): Decision {
    var accepted := AcceptedStep(read.steps);
    if accepted.None? then Fail(NO_CHECKPOINT)
    else if accepted.value.result.None? || claim.result.None? then Fail(NO_REFERENCE)
    else go(accepted.value.result.value, claim.result.value)
  }

  /** `_process_stage` for task items. */
  function TaskStage(sv: Services, claim: Digest, read: Digest): Decision {
    match NextOf(read)
    case Some(Accepted) => Store("task_prepared", sv.prepare(claim.payload))
    case Some(ModelCompleted) =>
      if claim.result.None? then Fail(NO_REFERENCE) else Store("model_succeeded", sv.invoke(claim.result.value))
    case Some(ResultStored) => WithPrepared(claim, read, (prepared, responses) => Store("parsed", sv.parse(prepared, responses)))
    case Some(Validated) => WithPrepared(claim, read, (prepared, parsed) => Store("accepted", sv.validate(prepared, parsed)))
    case Some(Finished) => WithPrepared(claim, read, (prepared, accepted) => Close(sv.write(prepared, accepted)))
    case None => Fail(NO_STAGE)
  }

  /** `_process_legacy`. */
  function LegacyStage(sv: Services, claim: Digest, read: Digest): Decision {
    match NextOf(read)
    case Some(Accepted) => Advance("accepted", None)
    case Some(ModelCompleted) => Advance("model_succeeded", Some(claim.payload))
    case Some(ResultStored) => Advance("result_stored", claim.result)
    case Some(Validated) =>
      if claim.result.None? then Fail(NO_REFERENCE) else Judge(sv.validateOutput(claim.result.value), claim.result.value)
    case Some(Finished) => if claim.result.None? then Fail(NO_REFERENCE) else Close(sv.writeOutput(claim.result.value))
    case None => Fail(NO_STAGE)
  }

  /** `process_stage`, up to its write. */
  function Dispatching(sv: Services): Dispatch {
    (claim: Digest, read: Digest) => if sv.isTask(claim.payload) then TaskStage(sv, claim, read) else LegacyStage(sv, claim, read)
  }

  /** The dispatch of a worker that nobody comes between. */
  function Processing(sv: Services): Processor {
    InOneRead(Dispatching(sv))
  }

  predicate StatedFailure(f: StageFailure) {
    f.state != Succeeded && !Blank(f.code)
  }

  predicate StatedProduct(made: Produces) {
    made.Err? ==> StatedFailure(made.error)
  }

  predicate StatedWrite(written: Effected) {
    match written
    case Ok(outcome) => outcome.NotWritten? ==> !Blank(outcome.status)
    case Err(f) => StatedFailure(f)
  }

  /** Failures carry a code and a failing state. */
  ghost predicate WellStated(sv: Services) {
    && (forall x :: StatedProduct(sv.prepare(x)) && StatedProduct(sv.invoke(x)))
    && (forall x, y :: StatedProduct(sv.parse(x, y)) && StatedProduct(sv.validate(x, y)) && StatedWrite(sv.write(x, y)))
    && (forall x :: (sv.validateOutput(x).Err? ==> StatedFailure(sv.validateOutput(x).error)) && StatedWrite(sv.writeOutput(x)))
  }

  lemma NotBlank(text: string)
    requires text != [] && text[0] !in {' ', '\t', '\n', '\r'}
    ensures !Blank(text)
  {
    assert text[0] in text;
  }

  lemma TextsStated(text: string)
    ensures !Blank("task_prepared") && !Blank("model_succeeded") && !Blank("parsed") && !Blank("accepted") && !Blank("result_stored")
    ensures !Blank("write_back_committed:" + text) && !Blank("AttributeError") && !Blank("StopIteration") && !Blank("RuntimeError")
    ensures !Blank("validation_failed")
  {
    NotBlank("task_prepared");
    NotBlank("model_succeeded");
    NotBlank("parsed");
    NotBlank("accepted");
    NotBlank("result_stored");
    NotBlank("write_back_committed:" + text);
    NotBlank("AttributeError");
    NotBlank("StopIteration");
    NotBlank("RuntimeError");
    NotBlank("validation_failed");
  }

  lemma StoreStated(outcome: string, made: Produces)
    requires !Blank(outcome) && StatedProduct(made)
    ensures Stated(Store(outcome, made))
  {}

  lemma CloseStated(written: Effected)
    requires StatedWrite(written)
    ensures Stated(Close(written))
  {
    TextsStated(if written.Ok? && written.value.WrittenBack? then written.value.outcome else "");
  }

  lemma TaskStageStated(sv: Services, claim: Digest, read: Digest)
    requires WellStated(sv)
    ensures Stated(TaskStage(sv, claim, read))
  {
    TextsStated("");
    StoreStated("task_prepared", sv.prepare(claim.payload));
    if claim.result.Some? {
      StoreStated("model_succeeded", sv.invoke(claim.result.value));
      var accepted := AcceptedStep(read.steps);
      if accepted.Some? && accepted.value.result.Some? {
        StoreStated("parsed", sv.parse(accepted.value.result.value, claim.result.value));
        StoreStated("accepted", sv.validate(accepted.value.result.value, claim.result.value));
        CloseStated(sv.write(accepted.value.result.value, claim.result.value));
      }
    }
  }

  lemma LegacyStageStated(sv: Services, claim: Digest, read: Digest)
    requires WellStated(sv)
    ensures Stated(LegacyStage(sv, claim, read))
  {
    TextsStated("");
    if claim.result.Some? { CloseStated(sv.writeOutput(claim.result.value)); }
  }

  /** The dispatch checkpoints exactly the next stage or ends the item, and the records it writes are accepted. */
  lemma ProcessingIsWellBehaved(sv: Services)
    requires WellStated(sv)
    ensures WellBehaved(Processing(sv))
  {
    forall d ensures Stated(Processing(sv)(d)) {
      TaskStageStated(sv, d, d);
      LegacyStageStated(sv, d, d);
    }
  }

  // ----- The same work done in one go, in memory -----

  /** Progress so far, the latest result, and how it ended. */
  datatype Story = Story(steps: seq<Progress>, result: Option<ObjectRef>, end: Option<Ending>)

  function Ends(steps: seq<Progress>, result: Option<ObjectRef>, f: StageFailure): Story {
    Story(steps, result, Some(Ending(f.state, Some(f.code), Some(f.details), result)))
  }

  function Written(steps: seq<Progress>, accepted: ObjectRef, written: Effected): Story {
    match written
    case Ok(WrittenBack(text)) => Story(steps + [Progress(Finished, "write_back_committed:" + text, None)], Some(accepted), None)
    case Ok(Persisted(output)) => Story(steps, Some(output), Some(Ending(Succeeded, None, None, Some(output))))
    case Ok(NotWritten(status, reasons)) => Ends(steps, Some(accepted), StageFailure(WriteBackFailed, status, reasons))
    case Err(f) => Ends(steps, Some(accepted), f)
  }

  function Made(stage: Stage, outcome: string, reference: ObjectRef): Progress {
    Progress(stage, outcome, Some(reference))
  }

  /** A task, straight through: prepare, invoke, parse, validate, write. */
  function TaskStory(sv: Services, payload: ObjectRef): Story {
    match sv.prepare(payload)
    case Err(f) => Ends([], None, f)
    case Ok(prepared) =>
      var one := [Made(Accepted, "task_prepared", prepared)];
      match sv.invoke(prepared)
      case Err(f) => Ends(one, Some(prepared), f)
      case Ok(responses) =>
        var two := one + [Made(ModelCompleted, "model_succeeded", responses)];
        match sv.parse(prepared, responses)
        case Err(f) => Ends(two, Some(responses), f)
        case Ok(parsed) =>
          var three := two + [Made(ResultStored, "parsed", parsed)];
          match sv.validate(prepared, parsed)
          case Err(f) => Ends(three, Some(parsed), f)
          case Ok(accepted) => Written(three + [Made(Validated, "accepted", accepted)], accepted, sv.write(prepared, accepted))
  }

  /** An item without a task: its payload is its result. */
  function LegacyStory(sv: Services, payload: ObjectRef): Story {
    var three := [Progress(Accepted, "accepted", None), Made(ModelCompleted, "model_succeeded", payload),
                  Made(ResultStored, "result_stored", payload)];
    match sv.validateOutput(payload)
    case Err(f) => Ends(three, Some(payload), f)
    case Ok(valid) =>
      if !valid then Ends(three, Some(payload), INVALID)
      else Written(three + [Made(Validated, "accepted", payload)], payload, sv.writeOutput(payload))
  }

  function StoryOf(sv: Services, payload: ObjectRef): Story {
    if sv.isTask(payload) then TaskStory(sv, payload) else LegacyStory(sv, payload)
  }

  /** The digest tells the story. */
  predicate Tells(d: Digest, story: Story) {
    d.steps == story.steps && d.result == story.result && d.end == story.end
  }

  lemma WorksOn(sv: Services, d: Digest)
    ensures Processing(sv)(d) == if sv.isTask(d.payload) then TaskStage(sv, d, d) else LegacyStage(sv, d, d)
  {}

  /** One decision of the ideal run that stores an object. */
  lemma StoresNext(p: Processor, d: Digest, outcome: string, reference: ObjectRef)
    requires !Done(d) && p(d) == Advance(outcome, Some(reference))
    ensures Ideal(p, d) == d.(steps := d.steps + [Made(NextOf(d).value, outcome, reference)], result := Some(reference))
  {}

  lemma Failed(p: Processor, d: Digest, f: StageFailure, guarded: bool)
    requires !Done(d) && p(d) == End(f.state, Some(f.code), Some(f.details), None, guarded)
    ensures Ideal(p, d) == d.(end := Some(Ending(f.state, Some(f.code), Some(f.details), d.result)))
    ensures Done(Ideal(p, d))
  {}

  lemma Closed(p: Processor, d: Digest, accepted: ObjectRef, written: Effected)
    requires !Done(d) && NextOf(d) == Some(Finished) && d.result == Some(accepted) && p(d) == Close(written)
    ensures Tells(Ideal(p, d), Written(d.steps, accepted, written)) && Done(Ideal(p, d))
  {}

  /** Where the ideal run is after `n` decisions. */
  predicate Reached(sv: Services, start: Digest, n: nat, d: Digest) {
    Iterate(Processing(sv), start, n) == d && d.payload == start.payload
  }

  lemma Reaches(sv: Services, start: Digest, n: nat, d: Digest)
    requires Reached(sv, start, n, d)
    ensures Reached(sv, start, n + 1, Ideal(Processing(sv), d))
  {}

  lemma StaysReached(sv: Services, start: Digest, n: nat, d: Digest)
    requires Reached(sv, start, n, d) && Done(d) && n <= 5
    ensures Reached(sv, start, 5, d)
  {
    DoneStays(Processing(sv), start, n, 5);
  }

  predicate Begins(start: Digest) {
    Untouched(start) && start.result.None?
  }

  lemma TaskWriting(sv: Services, start: Digest, d: Digest, prepared: ObjectRef, accepted: ObjectRef)
    requires Begins(start) && sv.isTask(start.payload) && Reached(sv, start, 4, d) && d.end.None? && d.result == Some(accepted)
    requires |d.steps| == 4 && d.steps[0] == Made(Accepted, "task_prepared", prepared) && d.steps[3].stage == Validated
    ensures Tells(Iterate(Processing(sv), start, 5), Written(d.steps, accepted, sv.write(prepared, accepted)))
  {
    Closed(Processing(sv), d, accepted, sv.write(prepared, accepted));
    Reaches(sv, start, 4, d);
  }

  lemma TaskValidating(sv: Services, start: Digest, d: Digest, prepared: ObjectRef, parsed: ObjectRef)
    requires Begins(start) && sv.isTask(start.payload) && Reached(sv, start, 3, d) && d.end.None? && d.result == Some(parsed)
    requires |d.steps| == 3 && d.steps[0] == Made(Accepted, "task_prepared", prepared) && d.steps[2].stage == ResultStored
    ensures Tells(Iterate(Processing(sv), start, 5),
                  match sv.validate(prepared, parsed)
                  case Err(f) => Ends(d.steps, Some(parsed), f)
                  case Ok(accepted) => Written(d.steps + [Made(Validated, "accepted", accepted)], accepted, sv.write(prepared, accepted)))
  {
    Reaches(sv, start, 3, d);
    match sv.validate(prepared, parsed)
    case Err(f) =>
      Failed(Processing(sv), d, f, false);
      StaysReached(sv, start, 4, Ideal(Processing(sv), d));
    case Ok(accepted) =>
      StoresNext(Processing(sv), d, "accepted", accepted);
      TaskWriting(sv, start, Ideal(Processing(sv), d), prepared, accepted);
  }

  lemma TaskParsing(sv: Services, start: Digest, d: Digest, prepared: ObjectRef, responses: ObjectRef)
    requires Begins(start) && sv.isTask(start.payload) && Reached(sv, start, 2, d) && d.end.None? && d.result == Some(responses)
    requires d.steps == [Made(Accepted, "task_prepared", prepared)] + [Made(ModelCompleted, "model_succeeded", responses)]
    requires sv.prepare(start.payload) == Ok(prepared) && sv.invoke(prepared) == Ok(responses)
    ensures Tells(Iterate(Processing(sv), start, 5), TaskStory(sv, start.payload))
  {
    Reaches(sv, start, 2, d);
    match sv.parse(prepared, responses)
    case Err(f) =>
      Failed(Processing(sv), d, f, false);
      StaysReached(sv, start, 3, Ideal(Processing(sv), d));
    case Ok(parsed) =>
      StoresNext(Processing(sv), d, "parsed", parsed);
      var e := Ideal(Processing(sv), d);
      assert e.steps == d.steps + [Made(ResultStored, "parsed", parsed)] && |e.steps| == 3 && e.steps[0] == d.steps[0];
      TaskValidating(sv, start, e, prepared, parsed);
  }

  lemma TaskInvoking(sv: Services, start: Digest, d: Digest, prepared: ObjectRef)
    requires Begins(start) && sv.isTask(start.payload) && Reached(sv, start, 1, d) && d.end.None? && d.result == Some(prepared)
    requires d.steps == [Made(Accepted, "task_prepared", prepared)] && sv.prepare(start.payload) == Ok(prepared)
    ensures Tells(Iterate(Processing(sv), start, 5), TaskStory(sv, start.payload))
  {
    Reaches(sv, start, 1, d);
    match sv.invoke(prepared)
    case Err(f) =>
      Failed(Processing(sv), d, f, false);
      StaysReached(sv, start, 2, Ideal(Processing(sv), d));
    case Ok(responses) =>
      StoresNext(Processing(sv), d, "model_succeeded", responses);
      TaskParsing(sv, start, Ideal(Processing(sv), d), prepared, responses);
  }

  lemma TaskPreparing(sv: Services, start: Digest)
    requires Begins(start) && sv.isTask(start.payload)
    ensures Tells(Iterate(Processing(sv), start, 5), TaskStory(sv, start.payload))
  {
    Reaches(sv, start, 0, start);
    match sv.prepare(start.payload)
    case Err(f) =>
      Failed(Processing(sv), start, f, false);
      StaysReached(sv, start, 1, Ideal(Processing(sv), start));
    case Ok(prepared) =>
      StoresNext(Processing(sv), start, "task_prepared", prepared);
      TaskInvoking(sv, start, Ideal(Processing(sv), start), prepared);
  }

  lemma LegacyFinishing(sv: Services, start: Digest, d: Digest)
    requires Begins(start) && !sv.isTask(start.payload) && Reached(sv, start, 3, d) && d.end.None? && d.result == Some(start.payload)
    requires d.steps == [Progress(Accepted, "accepted", None), Made(ModelCompleted, "model_succeeded", start.payload),
                         Made(ResultStored, "result_stored", start.payload)]
    ensures Tells(Iterate(Processing(sv), start, 5), LegacyStory(sv, start.payload))
  {
    Reaches(sv, start, 3, d);
    WorksOn(sv, d);
    var valid := sv.validateOutput(start.payload);
    if valid.Err? || !valid.value {
      Failed(Processing(sv), d, if valid.Err? then valid.error else INVALID, valid.Ok?);
      StaysReached(sv, start, 4, Ideal(Processing(sv), d));
    } else {
      StoresNext(Processing(sv), d, "accepted", start.payload);
      var e := Ideal(Processing(sv), d);
      WorksOn(sv, e);
      Closed(Processing(sv), e, start.payload, sv.writeOutput(start.payload));
      Reaches(sv, start, 4, e);
    }
  }

  lemma LegacyStarting(sv: Services, start: Digest)
    requires Begins(start) && !sv.isTask(start.payload)
    ensures Tells(Iterate(Processing(sv), start, 5), LegacyStory(sv, start.payload))
  {
    var p := Processing(sv);
    var one := Ideal(p, start);
    WorksOn(sv, start);
    Reaches(sv, start, 0, start);
    assert one == start.(steps := [Progress(Accepted, "accepted", None)]);
    Reaches(sv, start, 1, one);
    WorksOn(sv, one);
    StoresNext(p, one, "model_succeeded", start.payload);
    var two := Ideal(p, one);
    Reaches(sv, start, 2, two);
    WorksOn(sv, two);
    StoresNext(p, two, "result_stored", start.payload);
    LegacyFinishing(sv, start, Ideal(p, two));
  }

  /** The durable pipeline does what the straight-line work would do. */
  lemma PipelineTellsStory(sv: Services, start: Digest)
    requires Begins(start)
    ensures Tells(Iterate(Processing(sv), start, 5), StoryOf(sv, start.payload))
  {
    if sv.isTask(start.payload) { TaskPreparing(sv, start); } else { LegacyStarting(sv, start); }
  }

  /**
   * However a submitted item was resumed, interrupted and crashed, once an unlimited resume has run after leases lapsed
   * its stages, outcomes, results and end are those of doing the work straight through.
   */
  lemma DurableRunTellsStory(sv: Services, item: Item, episodes: seq<Episode>, owner: Id, clock: Clock, duration: int)
    requires WellStated(sv) && Fresh(item) && item.result.None?
    requires forall i :: 0 <= i < |episodes| ==> Steady(episodes[i])
    requires LeaseArguments(owner, duration) && Timely(clock, duration)
    requires Lapsed(PlayAll(Processing(sv), Opened(item).cell, episodes), clock(0))
    ensures var resumed := ResumeLoop(Processing(sv), PlayAll(Processing(sv), Opened(item).cell, episodes), owner, clock, 0,
                                      duration, None);
            !resumed.raised && Tells(DigestOf(resumed.cell), StoryOf(sv, item.payload))
  {
    var p := Processing(sv);
    ProcessingIsWellBehaved(sv);
    FreshAt(p, item);
    var m := PlayAllOnPath(Dispatching(sv), StartOf(item), Opened(item).cell, 0, episodes);
    ResumeOnPath(p, StartOf(item), PlayAll(p, Opened(item).cell, episodes), owner, clock, duration);
    PipelineTellsStory(sv, StartOf(item));
  }

  // ----- Late workers -----

  /** Every resume of the item begun once leases have lapsed leaves it as the story tells. */
  ghost predicate ResumesTell(sv: Services, c: Cell, story: Story) {
    forall owner: Id, clock: Clock, duration: int | LeaseArguments(owner, duration) && Timely(clock, duration) && Lapsed(c, clock(0)) ::
      Tells(DigestOf(ResumeLoop(Processing(sv), c, owner, clock, 0, duration, None).cell), story)
  }

  /** Whatever these workers did to the item, resumes leave it as the story tells. */
  ghost predicate AllTell(sv: Services, item: Item, name: Names, workers: set<WorkerId>) {
    forall steps :: OnlyBy(steps, workers) && Lawful(Dispatching(sv), name, Opened(item), steps) ==>
      ResumesTell(sv, TakeAll(Dispatching(sv), name, Opened(item), steps).cell, StoryOf(sv, item.payload))
  }

  /** With names of their own, whatever the workers bring late, resumes tell the story. */
  lemma LateWorkersTellStory(sv: Services, item: Item, name: Names, workers: set<WorkerId>)
    requires WellStated(sv) && Fresh(item) && item.result.None? && NamesTellApart(name, workers)
    ensures AllTell(sv, item, name, workers)
  {
    var p, start := Processing(sv), StartOf(item);
    ProcessingIsWellBehaved(sv);
    FreshAt(p, item);
    PipelineTellsStory(sv, start);
    forall steps | OnlyBy(steps, workers) && Lawful(Dispatching(sv), name, Opened(item), steps)
      ensures ResumesTell(sv, TakeAll(Dispatching(sv), name, Opened(item), steps).cell, StoryOf(sv, item.payload))
    {
      AlwaysOnPath(Dispatching(sv), start, name, workers, Opened(item).cell, 0, steps);
      OnPathTells(sv, start, TakeAll(Dispatching(sv), name, Opened(item), steps).cell, StoryOf(sv, item.payload));
    }
  }

  lemma OnPathTells(sv: Services, start: Digest, c: Cell, story: Story)
    requires WellBehaved(Processing(sv)) && Untouched(start) && OnPath(Processing(sv), start, c)
    requires Tells(Iterate(Processing(sv), start, 5), story)
    ensures ResumesTell(sv, c, story)
  {
    forall owner: Id, clock: Clock, duration: int | LeaseArguments(owner, duration) && Timely(clock, duration) && Lapsed(c, clock(0))
      ensures Tells(DigestOf(ResumeLoop(Processing(sv), c, owner, clock, 0, duration, None).cell), story)
    {
      ResumeOnPath(Processing(sv), start, c, owner, clock, duration);
    }
  }

  function AtOne(i: nat): Instant { 1 }

  /** An item that ended early does not resume to a longer story. */
  lemma EndedEarlyTellsNot(sv: Services, c: Cell, story: Story)
    requires CellOk(c) && DigestOf(c).end.Some? && |DigestOf(c).steps| < |story.steps|
    ensures !ResumesTell(sv, c, story)
  {
    DoneIsCompleted(c);
    NotBlank("worker");
    NothingToDo(Processing(sv), c, "worker", AtOne, 0, 1, None);
    assert LeaseArguments("worker", 1) && Timely(AtOne, 1) && Lapsed(c, AtOne(0));
    assert ResumeLoop(Processing(sv), c, "worker", AtOne, 0, 1, None).cell == c;
  }

  // ----- Two readings, under one name -----

  /** The late worker has claimed, and reads the next stage only while another processes the one after. */
  function MixedReadings(w: WorkerId, v: WorkerId): seq<WorkerStep> {
    [Claims(w, 0, 1)] + (Round(v) + ([Claims(v, 1, 1)] + ([Reads(w)] + [Writes(w, 1)])))
  }

  lemma LateReading(sv: Services, name: Names, s: Shop, w: WorkerId, v: WorkerId, claim: Digest) returns (to: Shop)
    requires CellOk(s.cell) && Owned(s.cell.item, name(w), 1) && Next(s.cell) == Some(ModelCompleted)
    requires sv.isTask(claim.payload) && claim.result.None? && w in s.at && s.at[w] == HasClaim(claim)
    ensures Leads(Dispatching(sv), name, {w, v}, s, [Reads(w)] + [Writes(w, 1)], to)
    ensures CellOk(to.cell) && EndedBy(DigestOf(to.cell), DigestOf(s.cell), Fail(NO_REFERENCE))
  {
    NextMatches(s.cell);
    var read := Shop(s.cell, s.at[w := HasDecision(ModelCompleted, Fail(NO_REFERENCE))]);
    LeadsOne(Dispatching(sv), name, {w, v}, s, Reads(w));
    to := NoReferenceEnds(Dispatching(sv), name, read, w, v);
    LeadsThen(Dispatching(sv), name, {w, v}, s, [Reads(w)], read, [Writes(w, 1)], to);
  }

  lemma NoReferenceEnds(q: Dispatch, name: Names, s: Shop, w: WorkerId, v: WorkerId) returns (to: Shop)
    requires CellOk(s.cell) && Owned(s.cell.item, name(w), 1)
    requires w in s.at && s.at[w] == HasDecision(ModelCompleted, Fail(NO_REFERENCE))
    ensures Leads(q, name, {w, v}, s, [Writes(w, 1)], to)
    ensures CellOk(to.cell) && EndedBy(DigestOf(to.cell), DigestOf(s.cell), Fail(NO_REFERENCE))
  {
    TextsStated("");
    LateEnd(s.cell, name(w), ModelCompleted, Fail(NO_REFERENCE));
    to := TakeStep(q, name, s, Writes(w, 1));
    LeadsOne(q, name, {w, v}, s, Writes(w, 1));
  }

  lemma ThenMixes(sv: Services, name: Names, s: Shop, w: WorkerId, v: WorkerId, claim: Digest) returns (to: Shop)
    requires CellOk(s.cell) && !Done(DigestOf(s.cell)) && Lapsed(s.cell, 1) && Next(s.cell) == Some(ModelCompleted)
    requires w != v && name(w) == name(v) && !Blank(name(w))
    requires sv.isTask(claim.payload) && claim.result.None? && s.at == map[w := HasClaim(claim)]
    ensures Leads(Dispatching(sv), name, {w, v}, s, [Claims(v, 1, 1)] + ([Reads(w)] + [Writes(w, 1)]), to)
    ensures CellOk(to.cell) && EndedBy(DigestOf(to.cell), DigestOf(s.cell), Fail(NO_REFERENCE))
  {
    DoneIsCompleted(s.cell);
    LapsedIsClaimed(s.cell, name(v), 1, 1, 1);
    ClaimKeeps(s.cell, name(v), 1, 1);
    ClaimKeepsDigest(s.cell, name(v), 1, 1);
    ClaimKeepsNext(s.cell, name(v), 1, 1);
    var one := TakeStep(Dispatching(sv), name, s, Claims(v, 1, 1));
    LeadsOne(Dispatching(sv), name, {w, v}, s, Claims(v, 1, 1));
    to := LateReading(sv, name, one, w, v, claim);
    LeadsThen(Dispatching(sv), name, {w, v}, s, [Claims(v, 1, 1)], one, [Reads(w)] + [Writes(w, 1)], to);
  }

  lemma FirstClaims(sv: Services, item: Item, name: Names, w: WorkerId, v: WorkerId) returns (to: Shop)
    requires Fresh(item) && !Blank(name(w))
    ensures Leads(Dispatching(sv), name, {w, v}, Opened(item), [Claims(w, 0, 1)], to)
    ensures At(Processing(sv), StartOf(item), to.cell, 0) && Lapsed(to.cell, 1) && to.at == map[w := HasClaim(StartOf(item))]
  {
    FreshAt(Processing(sv), item);
    LeaseAt(Processing(sv), StartOf(item), Opened(item).cell, 0, name(w), 0, 1);
    ClaimKeepsDigest(Opened(item).cell, name(w), 0, 1);
    to := TakeStep(Dispatching(sv), name, Opened(item), Claims(w, 0, 1));
    LeadsOne(Dispatching(sv), name, {w, v}, Opened(item), Claims(w, 0, 1));
  }

  /** What the ideal run has after a task was prepared. */
  lemma PreparedFirst(sv: Services, start: Digest, prepared: ObjectRef)
    requires Begins(start) && sv.isTask(start.payload) && sv.prepare(start.payload) == Ok(prepared) && sv.invoke(prepared).Ok?
    ensures var one := Iterate(Processing(sv), start, 1);
            one.steps == [Made(Accepted, "task_prepared", prepared)] && one.result == Some(prepared) && !Done(one)
    ensures !Done(Iterate(Processing(sv), start, 2))
  {
    var p := Processing(sv);
    WorksOn(sv, start);
    Reaches(sv, start, 0, start);
    StoresNext(p, start, "task_prepared", prepared);
    var one := Ideal(p, start);
    WorksOn(sv, one);
    Reaches(sv, start, 1, one);
    StoresNext(p, one, "model_succeeded", sv.invoke(prepared).value);
  }

  /**
   * With one owner name for two workers, a run of a task that mixes an older claim with a newer stage, and so ends the item as
   * retry-exhausted for want of a result, though its preparation and its model succeed.
   */
  lemma MixedReadingsRun(sv: Services, item: Item, name: Names, w: WorkerId, v: WorkerId, prepared: ObjectRef) returns (to: Shop)
    requires WellStated(sv) && Fresh(item) && item.result.None? && sv.isTask(item.payload)
    requires sv.prepare(item.payload) == Ok(prepared) && sv.invoke(prepared).Ok?
    requires w != v && name(w) == name(v) && !Blank(name(w))
    ensures Leads(Dispatching(sv), name, {w, v}, Opened(item), MixedReadings(w, v), to)
    ensures CellOk(to.cell) && EndedBy(DigestOf(to.cell), Iterate(Processing(sv), StartOf(item), 1), Fail(NO_REFERENCE))
    ensures !OnPath(Processing(sv), StartOf(item), to.cell)
  {
    var q, start := Dispatching(sv), StartOf(item);
    ProcessingIsWellBehaved(sv);
    PreparedFirst(sv, start, prepared);
    var s := FirstClaims(sv, item, name, w, v);
    var one := RoundTaken(q, start, name, s, 0, v);
    LeadsWider(q, name, {v}, {w, v}, s, Round(v), one);
    NextMatches(one.cell);
    to := ThenMixes(sv, name, one, w, v, start);
    LeadsThen(q, name, {w, v}, s, Round(v), one, [Claims(v, 1, 1)] + ([Reads(w)] + [Writes(w, 1)]), to);
    LeadsThen(q, name, {w, v}, Opened(item), [Claims(w, 0, 1)], s,
              Round(v) + ([Claims(v, 1, 1)] + ([Reads(w)] + [Writes(w, 1)])), to);
    EndedEarlyIsOff(Processing(sv), start, to.cell, 2);
  }

  // ----- Exactly when late workers make no difference -----

  /** A task's preparation and its model succeed. */
  predicate GoesFar(sv: Services, payload: ObjectRef) {
    sv.isTask(payload) ==> sv.prepare(payload).Ok? && sv.invoke(sv.prepare(payload).value).Ok?
  }

  lemma StoryIsLong(sv: Services, payload: ObjectRef)
    requires GoesFar(sv, payload)
    ensures |StoryOf(sv, payload).steps| >= if sv.isTask(payload) then 2 else 3
  {}

  /** An item without a task is always taken past its third stage. */
  lemma LegacyGoesOn(sv: Services, start: Digest)
    requires Begins(start) && !sv.isTask(start.payload)
    ensures !Done(Iterate(Processing(sv), start, 3))
  {
    PipelineTellsStory(sv, start);
    StoryIsLong(sv, start.payload);
    if Done(Iterate(Processing(sv), start, 3)) {
      DoneStays(Processing(sv), start, 3, 5);
      FullSteps(Processing(sv), start, 3);
    }
  }

  lemma SharedNameTellsNot(sv: Services, item: Item, name: Names, workers: set<WorkerId>)
    requires WellStated(sv) && Fresh(item) && item.result.None? && GoesFar(sv, item.payload) && !NamesTellApart(name, workers)
    ensures !AllTell(sv, item, name, workers)
  {
    var q := Dispatching(sv);
    ProcessingIsWellBehaved(sv);
    StoryIsLong(sv, item.payload);
    var steps: seq<WorkerStep>;
    if sv.isTask(item.payload) {
      var w, v :| w in workers && v in workers && w != v && !Blank(name(w)) && name(w) == name(v);
      var prepared := sv.prepare(item.payload).value;
      PreparedFirst(sv, StartOf(item), prepared);
      var to := MixedReadingsRun(sv, item, name, w, v, prepared);
      steps := MixedReadings(w, v);
      LeadsWider(q, name, {w, v}, workers, Opened(item), steps, to);
    } else {
      LegacyGoesOn(sv, StartOf(item));
      steps := SharedNameLeavesPath(q, item, name, workers);
    }
    EndedEarlyTellsNot(sv, TakeAll(q, name, Opened(item), steps).cell, StoryOf(sv, item.payload));
  }

  /**
   * For an item without a task, and for a task whose preparation and model succeed: whatever the workers bring late, resumes
   * leave it as the work done straight through would, if and only if no two of the workers use one owner name.
   */
  lemma LateStoryIff(sv: Services, item: Item, name: Names, workers: set<WorkerId>)
    requires WellStated(sv) && Fresh(item) && item.result.None? && GoesFar(sv, item.payload)
    ensures AllTell(sv, item, name, workers) <==> NamesTellApart(name, workers)
  {
    if NamesTellApart(name, workers) {
      LateWorkersTellStory(sv, item, name, workers);
    } else {
      SharedNameTellsNot(sv, item, name, workers);
    }
  }
}
