/** What a submission is answered, now and when it is made again (bulk/memory.py, bulk/coordinator.py). */
module Submissions {
  import opened Prelude
  import opened Repository
  import opened WorkHistory
  import opened RepositoryRuns

  /** The answer to a submission. */
  function AnswerTo(r: Repo, e: Event): Result<Item, WorkError>
    requires e.SubmitEvent?
  {
    var item := FreshItem(e.jobId, e.itemId, e.name, e.payload, e.configuration);
    CreateWithOutbox(r, item, Announce(item, e.eventId)).1
  }

  function SubmittedKey(e: Event): Key
    requires e.SubmitEvent?
  {
    Key(e.jobId, e.name)
  }

  /** Neither its key nor its item id is taken in the job, and its event id is new. */
  predicate NotTaken(r: Repo, e: Event)
    requires e.SubmitEvent?
  {
    && SubmittedKey(e) !in r.items && e.eventId !in r.outbox
    && forall k :: k in r.items && k.jobId == e.jobId ==> r.items[k].itemId != e.itemId
  }

  /** Its key holds the same work. */
  predicate Repeats(r: Repo, e: Event)
    requires e.SubmitEvent?
  {
    && SubmittedKey(e) in r.items && r.items[SubmittedKey(e)].itemId == e.itemId
    && r.items[SubmittedKey(e)].payload == e.payload && r.items[SubmittedKey(e)].configuration == e.configuration
  }

  /** The submission is entered with the event that announces it. */
  predicate Entered(after: Repo, e: Event)
    requires e.SubmitEvent?
  {
    && SubmittedKey(e) in after.items && Fresh(after.items[SubmittedKey(e)])
    && KeyOf(after.items[SubmittedKey(e)]) == SubmittedKey(e) && Repeats(after, e)
    && e.eventId in after.outbox && after.outbox[e.eventId].publishedAt.None?
    && after.outbox[e.eventId].notification.key == e.name && after.outbox[e.eventId].notification.jobId == e.jobId
    && after.outbox[e.eventId].notification.itemId == e.itemId
  }

  /** The answer of a consistent repository, from what it holds. */
  predicate AnswersSubmission(r: Repo, e: Event, after: Repo, answer: Result<Item, WorkError>)
    requires e.SubmitEvent?
  {
    && (answer.Ok? <==> NotTaken(r, e) || Repeats(r, e))
    && (NotTaken(r, e) ==> Entered(after, e) && answer == Ok(after.items[SubmittedKey(e)]))
    && (Repeats(r, e) ==> answer == Ok(r.items[SubmittedKey(e)]) && after == r)
    && (answer.Err? ==> answer == Err(Conflict) && after == r)
  }

  lemma ItemIdTaken(r: Repo, jobId: Id, itemId: Id)
    requires Consistent(r) && Bijective(r)
    ensures Key(jobId, itemId) in r.itemIds <==> exists k :: k in r.items && k.jobId == jobId && r.items[k].itemId == itemId
  {
    if Key(jobId, itemId) in r.itemIds {
      var k := Key(jobId, r.itemIds[Key(jobId, itemId)]);
      assert k in r.items && r.items[k].itemId == itemId;
    }
  }

  lemma AnswerOf(r: Repo, e: Event)
    requires e.SubmitEvent? && Consistent(r) && Bijective(r)
    ensures AnswersSubmission(r, e, Apply(r, e), AnswerTo(r, e))
  {
    ItemIdTaken(r, e.jobId, e.itemId);
    if SubmittedKey(e) !in r.items && NotTaken(r, e) {
      assert Key(e.jobId, e.itemId) !in r.itemIds;
    }
  }

  /**
   * In every reachable repository a submission is accepted if and only if it is unused in every respect, when it is entered
   * with its event, or its key holds the same work, when it is answered with the item as it stands now and nothing changes.
   * Every other submission is a conflict that changes nothing.
   */
  lemma SubmissionIff(events: seq<Event>, e: Event)
    requires e.SubmitEvent?
    ensures AnswersSubmission(Run(events), e, Apply(Run(events), e), AnswerTo(Run(events), e))
  {
    RunConsistent(events);
    AnswerOf(Run(events), e);
  }

  // ----- Submitting again -----

  lemma ApplyKeepsIdentity(r: Repo, e: Event, k: Key)
    requires Consistent(r) && k in r.items
    ensures k in Apply(r, e).items && SameIdentity(r.items[k], Apply(r, e).items[k])
  {
    match e
    case SubmitEvent(_, _, _, _, _, _) =>
      ApplySubmit(r, e);
      assert CellAt(Apply(r, e), k) == CellAt(r, k);
    case WorkEvent(key, act) =>
      ApplyWork(r, key, act);
      assert CellAt(Apply(r, e), k).item == Apply(r, e).items[k];
      if k == key { PerformPreserves(CellAt(r, k), act); }
    case PublishedEvent(_, _) =>
  }

  lemma {:induction false} RunKeepsIdentity(events: seq<Event>, later: seq<Event>, k: Key)
    requires k in Run(events).items
    ensures k in Run(events + later).items && SameIdentity(Run(events).items[k], Run(events + later).items[k])
    decreases |later|
  {
    if later == [] {
      assert events + later == events;
    } else {
      var n := |later| - 1;
      RunKeepsIdentity(events, later[..n], k);
      RunConsistent(events + later[..n]);
      assert (events + later)[..|events + later| - 1] == events + later[..n];
      assert (events + later)[|events + later| - 1] == later[n];
      ApplyKeepsIdentity(Run(events + later[..n]), later[n], k);
    }
  }

  lemma RunOneMore(events: seq<Event>, e: Event)
    ensures Run(events + [e]) == Apply(Run(events), e)
  {
    assert (events + [e])[..|events + [e]| - 1] == events;
  }

  /**
   * Once a submission was accepted, making it again at any later time, under whatever event id, returns the item as it then
   * stands and changes nothing; with another item id, payload or configuration its key is a conflict.
   */
  lemma SubmittingAgain(past: seq<Event>, e: Event, later: seq<Event>, again: Event)
    requires e.SubmitEvent? && AnswerTo(Run(past), e).Ok? && again.SubmitEvent? && SubmittedKey(again) == SubmittedKey(e)
    ensures var r := Run(past + [e] + later);
            && SubmittedKey(e) in r.items && Apply(r, again) == r
            && AnswerTo(r, again) == if (again.itemId, again.payload, again.configuration) == (e.itemId, e.payload, e.configuration)
                                   then Ok(r.items[SubmittedKey(e)]) else Err(Conflict)
  {
    var r := Run(past + [e] + later);
    SubmissionIff(past, e);
    RunOneMore(past, e);
    assert Repeats(Run(past + [e]), e);
    RunKeepsIdentity(past + [e], later, SubmittedKey(e));
    SubmissionIff(past + [e] + later, again);
  }
}
