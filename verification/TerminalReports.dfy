/** Terminal job reports and dead letters (bulk/execution.py, bulk/models.py, bulk/memory.py). */
module TerminalReports {
  import opened Prelude
  import opened Repository
  import opened WorkHistory
  import opened RepositoryRuns
  import Sorting

  // ----- Reports -----

  datatype Cause = JobCompleted | JobBudgetExhausted | JobCancelled
  datatype Classification = AllSucceeded | PartiallySucceeded | JobFailed | OutOfBudget | CancelledJob

  datatype Group = Group(state: TerminalState, count: nat, ids: seq<Id>)
  datatype Report = Report(jobId: Id, classification: Classification, groups: seq<Group>, total: nat, cause: Cause, at: Instant)

  datatype ReportError =
    | EmptyJob | ForeignItem | DuplicateItem | NotAllTerminal | BadGroup | NotAPartition

  const STATES: seq<TerminalState> :=
    [Succeeded, ValidationFailed, PolicyRejected, BudgetExhausted, RetryExhausted, WriteBackFailed, Cancelled]

  /** `classify_terminal_job`. */
  function ClassifyJob(items: seq<Terminal>, cause: Cause): Classification {
    var succeeded := |Filter((t: Terminal) => t.state == Succeeded, items)|;
    if succeeded == |items| then AllSucceeded
    else if succeeded > 0 then PartiallySucceeded
    else match cause
      case JobBudgetExhausted => OutOfBudget
      case JobCancelled => CancelledJob
      case JobCompleted => JobFailed
  }

  function ItemIds(items: seq<Terminal>): (r: seq<Id>)
    ensures |r| == |items| && forall i :: 0 <= i < |items| ==> r[i] == items[i].itemId
  {
    Map((t: Terminal) => t.itemId, items)
  }

  function InState(items: seq<Terminal>, state: TerminalState): seq<Terminal> {
    Filter((t: Terminal) => t.state == state, items)
  }

  function GroupOf(items: seq<Terminal>, state: TerminalState): Group {
    var ids := Sorting.Sort(TextLe, ItemIds(InState(items, state)));
    Group(state, |ids|, ids)
  }

  function GroupsOf(items: seq<Terminal>, states: seq<TerminalState>): (r: seq<Group>)
    ensures |r| == |states| && forall i :: 0 <= i < |states| ==> r[i] == GroupOf(items, states[i])
  {
    Map(state => GroupOf(items, state), states)
  }

  function IdsOfGroups(groups: seq<Group>): seq<seq<Id>> {
    Map((g: Group) => g.ids, groups)
  }

  /** What the `TerminalStateGroup` constructor requires. */
  predicate GroupAccepted(g: Group) {
    g.count == |g.ids| && Distinct(g.ids) && forall i :: 0 <= i < |g.ids| ==> !Blank(g.ids[i])
  }

  /** `build_terminal_report`, with every check of the constructors it calls. */
  function BuildReport(jobId: Id, items: seq<Terminal>, cause: Cause, at: Instant): Result<Report, ReportError> {
    if items == [] then Err(EmptyJob)
    else if exists i :: 0 <= i < |items| && items[i].jobId != jobId then Err(ForeignItem)
    else if !Distinct(ItemIds(items)) then Err(DuplicateItem)
    else
      var groups := GroupsOf(items, STATES);
      var ids := Flatten(IdsOfGroups(groups));
      if exists i :: 0 <= i < |groups| && !GroupAccepted(groups[i]) then Err(BadGroup)
      else if |items| != |ids| || !Distinct(ids) then Err(NotAPartition)
      else Ok(Report(jobId, ClassifyJob(items, cause), groups, |items|, cause, at))
  }

  lemma {:induction false} FilterSplit(both: Terminal -> bool, one: Terminal -> bool, other: Terminal -> bool, items: seq<Terminal>)
    requires forall t: Terminal :: both(t) <==> one(t) || other(t)
    requires forall t: Terminal :: !(one(t) && other(t))
    ensures multiset(ItemIds(Filter(both, items))) == multiset(ItemIds(Filter(one, items))) + multiset(ItemIds(Filter(other, items)))
  {
    if items != [] {
      FilterSplit(both, one, other, items[1..]);
      IdsCons(items[0], Filter(both, items[1..]));
      IdsCons(items[0], Filter(one, items[1..]));
      IdsCons(items[0], Filter(other, items[1..]));
    }
  }

  lemma IdsCons(t: Terminal, items: seq<Terminal>)
    ensures multiset(ItemIds([t] + items)) == multiset{t.itemId} + multiset(ItemIds(items))
  {
    assert ItemIds([t] + items) == [t.itemId] + ItemIds(items);
  }

  /** The groups of some states hold exactly the items in those states. */
  lemma {:induction false} GroupsCover(items: seq<Terminal>, states: seq<TerminalState>)
    requires Distinct(states)
    ensures multiset(Flatten(IdsOfGroups(GroupsOf(items, states))))
         == multiset(ItemIds(Filter((t: Terminal) => t.state in states, items)))
  {
    if states == [] {
      NoneKept((t: Terminal) => t.state in states, items);
    } else {
      var rest := states[1..];
      GroupsCover(items, rest);
      var groups := GroupsOf(items, states);
      assert IdsOfGroups(groups)[1..] == IdsOfGroups(GroupsOf(items, rest));
      assert Flatten(IdsOfGroups(groups)) == GroupOf(items, states[0]).ids + Flatten(IdsOfGroups(GroupsOf(items, rest)));
      assert states == [states[0]] + rest && states[0] !in rest;
      FilterSplit((t: Terminal) => t.state in states, (t: Terminal) => t.state == states[0], (t: Terminal) => t.state in rest, items);
    }
  }

  lemma {:induction false} NoneKept(keep: Terminal -> bool, items: seq<Terminal>)
    requires forall t: Terminal :: !keep(t)
    ensures Filter(keep, items) == []
  {
    if items != [] { NoneKept(keep, items[1..]); }
  }

  lemma {:induction false} AllKept(keep: Terminal -> bool, items: seq<Terminal>)
    requires forall t: Terminal :: keep(t)
    ensures Filter(keep, items) == items
  {
    if items != [] { AllKept(keep, items[1..]); }
  }

  lemma EveryState(s: TerminalState)
    ensures s in STATES
  {
    match s
    case Succeeded => assert STATES[0] == s;
    case ValidationFailed => assert STATES[1] == s;
    case PolicyRejected => assert STATES[2] == s;
    case BudgetExhausted => assert STATES[3] == s;
    case RetryExhausted => assert STATES[4] == s;
    case WriteBackFailed => assert STATES[5] == s;
    case Cancelled => assert STATES[6] == s;
  }

  lemma AllStates(items: seq<Terminal>)
    ensures Distinct(STATES)
    ensures Filter((t: Terminal) => t.state in STATES, items) == items
  {
    forall t: Terminal ensures t.state in STATES {
      EveryState(t.state);
    }
    AllKept((t: Terminal) => t.state in STATES, items);
  }

  // ----- Reports of reachable repositories never fail their checks -----

  lemma GroupPasses(items: seq<Terminal>, state: TerminalState)
    requires Distinct(ItemIds(items)) && forall i :: 0 <= i < |items| ==> !Blank(items[i].itemId)
    ensures GroupAccepted(GroupOf(items, state))
    ensures forall id :: id in GroupOf(items, state).ids <==> exists t :: t in items && t.itemId == id && t.state == state
  {
    var kept := InState(items, state);
    FilteredIdsDistinct((t: Terminal) => t.state == state, items);
    var ids := Sorting.Sort(TextLe, ItemIds(kept));
    DistinctUnderPermutation(ItemIds(kept), ids);
    Sorting.SameElements(ids, ItemIds(kept));
    forall id | id in ItemIds(kept) ensures exists t :: t in items && t.itemId == id && t.state == state {
      var i :| 0 <= i < |kept| && kept[i].itemId == id;
      assert kept[i] in kept;
    }
    forall t | t in items && t.state == state ensures t.itemId in ItemIds(kept) {
      assert t in kept;
      var i :| 0 <= i < |kept| && kept[i] == t;
      assert ItemIds(kept)[i] == t.itemId;
    }
    forall i | 0 <= i < |ids| ensures !Blank(ids[i]) {
      assert ids[i] in ItemIds(kept);
      var t :| t in items && t.itemId == ids[i] && t.state == state;
    }
  }

  lemma GroupSorted(items: seq<Terminal>, state: TerminalState)
    ensures Sorting.Sorted(TextLe, GroupOf(items, state).ids)
  {
    forall a, b ensures TextLe(a, b) || TextLe(b, a) {
      TextLeTotal(a, b);
    }
    forall a, b, c | TextLe(a, b) && TextLe(b, c) ensures TextLe(a, c) {
      TextLeTransitive(a, b, c);
    }
    Sorting.SortSorted(TextLe, ItemIds(InState(items, state)));
  }

  lemma {:induction false} FilteredIdsDistinct(keep: Terminal -> bool, items: seq<Terminal>)
    requires Distinct(ItemIds(items))
    ensures Distinct(ItemIds(Filter(keep, items)))
    ensures forall id :: id in ItemIds(Filter(keep, items)) ==> id in ItemIds(items)
  {
    if items != [] {
      assert ItemIds(items) == [items[0].itemId] + ItemIds(items[1..]);
      FilteredIdsDistinct(keep, items[1..]);
      assert items[0].itemId !in ItemIds(items[1..]);
      if keep(items[0]) {
        assert ItemIds(Filter(keep, items)) == [items[0].itemId] + ItemIds(Filter(keep, items[1..]));
      }
    }
  }

  /** The groups partition the items: together they hold every identifier once. */
  lemma GroupsPartition(items: seq<Terminal>)
    requires Distinct(ItemIds(items))
    ensures var ids := Flatten(IdsOfGroups(GroupsOf(items, STATES)));
            multiset(ids) == multiset(ItemIds(items)) && Distinct(ids) && |ids| == |items|
  {
    AllStates(items);
    GroupsCover(items, STATES);
    var ids := Flatten(IdsOfGroups(GroupsOf(items, STATES)));
    DistinctUnderPermutation(ItemIds(items), ids);
    Sorting.SameElements(ids, ItemIds(items));
  }

  /** The group is well formed and lists exactly the items in its state. */
  ghost predicate Groups(g: Group, items: seq<Terminal>, state: TerminalState) {
    && g.state == state && GroupAccepted(g) && Sorting.Sorted(TextLe, g.ids)
    && forall id :: id in g.ids <==> exists t :: t in items && t.itemId == id && t.state == state
  }

  lemma AllGroups(items: seq<Terminal>)
    requires Distinct(ItemIds(items)) && forall i :: 0 <= i < |items| ==> !Blank(items[i].itemId)
    ensures forall i :: 0 <= i < |STATES| ==> Groups(GroupsOf(items, STATES)[i], items, STATES[i])
  {
    forall i | 0 <= i < |STATES| ensures Groups(GroupsOf(items, STATES)[i], items, STATES[i]) {
      GroupPasses(items, STATES[i]);
      GroupSorted(items, STATES[i]);
    }
  }

  /** What is left of the constructors' checks once the groups are known to be well formed and to partition the items. */
  lemma ReportIsBuilt(jobId: Id, items: seq<Terminal>, cause: Cause, at: Instant, groups: seq<Group>)
    requires items != [] && Distinct(ItemIds(items)) && (forall i :: 0 <= i < |items| ==> items[i].jobId == jobId)
    requires groups == GroupsOf(items, STATES) && forall i :: 0 <= i < |groups| ==> GroupAccepted(groups[i])
    requires Distinct(Flatten(IdsOfGroups(groups))) && |Flatten(IdsOfGroups(groups))| == |items|
    ensures BuildReport(jobId, items, cause, at) == Ok(Report(jobId, ClassifyJob(items, cause), groups, |items|, cause, at))
  {}

  /** Items of one job with their own, stated identifiers always make a report that partitions them by state. */
  lemma ReportSucceeds(jobId: Id, items: seq<Terminal>, cause: Cause, at: Instant)
    requires items != [] && Distinct(ItemIds(items))
    requires forall i :: 0 <= i < |items| ==> items[i].jobId == jobId && !Blank(items[i].itemId)
    ensures var r := BuildReport(jobId, items, cause, at);
            && r.Ok? && r.value.total == |items| && |r.value.groups| == |STATES|
            && multiset(Flatten(IdsOfGroups(r.value.groups))) == multiset(ItemIds(items))
            && (forall i :: 0 <= i < |STATES| ==> Groups(r.value.groups[i], items, STATES[i]))
  {
    GroupsPartition(items);
    AllGroups(items);
    var groups := GroupsOf(items, STATES);
    forall i | 0 <= i < |groups| ensures GroupAccepted(groups[i]) {
      assert Groups(groups[i], items, STATES[i]);
    }
    ReportIsBuilt(jobId, items, cause, at, groups);
  }

  /** The classification depends only on how many items succeeded, and on the cause when none did. */
  lemma ClassificationIff(items: seq<Terminal>, cause: Cause)
    requires items != []
    ensures ClassifyJob(items, cause) == AllSucceeded <==> forall t :: t in items ==> t.state == Succeeded
    ensures ClassifyJob(items, cause) == PartiallySucceeded <==>
      (exists t :: t in items && t.state == Succeeded) && (exists t :: t in items && t.state != Succeeded)
    ensures ClassifyJob(items, cause) == OutOfBudget <==>
      cause == JobBudgetExhausted && forall t :: t in items ==> t.state != Succeeded
    ensures ClassifyJob(items, cause) == CancelledJob <==>
      cause == JobCancelled && forall t :: t in items ==> t.state != Succeeded
  {
    var done := (t: Terminal) => t.state == Succeeded;
    FilterCount(done, items);
    var kept := Filter(done, items);
    assert |kept| > 0 ==> kept[0] in kept;
    assert items[0] in items;
  }

  lemma {:induction false} FilterCount(keep: Terminal -> bool, items: seq<Terminal>)
    ensures |Filter(keep, items)| <= |items|
    ensures |Filter(keep, items)| == |items| <==> forall t :: t in items ==> keep(t)
    ensures |Filter(keep, items)| == 0 <==> forall t :: t in items ==> !keep(t)
  {
    if items != [] {
      FilterCount(keep, items[1..]);
      assert forall t :: t in items <==> t == items[0] || t in items[1..];
    }
  }

  // ----- The items of one job -----

  /** `items` lists the terminal records of the job, once each. */
  ghost predicate ListsTerminals(items: seq<Terminal>, r: Repo, jobId: Id) {
    && (forall i, j :: 0 <= i < j < |items| ==> items[i].key != items[j].key)
    && (forall i :: 0 <= i < |items| ==>
          items[i].jobId == jobId && Key(jobId, items[i].key) in r.terminals && r.terminals[Key(jobId, items[i].key)] == items[i])
    && (forall k :: k in r.terminals && k.jobId == jobId ==> r.terminals[k] in items)
  }

  function JobKeys(keys: set<Key>, jobId: Id): set<Key> {
    set k | k in keys && k.jobId == jobId
  }

  /** `terminal_report`, given the listing the repository returns. */
  function TerminalReport(r: Repo, jobId: Id, items: seq<Terminal>, cause: Cause, at: Instant): Result<Report, ReportError> {
    if JobKeys(r.items.Keys, jobId) == {} then Err(EmptyJob)
    else if |items| != |JobKeys(r.items.Keys, jobId)| then Err(NotAllTerminal)
    else BuildReport(jobId, items, cause, at)
  }

  lemma TerminalsAreItems(events: seq<Event>, k: Key)
    requires k in Run(events).terminals
    ensures k in Run(events).items
    ensures var t, item := Run(events).terminals[k], Run(events).items[k];
            t.jobId == item.jobId == k.jobId && t.key == item.key == k.name && t.itemId == item.itemId
  {
    RunConsistent(events);
    ReachableItem(events, k);
  }

  /** In a reachable repository the terminal records of a job carry distinct item ids. */
  lemma TerminalIdsDistinct(events: seq<Event>, jobId: Id, items: seq<Terminal>)
    requires ListsTerminals(items, Run(events), jobId)
    ensures Distinct(ItemIds(items))
  {
    var r := Run(events);
    RunConsistent(events);
    forall i, j | 0 <= i < j < |items| ensures items[i].itemId != items[j].itemId {
      TerminalsAreItems(events, Key(jobId, items[i].key));
      TerminalsAreItems(events, Key(jobId, items[j].key));
    }
  }

  ghost function TerminalKeys(items: seq<Terminal>): set<Key> {
    set i | 0 <= i < |items| :: Key(items[i].jobId, items[i].key)
  }

  lemma {:induction false} DistinctKeysCount(items: seq<Terminal>)
    requires forall i, j :: 0 <= i < j < |items| ==> items[i].key != items[j].key
    ensures |TerminalKeys(items)| == |items|
  {
    if items != [] {
      var n := |items| - 1;
      DistinctKeysCount(items[..n]);
      assert TerminalKeys(items) == TerminalKeys(items[..n]) + {Key(items[n].jobId, items[n].key)};
      assert Key(items[n].jobId, items[n].key) !in TerminalKeys(items[..n]);
    }
  }

  predicate AllTerminal(r: Repo, jobId: Id) {
    forall k :: k in r.items && k.jobId == jobId ==> k in r.terminals
  }

  /** The listed keys are the keys of the job's terminal records. */
  lemma ListedKeys(events: seq<Event>, jobId: Id, items: seq<Terminal>, k: Key)
    requires ListsTerminals(items, Run(events), jobId)
    ensures k in TerminalKeys(items) <==> k in Run(events).terminals && k.jobId == jobId
  {
    if k in Run(events).terminals && k.jobId == jobId {
      TerminalsAreItems(events, k);
      var i :| 0 <= i < |items| && items[i] == Run(events).terminals[k];
    }
  }

  lemma ListedAreItems(events: seq<Event>, jobId: Id, items: seq<Terminal>)
    requires ListsTerminals(items, Run(events), jobId)
    ensures TerminalKeys(items) <= JobKeys(Run(events).items.Keys, jobId)
    ensures TerminalKeys(items) == JobKeys(Run(events).items.Keys, jobId) <==> AllTerminal(Run(events), jobId)
  {
    var listed, all := TerminalKeys(items), JobKeys(Run(events).items.Keys, jobId);
    forall k ensures k in listed <==> k in Run(events).terminals && k.jobId == jobId {
      ListedKeys(events, jobId, items, k);
    }
    RunConsistent(events);
    if listed == all {
      forall k | k in Run(events).items && k.jobId == jobId ensures k in Run(events).terminals {
        assert k in all;
      }
    }
  }

  lemma CountsMatchIff(events: seq<Event>, jobId: Id, items: seq<Terminal>)
    requires ListsTerminals(items, Run(events), jobId)
    ensures |items| == |JobKeys(Run(events).items.Keys, jobId)| <==> AllTerminal(Run(events), jobId)
  {
    DistinctKeysCount(items);
    ListedAreItems(events, jobId, items);
    SubsetCount(TerminalKeys(items), JobKeys(Run(events).items.Keys, jobId));
  }

  lemma SubsetCount(small: set<Key>, large: set<Key>)
    requires small <= large
    ensures |small| <= |large| && (|small| == |large| <==> small == large)
  {
    assert large == small + (large - small);
    assert |large| == |small| + |large - small|;
  }

  /**
   * A job of a reachable repository is reported exactly when it has items and all of them are terminal, and then
   * the groups partition its items by state: no check of the report's constructors can fail.
   */
  lemma ReachableReport(events: seq<Event>, jobId: Id, items: seq<Terminal>, cause: Cause, at: Instant)
    requires ListsTerminals(items, Run(events), jobId)
    requires forall k :: k in Run(events).items ==> !Blank(Run(events).items[k].itemId)
    ensures var r := TerminalReport(Run(events), jobId, items, cause, at);
            && (r.Ok? <==> JobKeys(Run(events).items.Keys, jobId) != {} && AllTerminal(Run(events), jobId))
            && (r.Ok? ==> multiset(Flatten(IdsOfGroups(r.value.groups))) == multiset(ItemIds(items)) && r.value.total == |items|)
  {
    CountsMatchIff(events, jobId, items);
    if JobKeys(Run(events).items.Keys, jobId) != {} && AllTerminal(Run(events), jobId) {
      TerminalIdsDistinct(events, jobId, items);
      forall i | 0 <= i < |items| ensures !Blank(items[i].itemId) {
        TerminalsAreItems(events, Key(jobId, items[i].key));
      }
      assert |items| > 0;
      ReportSucceeds(jobId, items, cause, at);
    }
  }

  /** One group for each state, in the declared order, with the identifiers of its items in ascending order. */
  ghost predicate ListsStates(groups: seq<Group>, items: seq<Terminal>) {
    && |groups| == 7
    && (groups[0].state, groups[1].state, groups[2].state, groups[3].state, groups[4].state, groups[5].state, groups[6].state)
       == (Succeeded, ValidationFailed, PolicyRejected, BudgetExhausted, RetryExhausted, WriteBackFailed, Cancelled)
    && forall i :: 0 <= i < 7 ==> ListsItems(groups[i], items)
  }

  ghost predicate ListsItems(g: Group, items: seq<Terminal>) {
    && g.count == |g.ids| && (forall i, j :: 0 <= i < j < |g.ids| ==> LessText(g.ids[i], g.ids[j]))
    && forall id :: id in g.ids <==> exists t :: t in items && t.itemId == id && t.state == g.state
  }

  lemma GroupLists(g: Group, items: seq<Terminal>, state: TerminalState)
    requires Groups(g, items, state)
    ensures ListsItems(g, items)
  {
    forall i, j | 0 <= i < j < |g.ids| ensures LessText(g.ids[i], g.ids[j]) {
      assert TextLe(g.ids[i], g.ids[j]);
      LessTextIff(g.ids[i], g.ids[j]);
    }
  }

  predicate InDeclaredOrder(states: seq<TerminalState>) {
    states == [Succeeded, ValidationFailed, PolicyRejected, BudgetExhausted, RetryExhausted, WriteBackFailed, Cancelled]
  }

  lemma ListedStates(groups: seq<Group>, items: seq<Terminal>)
    requires |groups| == |STATES| && forall i :: 0 <= i < |STATES| ==> groups[i].state == STATES[i]
    requires forall i :: 0 <= i < |STATES| ==> ListsItems(groups[i], items)
    ensures ListsStates(groups, items)
  {
    assert InDeclaredOrder(STATES);
  }

  lemma GroupsList(groups: seq<Group>, items: seq<Terminal>)
    requires |groups| == |STATES| && forall i :: 0 <= i < |STATES| ==> Groups(groups[i], items, STATES[i])
    ensures ListsStates(groups, items)
  {
    forall i | 0 <= i < |STATES| ensures ListsItems(groups[i], items) { GroupLists(groups[i], items, STATES[i]); }
    ListedStates(groups, items);
  }

  lemma ReportHead(jobId: Id, items: seq<Terminal>, cause: Cause, at: Instant)
    ensures var r := BuildReport(jobId, items, cause, at);
            r.Ok? ==> (r.value.jobId, r.value.cause, r.value.at, r.value.total) == (jobId, cause, at, |items|)
  {}

  /** What a report says of its job, its cause and time, and the items of each state. */
  lemma ReportSays(jobId: Id, items: seq<Terminal>, cause: Cause, at: Instant, r: Result<Report, ReportError>)
    requires items != [] && Distinct(ItemIds(items)) && r == BuildReport(jobId, items, cause, at)
    requires forall i :: 0 <= i < |items| ==> items[i].jobId == jobId && !Blank(items[i].itemId)
    ensures r.Ok? && (r.value.jobId, r.value.cause, r.value.at, r.value.total) == (jobId, cause, at, |items|)
    ensures ListsStates(r.value.groups, items)
  {
    ReportHead(jobId, items, cause, at);
    ReportSucceeds(jobId, items, cause, at);
    GroupsList(r.value.groups, items);
  }

  /** No report is built of no items, of another job's items, or of one item twice, and each is told apart in this order. */
  lemma ReportRefused(jobId: Id, items: seq<Terminal>, cause: Cause, at: Instant)
    ensures var r, foreign := BuildReport(jobId, items, cause, at), (exists t :: t in items && t.jobId != jobId);
            && (r == Err(EmptyJob) <==> items == [])
            && (r == Err(ForeignItem) <==> foreign)
            && (r == Err(DuplicateItem) <==> items != [] && !foreign && !Distinct(ItemIds(items)))
  {
    if t :| t in items && t.jobId != jobId {
      var i :| 0 <= i < |items| && items[i] == t;
    }
  }
}
