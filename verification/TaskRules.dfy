/** What the task's own rules reject (tasks/validation.py). */
module TaskRules {
  import opened Prelude
  import opened Validation
  import opened Packing
  import opened TaskValidation
  import Sorting

  // ----- Words -----

  predicate White(c: char) {
    c == ' ' || c == '\t' || c == '\n' || c == '\r'
  }

  /** Where a word starts. */
  predicate StartsWord(s: string, i: int)
    requires 0 <= i < |s|
  {
    !White(s[i]) && (i == 0 || White(s[i - 1]))
  }

  /** The number of places from `i` on where a word starts. */
  function StartsFrom(s: string, i: nat): nat
    decreases |s| - i
  {
    if i >= |s| then 0 else StartsFrom(s, i + 1) + if StartsWord(s, i) then 1 else 0
  }

  lemma BlankOne(c: char)
    ensures Blank([c]) <==> White(c)
  {
    assert Blank([c]) ==> [c][0] in [c];
  }

  lemma {:induction false} WordsFromCounts(s: string, i: nat)
    requires i <= |s|
    ensures WordsFrom(s[i..], i > 0 && !White(s[i - 1])) == StartsFrom(s, i)
    decreases |s| - i
  {
    if i < |s| {
      BlankOne(s[i]);
      assert s[i..][1..] == s[i + 1..] && s[i..][0] == s[i];
      WordsFromCounts(s, i + 1);
    }
  }

  /** The word count is the number of places where a word starts. */
  lemma WordsAreStarts(s: string)
    ensures Words(s) == StartsFrom(s, 0)
  {
    WordsFromCounts(s, 0);
    assert s[0..] == s;
  }

  // ----- What is rejected -----

  /** The record breaks the task's rules. */
  predicate Breaks(kind: TaskKind, record: Record) {
    match kind
    case Classify(labels) => "label" in record && forall allowed :: allowed in labels ==> record["label"] != Str(allowed)
    case Summarize(maxWords, maxCharacters) =>
      && "summary" in record && record["summary"].Str?
      && (StartsFrom(record["summary"].text, 0) > maxWords || |record["summary"].text| > maxCharacters)
  }

  /** The task's rules can be applied to the record. */
  predicate Readable(kind: TaskKind, record: Record) {
    match kind
    case Classify(_) => "label" in record
    case Summarize(_, _) => "summary" in record && record["summary"].Str?
  }

  lemma OverMeans(record: Record, maxWords: int, maxCharacters: int)
    requires "summary" in record && record["summary"].Str?
    ensures SummaryOver(Words, maxWords)(record) == Ok(Words(record["summary"].text) > maxWords)
    ensures SummaryOver(Characters, maxCharacters)(record) == Ok(|record["summary"].text| > maxCharacters)
  {
    assert Characters(record["summary"].text) == |record["summary"].text|;
  }

  /** A record suits its task if and only if the rules can be applied to it and it does not break them. */
  lemma SuitsMeans(kind: TaskKind, record: Record)
    ensures Suits(kind, record) <==> Readable(kind, record) && !Breaks(kind, record)
  {
    match kind
    case Classify(labels) =>
      if Readable(kind, record) && record["label"].Str? { assert record["label"] == Str(record["label"].text); }
    case Summarize(maxWords, maxCharacters) =>
      if Readable(kind, record) {
        OverMeans(record, maxWords, maxCharacters);
        WordsAreStarts(record["summary"].text);
      }
  }

  /**
   * Output is accepted only if every record has a label among the invocation's, or a summary within its words and characters;
   * and output that corresponds, carries its row identifiers and can be read is accepted if and only if none breaks a rule.
   */
  lemma RulesDecide(task: Task, rules: Rules, pack: PackedRequest, output: seq<Record>)
    requires pack in task.packs
    ensures Accepts(ValidatePack(task, Some(rules), pack, output)) ==>
      forall i :: 0 <= i < |output| ==> Readable(task.kind, output[i]) && !Breaks(task.kind, output[i])
    ensures Corresponds(rules, pack.inputIds, output) && CarryRowIds(output, pack.inputIds)
            && (forall i :: 0 <= i < |output| ==> Readable(task.kind, output[i])) ==>
      (Accepts(ValidatePack(task, Some(rules), pack, output)) <==> forall i :: 0 <= i < |output| ==> !Breaks(task.kind, output[i]))
  {
    PackAcceptedExactly(task, rules, pack, output);
    forall i | 0 <= i < |output|
      ensures Suits(task.kind, output[i]) <==> Readable(task.kind, output[i]) && !Breaks(task.kind, output[i])
    {
      SuitsMeans(task.kind, output[i]);
    }
  }

  // ----- With which reasons -----

  predicate SomeWordy(maxWords: int, output: seq<Record>) {
    exists i :: 0 <= i < |output| && "summary" in output[i] && output[i]["summary"].Str?
                && StartsFrom(output[i]["summary"].text, 0) > maxWords
  }

  predicate SomeLong(maxCharacters: int, output: seq<Record>) {
    exists i :: 0 <= i < |output| && "summary" in output[i] && output[i]["summary"].Str?
                && |output[i]["summary"].text| > maxCharacters
  }

  lemma {:induction false} AnyBreaksIff(check: Check, records: seq<Record>)
    requires forall i :: 0 <= i < |records| ==> check(records[i]).Ok?
    ensures AnyBreaks(check, records).Ok?
    ensures AnyBreaks(check, records).value <==> exists i :: 0 <= i < |records| && check(records[i]).value
  {
    if records != [] {
      AnyBreaksIff(check, records[1..]);
      if i :| 0 <= i < |records[1..]| && check(records[1..][i]).value { assert check(records[i + 1]).value; }
      if i :| 1 <= i < |records| && check(records[i]).value { assert check(records[1..][i - 1]).value; }
    }
  }

  /** Each rule that some record breaks is reported, and no other. */
  lemma ReasonsOf(kind: TaskKind, records: seq<Record>)
    requires forall i :: 0 <= i < |records| ==> Readable(kind, records[i])
    ensures TaskFailures(kind, records).Ok?
    ensures var failures := TaskFailures(kind, records).value;
            match kind
            case Classify(_) => failures == if exists i :: 0 <= i < |records| && Breaks(kind, records[i]) then [LABEL_RULE] else []
            case Summarize(maxWords, maxCharacters) =>
              failures == (if SomeWordy(maxWords, records) then [WORD_RULE] else [])
                          + (if SomeLong(maxCharacters, records) then [CHARACTER_RULE] else [])
  {
    match kind
    case Classify(labels) =>
      AnyBreaksIff(LabelOutside(labels), records);
      assert forall i :: 0 <= i < |records| ==> (Breaks(kind, records[i]) <==> LabelOutside(labels)(records[i]).value);
    case Summarize(maxWords, maxCharacters) =>
      forall i | 0 <= i < |records|
        ensures SummaryOver(Words, maxWords)(records[i]) == Ok(StartsFrom(records[i]["summary"].text, 0) > maxWords)
        ensures SummaryOver(Characters, maxCharacters)(records[i]) == Ok(|records[i]["summary"].text| > maxCharacters)
      {
        assert Readable(kind, records[i]);
        OverMeans(records[i], maxWords, maxCharacters);
        WordsAreStarts(records[i]["summary"].text);
      }
      AnyBreaksIff(SummaryOver(Words, maxWords), records);
      AnyBreaksIff(SummaryOver(Characters, maxCharacters), records);
  }

  // ----- What a whole output is told -----

  lemma DedupeMember<T(!new)>(s: seq<T>, x: T)
    ensures x in Dedupe(s) <==> x in s
  {
    if x in s {
      var i :| 0 <= i < |s| && s[i] == x;
    }
  }

  /** The combined outcome names, once, exactly the failed rules and reasons of the packs, and carries records only if all passed. */
  lemma CombinedReports(results: seq<ValidationResult>, rule: string, reason: string)
    ensures var r := Combine(results);
            && (rule in r.failedRules <==> exists i :: 0 <= i < |results| && rule in results[i].failedRules)
            && (reason in r.reasons <==> exists i :: 0 <= i < |results| && reason in results[i].reasons)
            && Distinct(r.failedRules) && Distinct(r.reasons)
            && (r.accepted <==> forall i :: 0 <= i < |results| ==> results[i].accepted)
            && (!r.accepted ==> r.records == [])
  {
    var rules, reasons := Map((r: ValidationResult) => r.failedRules, results), Map((r: ValidationResult) => r.reasons, results);
    FlattenMember(rules, rule);
    FlattenMember(reasons, reason);
    DedupeMember(Flatten(rules), rule);
    DedupeMember(Flatten(reasons), reason);
  }

  lemma FinishRejects(kind: TaskKind, records: seq<Record>, ids: seq<Id>, failures: seq<Failure>)
    requires TaskFailures(kind, records) == Ok(failures) && failures != []
    ensures FinishPack(kind, records, ids) == Ok(Rejected(failures))
  {}

  lemma LabelRejected(kind: TaskKind, records: seq<Record>, ids: seq<Id>, i: nat)
    requires kind.Classify? && (forall i :: 0 <= i < |records| ==> Readable(kind, records[i]))
    requires i < |records| && Breaks(kind, records[i])
    ensures FinishPack(kind, records, ids)
         == Ok(ValidationResult(false, ["task_output.classify.label.membership"], ["label_not_allowed"], []))
  {
    ReasonsOf(kind, records);
    FinishRejects(kind, records, ids, [LABEL_RULE]);
    assert Map((f: Failure) => f.rule, [LABEL_RULE]) == ["task_output.classify.label.membership"];
    assert Map((f: Failure) => f.reason, [LABEL_RULE]) == ["label_not_allowed"];
    DedupeOne("task_output.classify.label.membership");
    DedupeOne("label_not_allowed");
  }

  /** Which of the two summary rules the result names. */
  predicate NamesSummaryRules(r: ValidationResult, wordy: bool, long: bool) {
    && ("summary_word_limit_exceeded" in r.reasons <==> wordy)
    && ("summary_character_limit_exceeded" in r.reasons <==> long)
    && ("task_output.summarize.summary.word_limit" in r.failedRules <==> wordy)
    && ("task_output.summarize.summary.character_limit" in r.failedRules <==> long)
  }

  lemma SummaryRejected(kind: TaskKind, records: seq<Record>, ids: seq<Id>, i: nat)
    requires kind.Summarize? && (forall i :: 0 <= i < |records| ==> Readable(kind, records[i]))
    requires i < |records| && Breaks(kind, records[i])
    ensures var r := FinishPack(kind, records, ids);
            && r.Ok? && !r.value.accepted && r.value.records == []
            && NamesSummaryRules(r.value, SomeWordy(kind.maxWords, records), SomeLong(kind.maxCharacters, records))
  {
    ReasonsOf(kind, records);
    var failures := TaskFailures(kind, records).value;
    assert SomeWordy(kind.maxWords, records) || SomeLong(kind.maxCharacters, records);
    FinishRejects(kind, records, ids, failures);
    NotedReasons(SomeWordy(kind.maxWords, records), SomeLong(kind.maxCharacters, records), failures);
  }

  /** Output that corresponds but breaks a rule of the task is told which, with the reason, and releases nothing. */
  lemma RejectionSays(task: Task, rules: Rules, pack: PackedRequest, output: seq<Record>, i: nat)
    requires pack in task.packs && Corresponds(rules, pack.inputIds, output)
    requires forall i :: 0 <= i < |output| ==> Readable(task.kind, output[i])
    requires i < |output| && Breaks(task.kind, output[i])
    ensures var r := ValidatePack(task, Some(rules), pack, output);
            && r.Ok? && !r.value.accepted && r.value.records == []
            && match task.kind
               case Classify(_) =>
                 r.value.failedRules == ["task_output.classify.label.membership"] && r.value.reasons == ["label_not_allowed"]
               case Summarize(maxWords, maxCharacters) =>
                 NamesSummaryRules(r.value, SomeWordy(maxWords, output), SomeLong(maxCharacters, output))
  {
    ValidatePackForm(task, rules, pack, output);
    if task.kind.Classify? {
      LabelRejected(task.kind, output, pack.inputIds, i);
    } else {
      SummaryRejected(task.kind, output, pack.inputIds, i);
    }
  }

  lemma DedupeOne(x: string)
    ensures Dedupe([x]) == [x]
  {
    assert [x][..0] == [];
    assert Dedupe([x]) == Dedupe([x][..0]) + [x];
  }

  lemma NotedReasons(wordy: bool, long: bool, failures: seq<Failure>)
    requires failures == (if wordy then [WORD_RULE] else []) + (if long then [CHARACTER_RULE] else [])
    ensures "summary_word_limit_exceeded" in ReasonCodes(failures) <==> wordy
    ensures "summary_character_limit_exceeded" in ReasonCodes(failures) <==> long
    ensures "task_output.summarize.summary.word_limit" in FailedRules(failures) <==> wordy
    ensures "task_output.summarize.summary.character_limit" in FailedRules(failures) <==> long
  {
    var reasons, ruleIds := Map((f: Failure) => f.reason, failures), Map((f: Failure) => f.rule, failures);
    assert "summary_word_limit_exceeded"[8] == 'w' && "summary_character_limit_exceeded"[8] == 'c';
    assert |"task_output.summarize.summary.word_limit"| != |"task_output.summarize.summary.character_limit"|;
    DedupeMember(reasons, "summary_word_limit_exceeded");
    DedupeMember(reasons, "summary_character_limit_exceeded");
    DedupeMember(ruleIds, "task_output.summarize.summary.word_limit");
    DedupeMember(ruleIds, "task_output.summarize.summary.character_limit");
    if wordy { assert failures[0] == WORD_RULE && reasons[0] == "summary_word_limit_exceeded"; }
    if long {
      assert failures[|failures| - 1] == CHARACTER_RULE;
      assert reasons[|reasons| - 1] in reasons && ruleIds[|ruleIds| - 1] in ruleIds;
    }
  }

  // ----- Outputs of other packs -----

  /** Outputs that do not bring every pack index once are refused. */
  lemma WrongIndexesRefused(task: Task, rules: Option<Rules>, outputs: seq<Output>)
    requires multiset(Indexes(outputs)) != multiset(seq(|task.packs|, (i: nat) => i))
    ensures ValidatePacks(task, rules, outputs) == Err(WrongPacks)
  {
    var ordered := Sorting.Sort(ByIndex, outputs);
    var index := (o: Output) => o.0.index;
    assert Indexes(outputs) == Map(index, outputs) && Indexes(ordered) == Map(index, ordered);
    MapPermutation(index, outputs, ordered);
  }

  /** The `j`-th output is for its pack, and validating it does not raise. */
  predicate AnsweredAt(task: Task, rules: Option<Rules>, packs: seq<PackedRequest>, outputs: seq<Output>, j: nat)
    requires j < |packs| && j < |outputs|
  {
    Answered(task, rules, packs[j], outputs[j])
  }

  lemma RestAnswered(task: Task, rules: Option<Rules>, packs: seq<PackedRequest>, outputs: seq<Output>, j: nat)
    requires |packs| == |outputs| && j + 1 < |packs| && AnsweredAt(task, rules, packs, outputs, j + 1)
    ensures AnsweredAt(task, rules, packs[1..], outputs[1..], j)
  {}

  lemma FirstForeign(task: Task, rules: Option<Rules>, packs: seq<PackedRequest>, outputs: seq<Output>)
    requires |packs| == |outputs| && packs != [] && outputs[0].0 != packs[0]
    ensures ValidateEach(task, rules, packs, outputs) == Err(WrongPacks)
  {}

  lemma FirstAnswered(task: Task, rules: Option<Rules>, packs: seq<PackedRequest>, outputs: seq<Output>)
    requires |packs| == |outputs| && packs != [] && AnsweredAt(task, rules, packs, outputs, 0)
    requires ValidateEach(task, rules, packs[1..], outputs[1..]) == Err(WrongPacks)
    ensures ValidateEach(task, rules, packs, outputs) == Err(WrongPacks)
  {}

  /** An output for a pack that is not the prepared one is refused, unless an earlier pack's output raises first. */
  lemma {:induction false} ForeignOutputRaises(task: Task, rules: Option<Rules>, packs: seq<PackedRequest>, outputs: seq<Output>, i: nat)
    requires |packs| == |outputs| && i < |packs| && outputs[i].0 != packs[i]
    requires forall j :: 0 <= j < i ==> AnsweredAt(task, rules, packs, outputs, j)
    ensures ValidateEach(task, rules, packs, outputs) == Err(WrongPacks)
    decreases i
  {
    if i == 0 {
      FirstForeign(task, rules, packs, outputs);
    } else {
      forall j | 0 <= j < i - 1 ensures AnsweredAt(task, rules, packs[1..], outputs[1..], j) {
        RestAnswered(task, rules, packs, outputs, j);
      }
      ForeignOutputRaises(task, rules, packs[1..], outputs[1..], i - 1);
      FirstAnswered(task, rules, packs, outputs);
    }
  }
}
