/** Task-specific validation that restores row order (tasks/validation.py, composition/prototype.py). */
module TaskValidation {
  import opened Prelude
  import opened Validation
  import opened Packing
  import Sorting

  datatype TaskKind = Classify(labels: set<string>) | Summarize(maxWords: int, maxCharacters: int)

  /** What validation reads of a prepared task. */
  datatype Task = Task(kind: TaskKind, packs: seq<PackedRequest>)

  /** What Python raises instead of returning a result. */
  datatype Crash = MissingField(field: string) | NotText | UnknownIdentifier(id: Id) | ForeignPack | WrongPacks

  type Output = (PackedRequest, seq<Record>)

  // ----- Task rules -----

  function WordsFrom(s: string, inWord: bool): nat {
    if s == [] then 0
    else if Blank([s[0]]) then WordsFrom(s[1..], false)
    else (if inWord then 0 else 1) + WordsFrom(s[1..], true)
  }

  /** `len(text.split())`. */
  function Words(s: string): nat { WordsFrom(s, false) }

  function Characters(s: string): nat { |s| }

  /** Whether one record breaks a task rule, or crashes the check. */
  type Check = Record -> Result<bool, Crash>

  function LabelOutside(labels: set<string>): Check {
    (r: Record) =>
      if "label" !in r then Err(MissingField("label"))
      else Ok(!(r["label"].Str? && r["label"].text in labels))
  }

  function SummaryOver(measure: string -> nat, limit: int): Check {
    (r: Record) =>
      if "summary" !in r then Err(MissingField("summary"))
      else if !r["summary"].Str? then Err(NotText)
      else Ok(measure(r["summary"].text) > limit)
  }

  /** Python's `any`: stops at the first record that breaks the rule. */
  function AnyBreaks(check: Check, records: seq<Record>): Result<bool, Crash> {
    if records == [] then Ok(false)
    else
      var first := check(records[0]);
      if first.Err? || first.value then first else AnyBreaks(check, records[1..])
  }

  const LABEL_RULE := Failure("task_output.classify.label.membership", "label_not_allowed")
  const WORD_RULE := Failure("task_output.summarize.summary.word_limit", "summary_word_limit_exceeded")
  const CHARACTER_RULE := Failure("task_output.summarize.summary.character_limit", "summary_character_limit_exceeded")

  /** `_task_failures`. */
  function TaskFailures(kind: TaskKind, records: seq<Record>): Result<seq<Failure>, Crash> {
    match kind
    case Classify(labels) =>
      var outside := AnyBreaks(LabelOutside(labels), records);
      if outside.Err? then Err(outside.error) else Ok(if outside.value then [LABEL_RULE] else [])
    case Summarize(maxWords, maxCharacters) =>
      var wordy := AnyBreaks(SummaryOver(Words, maxWords), records);
      if wordy.Err? then Err(wordy.error)
      else
        var long := AnyBreaks(SummaryOver(Characters, maxCharacters), records);
        if long.Err? then Err(long.error)
        else Ok((if wordy.value then [WORD_RULE] else []) + (if long.value then [CHARACTER_RULE] else []))
  }

  /** Every record passes the task's own rules. */
  predicate Suits(kind: TaskKind, record: Record) {
    match kind
    case Classify(labels) => LabelOutside(labels)(record) == Ok(false)
    case Summarize(maxWords, maxCharacters) =>
      && SummaryOver(Words, maxWords)(record) == Ok(false)
      && SummaryOver(Characters, maxCharacters)(record) == Ok(false)
  }

  lemma {:induction false} NoneBreaksIff(check: Check, records: seq<Record>)
    ensures AnyBreaks(check, records) == Ok(false) <==> forall i :: 0 <= i < |records| ==> check(records[i]) == Ok(false)
  {
    if records != [] {
      NoneBreaksIff(check, records[1..]);
      assert forall i :: 1 <= i < |records| ==> records[i] == records[1..][i - 1];
      assert forall i :: 0 <= i < |records| - 1 ==> records[1..][i] == records[i + 1];
    }
  }

  lemma SuitsIff(kind: TaskKind, records: seq<Record>)
    ensures TaskFailures(kind, records) == Ok([]) <==> forall i :: 0 <= i < |records| ==> Suits(kind, records[i])
  {
    match kind
    case Classify(labels) => NoneBreaksIff(LabelOutside(labels), records);
    case Summarize(maxWords, maxCharacters) =>
      NoneBreaksIff(SummaryOver(Words, maxWords), records);
      NoneBreaksIff(SummaryOver(Characters, maxCharacters), records);
      var wordy, long := AnyBreaks(SummaryOver(Words, maxWords), records), AnyBreaks(SummaryOver(Characters, maxCharacters), records);
      if wordy.Ok? && long.Ok? {
        var a, b := if wordy.value then [WORD_RULE] else [], if long.value then [CHARACTER_RULE] else [];
        assert |a + b| == |a| + |b|;
      }
  }

  // ----- Restoring row order -----

  predicate Named(record: Record, id: Id) {
    "id" in record && record["id"] == Str(id)
  }

  /** Looks an identifier up in `{record["id"]: record for record in records}`: the last one wins. */
  function Lookup(records: seq<Record>, id: Id): (r: Option<Record>)
    ensures r.Some? ==> r.value in records && Named(r.value, id)
    ensures r.None? ==> forall i :: 0 <= i < |records| ==> !Named(records[i], id)
  {
    if records == [] then None
    else
      var last := records[|records| - 1];
      if Named(last, id) then Some(last) else Lookup(records[..|records| - 1], id)
  }

  function Collect(records: seq<Record>, ids: seq<Id>): Result<seq<Record>, Crash> {
    if ids == [] then Ok([])
    else
      var first := Lookup(records, ids[0]);
      if first.None? then Err(UnknownIdentifier(ids[0]))
      else
        var rest := Collect(records, ids[1..]);
        if rest.Err? then rest else Ok([first.value] + rest.value)
  }

  /** `_order_records`. */
  function OrderRecords(records: seq<Record>, ids: seq<Id>): Result<seq<Record>, Crash> {
    if exists i :: 0 <= i < |records| && "id" !in records[i] then Err(MissingField("id")) else Collect(records, ids)
  }

  lemma {:induction false} CollectOk(records: seq<Record>, ids: seq<Id>)
    ensures var r := Collect(records, ids);
            && (r.Ok? <==> forall k :: 0 <= k < |ids| ==> Lookup(records, ids[k]).Some?)
            && (r.Ok? ==> |r.value| == |ids| && forall k :: 0 <= k < |ids| ==> Lookup(records, ids[k]) == Some(r.value[k]))
  {
    if ids != [] {
      CollectOk(records, ids[1..]);
      assert forall k :: 1 <= k < |ids| ==> ids[k] == ids[1..][k - 1];
      assert forall k :: 0 <= k < |ids| - 1 ==> ids[1..][k] == ids[k + 1];
    }
  }

  // ----- One pack -----

  function Rejected(failures: seq<Failure>): ValidationResult {
    ValidationResult(false, FailedRules(failures), ReasonCodes(failures), [])
  }

  /** The task's own part of `validate`, after the records were found to correspond. */
  function FinishPack(kind: TaskKind, records: seq<Record>, ids: seq<Id>): Result<ValidationResult, Crash> {
    var failures := TaskFailures(kind, records);
    if failures.Err? then Err(failures.error)
    else if failures.value != [] then Ok(Rejected(failures.value))
    else
      var ordered := OrderRecords(records, ids);
      if ordered.Err? then Err(ordered.error) else Ok(ValidationResult(true, [], [], ordered.value))
  }

  /** `TaskOutputValidator.validate`. */
  function ValidatePack(task: Task, rules: Option<Rules>, pack: PackedRequest, output: seq<Record>): Result<ValidationResult, Crash> {
    if pack !in task.packs then Err(ForeignPack)
    else
      var base := Validate(rules, pack.inputIds, output);
      if !base.accepted then Ok(base) else FinishPack(task.kind, base.records, pack.inputIds)
  }

  predicate Accepts(r: Result<ValidationResult, Crash>) {
    r.Ok? && r.value.accepted
  }

  /** The rules name records by a text field called `id`. */
  predicate TextIds(rules: Rules) {
    rules.identifierField == "id" &&
    exists i :: 0 <= i < |rules.fieldRules| && rules.fieldRules[i].field == "id" && rules.fieldRules[i].valueType == StringField
  }

  lemma CleanIsNamed(rules: Rules, record: Record)
    requires TextIds(rules) && CleanRecord(rules, record)
    ensures Named(record, IdText(rules, record))
  {
    var i :| 0 <= i < |rules.fieldRules| && rules.fieldRules[i].field == "id" && rules.fieldRules[i].valueType == StringField;
    assert RuleHolds(rules.fieldRules[i], record);
  }

  /** Every record's identifier is text. */
  predicate AllNamed(rules: Rules, output: seq<Record>) {
    forall i :: 0 <= i < |output| ==> Named(output[i], IdText(rules, output[i]))
  }

  lemma TextIdsNamed(rules: Rules, ids: seq<Id>, output: seq<Record>)
    requires TextIds(rules) && Corresponds(rules, ids, output)
    ensures AllNamed(rules, output)
  {
    forall i | 0 <= i < |output| ensures Named(output[i], IdText(rules, output[i])) {
      CleanIsNamed(rules, output[i]);
    }
  }

  /** Corresponding text-named output has exactly one record under each input identifier. */
  lemma LookupFinds(rules: Rules, ids: seq<Id>, output: seq<Record>, i: nat)
    requires AllNamed(rules, output) && Corresponds(rules, ids, output) && i < |output|
    ensures Lookup(output, IdText(rules, output[i])) == Some(output[i])
  {
    var found := Lookup(output, IdText(rules, output[i]));
    assert Named(output[i], IdText(rules, output[i]));
    var j :| 0 <= j < |output| && output[j] == found.value;
    assert Named(output[j], IdText(rules, output[j]));
    assert IdText(rules, output[i]) == IdText(rules, output[j]);
    assert i == j;
  }

  /** Corresponding text-named output is put in the order of the input identifiers. */
  lemma NamedOrderSucceeds(rules: Rules, ids: seq<Id>, output: seq<Record>)
    requires AllNamed(rules, output) && Corresponds(rules, ids, output)
    ensures OrderRecords(output, ids).Ok? && |OrderRecords(output, ids).value| == |ids|
    ensures forall k :: 0 <= k < |ids| ==> Named(OrderRecords(output, ids).value[k], ids[k])
    ensures forall k :: 0 <= k < |ids| ==> Lookup(output, ids[k]) == Some(OrderRecords(output, ids).value[k])
  {
    forall i | 0 <= i < |output| ensures "id" in output[i] {
      assert Named(output[i], IdText(rules, output[i]));
    }
    forall k | 0 <= k < |ids| ensures Lookup(output, ids[k]).Some? {
      assert ids[k] in ids;
      var i :| 0 <= i < |output| && IdText(rules, output[i]) == ids[k];
      LookupFinds(rules, ids, output, i);
    }
    CollectOk(output, ids);
  }

  lemma OrderSucceeds(rules: Rules, ids: seq<Id>, output: seq<Record>)
    requires TextIds(rules) && Corresponds(rules, ids, output)
    ensures AllNamed(rules, output)
    ensures OrderRecords(output, ids).Ok? && |OrderRecords(output, ids).value| == |ids|
    ensures forall k :: 0 <= k < |ids| ==> Named(OrderRecords(output, ids).value[k], ids[k])
    ensures forall k :: 0 <= k < |ids| ==> Lookup(output, ids[k]) == Some(OrderRecords(output, ids).value[k])
  {
    TextIdsNamed(rules, ids, output);
    NamedOrderSucceeds(rules, ids, output);
  }

  /** As many elements, all of the distinct ones among them: the same elements. */
  lemma {:induction false} SamePool<T>(a: seq<T>, b: seq<T>)
    requires Distinct(a) && |a| == |b| && forall i :: 0 <= i < |a| ==> a[i] in b
    ensures multiset(a) == multiset(b)
  {
    if a != [] {
      assert a[0] in b;
      var j :| 0 <= j < |b| && b[j] == a[0];
      forall i | 0 <= i < |Without(a, 0)| ensures Without(a, 0)[i] in Without(b, j) {
        assert a[i + 1] in b;
        var m :| 0 <= m < |b| && b[m] == a[i + 1];
        assert m != j;
        assert Without(b, j)[if m < j then m else m - 1] == a[i + 1];
      }
      SamePool(Without(a, 0), Without(b, j));
    }
  }

  /** The `id` fields of the records, `None` where there is none. */
  function IdFields(records: seq<Record>): (r: seq<Option<Value>>)
    ensures |r| == |records|
    ensures forall i :: 0 <= i < |r| ==> r[i] == if "id" in records[i] then Some(records[i]["id"]) else None
  {
    Map((record: Record) => if "id" in record then Some(record["id"]) else None, records)
  }

  function Texts(ids: seq<Id>): (r: seq<Option<Value>>)
    ensures |r| == |ids| && forall i :: 0 <= i < |r| ==> r[i] == Some(Str(ids[i]))
  {
    Map((id: Id) => Some(Str(id)), ids)
  }

  /** The `id` fields are the row identifiers, as text, in some order. */
  predicate CarryRowIds(records: seq<Record>, ids: seq<Id>) {
    multiset(IdFields(records)) == multiset(Texts(ids))
  }

  lemma FoundIsCarried(records: seq<Record>, ids: seq<Id>, k: nat)
    requires k < |ids|
    ensures Lookup(records, ids[k]).Some? <==> Texts(ids)[k] in IdFields(records)
  {
    var found := Lookup(records, ids[k]);
    if found.Some? {
      var i :| 0 <= i < |records| && records[i] == found.value;
      assert IdFields(records)[i] == Some(Str(ids[k]));
    }
    if Texts(ids)[k] in IdFields(records) {
      var i :| 0 <= i < |records| && IdFields(records)[i] == Texts(ids)[k];
      assert Named(records[i], ids[k]);
    }
  }

  lemma DistinctTexts(ids: seq<Id>)
    requires Distinct(ids)
    ensures Distinct(Texts(ids))
  {}

  lemma AllCarryAnId(records: seq<Record>, ids: seq<Id>)
    requires CarryRowIds(records, ids)
    ensures forall i :: 0 <= i < |records| ==> "id" in records[i]
  {
    Sorting.SameElements(IdFields(records), Texts(ids));
    forall i | 0 <= i < |records| ensures "id" in records[i] {
      assert IdFields(records)[i] in Texts(ids);
    }
  }

  /**
   * Output with one record for each of the distinct row identifiers can be put in row order exactly when its `id` fields
   * are those identifiers, as text.
   */
  lemma OrderSucceedsIff(ids: seq<Id>, records: seq<Record>)
    requires Distinct(ids) && |records| == |ids|
    ensures OrderRecords(records, ids).Ok? <==> CarryRowIds(records, ids)
  {
    CollectOk(records, ids);
    forall k | 0 <= k < |ids| ensures Lookup(records, ids[k]).Some? <==> Texts(ids)[k] in IdFields(records) {
      FoundIsCarried(records, ids, k);
    }
    if OrderRecords(records, ids).Ok? {
      DistinctTexts(ids);
      SamePool(Texts(ids), IdFields(records));
    }
    if CarryRowIds(records, ids) {
      AllCarryAnId(records, ids);
      Sorting.SameElements(IdFields(records), Texts(ids));
      forall k | 0 <= k < |ids| ensures Texts(ids)[k] in IdFields(records) {
        assert Texts(ids)[k] in Texts(ids);
      }
    }
  }

  lemma OrderFailsWith(records: seq<Record>, ids: seq<Id>)
    requires OrderRecords(records, ids).Err?
    ensures OrderRecords(records, ids) == Err(MissingField("id")) || OrderRecords(records, ids).error.UnknownIdentifier?
  {
    CollectFailsWith(records, ids);
  }

  lemma {:induction false} CollectFailsWith(records: seq<Record>, ids: seq<Id>)
    ensures Collect(records, ids).Err? ==> Collect(records, ids).error.UnknownIdentifier?
  {
    if ids != [] { CollectFailsWith(records, ids[1..]); }
  }

  lemma CorrespondingIdsDistinct(rules: Rules, ids: seq<Id>, output: seq<Record>)
    requires Corresponds(rules, ids, output)
    ensures Distinct(ids) && |output| == |ids|
  {
    var texts := Map(r => IdText(rules, r), output);
    forall i | 0 <= i < |texts| ensures texts[i] in ids {
      assert IdText(rules, output[i]) in ids;
    }
    SamePool(texts, ids);
    DistinctUnderPermutation(texts, ids);
  }

  /** The record under an identifier does not depend on the order of the records. */
  lemma LookupUnderPermutation(rules: Rules, ids: seq<Id>, a: seq<Record>, b: seq<Record>, id: Id)
    requires TextIds(rules) && Corresponds(rules, ids, a) && multiset(a) == multiset(b) && id in ids
    ensures Lookup(b, id) == Lookup(a, id)
  {
    var i :| 0 <= i < |a| && IdText(rules, a[i]) == id;
    CorrespondsUnderPermutation(rules, ids, a, b);
    TextIdsNamed(rules, ids, a);
    TextIdsNamed(rules, ids, b);
    LookupFinds(rules, ids, a, i);
    Sorting.SameElements(a, b);
    assert a[i] in b;
    var j :| 0 <= j < |b| && b[j] == a[i];
    LookupFinds(rules, ids, b, j);
  }

  predicate AllSuit(kind: TaskKind, records: seq<Record>) {
    forall i :: 0 <= i < |records| ==> Suits(kind, records[i])
  }

  lemma FinishIff(kind: TaskKind, records: seq<Record>, ids: seq<Id>)
    requires OrderRecords(records, ids).Ok?
    ensures Accepts(FinishPack(kind, records, ids)) <==> AllSuit(kind, records)
    ensures AllSuit(kind, records) ==>
      FinishPack(kind, records, ids) == Ok(ValidationResult(true, [], [], OrderRecords(records, ids).value))
  {
    SuitsIff(kind, records);
  }

  lemma RejectedWithholds(task: Task, rules: Option<Rules>, pack: PackedRequest, output: seq<Record>)
    requires var r := ValidatePack(task, rules, pack, output); r.Ok? && !r.value.accepted
    ensures ValidatePack(task, rules, pack, output).value.records == []
  {}

  /** The task's own part of `validate`, exactly. */
  lemma FinishExactly(kind: TaskKind, records: seq<Record>, ids: seq<Id>)
    requires Distinct(ids) && |records| == |ids|
    ensures var r := FinishPack(kind, records, ids);
            && (Accepts(r) <==> AllSuit(kind, records) && CarryRowIds(records, ids))
            && (AllSuit(kind, records) && !CarryRowIds(records, ids) ==>
                  r == Err(MissingField("id")) || (r.Err? && r.error.UnknownIdentifier?))
  {
    OrderSucceedsIff(ids, records);
    SuitsIff(kind, records);
    if OrderRecords(records, ids).Err? { OrderFailsWith(records, ids); }
  }

  /** Whether corresponding output goes on to the task's rules, and what else becomes of it. */
  lemma ValidatePackForm(task: Task, rules: Rules, pack: PackedRequest, output: seq<Record>)
    requires pack in task.packs
    ensures Corresponds(rules, pack.inputIds, output) ==>
      ValidatePack(task, Some(rules), pack, output) == FinishPack(task.kind, output, pack.inputIds)
    ensures !Corresponds(rules, pack.inputIds, output) ==> !Accepts(ValidatePack(task, Some(rules), pack, output))
  {
    AcceptedIff(rules, pack.inputIds, output);
  }

  /**
   * Whatever the rules: one pack's output is accepted exactly when it corresponds to the rows, suits the task, and its
   * `id` fields are the row identifiers as text. Correspondence reads the identifier field the rules name and compares
   * text, the row order looks values up under `id`: where they differ the call raises. Rejected output releases nothing.
   */
  lemma PackAcceptedExactly(task: Task, rules: Rules, pack: PackedRequest, output: seq<Record>)
    requires pack in task.packs
    ensures var r, ids := ValidatePack(task, Some(rules), pack, output), pack.inputIds;
            && (Accepts(r) <==> Corresponds(rules, ids, output) && AllSuit(task.kind, output) && CarryRowIds(output, ids))
            && (Corresponds(rules, ids, output) && AllSuit(task.kind, output) && !CarryRowIds(output, ids) ==>
                  r == Err(MissingField("id")) || (r.Err? && r.error.UnknownIdentifier?))
            && (r.Ok? && !r.value.accepted ==> r.value.records == [])
  {
    ValidatePackForm(task, rules, pack, output);
    if Corresponds(rules, pack.inputIds, output) {
      CorrespondingIdsDistinct(rules, pack.inputIds, output);
      FinishExactly(task.kind, output, pack.inputIds);
    }
    var r := ValidatePack(task, Some(rules), pack, output);
    if r.Ok? && !r.value.accepted { RejectedWithholds(task, Some(rules), pack, output); }
  }

  lemma TextsAreCarried(rules: Rules, ids: seq<Id>, output: seq<Record>)
    requires rules.identifierField == "id" && Corresponds(rules, ids, output)
    ensures CarryRowIds(output, ids) <==> forall i :: 0 <= i < |output| ==> output[i]["id"].Str?
  {
    CorrespondingIdsDistinct(rules, ids, output);
    if forall i :: 0 <= i < |output| ==> output[i]["id"].Str? {
      NamedOrderSucceeds(rules, ids, output);
      OrderSucceedsIff(ids, output);
    } else if CarryRowIds(output, ids) {
      Sorting.SameElements(IdFields(output), Texts(ids));
      forall i | 0 <= i < |output| ensures output[i]["id"].Str? {
        assert IdFields(output)[i] in Texts(ids);
      }
    }
  }

  /** With the identifier field called `id`, corresponding output that suits the task is accepted exactly when its identifiers are text. */
  lemma AcceptedIffText(task: Task, rules: Rules, pack: PackedRequest, output: seq<Record>)
    requires pack in task.packs && rules.identifierField == "id"
    requires Corresponds(rules, pack.inputIds, output) && AllSuit(task.kind, output)
    ensures Accepts(ValidatePack(task, Some(rules), pack, output)) <==> forall i :: 0 <= i < |output| ==> output[i]["id"].Str?
  {
    PackAcceptedExactly(task, rules, pack, output);
    TextsAreCarried(rules, pack.inputIds, output);
  }

  /** A single record, under rules that only name the identifier field. */
  lemma OneCorresponds(rules: Rules, ids: seq<Id>, output: seq<Record>)
    requires |output| == 1 && rules.fieldRules == [] && rules.allowAdditional && Identified(rules, output[0])
    requires ids == [IdText(rules, output[0])]
    ensures Corresponds(rules, ids, output)
  {
    assert ids[0] in ids;
  }

  lemma OneUnknown(record: Record, id: Id)
    requires "id" in record && record["id"] != Str(id)
    ensures OrderRecords([record], [id]) == Err(UnknownIdentifier(id))
  {
    assert Lookup([record], id).None?;
  }

  lemma OneMissing(record: Record, ids: seq<Id>)
    requires "id" !in record
    ensures OrderRecords([record], ids) == Err(MissingField("id"))
  {
    assert "id" !in [record][0];
  }

  /** Such a record with a permitted label gets as far as the row order. */
  lemma OneReachesOrder(task: Task, rules: Rules, pack: PackedRequest, record: Record, allowed: string)
    requires pack in task.packs && task.kind == Classify({allowed}) && rules.fieldRules == [] && rules.allowAdditional
    requires Identified(rules, record) && pack.inputIds == [IdText(rules, record)]
    requires "label" in record && record["label"] == Str(allowed) && OrderRecords([record], pack.inputIds).Err?
    ensures Corresponds(rules, pack.inputIds, [record]) && AllSuit(task.kind, [record])
    ensures ValidatePack(task, Some(rules), pack, [record]) == Err(OrderRecords([record], pack.inputIds).error)
  {
    OneCorresponds(rules, pack.inputIds, [record]);
    ValidatePackForm(task, rules, pack, [record]);
    assert Suits(task.kind, [record][0]);
    SuitsIff(task.kind, [record]);
  }

  /** A permitted label on a record whose identifier is the number 7: it passes every rule for the row "7", and the call raises. */
  lemma NumericIdentifierCrashes(task: Task, rules: Rules, pack: PackedRequest, record: Record, allowed: string)
    requires pack in task.packs && pack.inputIds == ["7"] && task.kind == Classify({allowed})
    requires rules.identifierField == "id" && rules.fieldRules == [] && rules.allowAdditional
    requires record == map["id" := Int(7), "label" := Str(allowed)]
    ensures Corresponds(rules, pack.inputIds, [record]) && AllSuit(task.kind, [record])
    ensures ValidatePack(task, Some(rules), pack, [record]) == Err(UnknownIdentifier("7"))
  {
    assert IdText(rules, record) == "7";
    OneUnknown(record, "7");
    OneReachesOrder(task, rules, pack, record, allowed);
  }

  /** So does a record that carries its identifier under the field the rules name, when that is not `id`. */
  lemma OtherIdentifierFieldCrashes(task: Task, rules: Rules, pack: PackedRequest, record: Record, allowed: string)
    requires pack in task.packs && pack.inputIds == ["7"] && task.kind == Classify({allowed})
    requires rules.identifierField == "key" && rules.fieldRules == [] && rules.allowAdditional
    requires record == map["key" := Str("7"), "label" := Str(allowed)]
    ensures Corresponds(rules, pack.inputIds, [record]) && AllSuit(task.kind, [record])
    ensures ValidatePack(task, Some(rules), pack, [record]) == Err(MissingField("id"))
  {
    assert IdText(rules, record) == "7";
    OneMissing(record, pack.inputIds);
    OneReachesOrder(task, rules, pack, record, allowed);
  }

  /** With text identifiers, one pack's output is accepted exactly when it corresponds to the rows and suits the task. */
  lemma PackAcceptedIff(task: Task, rules: Rules, pack: PackedRequest, output: seq<Record>)
    requires TextIds(rules) && pack in task.packs
    ensures Accepts(ValidatePack(task, Some(rules), pack, output)) <==>
      Corresponds(rules, pack.inputIds, output) && AllSuit(task.kind, output)
    ensures Accepts(ValidatePack(task, Some(rules), pack, output)) ==>
      && OrderRecords(output, pack.inputIds).Ok?
      && ValidatePack(task, Some(rules), pack, output)
         == Ok(ValidationResult(true, [], [], OrderRecords(output, pack.inputIds).value))
  {
    AcceptedIff(rules, pack.inputIds, output);
    if Corresponds(rules, pack.inputIds, output) {
      OrderSucceeds(rules, pack.inputIds, output);
      FinishIff(task.kind, output, pack.inputIds);
    }
  }

  /** Accepted records are the output records, in row order, one for each row. */
  lemma AcceptedInRowOrder(task: Task, rules: Rules, pack: PackedRequest, output: seq<Record>)
    requires TextIds(rules) && pack in task.packs && Accepts(ValidatePack(task, Some(rules), pack, output))
    ensures var records := ValidatePack(task, Some(rules), pack, output).value.records;
            && |records| == |pack.inputIds| == |output|
            && (forall k :: 0 <= k < |records| ==> Named(records[k], pack.inputIds[k]) && records[k] in output)
  {
    PackAcceptedIff(task, rules, pack, output);
    OrderSucceeds(rules, pack.inputIds, output);
  }

  lemma SameOrdered(rules: Rules, ids: seq<Id>, a: seq<Record>, b: seq<Record>)
    requires TextIds(rules) && Corresponds(rules, ids, a) && multiset(a) == multiset(b)
    ensures OrderRecords(a, ids).Ok? && OrderRecords(b, ids) == OrderRecords(a, ids)
  {
    CorrespondsUnderPermutation(rules, ids, a, b);
    OrderSucceeds(rules, ids, a);
    OrderSucceeds(rules, ids, b);
    forall k | 0 <= k < |ids| ensures Lookup(b, ids[k]) == Lookup(a, ids[k]) {
      LookupUnderPermutation(rules, ids, a, b, ids[k]);
    }
    SameLookups(ids, a, b, OrderRecords(a, ids).value, OrderRecords(b, ids).value);
  }

  lemma SameLookups(ids: seq<Id>, a: seq<Record>, b: seq<Record>, x: seq<Record>, y: seq<Record>)
    requires |x| == |y| == |ids| && forall k :: 0 <= k < |ids| ==> Lookup(b, ids[k]) == Lookup(a, ids[k])
    requires forall k :: 0 <= k < |ids| ==> Lookup(a, ids[k]) == Some(x[k])
    requires forall k :: 0 <= k < |ids| ==> Lookup(b, ids[k]) == Some(y[k])
    ensures x == y
  {
    forall k | 0 <= k < |ids| ensures x[k] == y[k] {
      assert Lookup(b, ids[k]) == Lookup(a, ids[k]);
    }
  }

  lemma SuitUnderPermutation(kind: TaskKind, a: seq<Record>, b: seq<Record>)
    requires multiset(a) == multiset(b) && AllSuit(kind, a)
    ensures AllSuit(kind, b)
  {
    Sorting.SameElements(a, b);
    forall i | 0 <= i < |b| ensures Suits(kind, b[i]) {
      assert b[i] in a;
    }
  }

  /** However the model orders its records, the same output is accepted with the same records. */
  lemma OrderInsensitive(task: Task, rules: Rules, pack: PackedRequest, a: seq<Record>, b: seq<Record>)
    requires TextIds(rules) && pack in task.packs && multiset(a) == multiset(b)
    requires Accepts(ValidatePack(task, Some(rules), pack, a))
    ensures ValidatePack(task, Some(rules), pack, b) == ValidatePack(task, Some(rules), pack, a)
  {
    PackAcceptedIff(task, rules, pack, a);
    CorrespondsUnderPermutation(rules, pack.inputIds, a, b);
    SuitUnderPermutation(task.kind, a, b);
    PackAcceptedIff(task, rules, pack, b);
    SameOrdered(rules, pack.inputIds, a, b);
  }

  // ----- All packs -----

  predicate ByIndex(a: Output, b: Output) { a.0.index <= b.0.index }

  /** Validates the outputs against the packs in order and joins the accepted records. */
  function ValidateEach(task: Task, rules: Option<Rules>, packs: seq<PackedRequest>, outputs: seq<Output>)
    : Result<seq<ValidationResult>, Crash>
    requires |packs| == |outputs|
  {
    if packs == [] then Ok([])
    else if outputs[0].0 != packs[0] then Err(WrongPacks)
    else
      var first := ValidatePack(task, rules, outputs[0].0, outputs[0].1);
      if first.Err? then Err(first.error)
      else
        var rest := ValidateEach(task, rules, packs[1..], outputs[1..]);
        if rest.Err? then rest else Ok([first.value] + rest.value)
  }

  function AllAccepted(results: seq<ValidationResult>): bool {
    forall i :: 0 <= i < |results| ==> results[i].accepted
  }

  /** `_combined_outcome`: accepted packs add no failed rules. */
  function Combine(results: seq<ValidationResult>): ValidationResult {
    ValidationResult(
      AllAccepted(results),
      Dedupe(Flatten(Map((r: ValidationResult) => r.failedRules, results))),
      Dedupe(Flatten(Map((r: ValidationResult) => r.reasons, results))),
      if AllAccepted(results) then Flatten(Map((r: ValidationResult) => r.records, results)) else [])
  }

  function Indexes(outputs: seq<Output>): (r: seq<nat>)
    ensures |r| == |outputs| && forall i :: 0 <= i < |outputs| ==> r[i] == outputs[i].0.index
  {
    Map((o: Output) => o.0.index, outputs)
  }

  /** `validate_packs`. */
  function ValidatePacks(task: Task, rules: Option<Rules>, outputs: seq<Output>): Result<ValidationResult, Crash> {
    var ordered := Sorting.Sort(ByIndex, outputs);
    if Indexes(ordered) != seq(|task.packs|, (i: nat) => i) then Err(WrongPacks)
    else
      assert |Indexes(ordered)| == |task.packs|;
      var results := ValidateEach(task, rules, task.packs, ordered);
      if results.Err? then Err(results.error) else Ok(Combine(results.value))
  }

  lemma ByIndexIsPreorder()
    ensures Sorting.Preorder(ByIndex)
  {}

  /** Each prepared pack stands at its own index. */
  predicate WellIndexed(task: Task) {
    forall i :: 0 <= i < |task.packs| ==> task.packs[i].index == i
  }

  /** One output for every pack, in pack order. */
  predicate Complete(task: Task, outputs: seq<Output>) {
    |outputs| == |task.packs| && forall i :: 0 <= i < |outputs| ==> outputs[i].0 == task.packs[i]
  }

  /** Outputs for all packs sort into pack order, however they arrive. */
  lemma SortsIntoPackOrder(task: Task, outputs: seq<Output>, arrived: seq<Output>)
    requires WellIndexed(task) && Complete(task, outputs) && multiset(arrived) == multiset(outputs)
    ensures Sorting.Sort(ByIndex, arrived) == outputs
  {
    ByIndexIsPreorder();
    Sorting.SortSorted(ByIndex, arrived);
    forall x, y | x in outputs && y in outputs && Sorting.Tie(ByIndex, x, y) ensures x == y {
      var i :| 0 <= i < |outputs| && outputs[i] == x;
      var j :| 0 <= j < |outputs| && outputs[j] == y;
    }
    Sorting.SortedUnique(ByIndex, outputs, Sorting.Sort(ByIndex, arrived));
  }

  predicate EndsWith(task: Task, rules: Option<Rules>, pack: PackedRequest, output: Output, result: ValidationResult) {
    output.0 == pack && ValidatePack(task, rules, output.0, output.1) == Ok(result)
  }

  lemma EndsWithOneMore(task: Task, rules: Option<Rules>, packs: seq<PackedRequest>, outputs: seq<Output>,
                        results: seq<ValidationResult>, rest: seq<ValidationResult>, i: nat)
    requires |packs| == |outputs| == |results| && 0 < i < |packs| && results[1..] == rest
    requires EndsWith(task, rules, packs[1..][i - 1], outputs[1..][i - 1], rest[i - 1])
    ensures EndsWith(task, rules, packs[i], outputs[i], results[i])
  {}

  lemma {:induction false} EachAccepted(task: Task, rules: Option<Rules>, packs: seq<PackedRequest>, outputs: seq<Output>)
    requires |packs| == |outputs|
    ensures var r := ValidateEach(task, rules, packs, outputs);
            r.Ok? ==> |r.value| == |packs|
                      && forall i :: 0 <= i < |packs| ==> EndsWith(task, rules, packs[i], outputs[i], r.value[i])
  {
    if packs != [] && ValidateEach(task, rules, packs, outputs).Ok? {
      EachAccepted(task, rules, packs[1..], outputs[1..]);
      var results, rest := ValidateEach(task, rules, packs, outputs).value, ValidateEach(task, rules, packs[1..], outputs[1..]).value;
      assert results[1..] == rest;
      forall i | 0 < i < |packs| ensures EndsWith(task, rules, packs[i], outputs[i], results[i]) {
        EndsWithOneMore(task, rules, packs, outputs, results, rest, i);
      }
    }
  }

  predicate Answered(task: Task, rules: Option<Rules>, pack: PackedRequest, output: Output) {
    output.0 == pack && ValidatePack(task, rules, output.0, output.1).Ok?
  }

  lemma {:induction false} EachSucceeds(task: Task, rules: Option<Rules>, packs: seq<PackedRequest>, outputs: seq<Output>)
    requires |packs| == |outputs|
    requires forall i :: 0 <= i < |packs| ==> Answered(task, rules, packs[i], outputs[i])
    ensures ValidateEach(task, rules, packs, outputs).Ok?
  {
    if packs != [] {
      forall i | 0 <= i < |packs[1..]| ensures Answered(task, rules, packs[1..][i], outputs[1..][i]) {
        assert Answered(task, rules, packs[i + 1], outputs[i + 1]);
      }
      EachSucceeds(task, rules, packs[1..], outputs[1..]);
      assert Answered(task, rules, packs[0], outputs[0]);
    }
  }

  lemma PacksReduce(task: Task, rules: Option<Rules>, outputs: seq<Output>)
    requires WellIndexed(task) && Complete(task, outputs)
    ensures var results := ValidateEach(task, rules, task.packs, outputs);
            ValidatePacks(task, rules, outputs) == if results.Err? then Err(results.error) else Ok(Combine(results.value))
  {
    SortsIntoPackOrder(task, outputs, outputs);
    assert Indexes(outputs) == seq(|task.packs|, (i: nat) => i);
  }

  ghost predicate EveryPackAccepted(task: Task, rules: Option<Rules>, outputs: seq<Output>)
    requires |outputs| == |task.packs|
  {
    forall i :: 0 <= i < |outputs| ==> Accepts(ValidatePack(task, rules, task.packs[i], outputs[i].1))
  }

  lemma ResultsAccepted(task: Task, rules: Option<Rules>, outputs: seq<Output>)
    requires Complete(task, outputs) && ValidateEach(task, rules, task.packs, outputs).Ok?
    ensures AllAccepted(ValidateEach(task, rules, task.packs, outputs).value) <==> EveryPackAccepted(task, rules, outputs)
  {
    EachAccepted(task, rules, task.packs, outputs);
    var results := ValidateEach(task, rules, task.packs, outputs).value;
    forall i | 0 <= i < |outputs|
      ensures results[i].accepted <==> Accepts(ValidatePack(task, rules, task.packs[i], outputs[i].1)) {}
  }

  lemma AcceptedPacksSucceed(task: Task, rules: Option<Rules>, outputs: seq<Output>)
    requires Complete(task, outputs) && EveryPackAccepted(task, rules, outputs)
    ensures ValidateEach(task, rules, task.packs, outputs).Ok?
  {
    forall i | 0 <= i < |outputs| ensures Answered(task, rules, task.packs[i], outputs[i]) {
      assert Accepts(ValidatePack(task, rules, task.packs[i], outputs[i].1));
    }
    EachSucceeds(task, rules, task.packs, outputs);
  }

  /** The outputs of all packs are accepted exactly when each pack's output is. */
  lemma AllPacksAcceptedIff(task: Task, rules: Option<Rules>, outputs: seq<Output>)
    requires WellIndexed(task) && Complete(task, outputs)
    ensures Accepts(ValidatePacks(task, rules, outputs)) <==> EveryPackAccepted(task, rules, outputs)
  {
    PacksReduce(task, rules, outputs);
    if EveryPackAccepted(task, rules, outputs) {
      AcceptedPacksSucceed(task, rules, outputs);
    }
    if ValidateEach(task, rules, task.packs, outputs).Ok? {
      ResultsAccepted(task, rules, outputs);
    }
  }

  /** One pack that is not accepted withholds the records of all. */
  lemma OneFailureWithholdsAll(task: Task, rules: Option<Rules>, outputs: seq<Output>, k: nat)
    requires WellIndexed(task) && Complete(task, outputs) && k < |outputs|
    requires !Accepts(ValidatePack(task, rules, task.packs[k], outputs[k].1))
    ensures var r := ValidatePacks(task, rules, outputs); r.Ok? ==> !r.value.accepted && r.value.records == []
  {
    AllPacksAcceptedIff(task, rules, outputs);
    PacksReduce(task, rules, outputs);
  }

  // ----- Order restoration over all packs -----

  function IdOf(record: Record): Id {
    if "id" in record && record["id"].Str? then record["id"].text else ""
  }

  /** The accepted records of each pack, in pack order. */
  ghost function Parts(task: Task, rules: Option<Rules>, outputs: seq<Output>): (r: seq<seq<Record>>)
    requires |outputs| == |task.packs| && EveryPackAccepted(task, rules, outputs)
    ensures |r| == |outputs|
    ensures forall i :: 0 <= i < |outputs| ==> r[i] == ValidatePack(task, rules, task.packs[i], outputs[i].1).value.records
  {
    seq(|outputs|, i requires 0 <= i < |outputs| =>
      assert Accepts(ValidatePack(task, rules, task.packs[i], outputs[i].1));
      ValidatePack(task, rules, task.packs[i], outputs[i].1).value.records)
  }

  /** The results carry the accepted records of their packs. */
  lemma ResultsAreParts(task: Task, rules: Option<Rules>, outputs: seq<Output>, results: seq<ValidationResult>)
    requires |outputs| == |task.packs| == |results| && EveryPackAccepted(task, rules, outputs)
    requires forall i :: 0 <= i < |results| ==> EndsWith(task, rules, task.packs[i], outputs[i], results[i])
    ensures Map((r: ValidationResult) => r.records, results) == Parts(task, rules, outputs)
  {}

  lemma AcceptedRecords(task: Task, rules: Option<Rules>, outputs: seq<Output>)
    requires WellIndexed(task) && Complete(task, outputs) && EveryPackAccepted(task, rules, outputs)
    ensures Accepts(ValidatePacks(task, rules, outputs))
    ensures ValidatePacks(task, rules, outputs).value.records == Flatten(Parts(task, rules, outputs))
  {
    AllPacksAcceptedIff(task, rules, outputs);
    PacksReduce(task, rules, outputs);
    EachAccepted(task, rules, task.packs, outputs);
    ResultsAreParts(task, rules, outputs, ValidateEach(task, rules, task.packs, outputs).value);
  }

  lemma PartIds(task: Task, rules: Rules, outputs: seq<Output>, i: nat)
    requires WellIndexed(task) && Complete(task, outputs) && TextIds(rules) && EveryPackAccepted(task, Some(rules), outputs)
    requires i < |outputs|
    ensures Map(IdOf, Parts(task, Some(rules), outputs)[i]) == task.packs[i].inputIds
  {
    assert Accepts(ValidatePack(task, Some(rules), task.packs[i], outputs[i].1));
    AcceptedInRowOrder(task, rules, task.packs[i], outputs[i].1);
  }

  lemma {:induction false} FlattenMap<A, B>(f: A -> B, parts: seq<seq<A>>, images: seq<seq<B>>)
    requires |parts| == |images| && forall i :: 0 <= i < |parts| ==> Map(f, parts[i]) == images[i]
    ensures Map(f, Flatten(parts)) == Flatten(images)
  {
    if parts != [] {
      FlattenMap(f, parts[1..], images[1..]);
      assert Flatten(parts) == parts[0] + Flatten(parts[1..]);
      assert Map(f, Flatten(parts)) == Map(f, parts[0]) + Map(f, Flatten(parts[1..]));
    }
  }

  /** Accepted output carries exactly the rows' identifiers, in row order. */
  lemma AcceptedIdsAreRowIds(task: Task, rules: Rules, outputs: seq<Output>)
    requires WellIndexed(task) && Complete(task, outputs) && TextIds(rules)
    requires Accepts(ValidatePacks(task, Some(rules), outputs))
    ensures Map(IdOf, ValidatePacks(task, Some(rules), outputs).value.records) == Flatten(PackIds(task.packs))
  {
    AllPacksAcceptedIff(task, Some(rules), outputs);
    AcceptedRecords(task, Some(rules), outputs);
    var parts := Parts(task, Some(rules), outputs);
    forall i | 0 <= i < |parts| ensures Map(IdOf, parts[i]) == PackIds(task.packs)[i] {
      PartIds(task, rules, outputs, i);
    }
    FlattenMap(IdOf, parts, PackIds(task.packs));
  }

  /** The same outputs with records shuffled inside packs. */
  predicate Shuffled(a: seq<Output>, b: seq<Output>) {
    |a| == |b| && forall i :: 0 <= i < |a| ==> a[i].0 == b[i].0 && multiset(a[i].1) == multiset(b[i].1)
  }

  lemma ShuffledAccepted(task: Task, rules: Rules, a: seq<Output>, b: seq<Output>)
    requires WellIndexed(task) && Complete(task, a) && TextIds(rules) && Shuffled(a, b)
    requires EveryPackAccepted(task, Some(rules), a)
    ensures Complete(task, b) && EveryPackAccepted(task, Some(rules), b)
    ensures Parts(task, Some(rules), b) == Parts(task, Some(rules), a)
  {
    forall i | 0 <= i < |a|
      ensures Accepts(ValidatePack(task, Some(rules), task.packs[i], b[i].1))
      ensures ValidatePack(task, Some(rules), task.packs[i], b[i].1) == ValidatePack(task, Some(rules), task.packs[i], a[i].1)
    {
      assert Accepts(ValidatePack(task, Some(rules), task.packs[i], a[i].1));
      OrderInsensitive(task, rules, task.packs[i], a[i].1, b[i].1);
    }
  }

  lemma ArrivalOrder(task: Task, rules: Option<Rules>, outputs: seq<Output>, arrived: seq<Output>)
    requires WellIndexed(task) && Complete(task, outputs) && multiset(arrived) == multiset(outputs)
    ensures ValidatePacks(task, rules, arrived) == ValidatePacks(task, rules, outputs)
  {
    SortsIntoPackOrder(task, outputs, arrived);
    SortsIntoPackOrder(task, outputs, outputs);
  }

  lemma ShuffledBack(a: seq<Output>, b: seq<Output>)
    requires Shuffled(a, b)
    ensures Shuffled(b, a)
  {}

  /** Acceptance, and the accepted records, are the same however records are ordered inside packs and however the packs arrive. */
  lemma AnyArrivalSameRecords(task: Task, rules: Rules, outputs: seq<Output>, shuffled: seq<Output>, arrived: seq<Output>)
    requires WellIndexed(task) && Complete(task, outputs) && TextIds(rules)
    requires Shuffled(outputs, shuffled) && multiset(arrived) == multiset(shuffled)
    ensures Accepts(ValidatePacks(task, Some(rules), arrived)) <==> Accepts(ValidatePacks(task, Some(rules), outputs))
    ensures Accepts(ValidatePacks(task, Some(rules), outputs)) ==>
      ValidatePacks(task, Some(rules), arrived).value.records == ValidatePacks(task, Some(rules), outputs).value.records
  {
    ArrivalOrder(task, Some(rules), shuffled, arrived);
    AllPacksAcceptedIff(task, Some(rules), outputs);
    AllPacksAcceptedIff(task, Some(rules), shuffled);
    if EveryPackAccepted(task, Some(rules), outputs) {
      ShuffledAccepted(task, rules, outputs, shuffled);
      AcceptedRecords(task, Some(rules), outputs);
      AcceptedRecords(task, Some(rules), shuffled);
    } else if EveryPackAccepted(task, Some(rules), shuffled) {
      ShuffledBack(outputs, shuffled);
      ShuffledAccepted(task, rules, shuffled, outputs);
    }
  }

  // ----- The round trip through the stored flat result -----

  /** `_validate_responses` for a stored result: each pack takes as many records as it has rows. */
  function Resplit(packs: seq<PackedRequest>, records: seq<Record>): (r: seq<Output>)
    ensures |r| == |packs| && forall i :: 0 <= i < |packs| ==> r[i].0 == packs[i]
  {
    if packs == [] then []
    else
      var n := if |packs[0].inputIds| <= |records| then |packs[0].inputIds| else |records|;
      [(packs[0], records[..n])] + Resplit(packs[1..], records[n..])
  }

  lemma {:induction false} ResplitFlattened(packs: seq<PackedRequest>, parts: seq<seq<Record>>)
    requires |parts| == |packs| && forall i :: 0 <= i < |packs| ==> |parts[i]| == |packs[i].inputIds|
    ensures forall i :: 0 <= i < |packs| ==> Resplit(packs, Flatten(parts))[i].1 == parts[i]
  {
    if packs != [] {
      var all := Flatten(parts);
      assert all == parts[0] + Flatten(parts[1..]);
      ResplitFlattened(packs[1..], parts[1..]);
      assert all[|parts[0]|..] == Flatten(parts[1..]) && all[..|parts[0]|] == parts[0];
      forall i | 1 <= i < |packs| ensures Resplit(packs, all)[i].1 == parts[i] {
        assert Resplit(packs, all)[i] == Resplit(packs[1..], Flatten(parts[1..]))[i - 1];
      }
    }
  }

  /** Accepted records, being in row order, are accepted again as they stand. */
  lemma PartAcceptedAgain(task: Task, rules: Rules, pack: PackedRequest, output: seq<Record>)
    requires TextIds(rules) && pack in task.packs && Accepts(ValidatePack(task, Some(rules), pack, output))
    ensures var r := ValidatePack(task, Some(rules), pack, output);
            ValidatePack(task, Some(rules), pack, r.value.records) == r && |r.value.records| == |pack.inputIds|
  {
    var r := ValidatePack(task, Some(rules), pack, output);
    AcceptedInRowOrder(task, rules, pack, output);
    PackAcceptedIff(task, rules, pack, output);
    OrderedIsPermutation(rules, pack.inputIds, output);
    OrderInsensitive(task, rules, pack, output, r.value.records);
  }

  /** Row order rearranges the records; it drops none and repeats none. */
  lemma OrderedIsPermutation(rules: Rules, ids: seq<Id>, output: seq<Record>)
    requires TextIds(rules) && Corresponds(rules, ids, output)
    ensures OrderRecords(output, ids).Ok? && multiset(OrderRecords(output, ids).value) == multiset(output)
  {
    OrderSucceeds(rules, ids, output);
    var ordered := OrderRecords(output, ids).value;
    var texts := Map(r => IdText(rules, r), output);
    forall i, j | 0 <= i < j < |output| ensures output[i] != output[j] {
      assert IdText(rules, output[i]) != IdText(rules, output[j]);
    }
    forall i | 0 <= i < |output| ensures output[i] in ordered {
      var k :| 0 <= k < |ids| && ids[k] == IdText(rules, output[i]);
      LookupFinds(rules, ids, output, i);
      assert ordered[k] == output[i];
    }
    SamePool(output, ordered);
  }

  /** Flattening an accepted result, splitting it by pack sizes and validating again returns the same records. */
  lemma RoundTrip(task: Task, rules: Rules, outputs: seq<Output>)
    requires WellIndexed(task) && Complete(task, outputs) && TextIds(rules)
    requires Accepts(ValidatePacks(task, Some(rules), outputs))
    ensures var records := ValidatePacks(task, Some(rules), outputs).value.records;
            var again := ValidatePacks(task, Some(rules), Resplit(task.packs, records));
            Accepts(again) && again.value.records == records
  {
    AllPacksAcceptedIff(task, Some(rules), outputs);
    AcceptedRecords(task, Some(rules), outputs);
    var parts := Parts(task, Some(rules), outputs);
    forall i | 0 <= i < |parts|
      ensures |parts[i]| == |task.packs[i].inputIds|
      ensures ValidatePack(task, Some(rules), task.packs[i], parts[i])
           == ValidatePack(task, Some(rules), task.packs[i], outputs[i].1)
    {
      assert Accepts(ValidatePack(task, Some(rules), task.packs[i], outputs[i].1));
      PartAcceptedAgain(task, rules, task.packs[i], outputs[i].1);
    }
    ResplitFlattened(task.packs, parts);
    var resplit := Resplit(task.packs, Flatten(parts));
    forall i | 0 <= i < |resplit| ensures Accepts(ValidatePack(task, Some(rules), task.packs[i], resplit[i].1)) {
      assert Accepts(ValidatePack(task, Some(rules), task.packs[i], outputs[i].1));
    }
    AcceptedRecords(task, Some(rules), resplit);
    assert Parts(task, Some(rules), resplit) == parts;
  }
}
