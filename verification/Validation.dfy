/** Structural, correspondence and domain validation of model output (validation/validator.py). */
module Validation {
  import opened Prelude
  import Sorting

  datatype Value = Null | Str(text: string) | Int(n: int) | Bool(truth: bool)

  type Record = map<string, Value>

  datatype FieldType = StringField | IntegerField | NumberField | BooleanField

  datatype FieldRule = FieldRule(
    ruleId: string, field: string, valueType: FieldType, required: bool, nullable: bool,
    allowed: Option<set<Value>>, minimum: Option<int>, maximum: Option<int>)

  datatype Rules = Rules(version: string, identifierField: string, fieldRules: seq<FieldRule>, allowAdditional: bool)

  /** A failed rule with the reason it gives. */
  datatype Failure = Failure(rule: string, reason: string)

  datatype ValidationResult = ValidationResult(
    accepted: bool, failedRules: seq<string>, reasons: seq<string>, records: seq<Record>)

  // ----- Values -----

  function Digits(n: nat): string {
    if n < 10 then [('0' as int + n) as char] else Digits(n / 10) + [('0' as int + n % 10) as char]
  }

  /** `str(value)`. */
  function Text(value: Value): string {
    match value
    case Null => "None"
    case Str(text) => text
    case Int(n) => if n < 0 then "-" + Digits(-n) else Digits(n)
    case Bool(truth) => if truth then "True" else "False"
  }

  predicate MatchesType(value: Value, valueType: FieldType) {
    match valueType
    case StringField => value.Str?
    case IntegerField => value.Int?
    case NumberField => value.Int?
    case BooleanField => value.Bool?
  }

  /** Python's booleans are integers. */
  function Number(value: Value): Option<int> {
    match value
    case Int(n) => Some(n)
    case Bool(truth) => Some(if truth then 1 else 0)
    case _ => None
  }

  function DomainFailure(rule: FieldRule, value: Value): Option<string> {
    if !MatchesType(value, rule.valueType) then Some("type_mismatch")
    else if rule.allowed.Some? && value !in rule.allowed.value then Some("value_not_allowed")
    else if rule.minimum.Some? && Number(value).Some? && Number(value).value < rule.minimum.value then Some("value_below_minimum")
    else if rule.maximum.Some? && Number(value).Some? && Number(value).value > rule.maximum.value then Some("value_above_maximum")
    else None
  }

  function RuleFailures(rule: FieldRule, record: Record): seq<Failure> {
    if rule.field !in record then
      if rule.required then [Failure(rule.ruleId, "required_field_missing")] else []
    else if record[rule.field].Null? then
      if rule.nullable then [] else [Failure(rule.ruleId, "null_not_allowed")]
    else
      var reason := DomainFailure(rule, record[rule.field]);
      if reason.Some? then [Failure(rule.ruleId, reason.value)] else []
  }

  predicate Identified(rules: Rules, record: Record) {
    rules.identifierField in record && !record[rules.identifierField].Null?
  }

  function KnownFields(rules: Rules): set<string> {
    set i | 0 <= i < |rules.fieldRules| :: rules.fieldRules[i].field
  }

  predicate OnlyKnownFields(rules: Rules, record: Record) {
    rules.allowAdditional || record.Keys <= KnownFields(rules)
  }

  function Note(fails: bool, rule: string, reason: string): seq<Failure> {
    if fails then [Failure(rule, reason)] else []
  }

  function RecordFailures(rules: Rules, record: Record): seq<Failure> {
    Note(!Identified(rules, record), "identifiers.present", "identifier_missing")
    + Note(!OnlyKnownFields(rules, record), "schema.additional_fields", "additional_fields")
    + Flatten(Map(rule => RuleFailures(rule, record), rules.fieldRules))
  }

  /** The identifiers present, in output order. */
  function OutputIds(rules: Rules, output: seq<Record>): seq<string> {
    if output == [] then []
    else
      var init := OutputIds(rules, output[..|output| - 1]);
      var last := output[|output| - 1];
      if Identified(rules, last) then init + [Text(last[rules.identifierField])] else init
  }

  function Elements(s: seq<string>): set<string> {
    set i | 0 <= i < |s| :: s[i]
  }

  function SetFailures(rules: Rules, inputIds: seq<Id>, output: seq<Record>): seq<Failure> {
    var ids := OutputIds(rules, output);
    Note(!Distinct(ids), "identifiers.unique", "duplicate_identifiers")
    + Note(Elements(ids) != Elements(inputIds), "identifiers.exact_set", "identifier_set_mismatch")
    + Note(|output| != |inputIds|, "cardinality.equal", "cardinality_mismatch")
  }

  function Failures(rules: Rules, inputIds: seq<Id>, output: seq<Record>): seq<Failure> {
    Flatten(Map(record => RecordFailures(rules, record), output)) + SetFailures(rules, inputIds, output)
  }

  function FailedRules(failures: seq<Failure>): seq<string> {
    Dedupe(Map((f: Failure) => f.rule, failures))
  }

  function ReasonCodes(failures: seq<Failure>): seq<string> {
    Dedupe(Map((f: Failure) => f.reason, failures))
  }

  /** `DeterministicValidator.validate`; `rules` is absent when the bound version is unknown. */
  function Validate(rules: Option<Rules>, inputIds: seq<Id>, output: seq<Record>): ValidationResult {
    if rules.None? then ValidationResult(false, ["validation.rules.bound"], ["rules_unavailable"], [])
    else
      var failures := Failures(rules.value, inputIds, output);
      ValidationResult(failures == [], FailedRules(failures), ReasonCodes(failures), if failures == [] then output else [])
  }

  // ----- When output is accepted -----

  /** A value of the rule's type, allowed, and within bounds when it counts as a number. */
  predicate ValueHolds(rule: FieldRule, value: Value) {
    && (match rule.valueType
        case StringField => value.Str?
        case IntegerField => value.Int?
        case NumberField => value.Int?
        case BooleanField => value.Bool?)
    && (rule.allowed.Some? ==> value in rule.allowed.value)
    && (rule.minimum.Some? ==> (value.Int? ==> rule.minimum.value <= value.n)
                               && (value.Bool? ==> rule.minimum.value <= if value.truth then 1 else 0))
    && (rule.maximum.Some? ==> (value.Int? ==> value.n <= rule.maximum.value)
                               && (value.Bool? ==> (if value.truth then 1 else 0) <= rule.maximum.value))
  }

  predicate RuleHolds(rule: FieldRule, record: Record) {
    if rule.field !in record then !rule.required
    else if record[rule.field].Null? then rule.nullable
    else ValueHolds(rule, record[rule.field])
  }

  predicate NamedByRule(rules: Rules, field: string) {
    exists i :: 0 <= i < |rules.fieldRules| && rules.fieldRules[i].field == field
  }

  predicate CleanRecord(rules: Rules, record: Record) {
    && rules.identifierField in record && record[rules.identifierField] != Null
    && (!rules.allowAdditional ==> forall field :: field in record ==> NamedByRule(rules, field))
    && forall i :: 0 <= i < |rules.fieldRules| ==> RuleHolds(rules.fieldRules[i], record)
  }

  function IdText(rules: Rules, record: Record): string {
    if Identified(rules, record) then Text(record[rules.identifierField]) else ""
  }

  predicate UniqueIds(rules: Rules, output: seq<Record>) {
    forall i, j :: 0 <= i < j < |output| ==> IdText(rules, output[i]) != IdText(rules, output[j])
  }

  /** Exact correspondence: clean records, one for each input identifier and no other. */
  predicate Corresponds(rules: Rules, inputIds: seq<Id>, output: seq<Record>) {
    && (forall i :: 0 <= i < |output| ==> CleanRecord(rules, output[i]))
    && UniqueIds(rules, output)
    && (forall i :: 0 <= i < |output| ==> IdText(rules, output[i]) in inputIds)
    && (forall id :: id in inputIds ==> exists i :: 0 <= i < |output| && IdText(rules, output[i]) == id)
    && |output| == |inputIds|
  }

  lemma {:induction false} FlattenEmptyIff<T>(parts: seq<seq<T>>)
    ensures Flatten(parts) == [] <==> forall i :: 0 <= i < |parts| ==> parts[i] == []
  {
    if parts != [] {
      FlattenEmptyIff(parts[1..]);
      assert Flatten(parts) == parts[0] + Flatten(parts[1..]);
      assert forall i :: 1 <= i < |parts| ==> parts[i] == parts[1..][i - 1];
    }
  }

  lemma RecordFailuresIff(rules: Rules, record: Record)
    ensures RecordFailures(rules, record) == [] <==> CleanRecord(rules, record)
  {
    var parts := Map(rule => RuleFailures(rule, record), rules.fieldRules);
    FlattenEmptyIff(parts);
    forall i | 0 <= i < |parts| ensures parts[i] == [] <==> RuleHolds(rules.fieldRules[i], record) {
      RuleFailuresIff(rules.fieldRules[i], record);
    }
  }

  lemma RuleFailuresIff(rule: FieldRule, record: Record)
    ensures RuleFailures(rule, record) == [] <==> RuleHolds(rule, record)
  {}

  lemma {:induction false} OutputIdsClean(rules: Rules, output: seq<Record>)
    requires forall i :: 0 <= i < |output| ==> Identified(rules, output[i])
    ensures |OutputIds(rules, output)| == |output|
    ensures forall i :: 0 <= i < |output| ==> OutputIds(rules, output)[i] == IdText(rules, output[i])
  {
    if output != [] {
      OutputIdsClean(rules, output[..|output| - 1]);
    }
  }

  lemma SetFailuresIff(rules: Rules, inputIds: seq<Id>, output: seq<Record>)
    requires forall i :: 0 <= i < |output| ==> CleanRecord(rules, output[i])
    ensures SetFailures(rules, inputIds, output) == [] <==> Corresponds(rules, inputIds, output)
  {
    OutputIdsClean(rules, output);
    var ids := OutputIds(rules, output);
    SameSetIff(rules, inputIds, output, ids);
    assert Distinct(ids) <==> UniqueIds(rules, output);
  }

  lemma SameSetIff(rules: Rules, inputIds: seq<Id>, output: seq<Record>, ids: seq<string>)
    requires |ids| == |output| && forall i :: 0 <= i < |output| ==> ids[i] == IdText(rules, output[i])
    ensures Elements(ids) == Elements(inputIds) <==>
      && (forall i :: 0 <= i < |output| ==> IdText(rules, output[i]) in inputIds)
      && (forall id :: id in inputIds ==> exists i :: 0 <= i < |output| && IdText(rules, output[i]) == id)
  {
    if Elements(ids) == Elements(inputIds) {
      forall i | 0 <= i < |output| ensures IdText(rules, output[i]) in inputIds {
        assert ids[i] in Elements(ids);
      }
      forall id | id in inputIds ensures exists i :: 0 <= i < |output| && IdText(rules, output[i]) == id {
        assert id in Elements(inputIds);
        var i :| 0 <= i < |ids| && ids[i] == id;
        assert IdText(rules, output[i]) == id;
      }
    } else if forall i :: 0 <= i < |output| ==> IdText(rules, output[i]) in inputIds {
      var missing :| missing in Elements(inputIds) && missing !in Elements(ids);
      assert missing in inputIds;
      forall i | 0 <= i < |output| ensures IdText(rules, output[i]) != missing {
        assert ids[i] in Elements(ids);
      }
    }
  }

  /** Output is accepted exactly when it corresponds to the input. */
  lemma AcceptedIff(rules: Rules, inputIds: seq<Id>, output: seq<Record>)
    ensures Validate(Some(rules), inputIds, output).accepted <==> Corresponds(rules, inputIds, output)
  {
    var parts := Map(record => RecordFailures(rules, record), output);
    FlattenEmptyIff(parts);
    forall i | 0 <= i < |output| ensures parts[i] == [] <==> CleanRecord(rules, output[i]) {
      RecordFailuresIff(rules, output[i]);
    }
    var records, whole := Flatten(parts), SetFailures(rules, inputIds, output);
    assert records + whole == [] <==> records == [] && whole == [];
    if records == [] {
      SetFailuresIff(rules, inputIds, output);
    }
  }

  // ----- Correspondence does not see the order of the records -----

  lemma UniqueUnderPermutation(rules: Rules, a: seq<Record>, b: seq<Record>)
    requires UniqueIds(rules, a) && multiset(a) == multiset(b)
    ensures UniqueIds(rules, b)
  {
    Sorting.SameElements(a, b);
    forall i, j | 0 <= i < j < |b| ensures IdText(rules, b[i]) != IdText(rules, b[j]) {
      assert b[i] in a && b[j] in a;
      if b[i] == b[j] {
        TwiceInOne(a, b, i, j);
      }
    }
  }

  lemma SameWithout(a: seq<Record>, b: seq<Record>, k: nat, i: nat)
    requires multiset(a) == multiset(b) && k < |a| && i < |b| && a[k] == b[i]
    ensures multiset(Without(a, k)) == multiset(Without(b, i))
  {
    assert multiset(Without(a, k)) == multiset(a) - multiset{a[k]};
    assert multiset(Without(b, i)) == multiset(b) - multiset{b[i]};
  }

  lemma AnotherPlace(a: seq<Record>, k: nat, x: Record)
    requires k < |a| && a[k] == x && x in Without(a, k)
    ensures exists m, n :: 0 <= m < n < |a| && a[m] == a[n] == x
  {
    var m :| 0 <= m < |a| - 1 && Without(a, k)[m] == x;
    var n := if m < k then m else m + 1;
    assert a[n] == x;
    assert n < k || k < n;
  }

  /** An element at two places of `b` is at two places of `a`. */
  lemma TwiceInOne(a: seq<Record>, b: seq<Record>, i: nat, j: nat)
    requires multiset(a) == multiset(b) && i < j < |b| && b[i] == b[j]
    ensures exists k, m :: 0 <= k < m < |a| && a[k] == a[m] == b[i]
  {
    Sorting.SameElements(a, b);
    assert b[i] in a;
    var k :| 0 <= k < |a| && a[k] == b[i];
    SameWithout(a, b, k, i);
    assert Without(b, i)[j - 1] == b[i];
    Sorting.SameElements(Without(a, k), Without(b, i));
    AnotherPlace(a, k, b[i]);
  }

  lemma CorrespondsUnderPermutation(rules: Rules, inputIds: seq<Id>, a: seq<Record>, b: seq<Record>)
    requires multiset(a) == multiset(b) && Corresponds(rules, inputIds, a)
    ensures Corresponds(rules, inputIds, b)
  {
    Sorting.SameElements(a, b);
    UniqueUnderPermutation(rules, a, b);
    forall i | 0 <= i < |b| ensures CleanRecord(rules, b[i]) && IdText(rules, b[i]) in inputIds {
      assert b[i] in a;
    }
    forall id | id in inputIds ensures exists i :: 0 <= i < |b| && IdText(rules, b[i]) == id {
      var k :| 0 <= k < |a| && IdText(rules, a[k]) == id;
      assert a[k] in b;
      var i :| 0 <= i < |b| && b[i] == a[k];
      assert IdText(rules, b[i]) == id;
    }
  }
}
