/** Which rules and reasons rejected output is given (validation/validator.py). */
module ValidationReasons {
  import opened Prelude
  import opened Validation

  /** What a value breaks of a rule: the first of its type, the allowed values, the minimum and the maximum. */
  predicate BreaksWith(rule: FieldRule, value: Value, reason: string) {
    var ofType := match rule.valueType
      case StringField => value.Str?
      case IntegerField => value.Int?
      case NumberField => value.Int?
      case BooleanField => value.Bool?;
    var number := if value.Int? then value.n else if value.Bool? && value.truth then 1 else 0;
    var counts := value.Int? || value.Bool?;
    var allowed := rule.allowed.Some? ==> value in rule.allowed.value;
    var low := rule.minimum.Some? && counts && number < rule.minimum.value;
    var high := rule.maximum.Some? && counts && number > rule.maximum.value;
    || (reason == "type_mismatch" && !ofType)
    || (reason == "value_not_allowed" && ofType && !allowed)
    || (reason == "value_below_minimum" && ofType && allowed && low)
    || (reason == "value_above_maximum" && ofType && allowed && !low && high)
  }

  predicate RuleBroken(rule: FieldRule, record: Record, reason: string) {
    if rule.field !in record then rule.required && reason == "required_field_missing"
    else if record[rule.field] == Null then !rule.nullable && reason == "null_not_allowed"
    else BreaksWith(rule, record[rule.field], reason)
  }

  lemma RuleBrokenIff(rule: FieldRule, record: Record, f: Failure)
    ensures f in RuleFailures(rule, record) <==> f.rule == rule.ruleId && RuleBroken(rule, record, f.reason)
  {}

  predicate Unidentified(rules: Rules, record: Record) {
    rules.identifierField in record ==> record[rules.identifierField] == Null
  }

  predicate HasExtra(rules: Rules, record: Record) {
    !rules.allowAdditional && exists field :: field in record && !NamedByRule(rules, field)
  }

  predicate SomeRuleBroken(rules: Rules, record: Record, f: Failure) {
    exists i :: 0 <= i < |rules.fieldRules| && f.rule == rules.fieldRules[i].ruleId && RuleBroken(rules.fieldRules[i], record, f.reason)
  }

  predicate RecordFails(rules: Rules, record: Record, f: Failure) {
    || (f == Failure("identifiers.present", "identifier_missing") && Unidentified(rules, record))
    || (f == Failure("schema.additional_fields", "additional_fields") && HasExtra(rules, record))
    || SomeRuleBroken(rules, record, f)
  }

  lemma RulesFailIff(rules: Rules, record: Record, f: Failure)
    ensures f in Flatten(Map(rule => RuleFailures(rule, record), rules.fieldRules)) <==> SomeRuleBroken(rules, record, f)
  {
    var parts := Map(rule => RuleFailures(rule, record), rules.fieldRules);
    FlattenMember(parts, f);
    forall i | 0 <= i < |parts|
      ensures f in parts[i] <==> f.rule == rules.fieldRules[i].ruleId && RuleBroken(rules.fieldRules[i], record, f.reason)
    {
      RuleBrokenIff(rules.fieldRules[i], record, f);
    }
  }

  lemma RecordFailsIff(rules: Rules, record: Record, f: Failure)
    ensures f in RecordFailures(rules, record) <==> RecordFails(rules, record, f)
  {
    RulesFailIff(rules, record, f);
    assert HasExtra(rules, record) <==> !OnlyKnownFields(rules, record) by {
      if !rules.allowAdditional {
        forall field | field in record ensures field in KnownFields(rules) <==> NamedByRule(rules, field) {}
      }
    }
  }

  /** The identifiers the records carry. */
  predicate Carries(rules: Rules, output: seq<Record>, i: int, id: string) {
    0 <= i < |output| && !Unidentified(rules, output[i]) && Text(output[i][rules.identifierField]) == id
  }

  ghost predicate SomeTwice(rules: Rules, output: seq<Record>) {
    exists i, j, id :: i < j && Carries(rules, output, i, id) && Carries(rules, output, j, id)
  }

  ghost predicate OtherIds(rules: Rules, inputIds: seq<Id>, output: seq<Record>) {
    || (exists i, id :: Carries(rules, output, i, id) && id !in inputIds)
    || (exists id :: id in inputIds && forall i :: !Carries(rules, output, i, id))
  }

  lemma CarriesInit(rules: Rules, output: seq<Record>, i: int, id: string)
    requires output != []
    ensures Carries(rules, output, i, id) <==>
      Carries(rules, output[..|output| - 1], i, id)
      || (i == |output| - 1 && Identified(rules, output[i]) && Text(output[i][rules.identifierField]) == id)
  {}

  lemma {:induction false} OutputIdsCarried(rules: Rules, output: seq<Record>, id: string)
    ensures id in OutputIds(rules, output) <==> exists i :: Carries(rules, output, i, id)
  {
    if output != [] {
      var n := |output| - 1;
      OutputIdsCarried(rules, output[..n], id);
      CarriesInit(rules, output, n, id);
      forall i ensures Carries(rules, output, i, id) <==> Carries(rules, output[..n], i, id) || (i == n && Carries(rules, output, n, id)) {
        CarriesInit(rules, output, i, id);
      }
    }
  }

  lemma DistinctAppend(ids: seq<string>, id: string)
    ensures Distinct(ids + [id]) <==> Distinct(ids) && id !in ids
  {
    var s := ids + [id];
    if Distinct(s) {
      forall i | 0 <= i < |ids| ensures ids[i] != id { assert s[i] != s[|ids|]; }
      forall i, j | 0 <= i < j < |ids| ensures ids[i] != ids[j] { assert s[i] != s[j]; }
    }
  }

  lemma TwiceInit(rules: Rules, output: seq<Record>)
    requires output != []
    ensures var n := |output| - 1;
            SomeTwice(rules, output) <==>
              SomeTwice(rules, output[..n])
              || (Identified(rules, output[n]) && exists i :: Carries(rules, output[..n], i, Text(output[n][rules.identifierField])))
  {
    var n := |output| - 1;
    if i, j, id :| i < j && Carries(rules, output, i, id) && Carries(rules, output, j, id) {
      CarriesInit(rules, output, i, id);
      CarriesInit(rules, output, j, id);
    }
    if i, j, id :| i < j && Carries(rules, output[..n], i, id) && Carries(rules, output[..n], j, id) {
      assert Carries(rules, output, i, id) && Carries(rules, output, j, id);
    }
    if Identified(rules, output[n]) {
      var id := Text(output[n][rules.identifierField]);
      if i :| Carries(rules, output[..n], i, id) {
        assert Carries(rules, output, i, id) && Carries(rules, output, n, id);
      }
    }
  }

  lemma {:induction false} DistinctIff(rules: Rules, output: seq<Record>)
    ensures Distinct(OutputIds(rules, output)) <==> !SomeTwice(rules, output)
  {
    if output != [] {
      var n := |output| - 1;
      DistinctIff(rules, output[..n]);
      TwiceInit(rules, output);
      if Identified(rules, output[n]) {
        var id := Text(output[n][rules.identifierField]);
        DistinctAppend(OutputIds(rules, output[..n]), id);
        OutputIdsCarried(rules, output[..n], id);
      }
    }
  }

  lemma ElementsDiffer(rules: Rules, inputIds: seq<Id>, output: seq<Record>)
    ensures Elements(OutputIds(rules, output)) != Elements(inputIds) <==> OtherIds(rules, inputIds, output)
  {
    var ids := OutputIds(rules, output);
    forall id ensures id in Elements(ids) <==> exists i :: Carries(rules, output, i, id) {
      OutputIdsCarried(rules, output, id);
    }
    forall id ensures id in Elements(inputIds) <==> id in inputIds {}
    if Elements(ids) == Elements(inputIds) {
      forall i, id | Carries(rules, output, i, id) ensures id in inputIds { assert id in Elements(ids); }
      forall id | id in inputIds ensures exists i :: Carries(rules, output, i, id) { assert id in Elements(inputIds); }
    } else {
      if id :| id in Elements(ids) && id !in Elements(inputIds) {
        assert OtherIds(rules, inputIds, output);
      } else {
        var id :| id in Elements(inputIds) && id !in Elements(ids);
        assert id in inputIds;
      }
    }
  }

  ghost predicate OutputFails(rules: Rules, inputIds: seq<Id>, output: seq<Record>, f: Failure) {
    || (f == Failure("identifiers.unique", "duplicate_identifiers") && SomeTwice(rules, output))
    || (f == Failure("identifiers.exact_set", "identifier_set_mismatch") && OtherIds(rules, inputIds, output))
    || (f == Failure("cardinality.equal", "cardinality_mismatch") && |output| != |inputIds|)
  }

  ghost predicate Fails(rules: Rules, inputIds: seq<Id>, output: seq<Record>, f: Failure) {
    || (exists i :: 0 <= i < |output| && RecordFails(rules, output[i], f))
    || OutputFails(rules, inputIds, output, f)
  }

  lemma SetFailsIff(rules: Rules, inputIds: seq<Id>, output: seq<Record>, f: Failure)
    ensures f in SetFailures(rules, inputIds, output) <==> OutputFails(rules, inputIds, output, f)
  {
    DistinctIff(rules, output);
    ElementsDiffer(rules, inputIds, output);
  }

  lemma FailsIff(rules: Rules, inputIds: seq<Id>, output: seq<Record>, f: Failure)
    ensures f in Failures(rules, inputIds, output) <==> Fails(rules, inputIds, output, f)
  {
    var parts := Map(record => RecordFailures(rules, record), output);
    FlattenMember(parts, f);
    forall i | 0 <= i < |parts| ensures f in parts[i] <==> RecordFails(rules, output[i], f) { RecordFailsIff(rules, output[i], f); }
    SetFailsIff(rules, inputIds, output, f);
  }

  lemma Reported<T(!new)>(failures: seq<Failure>, of: Failure -> T, x: T)
    ensures x in Dedupe(Map(of, failures)) <==> exists f :: f in failures && of(f) == x
  {
    var all := Map(of, failures);
    if x in Dedupe(all) {
      var i :| 0 <= i < |all| && all[i] == x;
      assert failures[i] in failures && of(failures[i]) == x;
    }
    if f :| f in failures && of(f) == x {
      var i :| 0 <= i < |failures| && failures[i] == f;
      assert all[i] == x;
    }
  }

  /** These failures are exactly those of the output. */
  ghost predicate AreFailures(failures: seq<Failure>, rules: Rules, inputIds: seq<Id>, output: seq<Record>) {
    forall f :: f in failures <==> Fails(rules, inputIds, output, f)
  }

  lemma RuleReported(failures: seq<Failure>, rules: Rules, inputIds: seq<Id>, output: seq<Record>, rule: string)
    requires AreFailures(failures, rules, inputIds, output)
    ensures rule in FailedRules(failures) <==> exists f :: Fails(rules, inputIds, output, f) && f.rule == rule
  {
    Reported(failures, (f: Failure) => f.rule, rule);
  }

  lemma ReasonReported(failures: seq<Failure>, rules: Rules, inputIds: seq<Id>, output: seq<Record>, reason: string)
    requires AreFailures(failures, rules, inputIds, output)
    ensures reason in ReasonCodes(failures) <==> exists f :: Fails(rules, inputIds, output, f) && f.reason == reason
  {
    Reported(failures, (f: Failure) => f.reason, reason);
  }

  lemma NothingFails(failures: seq<Failure>, rules: Rules, inputIds: seq<Id>, output: seq<Record>)
    requires AreFailures(failures, rules, inputIds, output)
    ensures failures == [] <==> forall f :: !Fails(rules, inputIds, output, f)
  {
    if failures != [] { assert failures[0] in failures; }
  }

  /**
   * A rule is reported if and only if some record or the output as a whole breaks it, and a reason if and only if some failure
   * gives it, each once; output is accepted if and only if nothing is.
   */
  lemma ReportedIff(rules: Rules, inputIds: seq<Id>, output: seq<Record>, rule: string, reason: string)
    ensures var r := Validate(Some(rules), inputIds, output);
            && (rule in r.failedRules <==> exists f :: Fails(rules, inputIds, output, f) && f.rule == rule)
            && (reason in r.reasons <==> exists f :: Fails(rules, inputIds, output, f) && f.reason == reason)
            && Distinct(r.failedRules) && Distinct(r.reasons)
            && (r.accepted <==> forall f :: !Fails(rules, inputIds, output, f))
            && r.records == if r.accepted then output else []
  {
    var failures := Failures(rules, inputIds, output);
    forall f ensures f in failures <==> Fails(rules, inputIds, output, f) { FailsIff(rules, inputIds, output, f); }
    RuleReported(failures, rules, inputIds, output, rule);
    ReasonReported(failures, rules, inputIds, output, reason);
    NothingFails(failures, rules, inputIds, output);
  }

  /** Without rules under the bound version nothing is accepted, and that is the reason given. */
  lemma UnboundRules(inputIds: seq<Id>, output: seq<Record>)
    ensures Validate(None, inputIds, output) == ValidationResult(false, ["validation.rules.bound"], ["rules_unavailable"], [])
  {}

  // ----- Numbers as text -----

  /** What decimal digits read as. */
  function ReadDigits(text: string): int {
    if text == [] then 0 else 10 * ReadDigits(text[..|text| - 1]) + (text[|text| - 1] as int - '0' as int)
  }

  /** The text of a number is its decimal digits, with no zero in front of others. */
  lemma {:induction false} DigitsReadBack(n: nat)
    ensures ReadDigits(Digits(n)) == n && Digits(n) != [] && (forall c :: c in Digits(n) ==> '0' <= c <= '9')
    ensures |Digits(n)| > 1 ==> Digits(n)[0] != '0'
    ensures n > 0 ==> Digits(n)[0] != '0'
  {
    if n < 10 {
      assert Digits(n)[..0] == [];
    } else {
      DigitsReadBack(n / 10);
      var init := Digits(n / 10);
      assert Digits(n) == init + [('0' as int + n % 10) as char];
      assert Digits(n)[..|init|] == init && Digits(n)[0] == init[0];
    }
  }
}
