/** The validator's loops: failures are gathered record by record, each rule and each reason once. */
module ValidatorControl {
  import opened Prelude
  import opened Validation

  lemma FailuresSnoc(fs: seq<Failure>, f: Failure)
    ensures FailedRules(fs + [f])
         == if f.rule in FailedRules(fs) then FailedRules(fs) else FailedRules(fs) + [f.rule]
    ensures ReasonCodes(fs + [f])
         == if f.reason in ReasonCodes(fs) then ReasonCodes(fs) else ReasonCodes(fs) + [f.reason]
  {
    var ruleOf, reasonOf := (x: Failure) => x.rule, (x: Failure) => x.reason;
    assert Map(ruleOf, fs + [f]) == Map(ruleOf, fs) + [f.rule];
    assert Map(reasonOf, fs + [f]) == Map(reasonOf, fs) + [f.reason];
  }

  /** `_add_failure` for at most one failure; `fs` are the failures met so far. */
  method AddFailure(failed: seq<string>, reasons: seq<string>, found: seq<Failure>, ghost fs: seq<Failure>)
    returns (failed': seq<string>, reasons': seq<string>)
    requires failed == FailedRules(fs) && reasons == ReasonCodes(fs) && |found| <= 1
    ensures failed' == FailedRules(fs + found) && reasons' == ReasonCodes(fs + found)
  {
    if found == [] {
      assert fs + found == fs;
      return failed, reasons;
    }
    var f := found[0];
    assert found == [f];
    FailuresSnoc(fs, f);
    failed' := if f.rule in failed then failed else failed + [f.rule];
    reasons' := if f.reason in reasons then reasons else reasons + [f.reason];
  }

  function RuleParts(rules: Rules, record: Record, n: nat): seq<Failure>
    requires n <= |rules.fieldRules|
  {
    Flatten(Map(rule => RuleFailures(rule, record), rules.fieldRules[..n]))
  }

  lemma RulePartsStep(rules: Rules, record: Record, n: nat)
    requires n < |rules.fieldRules|
    ensures RuleParts(rules, record, n + 1) == RuleParts(rules, record, n) + RuleFailures(rules.fieldRules[n], record)
  {
    var f := rule => RuleFailures(rule, record);
    assert rules.fieldRules[..n + 1] == rules.fieldRules[..n] + [rules.fieldRules[n]];
    assert Map(f, rules.fieldRules[..n + 1]) == Map(f, rules.fieldRules[..n]) + [f(rules.fieldRules[n])];
    FlattenConcat(Map(f, rules.fieldRules[..n]), [f(rules.fieldRules[n])]);
    FlattenOne(f(rules.fieldRules[n]));
  }

  /** The failures met so far, with those of the first `n` rules. */
  function Gathered(fs: seq<Failure>, rules: Rules, record: Record, n: nat): seq<Failure>
    requires n <= |rules.fieldRules|
  {
    fs + RuleParts(rules, record, n)
  }

  lemma GatheredStep(fs: seq<Failure>, rules: Rules, record: Record, n: nat)
    requires n < |rules.fieldRules|
    ensures Gathered(fs, rules, record, n + 1) == Gathered(fs, rules, record, n) + RuleFailures(rules.fieldRules[n], record)
  {
    RulePartsStep(rules, record, n);
  }

  lemma GatheredNone(fs: seq<Failure>, rules: Rules, record: Record)
    ensures Gathered(fs, rules, record, 0) == fs
  {
    assert rules.fieldRules[..0] == [];
  }

  /** One rule of one record. */
  method CheckRule(rules: Rules, record: Record, i: nat, failed: seq<string>, reasons: seq<string>, ghost fs: seq<Failure>)
    returns (failed': seq<string>, reasons': seq<string>)
    requires i < |rules.fieldRules|
    requires failed == FailedRules(Gathered(fs, rules, record, i)) && reasons == ReasonCodes(Gathered(fs, rules, record, i))
    ensures failed' == FailedRules(Gathered(fs, rules, record, i + 1))
    ensures reasons' == ReasonCodes(Gathered(fs, rules, record, i + 1))
  {
    GatheredStep(fs, rules, record, i);
    failed', reasons' := AddFailure(failed, reasons, RuleFailures(rules.fieldRules[i], record), Gathered(fs, rules, record, i));
  }

  /** The rule loop of one record. */
  method CheckRules(rules: Rules, record: Record, failed: seq<string>, reasons: seq<string>, ghost fs: seq<Failure>)
    returns (failed': seq<string>, reasons': seq<string>)
    requires failed == FailedRules(fs) && reasons == ReasonCodes(fs)
    ensures failed' == FailedRules(Gathered(fs, rules, record, |rules.fieldRules|))
    ensures reasons' == ReasonCodes(Gathered(fs, rules, record, |rules.fieldRules|))
  {
    failed', reasons' := failed, reasons;
    GatheredNone(fs, rules, record);
    for i := 0 to |rules.fieldRules|
      invariant failed' == FailedRules(Gathered(fs, rules, record, i))
      invariant reasons' == ReasonCodes(Gathered(fs, rules, record, i))
    {
      failed', reasons' := CheckRule(rules, record, i, failed', reasons', fs);
    }
  }

  lemma RegroupFailures(fs: seq<Failure>, a: seq<Failure>, b: seq<Failure>, c: seq<Failure>)
    ensures ((fs + a) + b) + c == fs + (a + b + c)
  {}

  /** The body of the record loop. */
  method CheckRecord(rules: Rules, record: Record, failed: seq<string>, reasons: seq<string>, ghost fs: seq<Failure>)
    returns (failed': seq<string>, reasons': seq<string>)
    requires failed == FailedRules(fs) && reasons == ReasonCodes(fs)
    ensures failed' == FailedRules(fs + RecordFailures(rules, record))
    ensures reasons' == ReasonCodes(fs + RecordFailures(rules, record))
  {
    var missing := Note(!Identified(rules, record), "identifiers.present", "identifier_missing");
    failed', reasons' := AddFailure(failed, reasons, missing, fs);
    var extra := Note(!OnlyKnownFields(rules, record), "schema.additional_fields", "additional_fields");
    failed', reasons' := AddFailure(failed', reasons', extra, fs + missing);
    failed', reasons' := CheckRules(rules, record, failed', reasons', (fs + missing) + extra);
    assert rules.fieldRules[..|rules.fieldRules|] == rules.fieldRules;
    RegroupFailures(fs, missing, extra, RuleParts(rules, record, |rules.fieldRules|));
  }

  function RecordParts(rules: Rules, output: seq<Record>, n: nat): seq<Failure>
    requires n <= |output|
  {
    Flatten(Map(record => RecordFailures(rules, record), output[..n]))
  }

  lemma RecordPartsStep(rules: Rules, output: seq<Record>, n: nat)
    requires n < |output|
    ensures RecordParts(rules, output, n + 1) == RecordParts(rules, output, n) + RecordFailures(rules, output[n])
  {
    var f := record => RecordFailures(rules, record);
    assert output[..n + 1] == output[..n] + [output[n]];
    assert Map(f, output[..n + 1]) == Map(f, output[..n]) + [f(output[n])];
    FlattenConcat(Map(f, output[..n]), [f(output[n])]);
    FlattenOne(f(output[n]));
  }

  /** The record loop of `validate`. */
  method CheckRecords(rules: Rules, output: seq<Record>)
    returns (failed: seq<string>, reasons: seq<string>, outputIds: seq<string>)
    ensures failed == FailedRules(RecordParts(rules, output, |output|))
    ensures reasons == ReasonCodes(RecordParts(rules, output, |output|))
    ensures outputIds == OutputIds(rules, output)
  {
    failed, reasons, outputIds := [], [], [];
    for i := 0 to |output|
      invariant failed == FailedRules(RecordParts(rules, output, i))
      invariant reasons == ReasonCodes(RecordParts(rules, output, i))
      invariant outputIds == OutputIds(rules, output[..i])
    {
      RecordPartsStep(rules, output, i);
      assert output[..i + 1][..i] == output[..i];
      failed, reasons := CheckRecord(rules, output[i], failed, reasons, RecordParts(rules, output, i));
      if Identified(rules, output[i]) {
        outputIds := outputIds + [Text(output[i][rules.identifierField])];
      }
    }
    assert output[..|output|] == output;
  }

  /** The checks of the output as a whole. */
  method CheckSet(rules: Rules, inputIds: seq<Id>, output: seq<Record>, outputIds: seq<string>,
                  failed: seq<string>, reasons: seq<string>, ghost fs: seq<Failure>)
    returns (failed': seq<string>, reasons': seq<string>)
    requires outputIds == OutputIds(rules, output) && failed == FailedRules(fs) && reasons == ReasonCodes(fs)
    ensures failed' == FailedRules(fs + SetFailures(rules, inputIds, output))
    ensures reasons' == ReasonCodes(fs + SetFailures(rules, inputIds, output))
  {
    var twice := Note(!Distinct(outputIds), "identifiers.unique", "duplicate_identifiers");
    failed', reasons' := AddFailure(failed, reasons, twice, fs);
    var other := Note(Elements(outputIds) != Elements(inputIds), "identifiers.exact_set", "identifier_set_mismatch");
    failed', reasons' := AddFailure(failed', reasons', other, fs + twice);
    var count := Note(|output| != |inputIds|, "cardinality.equal", "cardinality_mismatch");
    failed', reasons' := AddFailure(failed', reasons', count, (fs + twice) + other);
    RegroupFailures(fs, twice, other, count);
  }

  lemma FailuresAre(rules: Rules, inputIds: seq<Id>, output: seq<Record>)
    ensures Failures(rules, inputIds, output) == RecordParts(rules, output, |output|) + SetFailures(rules, inputIds, output)
  {
    assert output[..|output|] == output;
  }

  method ValidateOutput(rules: Option<Rules>, inputIds: seq<Id>, output: seq<Record>) returns (r: ValidationResult)
    ensures r == Validate(rules, inputIds, output)
  {
    if rules.None? {
      return ValidationResult(false, ["validation.rules.bound"], ["rules_unavailable"], []);
    }
    var failed, reasons, outputIds := CheckRecords(rules.value, output);
    failed, reasons := CheckSet(rules.value, inputIds, output, outputIds, failed, reasons, RecordParts(rules.value, output, |output|));
    FailuresAre(rules.value, inputIds, output);
    NothingFailedIff(Failures(rules.value, inputIds, output));
    return ValidationResult(failed == [], failed, reasons, if failed == [] then output else []);
  }

  lemma NothingFailedIff(fs: seq<Failure>)
    ensures FailedRules(fs) == [] <==> fs == []
  {
    if fs != [] {
      var names := Map((f: Failure) => f.rule, fs);
      assert names[0] in Dedupe(names);
    }
  }
}
