/** The loops of task validation and of re-splitting a stored result. */
module TaskValidatorControl {
  import opened Prelude
  import opened Packing
  import opened Validation
  import opened TaskValidation
  import ValidatorControl
  import Sorting

  method ValidateOne(task: Task, rules: Option<Rules>, pack: PackedRequest, output: seq<Record>)
    returns (r: Result<ValidationResult, Crash>)
    ensures r == ValidatePack(task, rules, pack, output)
  {
    if pack !in task.packs { return Err(ForeignPack); }
    var base := ValidatorControl.ValidateOutput(rules, pack.inputIds, output);
    if !base.accepted { return Ok(base); }
    var failures := TaskFailures(task.kind, base.records);
    if failures.Err? { return Err(failures.error); }
    if failures.value != [] { return Ok(Rejected(failures.value)); }
    var ordered := OrderRecords(base.records, pack.inputIds);
    if ordered.Err? { return Err(ordered.error); }
    return Ok(ValidationResult(true, [], [], ordered.value));
  }

  ghost function Joined(done: seq<ValidationResult>, rest: Result<seq<ValidationResult>, Crash>)
    : Result<seq<ValidationResult>, Crash>
  {
    if rest.Err? then rest else Ok(done + rest.value)
  }

  lemma JoinedStep(done: seq<ValidationResult>, next: ValidationResult, rest: Result<seq<ValidationResult>, Crash>)
    ensures Joined(done + [next], rest) == Joined(done, if rest.Err? then rest else Ok([next] + rest.value))
  {
    if rest.Ok? { assert (done + [next]) + rest.value == done + ([next] + rest.value); }
  }

  /** The loop of `validate_packs` over the outputs in pack order. */
  method ValidateInOrder(task: Task, rules: Option<Rules>, ordered: seq<Output>) returns (r: Result<seq<ValidationResult>, Crash>)
    requires |ordered| == |task.packs|
    ensures r == ValidateEach(task, rules, task.packs, ordered)
  {
    var validated: seq<ValidationResult> := [];
    ghost var whole := ValidateEach(task, rules, task.packs, ordered);
    assert task.packs[0..] == task.packs && ordered[0..] == ordered;
    if whole.Ok? { assert [] + whole.value == whole.value; }
    for i := 0 to |ordered|
      invariant Joined(validated, ValidateEach(task, rules, task.packs[i..], ordered[i..])) == whole
    {
      assert task.packs[i..][1..] == task.packs[i + 1..] && ordered[i..][1..] == ordered[i + 1..];
      if ordered[i].0 != task.packs[i] { return Err(WrongPacks); }
      var result := ValidateOne(task, rules, ordered[i].0, ordered[i].1);
      if result.Err? { return Err(result.error); }
      JoinedStep(validated, result.value, ValidateEach(task, rules, task.packs[i + 1..], ordered[i + 1..]));
      validated := validated + [result.value];
    }
    assert validated + [] == validated;
    return Ok(validated);
  }

  method ValidateAll(task: Task, rules: Option<Rules>, outputs: seq<Output>) returns (r: Result<ValidationResult, Crash>)
    ensures r == ValidatePacks(task, rules, outputs)
  {
    var ordered := Sorting.Sort(ByIndex, outputs);
    if Indexes(ordered) != seq(|task.packs|, (i: nat) => i) { return Err(WrongPacks); }
    assert |Indexes(ordered)| == |task.packs|;
    var results := ValidateInOrder(task, rules, ordered);
    if results.Err? { return Err(results.error); }
    return Ok(Combine(results.value));
  }

  /** Python's slice, which stops at the end of the sequence. */
  function Slice(records: seq<Record>, start: nat, stop: nat): seq<Record>
    requires start <= stop
  {
    if |records| <= start then [] else if |records| <= stop then records[start..] else records[start..stop]
  }

  function From(records: seq<Record>, start: nat): seq<Record> {
    if start <= |records| then records[start..] else []
  }

  /** A slice from a running start is the front of what is left. */
  lemma SliceIsFront(records: seq<Record>, start: nat, n: nat)
    ensures var left := From(records, start);
            var m := if n <= |left| then n else |left|;
            Slice(records, start, start + n) == left[..m] && From(records, start + n) == left[m..]
  {}

  /** The split of the packs from `i` on, with the running start. */
  function SplitFrom(packs: seq<PackedRequest>, records: seq<Record>, i: nat, start: nat): seq<Output>
    requires i <= |packs|
    decreases |packs| - i
  {
    if i == |packs| then []
    else
      var stop := start + |packs[i].inputIds|;
      [(packs[i], Slice(records, start, stop))] + SplitFrom(packs, records, i + 1, stop)
  }

  lemma ResplitCons(part: seq<PackedRequest>, left: seq<Record>, rest: seq<PackedRequest>, m: nat)
    requires part != [] && part[1..] == rest
    requires m == if |part[0].inputIds| <= |left| then |part[0].inputIds| else |left|
    ensures Resplit(part, left) == [(part[0], left[..m])] + Resplit(rest, left[m..])
  {}

  lemma Suffix(packs: seq<PackedRequest>, i: nat)
    requires i < |packs|
    ensures packs[i..] != [] && packs[i..][0] == packs[i] && packs[i..][1..] == packs[i + 1..]
  {}

  lemma {:induction false} SplitFromIsResplit(packs: seq<PackedRequest>, records: seq<Record>, i: nat, start: nat, part: seq<PackedRequest>)
    requires i <= |packs| && part == packs[i..]
    ensures SplitFrom(packs, records, i, start) == Resplit(part, From(records, start))
    decreases |packs| - i
  {
    if i < |packs| {
      var n, left := |packs[i].inputIds|, From(records, start);
      var rest := packs[i + 1..];
      SplitFromIsResplit(packs, records, i + 1, start + n, rest);
      SliceIsFront(records, start, n);
      Suffix(packs, i);
      ResplitCons(part, left, rest, if n <= |left| then n else |left|);
    }
  }

  lemma SplitTurn(packs: seq<PackedRequest>, records: seq<Record>, i: nat, start: nat, done: seq<Output>)
    requires i < |packs|
    ensures var stop := start + |packs[i].inputIds|;
            done + [(packs[i], Slice(records, start, stop))] + SplitFrom(packs, records, i + 1, stop)
            == done + SplitFrom(packs, records, i, start)
  {}

  /** The running-start loop of `_validate_responses` over a stored flat result. */
  method SplitFlat(packs: seq<PackedRequest>, records: seq<Record>) returns (outputs: seq<Output>)
    ensures outputs == Resplit(packs, records)
  {
    outputs := [];
    var start := 0;
    ghost var whole := SplitFrom(packs, records, 0, 0);
    assert [] + whole == whole;
    for i := 0 to |packs|
      invariant 0 <= start
      invariant outputs + SplitFrom(packs, records, i, start) == whole
    {
      SplitTurn(packs, records, i, start, outputs);
      var stop := start + |packs[i].inputIds|;
      outputs := outputs + [(packs[i], Slice(records, start, stop))];
      start := stop;
    }
    assert outputs + [] == outputs;
    SplitFromIsResplit(packs, records, 0, 0, packs[0..]);
    assert packs[0..] == packs && From(records, 0) == records;
  }

  /** Validating a stored accepted result again. */
  method ValidateStored(task: Task, rules: Option<Rules>, records: seq<Record>) returns (r: Result<ValidationResult, Crash>)
    ensures r == ValidatePacks(task, rules, Resplit(task.packs, records))
  {
    var outputs := SplitFlat(task.packs, records);
    r := ValidateAll(task, rules, outputs);
  }
}
