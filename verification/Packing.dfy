/** Deterministic greedy packing of rows into bounded requests (tasks/packing.py). */
module Packing {
  import opened Prelude

  /** `encoded` is the canonical JSON of the row object, absent when it holds an unsupported value. */
  datatype Row = Row(identifier: Id, encoded: Option<Bytes>)

  datatype Limits = Limits(maxItems: int, maxInputTokens: int, maxOutputTokens: int, maxPayloadBytes: int)

  /**
   * The task definition and the parameters of one invocation. Keys are sorted, so the rows stand between
   * `head` and `tail`, which are absent when the parameters hold an unsupported value.
   */
  datatype Template = Template(task: string, version: string, head: Option<Bytes>, tail: Bytes, limits: Limits)

  datatype Estimator = Estimator(input: Bytes -> int, output: nat -> int)

  datatype Candidate = Candidate(rows: seq<Row>, payload: Bytes, inputTokens: nat, outputTokens: nat)

  datatype PackError = OversizedRow(identifier: Id) | NotCanonical | BadEstimate

  // ----- Candidates -----

  predicate Encodable(rows: seq<Row>) {
    forall i :: 0 <= i < |rows| ==> rows[i].encoded.Some?
  }

  function Join(rows: seq<Row>): Bytes
    requires Encodable(rows)
  {
    if rows == [] then []
    else if |rows| == 1 then rows[0].encoded.value
    else rows[0].encoded.value + "," + Join(rows[1..])
  }

  /** `canonical_payload_bytes(_payload_object(...))`. */
  function Payload(t: Template, rows: seq<Row>): Result<Bytes, PackError> {
    if t.head.None? || !Encodable(rows) then Err(NotCanonical)
    else Ok(t.head.value + Join(rows) + t.tail)
  }

  function MakeCandidate(t: Template, e: Estimator, rows: seq<Row>): (r: Result<Candidate, PackError>)
    ensures r.Ok? ==> r.value.rows == rows && Payload(t, rows) == Ok(r.value.payload)
    ensures r.Ok? ==> r.value.inputTokens == e.input(r.value.payload) && r.value.outputTokens == e.output(|rows|)
  {
    var payload := Payload(t, rows);
    if payload.Err? then Err(payload.error)
    else
      var input, output := e.input(payload.value), e.output(|rows|);
      if input < 0 || output < 0 then Err(BadEstimate)
      else Ok(Candidate(rows, payload.value, input, output))
  }

  predicate Fits(limits: Limits, c: Candidate) {
    && |c.rows| <= limits.maxItems
    && c.inputTokens <= limits.maxInputTokens
    && c.outputTokens <= limits.maxOutputTokens
    && |c.payload| <= limits.maxPayloadBytes
  }

  /** The rows make a candidate, and it fits one request. */
  predicate Good(t: Template, e: Estimator, rows: seq<Row>) {
    var c := MakeCandidate(t, e, rows);
    c.Ok? && Fits(t.limits, c.value)
  }

  /** What a row alone in an empty pack comes to. */
  function Verdict(t: Template, e: Estimator, row: Row): Option<PackError> {
    var c := MakeCandidate(t, e, [row]);
    if c.Err? then Some(c.error)
    else if Fits(t.limits, c.value) then None else Some(OversizedRow(row.identifier))
  }

  // ----- The greedy partition -----

  /** `_build_candidates` from the point where `current` is the open pack and `rows` are still to come. */
  function Greedy(t: Template, e: Estimator, current: seq<Row>, rows: seq<Row>): Result<seq<Candidate>, PackError>
    decreases |rows|
  {
    if rows == [] then
      if current == [] then Ok([])
      else
        var closed := MakeCandidate(t, e, current);
        if closed.Err? then Err(closed.error) else Ok([closed.value])
    else
      var proposed := MakeCandidate(t, e, current + [rows[0]]);
      if proposed.Err? then Err(proposed.error)
      else if Fits(t.limits, proposed.value) then Greedy(t, e, current + [rows[0]], rows[1..])
      else if current == [] then Err(OversizedRow(rows[0].identifier))
      else
        var closed, single := MakeCandidate(t, e, current), MakeCandidate(t, e, [rows[0]]);
        if closed.Err? then Err(closed.error)
        else if single.Err? then Err(single.error)
        else if !Fits(t.limits, single.value) then Err(OversizedRow(rows[0].identifier))
        else
          var rest := Greedy(t, e, [rows[0]], rows[1..]);
          if rest.Err? then rest else Ok([closed.value] + rest.value)
  }

  function RowsOf(packs: seq<Candidate>): (r: seq<seq<Row>>)
    ensures |r| == |packs| && forall i :: 0 <= i < |packs| ==> r[i] == packs[i].rows
  {
    Map((c: Candidate) => c.rows, packs)
  }

  ghost predicate Partition(t: Template, e: Estimator, packs: seq<seq<Row>>, rows: seq<Row>) {
    && Flatten(packs) == rows
    && forall i :: 0 <= i < |packs| ==> packs[i] != [] && Good(t, e, packs[i])
  }

  predicate OpenPack(t: Template, e: Estimator, current: seq<Row>) {
    current == [] || Good(t, e, current)
  }

  lemma CloseFirst(t: Template, e: Estimator, closed: Candidate, row: Row, rows: seq<Row>, rest: seq<Candidate>)
    requires closed.rows != [] && Good(t, e, closed.rows) && Partition(t, e, RowsOf(rest), [row] + rows)
    ensures Partition(t, e, RowsOf([closed] + rest), closed.rows + ([row] + rows))
  {
    assert RowsOf([closed] + rest) == [closed.rows] + RowsOf(rest);
    FlattenConcat([closed.rows], RowsOf(rest));
    FlattenOne(closed.rows);
  }

  /** On success the packs are the rows cut into non-empty packs that fit, each with its own candidate. */
  lemma {:induction false} GreedyPartitions(t: Template, e: Estimator, current: seq<Row>, rows: seq<Row>)
    requires OpenPack(t, e, current) && Greedy(t, e, current, rows).Ok?
    ensures var packs := Greedy(t, e, current, rows).value;
            && Partition(t, e, RowsOf(packs), current + rows)
            && forall i :: 0 <= i < |packs| ==> MakeCandidate(t, e, packs[i].rows) == Ok(packs[i])
    decreases |rows|
  {
    if rows == [] {
      assert current + rows == current;
      if current != [] { FlattenOne(current); }
    } else {
      var row := rows[0];
      if Good(t, e, current + [row]) {
        assert current + rows == (current + [row]) + rows[1..];
        GreedyPartitions(t, e, current + [row], rows[1..]);
      } else {
        GreedyPartitions(t, e, [row], rows[1..]);
        assert rows == [row] + rows[1..];
        CloseFirst(t, e, MakeCandidate(t, e, current).value, row, rows[1..], Greedy(t, e, [row], rows[1..]).value);
      }
    }
  }

  // ----- Optimality -----

  /** Fitting is inherited by contiguous non-empty slices. */
  ghost predicate SliceClosed(t: Template, e: Estimator) {
    forall rows, i, j :: 0 <= i < j <= |rows| && Good(t, e, rows) ==> Good(t, e, rows[i..j])
  }

  lemma PackReachesNext(t: Template, e: Estimator, before: seq<Row>, current: seq<Row>, rows: seq<Row>, pack: seq<Row>)
    requires SliceClosed(t, e) && rows != []
    requires Good(t, e, pack) && pack <= before + current + rows && |pack| > |before| + |current|
    ensures Good(t, e, current + [rows[0]])
  {
    var n := |before| + |current|;
    assert pack[|before|..n + 1] == current + [rows[0]];
    assert Good(t, e, pack[|before|..n + 1]);
  }

  /** If the open pack cannot take the next row, no fitting pack starting no later can reach past it. */
  lemma PackEndsEarly(t: Template, e: Estimator, before: seq<Row>, current: seq<Row>, rows: seq<Row>, pack: seq<Row>)
    requires SliceClosed(t, e) && rows != [] && !Good(t, e, current + [rows[0]])
    requires Good(t, e, pack) && pack <= before + current + rows
    ensures |pack| <= |before| + |current|
  {
    if |pack| > |before| + |current| {
      PackReachesNext(t, e, before, current, rows, pack);
    }
  }

  /** When the open pack must close, the rows after the partition's first pack start no later than the new open pack. */
  lemma AfterFirstPack(t: Template, e: Estimator, before: seq<Row>, current: seq<Row>, rows: seq<Row>, packs: seq<seq<Row>>)
    returns (rest: seq<Row>)
    requires SliceClosed(t, e) && rows != [] && !Good(t, e, current + [rows[0]])
    requires Partition(t, e, packs, before + current + rows)
    ensures packs != [] && Partition(t, e, packs[1..], rest + [rows[0]] + rows[1..])
  {
    var all := before + current + rows;
    assert packs != [];
    assert packs == [packs[0]] + packs[1..];
    assert all == packs[0] + Flatten(packs[1..]);
    PackEndsEarly(t, e, before, current, rows, packs[0]);
    rest := (before + current)[|packs[0]|..];
    assert Flatten(packs[1..]) == all[|packs[0]|..] == rest + [rows[0]] + rows[1..];
  }

  /** Greedy stays ahead: a partition that starts no later than the open pack needs no fewer packs. */
  lemma {:induction false} GreedyStaysAhead(t: Template, e: Estimator, before: seq<Row>, current: seq<Row>, rows: seq<Row>,
                                            packs: seq<seq<Row>>)
    requires SliceClosed(t, e) && OpenPack(t, e, current) && Greedy(t, e, current, rows).Ok?
    requires Partition(t, e, packs, before + current + rows)
    ensures |Greedy(t, e, current, rows).value| <= |packs|
    decreases |rows|
  {
    if rows == [] {
      assert before + current + rows == before + current;
      assert current != [] ==> packs != [];
    } else if Good(t, e, current + [rows[0]]) {
      assert before + current + rows == before + (current + [rows[0]]) + rows[1..];
      GreedyStaysAhead(t, e, before, current + [rows[0]], rows[1..], packs);
    } else {
      var rest := AfterFirstPack(t, e, before, current, rows, packs);
      GreedyStaysAhead(t, e, rest, [rows[0]], rows[1..], packs[1..]);
    }
  }

  /** No partition of the rows into contiguous fitting packs has fewer packs than the greedy one. */
  lemma GreedyIsOptimal(t: Template, e: Estimator, rows: seq<Row>, packs: seq<seq<Row>>)
    requires SliceClosed(t, e) && Greedy(t, e, [], rows).Ok?
    requires Partition(t, e, packs, rows)
    ensures |Greedy(t, e, [], rows).value| <= |packs|
  {
    assert [] + [] + rows == rows;
    GreedyStaysAhead(t, e, [], [], rows, packs);
  }

  // ----- When packing fails -----

  /** The first row that cannot stand alone decides how packing fails. */
  function FirstBad(t: Template, e: Estimator, rows: seq<Row>): Option<PackError> {
    if rows == [] then None
    else if Verdict(t, e, rows[0]).Some? then Verdict(t, e, rows[0])
    else FirstBad(t, e, rows[1..])
  }

  /** Estimates are never negative and never fall when the payload or the row count grows. */
  ghost predicate Monotone(e: Estimator) {
    && (forall p, q :: |p| <= |q| ==> 0 <= e.input(p) <= e.input(q))
    && (forall m: nat, n: nat :: m <= n ==> 0 <= e.output(m) <= e.output(n))
  }

  /** Estimates are never negative. */
  ghost predicate NonNegative(e: Estimator) {
    (forall p :: e.input(p) >= 0) && forall n: nat :: e.output(n) >= 0
  }

  lemma MonotoneIsNonNegative(e: Estimator)
    requires Monotone(e)
    ensures NonNegative(e)
  {
    forall p ensures e.input(p) >= 0 {
      assert |p| <= |p|;
    }
    forall n: nat ensures e.output(n) >= 0 {
      assert n <= n;
    }
  }

  /** Why a candidate cannot be made: what it holds is not canonical, or else an estimate is negative. */
  lemma MakeCandidateOk(t: Template, e: Estimator, rows: seq<Row>)
    ensures MakeCandidate(t, e, rows) == Err(NotCanonical) <==> t.head.None? || !Encodable(rows)
    ensures MakeCandidate(t, e, rows).Err? ==> MakeCandidate(t, e, rows).error in {NotCanonical, BadEstimate}
    ensures NonNegative(e) ==> MakeCandidate(t, e, rows) != Err(BadEstimate)
  {}

  /**
   * Packing fails exactly when some row cannot stand alone, with the error of the first such row, unless the estimator
   * broke its contract and gave a negative estimate, which is reported as such.
   */
  lemma {:induction false} GreedyFailsIff(t: Template, e: Estimator, current: seq<Row>, rows: seq<Row>)
    requires SliceClosed(t, e) && OpenPack(t, e, current)
    ensures var r := Greedy(t, e, current, rows);
            r == Err(BadEstimate) || if FirstBad(t, e, rows).Some? then r == Err(FirstBad(t, e, rows).value) else r.Ok?
    ensures NonNegative(e) ==> Greedy(t, e, current, rows) != Err(BadEstimate)
    decreases |rows|
  {
    MakeCandidateOk(t, e, current);
    if rows != [] {
      var row := rows[0];
      var grown := current + [row];
      MakeCandidateOk(t, e, grown);
      MakeCandidateOk(t, e, [row]);
      assert grown[|current|..|grown|] == [row];
      assert current == [] ==> grown == [row];
      if Good(t, e, grown) {
        assert Good(t, e, [row]);
        GreedyFailsIff(t, e, grown, rows[1..]);
      } else {
        EncodableAppend(current, row);
        if Verdict(t, e, row).None? { GreedyFailsIff(t, e, [row], rows[1..]); }
      }
    }
  }

  lemma EncodableAppend(current: seq<Row>, row: Row)
    ensures Encodable(current + [row]) <==> Encodable(current) && row.encoded.Some?
  {
    assert forall i :: 0 <= i < |current| ==> (current + [row])[i] == current[i];
    assert (current + [row])[|current|] == row;
  }

  // ----- Payload length is additive, so monotone estimates make fitting slice-closed -----

  function Sizes(rows: seq<Row>): nat
    requires Encodable(rows)
  {
    if rows == [] then 0 else |rows[0].encoded.value| + Sizes(rows[1..])
  }

  lemma {:induction false} JoinLength(rows: seq<Row>)
    requires Encodable(rows)
    ensures |Join(rows)| == Sizes(rows) + if rows == [] then 0 else |rows| - 1
  {
    if |rows| > 1 {
      JoinLength(rows[1..]);
    }
  }

  lemma {:induction false} SizesConcat(a: seq<Row>, b: seq<Row>)
    requires Encodable(a) && Encodable(b)
    ensures Encodable(a + b) && Sizes(a + b) == Sizes(a) + Sizes(b)
  {
    if a == [] {
      assert a + b == b;
    } else {
      SizesConcat(a[1..], b);
      assert (a + b)[1..] == a[1..] + b;
    }
  }

  lemma SliceNoLonger(rows: seq<Row>, i: nat, j: nat)
    requires Encodable(rows) && i < j <= |rows|
    ensures Encodable(rows[i..j]) && |Join(rows[i..j])| <= |Join(rows)|
  {
    var a, b, c := rows[..i], rows[i..j], rows[j..];
    assert Encodable(a) && Encodable(b) && Encodable(c);
    SizesConcat(a, b);
    SizesConcat(a + b, c);
    assert rows == a + b + c;
    JoinLength(rows);
    JoinLength(b);
  }

  /** With any monotone estimator, every contiguous slice of rows that fit together fits too. */
  lemma MonotoneIsSliceClosed(t: Template, e: Estimator)
    requires Monotone(e)
    ensures SliceClosed(t, e)
  {
    forall rows, i, j | 0 <= i < j <= |rows| && Good(t, e, rows) ensures Good(t, e, rows[i..j]) {
      SliceIsGood(t, e, rows, i, j);
    }
  }

  lemma SliceIsGood(t: Template, e: Estimator, rows: seq<Row>, i: nat, j: nat)
    requires Monotone(e) && i < j <= |rows| && Good(t, e, rows)
    ensures Good(t, e, rows[i..j])
  {
    SliceNoLonger(rows, i, j);
    var whole, slice := MakeCandidate(t, e, rows).value, rows[i..j];
    MakeCandidateOk(t, e, slice);
    var part := MakeCandidate(t, e, slice).value;
    assert |part.payload| <= |whole.payload|;
    assert e.input(part.payload) <= e.input(whole.payload);
    assert e.output(|slice|) <= e.output(|rows|);
  }

  /** `_PrototypeTokenEstimator`: one token for four bytes begun, eight for a row, at least one. */
  function PrototypeEstimator(): Estimator {
    Estimator((payload: Bytes) => Max((|payload| + 3) / 4, 1), (rows: nat) => Max(rows * 8, 1))
  }

  lemma PrototypeIsMonotone()
    ensures Monotone(PrototypeEstimator())
  {}

  /** The prototype's packing, whole: it succeeds exactly when every row fits alone, and then optimally. */
  lemma PrototypePacking(t: Template, rows: seq<Row>, packs: seq<seq<Row>>)
    ensures var e := PrototypeEstimator();
            var r := Greedy(t, e, [], rows);
            && (r.Ok? <==> forall i :: 0 <= i < |rows| ==> Good(t, e, [rows[i]]))
            && (r.Ok? && Partition(t, e, packs, rows) ==> |r.value| <= |packs|)
  {
    var e := PrototypeEstimator();
    PrototypeIsMonotone();
    MonotoneIsNonNegative(e);
    MonotoneIsSliceClosed(t, e);
    GreedyFailsIff(t, e, [], rows);
    NoneBadIff(t, e, rows);
    if Greedy(t, e, [], rows).Ok? && Partition(t, e, packs, rows) {
      GreedyIsOptimal(t, e, rows, packs);
    }
  }

  lemma {:induction false} NoneBadIff(t: Template, e: Estimator, rows: seq<Row>)
    ensures FirstBad(t, e, rows).None? <==> forall i :: 0 <= i < |rows| ==> Good(t, e, [rows[i]])
  {
    if rows != [] {
      NoneBadIff(t, e, rows[1..]);
      assert forall i :: 1 <= i < |rows| ==> rows[i] == rows[1..][i - 1];
      assert forall i :: 0 <= i < |rows[1..]| ==> rows[1..][i] == rows[i + 1];
    }
  }

  // ----- Prepared tasks -----

  /** SHA-256 is taken as injective: a payload's reference is named by the payload itself. */
  datatype Reference = Reference(content: Bytes)

  datatype PackedRequest = PackedRequest(
    task: string, version: string, index: nat, inputIds: seq<Id>, payload: Bytes, inputTokens: nat, outputTokens: nat)

  datatype ModelWork = ModelWork(
    task: string, reference: Reference, inputIds: seq<Id>, version: string, inputTokens: nat, outputTokens: nat)

  datatype PreparedTask = PreparedTask(template: Template, rows: seq<Row>, packs: seq<PackedRequest>, work: seq<ModelWork>)

  function IdsOf(rows: seq<Row>): (r: seq<Id>)
    ensures |r| == |rows| && forall i :: 0 <= i < |rows| ==> r[i] == rows[i].identifier
  {
    Map((row: Row) => row.identifier, rows)
  }

  function Packed(t: Template, index: nat, c: Candidate): PackedRequest {
    PackedRequest(t.task, t.version, index, IdsOf(c.rows), c.payload, c.inputTokens, c.outputTokens)
  }

  function WorkFor(t: Template, c: Candidate): ModelWork {
    ModelWork(t.task, Reference(c.payload), IdsOf(c.rows), t.version, c.inputTokens, c.outputTokens)
  }

  function PacksOf(t: Template, cs: seq<Candidate>): (r: seq<PackedRequest>)
    ensures |r| == |cs| && forall i :: 0 <= i < |cs| ==> r[i] == Packed(t, i, cs[i])
  {
    seq(|cs|, i requires 0 <= i < |cs| => Packed(t, i, cs[i]))
  }

  function WorksOf(t: Template, cs: seq<Candidate>): (r: seq<ModelWork>)
    ensures |r| == |cs| && forall i :: 0 <= i < |cs| ==> r[i] == WorkFor(t, cs[i])
  {
    seq(|cs|, i requires 0 <= i < |cs| => WorkFor(t, cs[i]))
  }

  function PayloadsOf(cs: seq<Candidate>): (r: seq<Bytes>)
    ensures |r| == |cs| && forall i :: 0 <= i < |cs| ==> r[i] == cs[i].payload
  {
    Map((c: Candidate) => c.payload, cs)
  }

  /** `prepare`: either nothing is stored, or every payload in pack order. */
  function Prepare(t: Template, e: Estimator, rows: seq<Row>): (Result<PreparedTask, PackError>, seq<Bytes>) {
    var candidates := Greedy(t, e, [], rows);
    if candidates.Err? then (Err(candidates.error), [])
    else (Ok(PreparedTask(t, rows, PacksOf(t, candidates.value), WorksOf(t, candidates.value))), PayloadsOf(candidates.value))
  }

  /** What `TaskInvocation` and `RowInput` require of their rows. */
  predicate InvocationAccepted(rows: seq<Row>) {
    rows != [] && Distinct(IdsOf(rows)) && forall i :: 0 <= i < |rows| ==> !Blank(rows[i].identifier)
  }

  /** What the `PackedRequest` constructor requires. */
  predicate RequestAccepted(p: PackedRequest) {
    && p.inputIds != [] && Distinct(p.inputIds) && (forall i :: 0 <= i < |p.inputIds| ==> !Blank(p.inputIds[i]))
    && p.payload != [] && !Blank(p.version)
  }

  function PackIds(packs: seq<PackedRequest>): (r: seq<seq<Id>>)
    ensures |r| == |packs| && forall i :: 0 <= i < |packs| ==> r[i] == packs[i].inputIds
  {
    Map((p: PackedRequest) => p.inputIds, packs)
  }

  /** What the `PreparedTask` constructor requires. */
  predicate TaskAccepted(p: PreparedTask) {
    && p.packs != [] && |p.packs| == |p.work|
    && Flatten(PackIds(p.packs)) == IdsOf(p.rows)
    && forall i :: 0 <= i < |p.packs| ==>
      && p.packs[i].task == p.template.task && p.packs[i].version == p.template.version
      && p.packs[i].index == i
      && p.work[i].task == p.template.task && p.work[i].inputIds == p.packs[i].inputIds
  }

  lemma {:induction false} FlattenIds(parts: seq<seq<Row>>)
    ensures Flatten(Map(IdsOf, parts)) == IdsOf(Flatten(parts))
  {
    if parts != [] {
      FlattenIds(parts[1..]);
      assert Map(IdsOf, parts)[1..] == Map(IdsOf, parts[1..]);
    }
  }

  lemma {:induction false} PartWithin<T(!new)>(parts: seq<seq<T>>, i: nat) returns (offset: nat)
    requires i < |parts|
    ensures offset + |parts[i]| <= |Flatten(parts)|
    ensures Flatten(parts)[offset..offset + |parts[i]|] == parts[i]
  {
    if i == 0 {
      offset := 0;
    } else {
      var k := PartWithin(parts[1..], i - 1);
      offset := |parts[0]| + k;
    }
  }

  /** A prepared task is never refused by its own constructors, and keeps the invocation's row order. */
  lemma PreparedIsAccepted(t: Template, e: Estimator, rows: seq<Row>)
    requires InvocationAccepted(rows) && !Blank(t.version) && Prepare(t, e, rows).0.Ok?
    requires t.head.Some? && t.head.value != []
    ensures TaskAccepted(Prepare(t, e, rows).0.value)
    ensures forall i :: 0 <= i < |Prepare(t, e, rows).0.value.packs| ==> RequestAccepted(Prepare(t, e, rows).0.value.packs[i])
  {
    var cs := Greedy(t, e, [], rows).value;
    GreedyPartitions(t, e, [], rows);
    assert [] + rows == rows;
    var parts := RowsOf(cs);
    FlattenIds(parts);
    var packs := PacksOf(t, cs);
    assert PackIds(packs) == Map(IdsOf, parts);
    forall i | 0 <= i < |packs| ensures RequestAccepted(packs[i]) {
      PackAccepted(t, rows, cs, i);
    }
  }

  lemma PackAccepted(t: Template, rows: seq<Row>, cs: seq<Candidate>, i: nat)
    requires InvocationAccepted(rows) && !Blank(t.version) && t.head.Some? && t.head.value != []
    requires Flatten(RowsOf(cs)) == rows && i < |cs| && cs[i].rows != [] && Payload(t, cs[i].rows) == Ok(cs[i].payload)
    ensures RequestAccepted(Packed(t, i, cs[i]))
  {
    var offset := PartWithin(RowsOf(cs), i);
    assert forall k :: 0 <= k < |cs[i].rows| ==> cs[i].rows[k] == rows[offset + k];
    var ids := IdsOf(cs[i].rows);
    assert forall k :: 0 <= k < |ids| ==> ids[k] == IdsOf(rows)[offset + k];
  }

  // ----- The limits, in numbers -----

  /** What the estimator and the encoding say of these rows as one request is within every limit. */
  predicate WithinLimits(t: Template, e: Estimator, rows: seq<Row>, payload: Bytes) {
    && |rows| <= t.limits.maxItems && |payload| <= t.limits.maxPayloadBytes
    && e.input(payload) <= t.limits.maxInputTokens && e.output(|rows|) <= t.limits.maxOutputTokens
  }

  /** The rows have a payload, and as one request exceed a limit. */
  predicate Exceeds(t: Template, e: Estimator, rows: seq<Row>) {
    Payload(t, rows).Ok? && !WithinLimits(t, e, rows, Payload(t, rows).value)
  }

  /** The next part begins with a row that the `i`-th could not take. */
  predicate FullAt(t: Template, e: Estimator, parts: seq<seq<Row>>, i: int)
    requires 0 <= i < |parts| - 1
  {
    parts[i + 1] != [] && Exceeds(t, e, parts[i] + [parts[i + 1][0]])
  }

  predicate TakesAllItCan(t: Template, e: Estimator, parts: seq<seq<Row>>) {
    forall i :: 0 <= i < |parts| - 1 ==> FullAt(t, e, parts, i)
  }

  lemma TakesAllCons(t: Template, e: Estimator, first: seq<Row>, row: Row, rest: seq<seq<Row>>)
    requires TakesAllItCan(t, e, rest) && rest != [] && rest[0] != [] && rest[0][0] == row && Exceeds(t, e, first + [row])
    ensures TakesAllItCan(t, e, [first] + rest)
  {
    var parts := [first] + rest;
    forall i | 0 <= i < |parts| - 1 ensures FullAt(t, e, parts, i) {
      if i > 0 { assert FullAt(t, e, rest, i - 1); }
    }
  }

  /** The greedy packs begin with what was open, and each takes all it can. */
  lemma {:induction false} GreedyTakesAll(t: Template, e: Estimator, current: seq<Row>, rows: seq<Row>)
    requires OpenPack(t, e, current) && Greedy(t, e, current, rows).Ok?
    ensures var parts := RowsOf(Greedy(t, e, current, rows).value);
            && TakesAllItCan(t, e, parts)
            && (current != [] ==> parts != [] && parts[0] != [] && parts[0][0] == current[0])
    decreases |rows|
  {
    if rows != [] {
      var row := rows[0];
      if Good(t, e, current + [row]) {
        GreedyTakesAll(t, e, current + [row], rows[1..]);
        if current != [] { assert (current + [row])[0] == current[0]; }
      } else {
        GreedyTakesAll(t, e, [row], rows[1..]);
        var closed, rest := MakeCandidate(t, e, current).value, Greedy(t, e, [row], rows[1..]).value;
        TakesAllCons(t, e, current, row, RowsOf(rest));
        assert RowsOf([closed] + rest) == [current] + RowsOf(rest);
      }
    }
  }

  /** The pack's rows are those of the request, whose payload and estimates they are. */
  predicate IsPackOf(t: Template, e: Estimator, p: PackedRequest, rows: seq<Row>) {
    && p.inputIds == IdsOf(rows) && Payload(t, rows) == Ok(p.payload)
    && p.inputTokens == e.input(p.payload) && p.outputTokens == e.output(|rows|)
  }

  /** The request is these rows, and within every limit. */
  predicate KeepsLimits(t: Template, e: Estimator, p: PackedRequest, rows: seq<Row>) {
    && IsPackOf(t, e, p, rows)
    && 1 <= |p.inputIds| <= t.limits.maxItems && |p.payload| <= t.limits.maxPayloadBytes
    && p.inputTokens <= t.limits.maxInputTokens && p.outputTokens <= t.limits.maxOutputTokens
  }

  lemma PackedKeepsLimits(t: Template, e: Estimator, index: nat, c: Candidate)
    requires c.rows != [] && Good(t, e, c.rows) && MakeCandidate(t, e, c.rows) == Ok(c)
    ensures KeepsLimits(t, e, Packed(t, index, c), c.rows)
  {}

  /**
   * The packs of a prepared task are its rows in order. Each is within the limits of items, input tokens, output tokens and
   * payload bytes, and would exceed one with the row that comes after it.
   */
  lemma PreparedWithinLimits(t: Template, e: Estimator, rows: seq<Row>) returns (parts: seq<seq<Row>>)
    requires Prepare(t, e, rows).0.Ok?
    ensures var packs := Prepare(t, e, rows).0.value.packs;
            && |parts| == |packs| && Flatten(parts) == rows && TakesAllItCan(t, e, parts)
            && forall i :: 0 <= i < |packs| ==> KeepsLimits(t, e, packs[i], parts[i])
  {
    var cs := Greedy(t, e, [], rows).value;
    GreedyPartitions(t, e, [], rows);
    GreedyTakesAll(t, e, [], rows);
    assert [] + rows == rows;
    parts := RowsOf(cs);
    forall i | 0 <= i < |cs| ensures KeepsLimits(t, e, Packed(t, i, cs[i]), parts[i]) {
      PackedKeepsLimits(t, e, i, cs[i]);
    }
  }

  // ----- Payloads and work -----

  /** Encoded rows are joined by commas. */
  lemma {:induction false} JoinConcat(a: seq<Row>, b: seq<Row>)
    requires a != [] && b != [] && Encodable(a) && Encodable(b)
    ensures Encodable(a + b) && Join(a + b) == Join(a) + "," + Join(b)
  {
    if |a| == 1 {
      assert (a + b)[1..] == b && (a + b)[0] == a[0];
    } else {
      JoinConcat(a[1..], b);
      assert (a + b)[1..] == a[1..] + b && (a + b)[0] == a[0];
      assert a[0].encoded.value + "," + (Join(a[1..]) + "," + Join(b)) == (a[0].encoded.value + "," + Join(a[1..])) + "," + Join(b);
    }
  }

  /** Each pack's model work names its task, version and rows, refers to its payload, and carries its estimates. */
  lemma WorkMatchesPacks(t: Template, e: Estimator, rows: seq<Row>, i: nat)
    requires Prepare(t, e, rows).0.Ok? && i < |Prepare(t, e, rows).0.value.packs|
    ensures var task := Prepare(t, e, rows).0.value;
            && |task.work| == |task.packs| == |Prepare(t, e, rows).1| && task.rows == rows && task.template == t
            && Prepare(t, e, rows).1[i] == task.packs[i].payload == task.work[i].reference.content
            && (task.work[i].task, task.work[i].version, task.work[i].inputIds)
               == (task.packs[i].task, task.packs[i].version, task.packs[i].inputIds) == (t.task, t.version, task.packs[i].inputIds)
            && (task.work[i].inputTokens, task.work[i].outputTokens) == (task.packs[i].inputTokens, task.packs[i].outputTokens)
  {}
}
