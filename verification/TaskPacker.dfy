/** The packer: builds every pack before it stores a payload. */
module TaskPackerControl {
  import opened Prelude
  import opened Packing

  /** Content-addressed payload storage; `puts` lists what was stored, in order. */
  class PayloadStore {
    var puts: seq<Bytes>

    constructor ()
      ensures puts == []
    {
      puts := [];
    }

    method Put(payload: Bytes) returns (r: Reference)
      modifies this
      ensures puts == old(puts) + [payload] && r == Reference(payload)
    {
      puts := puts + [payload];
      r := Reference(payload);
    }
  }

  /** The candidates closed so far, followed by what is still to come. */
  ghost function Onward(closed: seq<Candidate>, rest: Result<seq<Candidate>, PackError>): Result<seq<Candidate>, PackError> {
    if rest.Err? then rest else Ok(closed + rest.value)
  }

  lemma OnwardNothing(rest: Result<seq<Candidate>, PackError>)
    ensures Onward([], rest) == rest
  {
    if rest.Ok? { assert [] + rest.value == rest.value; }
  }

  class DeterministicTaskPacker {
    const estimator: Estimator
    const store: PayloadStore

    constructor (estimator: Estimator, store: PayloadStore)
      ensures this.estimator == estimator && this.store == store
    {
      this.estimator, this.store := estimator, store;
    }

    /** `_build_candidates`. */
    method BuildCandidates(t: Template, rows: seq<Row>) returns (r: Result<seq<Candidate>, PackError>)
      ensures r == Greedy(t, estimator, [], rows)
    {
      var accepted: seq<Candidate> := [];
      var current: seq<Row> := [];
      assert rows[0..] == rows;
      OnwardNothing(Greedy(t, estimator, [], rows));
      for i := 0 to |rows|
        invariant Onward(accepted, Greedy(t, estimator, current, rows[i..])) == Greedy(t, estimator, [], rows)
      {
        var row := rows[i];
        assert rows[i..][0] == row && rows[i..][1..] == rows[i + 1..];
        var proposed := MakeCandidate(t, estimator, current + [row]);
        if proposed.Err? { return Err(proposed.error); }
        if Fits(t.limits, proposed.value) {
          current := proposed.value.rows;
        } else {
          if current == [] { return Err(OversizedRow(row.identifier)); }
          var closed := MakeCandidate(t, estimator, current);
          if closed.Err? { return Err(closed.error); }
          ghost var before := accepted;
          accepted := accepted + [closed.value];
          var single := MakeCandidate(t, estimator, [row]);
          if single.Err? { return Err(single.error); }
          if !Fits(t.limits, single.value) { return Err(OversizedRow(row.identifier)); }
          current := single.value.rows;
          ghost var rest := Greedy(t, estimator, current, rows[i + 1..]);
          assert rest.Ok? ==> before + ([closed.value] + rest.value) == accepted + rest.value;
        }
      }
      assert rows[|rows|..] == [];
      assert accepted + [] == accepted;
      if current != [] {
        var closed := MakeCandidate(t, estimator, current);
        if closed.Err? { return Err(closed.error); }
        accepted := accepted + [closed.value];
      }
      return Ok(accepted);
    }

    method Prepare(t: Template, rows: seq<Row>) returns (r: Result<PreparedTask, PackError>)
      modifies store
      ensures r == Packing.Prepare(t, estimator, rows).0
      ensures store.puts == old(store.puts) + Packing.Prepare(t, estimator, rows).1
    {
      var built := BuildCandidates(t, rows);
      if built.Err? {
        assert store.puts + [] == store.puts;
        return Err(built.error);
      }
      var candidates := built.value;
      var packs: seq<PackedRequest> := [];
      var work: seq<ModelWork> := [];
      for i := 0 to |candidates|
        invariant packs == PacksOf(t, candidates)[..i]
        invariant work == WorksOf(t, candidates)[..i]
        invariant store.puts == old(store.puts) + PayloadsOf(candidates)[..i]
      {
        var candidate := candidates[i];
        var reference := store.Put(candidate.payload);
        packs := packs + [Packed(t, i, candidate)];
        work := work + [WorkFor(t, candidate).(reference := reference)];
        assert PayloadsOf(candidates)[..i + 1] == PayloadsOf(candidates)[..i] + [candidate.payload];
      }
      assert packs == PacksOf(t, candidates) && work == WorksOf(t, candidates);
      return Ok(PreparedTask(t, rows, packs, work));
    }
  }
}
