/** The filter step: keep the candidates that meet the request's hard
    requirements, in input order, and count them. */
module Filter {
  import opened GPUInfoTypes
  import opened Candidates

  /** The exact-match rule: enough accelerator time, and GPU presence EQUAL to
      the requirement, so a request without a GPU requirement rejects hosts
      that have one. */
  predicate Suitable(c: Candidate, spec: GPUInfoSpec) {
    c.availAccTime >= spec.DesAccTime && c.hasGPU == spec.GPURequired
  }

  /** The suitable candidates, in the order they were found. */
  function FilterSuitable(cs: seq<Candidate>, spec: GPUInfoSpec): (r: seq<Candidate>)
  {
    if |cs| == 0 then []
    else FilterSuitable(cs[..|cs| - 1], spec) + (if Suitable(cs[|cs| - 1], spec) then [cs[|cs| - 1]] else [])
  }

  /** The filtering law: a candidate survives exactly when it was a candidate
      and meets both requirements. */
  lemma {:induction false} FilterMembership(cs: seq<Candidate>, spec: GPUInfoSpec, c: Candidate)
    ensures c in FilterSuitable(cs, spec) <==> c in cs && Suitable(c, spec)
  {
    if |cs| > 0 {
      var init := cs[..|cs| - 1];
      FilterMembership(init, spec, c);
      assert cs == init + [cs[|cs| - 1]];
    }
  }

  /** Order preservation: filtering commutes with concatenation, so the
      survivors of an earlier part always precede those of a later part. */
  lemma {:induction false} FilterAppend(first: seq<Candidate>, second: seq<Candidate>, spec: GPUInfoSpec)
    ensures FilterSuitable(first + second, spec) == FilterSuitable(first, spec) + FilterSuitable(second, spec)
  {
    if |second| > 0 {
      var init := second[..|second| - 1];
      FilterAppend(first, init, spec);
      assert (first + second)[..|first + second| - 1] == first + init;
    } else {
      assert first + second == first;
    }
  }

  /** Filtering the survivors again removes nothing. */
  lemma {:induction false} FilterIdempotent(cs: seq<Candidate>, spec: GPUInfoSpec)
    ensures FilterSuitable(FilterSuitable(cs, spec), spec) == FilterSuitable(cs, spec)
  {
    if |cs| > 0 {
      var init, last := cs[..|cs| - 1], cs[|cs| - 1];
      var kept := if Suitable(last, spec) then [last] else [];
      FilterIdempotent(init, spec);
      FilterAppend(FilterSuitable(init, spec), kept, spec);
      assert FilterSuitable(kept, spec) == kept by {
        if Suitable(last, spec) {
          assert kept[..0] == [];
        }
      }
    }
  }

  /** The filter loop: append each suitable candidate and bump the counter. */
  method FilterCandidates(candidate: seq<Candidate>, spec: GPUInfoSpec)
    returns (bestCandidates: seq<Candidate>, suitableCandidates: int)
    ensures bestCandidates == FilterSuitable(candidate, spec)
    ensures suitableCandidates == |bestCandidates|
  {
    bestCandidates := [];
    suitableCandidates := 0;
    for i := 0 to |candidate|
      invariant bestCandidates == FilterSuitable(candidate[..i], spec)
      invariant suitableCandidates == |bestCandidates|
    {
      var entry := candidate[i];
      assert candidate[..i + 1][..i] == candidate[..i];
      if entry.availAccTime >= spec.DesAccTime && entry.hasGPU == spec.GPURequired {
        suitableCandidates := suitableCandidates + 1;
        bestCandidates := bestCandidates + [entry];
      }
    }
    assert candidate[..|candidate|] == candidate;
  }

  /** Worked example: with 350 hours and a GPU required, the first candidate
      lacks time, the third lacks a GPU, and only the second survives. */
  lemma FilterExample()
    ensures
      var a := Candidate("hostA", 320, true, 0, 50, "nodeA");
      var b := Candidate("hostB", 380, true, 0, 30, "nodeB");
      var c := Candidate("hostC", 390, false, 0, 10, "nodeC");
      FilterSuitable([a, b, c], GPUInfoSpec(350, true)) == [b]
  {
    var a := Candidate("hostA", 320, true, 0, 50, "nodeA");
    var b := Candidate("hostB", 380, true, 0, 30, "nodeB");
    var c := Candidate("hostC", 390, false, 0, 10, "nodeC");
    assert [a, b, c][..2] == [a, b];
    assert [a, b][..1] == [a];
    assert [a][..0] == [];
    var spec := GPUInfoSpec(350, true);
    assert FilterSuitable([a], spec) == [];
    assert FilterSuitable([a, b], spec) == [b];
  }
}
