/**
 * The second effect of `useNotifications`: every requested or completed
 * proof is paired with the attestation classifier's verdict, and the proofs
 * that are not attestation requests become `nonAttestationProofs`.
 * The classifier is given as one verdict per proof, in the same order.
 */
module ProofFilter {
  import opened Records
  import opened Sequences

  /** `{ value: proof, include: !isAttestation }`; `include` is a reserved word here, so the field is `included` */
  datatype Classified = Classified(value: Proof, included: bool)

  /** The `.map` that pairs each proof with its verdict. */
  function Classify(proofs: seq<Proof>, isAttestation: seq<bool>): seq<Classified>
    requires |isAttestation| == |proofs|
  {
    seq(|proofs|, i requires 0 <= i < |proofs| => Classified(proofs[i], !isAttestation[i]))
  }

  /** The `.map` back to the proofs. */
  function Values(cs: seq<Classified>): seq<Proof>
  {
    seq(|cs|, i requires 0 <= i < |cs| => cs[i].value)
  }

  /**
   * `Promise.all` over the classifier calls: `None` for a call that
   * rejected. The verdicts come back, in input order, only when every call
   * resolved; one rejection rejects the whole batch.
   */
  function JoinVerdicts(outcomes: seq<Option<bool>>): (r: Option<seq<bool>>)
    ensures r.Some? <==> forall i :: 0 <= i < |outcomes| ==> outcomes[i].Some?
    ensures r.Some? ==> |r.value| == |outcomes| && forall i :: 0 <= i < |outcomes| ==> r.value[i] == outcomes[i].value
  {
    if outcomes == [] then Some([])
    else if outcomes[0].None? then None
    else
      match JoinVerdicts(outcomes[1..])
      case None => None
      case Some(rest) => Some([outcomes[0].value] + rest)
  }

  predicate Included(c: Classified) {
    c.included
  }

  /**
   * The positions, in increasing order, whose verdict is "not an
   * attestation": exactly the proofs the `include` filter lets through.
   */
  function NonAttestationPositions(isAttestation: seq<bool>): (idx: seq<int>)
    ensures forall k :: 0 <= k < |idx| ==> 0 <= idx[k] < |isAttestation| && !isAttestation[idx[k]]
    ensures forall i :: 0 <= i < |isAttestation| && !isAttestation[i] ==> i in idx
    ensures forall k, l :: 0 <= k < l < |idx| ==> idx[k] < idx[l]
  {
    if isAttestation == [] then []
    else
      var n := |isAttestation| - 1;
      NonAttestationPositions(isAttestation[..n]) + (if isAttestation[n] then [] else [n])
  }

  /** The `filter`/`map` of the classified proofs: the proof at each position whose verdict is false, in order. */
  lemma {:induction false} SelectsNonAttestationPositions(proofs: seq<Proof>, isAttestation: seq<bool>)
    requires |isAttestation| == |proofs|
    ensures var r := Values(Filter(Classify(proofs, isAttestation), Included));
      var idx := NonAttestationPositions(isAttestation);
      |r| == |idx| && forall k :: 0 <= k < |r| ==> r[k] == proofs[idx[k]]
  {
    if proofs != [] {
      var n := |proofs| - 1;
      var front, verdicts := proofs[..n], isAttestation[..n];
      SelectsNonAttestationPositions(front, verdicts);
      SelectionOfLast(proofs, isAttestation);
      var r := Values(Filter(Classify(proofs, isAttestation), Included));
      var before := Values(Filter(Classify(front, verdicts), Included));
      var idx := NonAttestationPositions(isAttestation);
      var idxBefore := NonAttestationPositions(verdicts);
      assert idx == idxBefore + (if isAttestation[n] then [] else [n]);
      forall k | 0 <= k < |r| ensures r[k] == proofs[idx[k]] {
        if k < |before| {
          assert r[k] == before[k] == front[idxBefore[k]];
        }
      }
    }
  }

  /** Classifying one more proof adds it to the selection exactly when its verdict is false. */
  lemma SelectionOfLast(proofs: seq<Proof>, isAttestation: seq<bool>)
    requires |isAttestation| == |proofs| && proofs != []
    ensures var n := |proofs| - 1;
      Values(Filter(Classify(proofs, isAttestation), Included))
      == Values(Filter(Classify(proofs[..n], isAttestation[..n]), Included))
         + (if isAttestation[n] then [] else [proofs[n]])
  {
    var n := |proofs| - 1;
    var front := Classify(proofs[..n], isAttestation[..n]);
    var last := Classified(proofs[n], !isAttestation[n]);
    ClassifyLast(proofs, isAttestation);
    FilterAppend(front, [last], Included);
    assert [last][1..] == [];
    var kept := Filter(front, Included);
    var tail := if isAttestation[n] then [] else [last];
    assert Filter(front + [last], Included) == kept + tail;
    ValuesAppend(kept, tail);
  }

  lemma ClassifyLast(proofs: seq<Proof>, isAttestation: seq<bool>)
    requires |isAttestation| == |proofs| && proofs != []
    ensures var n := |proofs| - 1;
      Classify(proofs, isAttestation)
      == Classify(proofs[..n], isAttestation[..n]) + [Classified(proofs[n], !isAttestation[n])]
  {
    var n := |proofs| - 1;
    var whole, front := Classify(proofs, isAttestation), Classify(proofs[..n], isAttestation[..n]);
    var expected := front + [Classified(proofs[n], !isAttestation[n])];
    assert |whole| == |expected|;
    forall i | 0 <= i < |whole| ensures whole[i] == expected[i] {
      if i < n {
        assert expected[i] == front[i];
      }
    }
  }

  lemma ValuesAppend(a: seq<Classified>, b: seq<Classified>)
    ensures Values(a + b) == Values(a) + Values(b)
  {
  }

  /**
   * `nonAttestationProofs` after one classification cycle over
   * `proofsRequested ++ proofsDone`: the proof at every position whose
   * verdict is "not an attestation", in input order, duplicates included,
   * and no other.
   */
  function FilterProofs(proofsRequested: seq<Proof>, proofsDone: seq<Proof>, isAttestation: seq<bool>): (r: seq<Proof>)
    requires |isAttestation| == |proofsRequested| + |proofsDone|
    ensures var idx := NonAttestationPositions(isAttestation);
      |r| == |idx| && forall k :: 0 <= k < |r| ==> r[k] == (proofsRequested + proofsDone)[idx[k]]
  {
    SelectsNonAttestationPositions(proofsRequested + proofsDone, isAttestation);
    Values(Filter(Classify(proofsRequested + proofsDone, isAttestation), Included))
  }

  /**
   * A proof is in `nonAttestationProofs` exactly when some occurrence of it
   * in `proofsRequested ++ proofsDone` was classified as not an attestation.
   */
  lemma FilterProofsMembership(proofsRequested: seq<Proof>, proofsDone: seq<Proof>, isAttestation: seq<bool>, p: Proof)
    requires |isAttestation| == |proofsRequested| + |proofsDone|
    ensures var proofs := proofsRequested + proofsDone;
      p in FilterProofs(proofsRequested, proofsDone, isAttestation) <==>
        exists i :: 0 <= i < |proofs| && proofs[i] == p && !isAttestation[i]
  {
    var proofs := proofsRequested + proofsDone;
    var classified := Classify(proofs, isAttestation);
    var kept := Filter(classified, Included);
    var r := Values(kept);
    if p in r {
      var k :| 0 <= k < |r| && r[k] == p;
      assert kept[k] in classified && Included(kept[k]);
      var i :| 0 <= i < |classified| && classified[i] == kept[k];
      assert proofs[i] == p && !isAttestation[i];
    }
    if exists i :: 0 <= i < |proofs| && proofs[i] == p && !isAttestation[i] {
      var i :| 0 <= i < |proofs| && proofs[i] == p && !isAttestation[i];
      assert classified[i] in classified && Included(classified[i]);
      var k :| 0 <= k < |kept| && kept[k] == classified[i];
      assert r[k] == p;
    }
  }

  lemma {:induction false} ValuesKeepSubsequence(sub: seq<Classified>, s: seq<Classified>)
    requires IsSubsequence(sub, s)
    ensures IsSubsequence(Values(sub), Values(s))
    decreases |s|
  {
    if sub != [] {
      assert Values(s)[1..] == Values(s[1..]);
      assert Values(sub)[1..] == Values(sub[1..]);
      if sub[0] == s[0] {
        ValuesKeepSubsequence(sub[1..], s[1..]);
      } else {
        ValuesKeepSubsequence(sub, s[1..]);
        SubsequenceOfTail(Values(sub), Values(s));
      }
    }
  }

  /** `nonAttestationProofs` keeps the order of `proofsRequested ++ proofsDone`. */
  lemma FilterProofsIsSubsequence(proofsRequested: seq<Proof>, proofsDone: seq<Proof>, isAttestation: seq<bool>)
    requires |isAttestation| == |proofsRequested| + |proofsDone|
    ensures IsSubsequence(FilterProofs(proofsRequested, proofsDone, isAttestation), proofsRequested + proofsDone)
  {
    var classified := Classify(proofsRequested + proofsDone, isAttestation);
    FilterIsSubsequence(classified, Included);
    ValuesKeepSubsequence(Filter(classified, Included), classified);
    assert Values(classified) == proofsRequested + proofsDone;
  }

  /**
   * When no proof is an attestation request, `nonAttestationProofs` is the
   * whole of `proofsRequested ++ proofsDone`, duplicates included.
   */
  lemma FilterProofsKeepsDuplicates(proofsRequested: seq<Proof>, proofsDone: seq<Proof>, isAttestation: seq<bool>)
    requires |isAttestation| == |proofsRequested| + |proofsDone|
    requires forall i :: 0 <= i < |isAttestation| ==> !isAttestation[i]
    ensures FilterProofs(proofsRequested, proofsDone, isAttestation) == proofsRequested + proofsDone
  {
    var classified := Classify(proofsRequested + proofsDone, isAttestation);
    FilterKeepsAll(classified, Included);
    assert Values(classified) == proofsRequested + proofsDone;
  }

  /**
   * With a repeated proof and mixed verdicts, each occurrence judged not an
   * attestation survives in its own place: `[q, p] ++ [q]` with verdicts
   * `[true, false, false]` gives `[p, q]`.
   */
  lemma MixedVerdictsKeepPositions(p: Proof, q: Proof)
    ensures FilterProofs([q, p], [q], [true, false, false]) == [p, q]
  {
    var verdicts := [true, false, false];
    PositionsOfMixedVerdicts();
    var proofs := [q, p] + [q];
    assert proofs[1] == p && proofs[2] == q;
    var r := FilterProofs([q, p], [q], verdicts);
    assert |r| == 2 && r[0] == proofs[1] && r[1] == proofs[2];
  }

  lemma PositionsOfMixedVerdicts()
    ensures NonAttestationPositions([true, false, false]) == [1, 2]
  {
    assert [true, false, false][..2] == [true, false] && [true, false][..1] == [true] && [true][..0] == [];
    assert NonAttestationPositions([true]) == [];
    assert NonAttestationPositions([true, false]) == [1];
  }
}
