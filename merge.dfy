/**
 * The merge step of `make_restraints` (create_restraints.py:12-27): each CA
 * row gets a confidence (its own B-factor, or the aligned score from the
 * confidence file), the secondary-structure class looked up under
 * (str(residue_number), chain_id), and the category computed from both.
 */
module Merge {
  import opened Wrappers
  import opened SecondaryStructure
  import opened Classifier
  import opened Residues

  /** The `-p` argument: the literal `bf`, or the scores read from the confidence file. */
  datatype ConfidenceSource = BFactor | Scores(plddts: seq<real>)

  /**
   * The fatal conditions: an empty structure table (line 25 then aborts
   * whatever the scores), pandas' column-length check, and the dictionary's
   * KeyError.
   */
  datatype MergeError =
    | EmptyTable
    | LengthMismatch(rows: nat, scores: nat)
    | MissingKey(key: SsKey)

  /** The key a CA row is looked up under. */
  function LookupKey(a: CaAtom): SsKey {
    SsKey(DecimalString(a.residueNumber), a.chain)
  }

  predicate Aligned(atoms: seq<CaAtom>, confidence: ConfidenceSource) {
    confidence.Scores? ==> |confidence.plddts| == |atoms|
  }

  /** The confidence of row `k`. */
  function PlddtAt(atoms: seq<CaAtom>, confidence: ConfidenceSource, k: nat): real
    requires k < |atoms| && Aligned(atoms, confidence)
  {
    if confidence.BFactor? then atoms[k].bFactor else confidence.plddts[k]
  }

  /** Row `k` carries a key the secondary-structure dictionary has. */
  predicate Covered(atoms: seq<CaAtom>, sec: SsMap, k: nat)
    requires k < |atoms|
  {
    LookupKey(atoms[k]) in sec
  }

  /**
   * Row `k` with its three new columns: the confidence, the class stored under
   * its key, and the category of the two.
   */
  function Annotated(atoms: seq<CaAtom>, confidence: ConfidenceSource, sec: SsMap, k: nat): Residue
    requires k < |atoms| && Aligned(atoms, confidence) && Covered(atoms, sec, k)
  {
    var a, p := atoms[k], PlddtAt(atoms, confidence, k);
    Residue(a.residueNumber, a.chain, a.coord, p, sec[LookupKey(a)], Category(p, sec[LookupKey(a)]))
  }

  /**
   * Adds the plddt, ss and category columns row by row, in structure order.
   * An empty structure table fails; otherwise a score list of the wrong
   * length fails; otherwise the first row whose key is missing fails with
   * that key.
   */
  method MergeAnnotations(atoms: seq<CaAtom>, confidence: ConfidenceSource, sec: SsMap)
    returns (r: Result<seq<Residue>, MergeError>)
    ensures |atoms| == 0 <==> r.Err? && r.error.EmptyTable?
    ensures |atoms| > 0 && !Aligned(atoms, confidence) <==> r.Err? && r.error.LengthMismatch?
    ensures r.Err? && r.error.LengthMismatch? ==> r.error == LengthMismatch(|atoms|, |confidence.plddts|)
    ensures r.Err? && r.error.MissingKey? <==>
              Aligned(atoms, confidence) && exists k :: 0 <= k < |atoms| && !Covered(atoms, sec, k)
    ensures r.Err? && r.error.MissingKey? ==>
              exists k :: 0 <= k < |atoms| && !Covered(atoms, sec, k) && r.error.key == LookupKey(atoms[k])
                          && forall m :: 0 <= m < k ==> Covered(atoms, sec, m)
    ensures r.Ok? ==> |atoms| > 0 && Aligned(atoms, confidence) && |r.value| == |atoms|
    ensures r.Ok? ==> forall k :: 0 <= k < |atoms| ==>
              Covered(atoms, sec, k) && r.value[k] == Annotated(atoms, confidence, sec, k)
  {
    if |atoms| == 0 {
      return Err(EmptyTable);
    }
    if confidence.Scores? && |confidence.plddts| != |atoms| {
      return Err(LengthMismatch(|atoms|, |confidence.plddts|));
    }
    var rows: seq<Residue> := [];
    var k := 0;
    while k < |atoms|
      invariant 0 <= k <= |atoms| && |rows| == k
      invariant forall m :: 0 <= m < k ==>
                  Covered(atoms, sec, m) && rows[m] == Annotated(atoms, confidence, sec, m)
    {
      var a := atoms[k];
      var plddt := if confidence.BFactor? then a.bFactor else confidence.plddts[k];
      var key := LookupKey(a);
      if key !in sec {
        assert !Covered(atoms, sec, k);
        return Err(MissingKey(key));
      }
      var ss := sec[key];
      rows := rows + [Residue(a.residueNumber, a.chain, a.coord, plddt, ss, Category(plddt, ss))];
      k := k + 1;
    }
    return Ok(rows);
  }
}
