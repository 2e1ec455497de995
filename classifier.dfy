/**
 * The residue classifier (`category_methods` in create_restraints.py): a
 * confidence score and a coarse structure class become a reliability
 * category between 0 and 3.
 */
module Classifier {
  import opened SecondaryStructure

  /** The confidence ladder, upper thresholds inclusive: <=50, <=70, <=90, above. */
  function BaseScore(plddt: real): int {
    if plddt <= 50.0 then 0
    else if plddt <= 70.0 then 1
    else if plddt <= 90.0 then 2
    else 3
  }

  /** Coil lowers the score, turn leaves it, helix and strand (the remaining classes) raise it. */
  function Adjustment(ss: SsClass): int {
    if ss == Coil then -1
    else if ss == Turn then 0
    else 1
  }

  /**
   * Ladder plus adjustment, clamped into [0, 3]. The ensures clauses give the
   * whole table by class and confidence band, independently of the ladder.
   */
  function Category(plddt: real, ss: SsClass): (c: int)
    ensures 0 <= c <= 3
    ensures c == 0 <==> (ss == Coil && plddt <= 70.0) || (ss == Turn && plddt <= 50.0)
    ensures c == 1 <==> || (ss == Coil && 70.0 < plddt <= 90.0)
                        || (ss == Turn && 50.0 < plddt <= 70.0)
                        || ((ss == Helix || ss == Strand) && plddt <= 50.0)
    ensures c == 2 <==> || (ss == Coil && 90.0 < plddt)
                        || (ss == Turn && 70.0 < plddt <= 90.0)
                        || ((ss == Helix || ss == Strand) && 50.0 < plddt <= 70.0)
    ensures c == 3 <==> (ss != Coil && plddt > 90.0) || ((ss == Helix || ss == Strand) && plddt > 70.0)
  {
    var raw := BaseScore(plddt) + Adjustment(ss);
    if raw < 0 then 0
    else if raw > 3 then 3
    else raw
  }

  /** A higher confidence never gives a lower category, for a fixed class. */
  lemma CategoryMonotone(p: real, q: real, ss: SsClass)
    requires p <= q
    ensures Category(p, ss) <= Category(q, ss)
  {
  }

  /** Helix and strand are treated alike. */
  lemma HelixStrandAgree(plddt: real)
    ensures Category(plddt, Helix) == Category(plddt, Strand)
  {
  }

  /** Clamping at both ends, and the adjustment in the middle of the ladder. */
  lemma CategoryExamples()
    ensures Category(30.0, Coil) == 0
    ensures Category(95.0, Helix) == 3
    ensures Category(60.0, Turn) == 1
    ensures Category(80.0, Coil) == 1
  {
  }
}
