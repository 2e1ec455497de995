/**
 * The restraint generator (`generate_restraints` in create_restraints.py):
 * every pair of list positions i < j at least `sequenceGap` apart, on the
 * same chain, whose distance lies in the closed window and whose category sum
 * is at least 4, yields one weighted restraint, in ascending (i, j) order.
 */
module Restraints {
  import opened Wrappers
  import opened SecondaryStructure
  import opened Residues

  /** The keyword parameters of the generator. */
  datatype Config = Config(
    minDistance: real, maxDistance: real, distanceWidth: real,
    sequenceGap: nat, strengthMin: real, strengthMax: real)

  /** distance=(3.8, 11.5), distance_width=1.0, sequence_gap=3, restraint_strength=(3.5, 0.5). */
  const DefaultConfig := Config(3.8, 11.5, 1.0, 3, 3.5, 0.5)

  /** The distance between two CA positions (the Euclidean norm in the source). */
  type Metric = (Coord, Coord) -> real

  /** One output line, before formatting. */
  datatype Restraint = Restraint(
    residue1: int, residue2: int, chain: char,
    distance: real, distanceWidth: real,
    strengthMin: real, strengthMax: real)

  /** A pair of list positions. */
  datatype PairIndex = PairIndex(i: nat, j: nat)

  /** The weight policy on the category sum. */
  function WeightFactor(categorySum: int): real {
    if categorySum < 4 then 0.0
    else if categorySum == 4 then 0.5
    else 1.0
  }

  /**
   * A strength scaled by the weight of a category sum, written by cases;
   * WeightedIsProduct shows it is the product the source computes.
   */
  function Weighted(strength: real, categorySum: int): real {
    if categorySum < 4 then 0.0
    else if categorySum == 4 then strength / 2.0
    else strength
  }

  /** The pair (i, j) is written to the output. */
  predicate Emits(rs: seq<Residue>, cfg: Config, dist: Metric, i: nat, j: nat) {
    && i + cfg.sequenceGap <= j < |rs|
    && rs[i].chain == rs[j].chain
    && cfg.minDistance <= dist(rs[i].coord, rs[j].coord) <= cfg.maxDistance
    && WeightFactor(rs[i].category + rs[j].category) != 0.0
  }

  /** Both positions of the pair lie in the residue list. */
  predicate InList(rs: seq<Residue>, p: PairIndex) {
    p.i < |rs| && p.j < |rs|
  }

  /**
   * The record written for a pair: the residue numbers, the first residue's
   * chain, the distance, the width, and the strengths scaled by the weight.
   */
  function MakeRestraint(rs: seq<Residue>, cfg: Config, dist: Metric, p: PairIndex): (r: Restraint)
    requires InList(rs, p)
    ensures r.residue1 == rs[p.i].residueNumber && r.residue2 == rs[p.j].residueNumber
    ensures r.chain == rs[p.i].chain
    ensures r.distance == dist(rs[p.i].coord, rs[p.j].coord)
    ensures r.distanceWidth == cfg.distanceWidth
    ensures rs[p.i].category + rs[p.j].category == 4 ==>
              r.strengthMin == cfg.strengthMin / 2.0 && r.strengthMax == cfg.strengthMax / 2.0
    ensures rs[p.i].category + rs[p.j].category > 4 ==>
              r.strengthMin == cfg.strengthMin && r.strengthMax == cfg.strengthMax
  {
    var a, b := rs[p.i], rs[p.j];
    var sum := a.category + b.category;
    Restraint(a.residueNumber, b.residueNumber, a.chain, dist(a.coord, b.coord),
              cfg.distanceWidth, Weighted(cfg.strengthMin, sum), Weighted(cfg.strengthMax, sum))
  }

  /** The pair (i, j) comes at or after the scan position (a, b) in lexicographic order. */
  predicate AtOrAfter(p: PairIndex, a: nat, b: nat) {
    a < p.i || (a == p.i && b <= p.j)
  }

  /**
   * The emitted pairs the nested scan meets from position (i, j) onward: the
   * rest of row i from column j, then each later row from its first column
   * i + sequenceGap.
   */
  function Scan(rs: seq<Residue>, cfg: Config, dist: Metric, i: nat, j: nat): (ps: seq<PairIndex>)
    decreases |rs| - i, |rs| - j
  {
    if i >= |rs| then []
    else if j >= |rs| then Scan(rs, cfg, dist, i + 1, i + 1 + cfg.sequenceGap)
    else (if Emits(rs, cfg, dist, i, j) then [PairIndex(i, j)] else []) + Scan(rs, cfg, dist, i, j + 1)
  }

  /** All emitted pairs, in output order. */
  function EmittedPairs(rs: seq<Residue>, cfg: Config, dist: Metric): (ps: seq<PairIndex>)
    ensures forall k :: 0 <= k < |ps| ==> ps[k].i + cfg.sequenceGap <= ps[k].j < |rs|
  {
    ScanEmits(rs, cfg, dist, 0, cfg.sequenceGap);
    Scan(rs, cfg, dist, 0, cfg.sequenceGap)
  }

  /** The records of a sequence of pairs, in the same order. */
  function Records(rs: seq<Residue>, cfg: Config, dist: Metric, ps: seq<PairIndex>): (out: seq<Restraint>)
    requires forall k :: 0 <= k < |ps| ==> InList(rs, ps[k])
    ensures |out| == |ps|
  {
    seq(|ps|, k requires 0 <= k < |ps| => MakeRestraint(rs, cfg, dist, ps[k]))
  }

  /**
   * The records the nested scan writes from position (i, j) onward, step by
   * step as the loops take them; RecordsFromScan shows they are the records
   * of Scan(i, j).
   */
  function RecordsFrom(rs: seq<Residue>, cfg: Config, dist: Metric, i: nat, j: nat): seq<Restraint>
    decreases |rs| - i, |rs| - j
  {
    if i >= |rs| then []
    else if j >= |rs| then RecordsFrom(rs, cfg, dist, i + 1, i + 1 + cfg.sequenceGap)
    else (if Emits(rs, cfg, dist, i, j) then [MakeRestraint(rs, cfg, dist, PairIndex(i, j))] else [])
         + RecordsFrom(rs, cfg, dist, i, j + 1)
  }

  /**
   * The body of the inner loop for positions i and j: the chain test, the
   * distance window, the weight policy, and the record when the weight is
   * not zero.
   */
  method AssessPair(rs: seq<Residue>, cfg: Config, dist: Metric, i: nat, j: nat) returns (r: Option<Restraint>)
    requires i + cfg.sequenceGap <= j < |rs|
    ensures r.Some? <==> Emits(rs, cfg, dist, i, j)
    ensures r.Some? ==> r.value == MakeRestraint(rs, cfg, dist, PairIndex(i, j))
  {
    r := None;
    var res1, res2 := rs[i], rs[j];
    if res1.chain == res2.chain {
      var d := dist(res1.coord, res2.coord);
      if cfg.minDistance <= d <= cfg.maxDistance {
        var categorySum := res1.category + res2.category;
        var weight;
        if categorySum < 4 {
          weight := 0.0;
        } else if categorySum == 4 {
          weight := 0.5;
        } else {
          weight := 1.0;
        }
        var strengthMin := cfg.strengthMin * weight;
        var strengthMax := cfg.strengthMax * weight;
        if weight != 0.0 {
          r := Some(Restraint(res1.residueNumber, res2.residueNumber, res1.chain, d,
                              cfg.distanceWidth, strengthMin, strengthMax));
        }
      }
    }
  }

  /**
   * The inner loop for row i: every j from i + sequenceGap to the end of the
   * list is assessed. The row holds the records of the emitted pairs of row
   * i, that is, the records of the scan from (i, i + sequenceGap) up to where
   * row i + 1 begins.
   */
  method ScanRow(rs: seq<Residue>, cfg: Config, dist: Metric, i: nat) returns (row: seq<Restraint>)
    requires i < |rs|
    ensures RecordsFrom(rs, cfg, dist, i, i + cfg.sequenceGap)
            == row + RecordsFrom(rs, cfg, dist, i + 1, i + 1 + cfg.sequenceGap)
  {
    row := [];
    var n := |rs|;
    var j := i + cfg.sequenceGap;
    ghost var total := RecordsFrom(rs, cfg, dist, i, i + cfg.sequenceGap);
    while j < n
      invariant i + cfg.sequenceGap <= j
      invariant total == row + RecordsFrom(rs, cfg, dist, i, j)
      decreases n - j
    {
      var r := AssessPair(rs, cfg, dist, i, j);
      RowStep(rs, cfg, dist, i, j, r, total, row);
      if r.Some? {
        row := row + [r.value];
      }
      j := j + 1;
    }
    RowEnd(rs, cfg, dist, i, j);
  }

  /**
   * The nested scan: row by row in ascending i, the records of each row are
   * appended. The output is the record of each emitted pair, in the order of
   * EmittedPairs.
   */
  method GenerateRestraints(rs: seq<Residue>, cfg: Config, dist: Metric) returns (out: seq<Restraint>)
    ensures out == Records(rs, cfg, dist, EmittedPairs(rs, cfg, dist))
  {
    out := [];
    var n := |rs|;
    var i := 0;
    ghost var total := RecordsFrom(rs, cfg, dist, 0, 0 + cfg.sequenceGap);
    while i < n
      invariant 0 <= i <= n
      invariant total == out + RecordsFrom(rs, cfg, dist, i, i + cfg.sequenceGap)
    {
      var row := ScanRow(rs, cfg, dist, i);
      AppendHead(total, out, row, RecordsFrom(rs, cfg, dist, i + 1, i + 1 + cfg.sequenceGap));
      out := out + row;
      i := i + 1;
    }
    RecordsFromScan(rs, cfg, dist, 0, cfg.sequenceGap);
  }

  // ---------------------------------------------------------------------------
  // Lemmas about the scan

  /** The records written from (i, j) onward are those of the pairs the scan meets from there. */
  lemma {:induction false} RecordsFromScan(rs: seq<Residue>, cfg: Config, dist: Metric, i: nat, j: nat)
    ensures forall k :: 0 <= k < |Scan(rs, cfg, dist, i, j)| ==> InList(rs, Scan(rs, cfg, dist, i, j)[k])
    ensures RecordsFrom(rs, cfg, dist, i, j) == Records(rs, cfg, dist, Scan(rs, cfg, dist, i, j))
    decreases |rs| - i, |rs| - j
  {
    ScanEmits(rs, cfg, dist, i, j);
    if i < |rs| {
      if j >= |rs| {
        RecordsFromScan(rs, cfg, dist, i + 1, i + 1 + cfg.sequenceGap);
      } else {
        RecordsFromScan(rs, cfg, dist, i, j + 1);
        var rest := Scan(rs, cfg, dist, i, j + 1);
        if Emits(rs, cfg, dist, i, j) {
          var p := PairIndex(i, j);
          assert RecordsFrom(rs, cfg, dist, i, j) == [MakeRestraint(rs, cfg, dist, p)] + RecordsFrom(rs, cfg, dist, i, j + 1);
          assert Scan(rs, cfg, dist, i, j) == [p] + rest;
          RecordsCons(rs, cfg, dist, p, rest);
        } else {
          assert RecordsFrom(rs, cfg, dist, i, j) == RecordsFrom(rs, cfg, dist, i, j + 1);
          assert Scan(rs, cfg, dist, i, j) == rest;
        }
      }
    }
  }

  /**
   * The loop step of ScanRow at (i, j): whatever AssessPair answers, moving
   * its record (if any) from the front of the remaining records to the row
   * keeps the row followed by the remainder equal to the whole.
   */
  lemma RowStep(rs: seq<Residue>, cfg: Config, dist: Metric, i: nat, j: nat,
                r: Option<Restraint>, total: seq<Restraint>, row: seq<Restraint>)
    requires i + cfg.sequenceGap <= j < |rs|
    requires r.Some? <==> Emits(rs, cfg, dist, i, j)
    requires r.Some? ==> r.value == MakeRestraint(rs, cfg, dist, PairIndex(i, j))
    requires total == row + RecordsFrom(rs, cfg, dist, i, j)
    ensures r.Some? ==> total == (row + [r.value]) + RecordsFrom(rs, cfg, dist, i, j + 1)
    ensures r.None? ==> total == row + RecordsFrom(rs, cfg, dist, i, j + 1)
  {
    if r.Some? {
      AppendHead(total, row, [r.value], RecordsFrom(rs, cfg, dist, i, j + 1));
    }
  }

  /** Past the last column of row i, the scan continues at the first column of row i + 1. */
  lemma RowEnd(rs: seq<Residue>, cfg: Config, dist: Metric, i: nat, j: nat)
    requires i < |rs| <= j
    ensures RecordsFrom(rs, cfg, dist, i, j) == RecordsFrom(rs, cfg, dist, i + 1, i + 1 + cfg.sequenceGap)
  {
  }

  /** Moving a block from the front of the remainder to the end of the output keeps their concatenation. */
  lemma AppendHead<T>(total: seq<T>, done: seq<T>, head: seq<T>, rest: seq<T>)
    requires total == done + (head + rest)
    ensures total == (done + head) + rest
  {
  }

  /** Every pair at or after (i, j) that passes the tests is met by the scan. */
  lemma {:induction false} ScanComplete(rs: seq<Residue>, cfg: Config, dist: Metric, i: nat, j: nat, p: PairIndex)
    requires Emits(rs, cfg, dist, p.i, p.j) && AtOrAfter(p, i, j)
    ensures p in Scan(rs, cfg, dist, i, j)
    decreases |rs| - i, |rs| - j
  {
    if j >= |rs| {
      ScanComplete(rs, cfg, dist, i + 1, i + 1 + cfg.sequenceGap, p);
    } else if p != PairIndex(i, j) {
      ScanComplete(rs, cfg, dist, i, j + 1, p);
    }
  }

  /** A pair is in the output exactly when it passes the gap, chain, window and weight tests. */
  lemma EmittedPairsExactly(rs: seq<Residue>, cfg: Config, dist: Metric, i: nat, j: nat)
    ensures PairIndex(i, j) in EmittedPairs(rs, cfg, dist) <==> Emits(rs, cfg, dist, i, j)
  {
    var ps := EmittedPairs(rs, cfg, dist);
    if PairIndex(i, j) in ps {
      var k :| 0 <= k < |ps| && ps[k] == PairIndex(i, j);
      ScanAt(rs, cfg, dist, 0, cfg.sequenceGap, k);
    }
    if Emits(rs, cfg, dist, i, j) {
      ScanComplete(rs, cfg, dist, 0, cfg.sequenceGap, PairIndex(i, j));
    }
  }

  /** Lexicographic order on pairs of positions. */
  predicate PairLess(p: PairIndex, q: PairIndex) {
    p.i < q.i || (p.i == q.i && p.j < q.j)
  }

  predicate StrictlyAscending(ps: seq<PairIndex>) {
    forall a, b :: 0 <= a < b < |ps| ==> PairLess(ps[a], ps[b])
  }

  /** The k-th pair the scan meets lies at or after its starting cursor and passes the gap, chain, window and weight tests. */
  lemma {:induction false} ScanAt(rs: seq<Residue>, cfg: Config, dist: Metric, i: nat, j: nat, k: nat)
    requires k < |Scan(rs, cfg, dist, i, j)|
    ensures AtOrAfter(Scan(rs, cfg, dist, i, j)[k], i, j)
    ensures Emits(rs, cfg, dist, Scan(rs, cfg, dist, i, j)[k].i, Scan(rs, cfg, dist, i, j)[k].j)
    decreases |rs| - i, |rs| - j
  {
    var ps := Scan(rs, cfg, dist, i, j);
    if j >= |rs| {
      ScanAt(rs, cfg, dist, i + 1, i + 1 + cfg.sequenceGap, k);
    } else {
      var rest := Scan(rs, cfg, dist, i, j + 1);
      if Emits(rs, cfg, dist, i, j) {
        assert ps == [PairIndex(i, j)] + rest;
        if k > 0 {
          ScanAt(rs, cfg, dist, i, j + 1, k - 1);
          assert ps[k] == rest[k - 1];
        }
      } else {
        assert ps == rest;
        ScanAt(rs, cfg, dist, i, j + 1, k);
      }
    }
  }

  /** Every pair the scan meets passes the gap, chain, window and weight tests. */
  lemma ScanEmits(rs: seq<Residue>, cfg: Config, dist: Metric, i: nat, j: nat)
    ensures forall k :: 0 <= k < |Scan(rs, cfg, dist, i, j)| ==>
              Emits(rs, cfg, dist, Scan(rs, cfg, dist, i, j)[k].i, Scan(rs, cfg, dist, i, j)[k].j)
  {
    forall k | 0 <= k < |Scan(rs, cfg, dist, i, j)| {
      ScanAt(rs, cfg, dist, i, j, k);
    }
  }

  /** Of two pairs the scan meets, the one met first is the smaller. */
  lemma {:induction false} ScanOrdered(rs: seq<Residue>, cfg: Config, dist: Metric, i: nat, j: nat, a: nat, b: nat)
    requires a < b < |Scan(rs, cfg, dist, i, j)|
    ensures PairLess(Scan(rs, cfg, dist, i, j)[a], Scan(rs, cfg, dist, i, j)[b])
    decreases |rs| - i, |rs| - j
  {
    var ps := Scan(rs, cfg, dist, i, j);
    if j >= |rs| {
      ScanOrdered(rs, cfg, dist, i + 1, i + 1 + cfg.sequenceGap, a, b);
    } else {
      var rest := Scan(rs, cfg, dist, i, j + 1);
      if Emits(rs, cfg, dist, i, j) {
        assert ps == [PairIndex(i, j)] + rest;
        if a == 0 {
          ScanAt(rs, cfg, dist, i, j + 1, b - 1);
          assert ps[b] == rest[b - 1];
        } else {
          ScanOrdered(rs, cfg, dist, i, j + 1, a - 1, b - 1);
          assert ps[a] == rest[a - 1] && ps[b] == rest[b - 1];
        }
      } else {
        assert ps == rest;
        ScanOrdered(rs, cfg, dist, i, j + 1, a, b);
      }
    }
  }

  /** The scan meets pairs in strictly ascending (i, j) order. */
  lemma ScanAscending(rs: seq<Residue>, cfg: Config, dist: Metric, i: nat, j: nat)
    ensures StrictlyAscending(Scan(rs, cfg, dist, i, j))
  {
    var ps := Scan(rs, cfg, dist, i, j);
    forall a, b | 0 <= a < b < |ps|
      ensures PairLess(ps[a], ps[b])
    {
      ScanOrdered(rs, cfg, dist, i, j, a, b);
    }
  }

  /**
   * Output order is ascending in (i, j): rows by i, columns by j within a row.
   * Hence no pair is emitted twice, and with a positive gap always i < j.
   */
  lemma EmittedPairsOrdered(rs: seq<Residue>, cfg: Config, dist: Metric)
    ensures StrictlyAscending(EmittedPairs(rs, cfg, dist))
    ensures forall a, b :: 0 <= a < b < |EmittedPairs(rs, cfg, dist)| ==>
              EmittedPairs(rs, cfg, dist)[a] != EmittedPairs(rs, cfg, dist)[b]
    ensures cfg.sequenceGap >= 1 ==> forall p :: p in EmittedPairs(rs, cfg, dist) ==> p.i < p.j
  {
    ScanAscending(rs, cfg, dist, 0, cfg.sequenceGap);
  }

  /** The records of a pair followed by more pairs. */
  lemma RecordsCons(rs: seq<Residue>, cfg: Config, dist: Metric, p: PairIndex, ps: seq<PairIndex>)
    requires InList(rs, p) && forall k :: 0 <= k < |ps| ==> InList(rs, ps[k])
    ensures Records(rs, cfg, dist, [p] + ps) == [MakeRestraint(rs, cfg, dist, p)] + Records(rs, cfg, dist, ps)
  {
    var a, b := Records(rs, cfg, dist, [p] + ps), [MakeRestraint(rs, cfg, dist, p)] + Records(rs, cfg, dist, ps);
    forall k | 0 <= k < |a|
      ensures a[k] == b[k]
    {
      if k > 0 {
        assert ([p] + ps)[k] == ps[k - 1];
      }
    }
  }

  /**
   * The k-th output record is that of the k-th emitted pair: the residue
   * numbers at its positions, the chain both share, a distance inside the
   * window, the configured width, and half strengths for a category sum of 4
   * or full strengths above it.
   */
  lemma EmittedRecord(rs: seq<Residue>, cfg: Config, dist: Metric, k: nat)
    requires k < |EmittedPairs(rs, cfg, dist)|
    ensures var p, r := EmittedPairs(rs, cfg, dist)[k], Records(rs, cfg, dist, EmittedPairs(rs, cfg, dist))[k];
            && r.residue1 == rs[p.i].residueNumber && r.residue2 == rs[p.j].residueNumber
            && r.chain == rs[p.i].chain == rs[p.j].chain
            && cfg.minDistance <= r.distance <= cfg.maxDistance
            && r.distanceWidth == cfg.distanceWidth
            && rs[p.i].category + rs[p.j].category >= 4
            && (rs[p.i].category + rs[p.j].category == 4 ==>
                  r.strengthMin == cfg.strengthMin / 2.0 && r.strengthMax == cfg.strengthMax / 2.0)
            && (rs[p.i].category + rs[p.j].category > 4 ==>
                  r.strengthMin == cfg.strengthMin && r.strengthMax == cfg.strengthMax)
  {
    var ps := EmittedPairs(rs, cfg, dist);
    ScanAt(rs, cfg, dist, 0, cfg.sequenceGap, k);
  }

  /** Weight factors: zero below a category sum of 4, one half at 4, one above; never decreasing. */
  lemma WeightPolicy(s: int, t: int)
    ensures WeightFactor(s) != 0.0 <==> s >= 4
    ensures WeightFactor(s) in {0.0, 0.5, 1.0}
    ensures s <= t ==> WeightFactor(s) <= WeightFactor(t)
  {
  }

  /** The scaled strength is the strength times the weight factor. */
  lemma WeightedIsProduct(strength: real, categorySum: int)
    ensures Weighted(strength, categorySum) == strength * WeightFactor(categorySum)
  {
    if categorySum == 4 {
      assert strength * 0.5 == strength / 2.0;
    }
  }

  /**
   * With the default parameters a pair is written exactly when it is three or
   * more positions apart, on one chain, within [3.8, 11.5] inclusive, and its
   * categories sum to at least 4.
   */
  lemma DefaultEmission(rs: seq<Residue>, dist: Metric, i: nat, j: nat)
    ensures Emits(rs, DefaultConfig, dist, i, j) <==>
              && i + 3 <= j < |rs|
              && rs[i].chain == rs[j].chain
              && 3.8 <= dist(rs[i].coord, rs[j].coord) <= 11.5
              && rs[i].category + rs[j].category >= 4
  {
  }

  /** The distance between two points on the x axis, which is the Euclidean distance there. */
  function AxisDistance(a: Coord, b: Coord): real {
    if a.x >= b.x then a.x - b.x else b.x - a.x
  }

  /** Five helix residues of chain A one unit apart on the x axis, then one of chain B. */
  function AxisChains(): seq<Residue> {
    [ Residue(1, 'A', Coord(0.0, 0.0, 0.0), 95.0, Helix, 3),
      Residue(2, 'A', Coord(1.0, 0.0, 0.0), 95.0, Helix, 3),
      Residue(3, 'A', Coord(2.0, 0.0, 0.0), 95.0, Helix, 3),
      Residue(4, 'A', Coord(3.0, 0.0, 0.0), 95.0, Helix, 3),
      Residue(5, 'A', Coord(4.0, 0.0, 0.0), 95.0, Helix, 3),
      Residue(6, 'B', Coord(8.0, 0.0, 0.0), 95.0, Helix, 3) ]
  }

  /**
   * Only positions 0 and 4 are both far enough apart in the list and at
   * least 3.8 apart in space; chain B pairs with nothing.
   */
  lemma AxisChainsScenario()
    ensures EmittedPairs(AxisChains(), DefaultConfig, AxisDistance) == [PairIndex(0, 4)]
    ensures Records(AxisChains(), DefaultConfig, AxisDistance, [PairIndex(0, 4)])
            == [Restraint(1, 5, 'A', 4.0, 1.0, 3.5, 0.5)]
  {
    var rs, cfg, d := AxisChains(), DefaultConfig, AxisDistance;
    // rows 2 to 5: only (2, 5) is past the gap, and it crosses into chain B
    assert Scan(rs, cfg, d, 5, 8) == [];
    assert Scan(rs, cfg, d, 4, 7) == [];
    assert Scan(rs, cfg, d, 3, 6) == [];
    assert !Emits(rs, cfg, d, 2, 5);
    assert Scan(rs, cfg, d, 2, 5) == [];
    // row 1: (1, 4) is too close in space, (1, 5) crosses chains
    assert !Emits(rs, cfg, d, 1, 4) && !Emits(rs, cfg, d, 1, 5);
    assert Scan(rs, cfg, d, 1, 5) == [];
    assert Scan(rs, cfg, d, 1, 4) == [];
    // row 0: (0, 3) is too close, (0, 4) is emitted, (0, 5) crosses chains
    assert !Emits(rs, cfg, d, 0, 5);
    assert Scan(rs, cfg, d, 0, 5) == [];
    assert Emits(rs, cfg, d, 0, 4);
    assert Scan(rs, cfg, d, 0, 4) == [PairIndex(0, 4)];
    assert !Emits(rs, cfg, d, 0, 3);
  }
}
