# CA distance restraints from confidence and secondary structure

A Dafny model of the decision logic of `create_restraints.py`. The program
turns three per-residue annotations of a protein into weighted CA–CA
distance restraints. The annotations are CA coordinates with B-factors, a
pLDDT confidence list and a DSSP secondary-structure file. The model covers
four pieces:

- **Secondary-structure reader** (`secondary_structure.dfy`, module
  `SecondaryStructure`). This models `parse_ss`. The line pattern is
  written out as fixed-column character tests. The code table reduces
  `HGIP`, `BE` and `T` to helix, strand and turn, and everything else to
  coil. The residue-number field is stripped the way Python's `str.strip()`
  strips it. The dictionary is updated line by line in a loop, and a later
  line with the same key overwrites an earlier one.
- **Classifier** (`classifier.dfy`, module `Classifier`). This models
  `category_methods`. A confidence ladder with inclusive upper thresholds
  gives a base score. Coil subtracts one, turn adds nothing, and helix or
  strand adds one. The result is clamped into [0, 3].
- **Merge** (`merge.dfy`, module `Merge`, with the records in
  `residues.dfy`). This models lines 12-27 of `make_restraints`. Each CA
  row gets its confidence: its own B-factor in `bf` mode, otherwise the
  aligned score. It also gets the class found under
  `(str(residue_number), chain_id)` and its category. Rows keep structure
  order. An empty structure table fails: the source aborts at line 25
  whatever the score list. Otherwise a score list of the wrong length fails.
  Otherwise the first row whose key is missing fails with that key.
- **Restraint generator** (`restraints.dfy`, module `Restraints`). This
  models `generate_restraints`. It scans positions `i` and then
  `j >= i + sequence_gap`. It keeps pairs on the same chain whose distance
  lies in the closed window and whose category sum is at least 4. Each kept
  pair gets strengths scaled by 0.5 (sum 4) or 1.0 (sum 5 or more). The
  output is a sequence of `Restraint` records in scan order, proved equal to
  the records of `EmittedPairs`. `EmittedPairs` is the function `Scan`
  started at the first cursor `(0, sequence_gap)`. `Scan` walks the same
  `(i, j)` cursor as the two loops. Lemmas show that this sequence holds
  exactly the pairs passing the four tests, and that it is strictly
  ascending in `(i, j)`.

The residue-number field (group 2 of the pattern at create_restraints.py:56)
is four digit-or-blank characters plus any fifth character, the
insertion-code column. It is stripped to form the key, so a residue with an
insertion code gets a key such as `"12A"`, which no integer's `str` can
equal. The model keeps that behaviour.
The pattern's `$` also accepts one final newline after the free tail;
`MatchesDsspLine` allows it too.

## Model

| member | source | states |
|---|---|---|
| SecondaryStructure.TrimStartSpec | create_restraints.py:61 | the leading-whitespace cut keeps the longest suffix that does not start with whitespace, and everything it drops is whitespace |
| SecondaryStructure.TrimEndSpec | create_restraints.py:61 | the trailing-whitespace cut keeps the longest prefix that does not end with whitespace, and everything it drops is whitespace |
| SecondaryStructure.Strip | create_restraints.py:61 | the stripped residue-number field neither starts nor ends with whitespace |
| SecondaryStructure.StripRemovesOnlyEnds | create_restraints.py:61 | the stripped field is one contiguous slice of the original, with only whitespace before and after it |
| SecondaryStructure.ParseSecondaryStructure | create_restraints.py:53-72 | the line-by-line loop leaves exactly the dictionary of folding every line's effect over the empty map |
| SecondaryStructure.CoilCodes | create_restraints.py:56-70 | among the codes the pattern admits, exactly `S` and blank map to coil |
| SecondaryStructure.WrittenKeyPresent | create_restraints.py:58-71 | a matching line's key is in the final dictionary |
| SecondaryStructure.PresentKeyWritten | create_restraints.py:58-71 | every key in the dictionary comes from some matching line |
| SecondaryStructure.SecondaryStructureKeys | create_restraints.py:58-71 | a key is present if and only if some line matches the pattern and carries that key |
| SecondaryStructure.SecondaryStructureLastWins | create_restraints.py:71 | the last matching line with a key decides its class; earlier lines with that key are overwritten |
| SecondaryStructure.MatchingLines | create_restraints.py:59-60 | a line is kept if it matches the pattern, and every kept line matches it |
| SecondaryStructure.NonMatchingLinesIgnored | create_restraints.py:59-60 | dropping every non-matching line leaves the dictionary unchanged |
| Classifier.Category | create_restraints.py:74-98 | the category is in [0, 3], and for each value, the classes and confidence bands that produce it (an if-and-only-if per value) |
| Classifier.CategoryMonotone | create_restraints.py:77-84 | for a fixed class, higher confidence never gives a lower category |
| Classifier.HelixStrandAgree | create_restraints.py:86-91 | helix and strand give the same category |
| Classifier.CategoryExamples | create_restraints.py:74-98 | category(30, coil) = 0, (95, helix) = 3, (60, turn) = 1, (80, coil) = 1 |
| Residues.NatDigits | create_restraints.py:25 | `str` of a natural number is non-empty, all decimal digits, and has no leading zero |
| Residues.NatDigitsRoundTrip | create_restraints.py:25 | reading the digits of `str(n)` back gives `n` |
| Residues.DecimalStringRoundTrip | create_restraints.py:25 | `str` of any integer, sign included, reads back to that integer |
| Residues.DecimalStringInjective | create_restraints.py:25 | distinct residue numbers give distinct lookup keys |
| Merge.MergeAnnotations | create_restraints.py:12-27 | fails with `EmptyTable` exactly when the structure table is empty; on a non-empty table fails with a length mismatch exactly when the scores do not align; otherwise fails exactly when some row's key is missing, naming the first such row's key; on success keeps row order and gives each row its B-factor or aligned score, its class and its category |
| Restraints.MakeRestraint | create_restraints.py:113-134 | the record carries the residue numbers of i and j, the first residue's chain, the computed distance and the configured width; its strengths are half the configured ones for a category sum of 4 and the full ones above 4 |
| Restraints.WeightPolicy | create_restraints.py:113-122 | the weight is non-zero exactly for a category sum of at least 4; it is one of 0, 0.5 and 1; it never decreases as the sum grows |
| Restraints.WeightedIsProduct | create_restraints.py:113-121 | the strength the record carries equals the configured strength times the weight, as the source computes it |
| Restraints.AssessPair | create_restraints.py:107-122 | the inner-loop body yields a record exactly when the pair passes the chain, window and weight tests, and that record is the pair's record |
| Restraints.ScanRow | create_restraints.py:106-135 | the inner loop over j for row i writes the records of row i, in column order: those records followed by the records of all later rows are exactly the records from the first column of row i onward |
| Restraints.GenerateRestraints | create_restraints.py:100-135 | the nested scan writes exactly the record of each emitted pair, one per pair, in the order of `EmittedPairs` |
| Restraints.RecordsFromScan | create_restraints.py:105-135 | from any scan position, the records written are the records of the pairs met from there, in the same order, and each such pair lies inside the residue list |
| Restraints.EmittedPairs | create_restraints.py:105-106 | every emitted pair has j >= i + gap and j inside the residue list |
| Restraints.ScanAt | create_restraints.py:105-122 | the k-th pair met from position (i, j) lies at or after (i, j) in lexicographic order and passes the gap, chain, window and weight tests |
| Restraints.ScanEmits | create_restraints.py:105-122 | every pair the scan meets passes the gap, chain, window and weight tests |
| Restraints.ScanComplete | create_restraints.py:105-122 | every pair at or after the scan position that passes the tests is met by the scan |
| Restraints.EmittedPairsExactly | create_restraints.py:105-122 | a pair is output if and only if j >= i + gap, j is in the list, the chains agree, the distance is in the closed window and the weight is non-zero |
| Restraints.ScanOrdered | create_restraints.py:105-106 | of two pairs the scan meets, the one met first is lexicographically smaller in (i, j) |
| Restraints.ScanAscending | create_restraints.py:105-106 | the pairs met from any scan position are strictly ascending in (i, j) |
| Restraints.EmittedPairsOrdered | create_restraints.py:105-106 | the output is strictly ascending in (i, j); no pair appears twice; with a positive gap, i < j |
| Restraints.EmittedRecord | create_restraints.py:107-134 | the k-th output record carries the residue numbers of its pair, the chain both residues share, a distance inside the closed window, the configured width, a category sum of at least 4, and half or full strengths for a sum of 4 or more than 4 |
| Restraints.DefaultEmission | create_restraints.py:101-122 | with the default parameters, a pair is output exactly when it is 3 or more apart, on one chain, within [3.8, 11.5] inclusive, with a category sum of at least 4 |
| Restraints.AxisChainsScenario | create_restraints.py:100-135 | five helix residues one unit apart on chain A plus one on chain B give the single restraint 1:A 5:A at distance 4 with strengths (3.5, 0.5) |

## Left out

- The command line (`parser`, `__main__`) and `check_work_dir`. These parse arguments, create a directory and change the process's working directory.
- The `os.path.isfile` checks and their `FileNotFoundError`. These are file-system I/O.
- `parse_pdb`. It calls into biopandas. Its result is the input `seq<CaAtom>`: residue number, chain, coordinates and B-factor of each CA row, in file order.
- `parse_plddt`. It reads JSON. Its result is the input `Scores(plddts)`, or `BFactor` for the literal `bf`.
- Reading the secondary-structure file and splitting it on newlines. The reader takes the resulting list of lines.
- `_calculate_pairwise_distance`. It is numpy's Euclidean norm over floats. The generator takes the distance as a function parameter `dist` of the two coordinates. The scenario lemma uses the distance along the x axis, which equals the Euclidean distance for its points.
- Floating point. Confidences, coordinates, distances and strengths are exact reals. IEEE rounding and NaN are not modelled.
- The `.2f` formatting and `output.write`. A restraint is a record with unformatted fields, and the output is the sequence of records. Partial output when a run aborts midway is not modelled.
- The final call `generate_restraints(pdb_df, output_file)` in `make_restraints` (line 29) has no member of its own. It applies `GenerateRestraints` with `DefaultConfig` to the merged rows.
- `Restraints.Config.sequenceGap` is a natural number. A negative gap would make Python's `iloc` index from the end of the table, and no caller passes one.
- Merge.MergeAnnotations: an empty structure table is the single error `EmptyTable`. In the source, a non-empty score list first grows the empty frame at line 20 into NaN rows, and line 25 then raises `KeyError` on `('nan', nan)`. In `bf` mode, or with an empty score list, `apply` at line 25 returns a frame rather than a column, and the assignment raises `ValueError`. The model does not tell these two aborts apart, because NaN and pandas' frame reshaping are outside it.
- The regular-expression engine itself. Only the single line pattern is encoded, as position-by-position tests.
