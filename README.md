# Gene-VEP-Pipeline: the normaliser, the matcher and the VCF emitter in Dafny

This project models three steps of a gene-variant annotation pipeline and proves what
they promise.

1. **The VEP annotation normaliser** is `process_vep_output` and its helpers in
   `scripts/parsing_ClinVar.py`. It unpacks the `Extra` column's `key=value;…` string into
   21 fields and splits the SIFT and PolyPhen `label(score)` values. It then renames 13
   columns, reduces the VEST4 score list to its maximum, and projects the table onto 34
   output columns.
   - Module `VepCells` holds the cell helpers.
   - Module `VepTable` holds the table pipeline over any list of fields, renaming and
     output columns (a `Schema`). It has an in-place version on a `DataFrame` object and
     a row-by-row reference.
   - Module `ParsingClinVar` instantiates it with the script's own lists.
2. **The cascading variant matcher** is the loop of `merge_clinvar` in
   `merging_ClinVar.py` (module `MergingClinVar`). It handles each clinical row of one gene
   in turn:
   - It narrows the annotation rows by `Feature`.
   - Then by `Existing_variation`, and then by `Codons`, each stage only while more than
     one candidate is left.
   - Among several survivors, it picks one with the fewest missing cells.
   - It then either merges the row with the chosen annotation row or logs its label.
3. **The VCF data-line emitter and the gene filter** are `create_vcf` and
   `filter_variants_by_gene` in `scripts/generate_vcf.py` (module `GenerateVcf`). Each row
   becomes one line with eight tab-separated fields: CHROM, POS, ID, REF, ALT, QUAL,
   FILTER and INFO, the fixed-field order of section 1.6.1 of the VCF v4.3 specification.

The shared table model is in module `Frames`:
- A cell is missing (pandas' NaN), a string or a number.
- A row is a map from column label to cell.
- A frame is its column labels in order plus its rows in order. Its index is the default
  `0..n-1`, so a row's label is its position in the table read from the file.
- pandas' `==` on cells is `CellEq`: a missing cell equals nothing, not even another
  missing cell.

Python exceptions are the `PyError` results `KeyError`, `ValueError` and `AttributeError`.
String splitting and decimal digits are in module `Strings`, and `Option`/`Result` are in
`Wrappers`.

Two things the code does differ from what its comments suggest, and the model follows
the code:
- In `create_vcf`, both branches of the `chr` conditional yield the chromosome unchanged,
  and no header lines are written.
- In `process_vep_output`, the output columns `Canonical`, `Swissprot`, `Uniparc` and
  `Uniprot_isoform` are filled only from raw columns of exactly those names. The
  upper-case fields extracted from `Extra` are never renamed, so they are dropped.

## Model

| member | source | states |
|---|---|---|
| VepCells.ApplyAll | scripts/parsing_ClinVar.py:33 | a per-row `apply` succeeds exactly when every row's call does, and then holds each row's result in order |
| VepCells.BuildDict | scripts/parsing_ClinVar.py:9 | builds the dictionary token by token, later keys overwriting earlier ones; the only error it raises is `ValueError`, for a token with two or more `=` (the full meaning is `BuildDictMeaning`) |
| VepCells.ExtractExtraFields | scripts/parsing_ClinVar.py:5-9 | a missing `Extra` cell gives the empty dictionary; `AttributeError` is raised exactly for a numeric cell; any other error is the `ValueError` of a malformed token |
| VepCells.MissingExtraIsEmpty | scripts/parsing_ClinVar.py:7-8 | a missing `Extra` cell gives the empty dictionary |
| VepCells.BuildDictMeaning | scripts/parsing_ClinVar.py:9 | extraction fails exactly when some token has two or more `=`; otherwise every key comes from a `key=value` token, and each key maps to the value of the last token defining it (tokens without `=` are ignored) |
| VepCells.MatchPrediction | scripts/parsing_ClinVar.py:15 | the hand-coded `([^()]+)\(([\d.]+)\)` match at the start of the string: any match it reports is one, and whenever a match exists it is the one reported (the match is unique) |
| VepCells.SpansMatch | scripts/parsing_ClinVar.py:15 | a non-empty parenthesis-free label followed by `(`, a non-empty run of digits and dots, and `)` matches, with exactly that label and score, whatever follows |
| VepCells.NoLabelNoMatch | scripts/parsing_ClinVar.py:15-18 | without a non-empty label directly followed by `(`, nothing matches |
| VepCells.NoScoreNoMatch | scripts/parsing_ClinVar.py:15-18 | without a non-empty digit-and-dot run directly followed by `)`, nothing matches |
| VepCells.SplitPredictionScore | scripts/parsing_ClinVar.py:11-18 | missing gives (`NA`, `NA`); a match gives (label, score); the score is `NA` exactly when there is no match, and the label is then the value itself |
| VepCells.SplitToleratedExample | scripts/parsing_ClinVar.py:12 | `tolerated(0.24)` splits into `tolerated` and `0.24` |
| VepCells.NoParenthesisFallsBack | scripts/parsing_ClinVar.py:18 | a value without `(`, `NA` included, gives (value, `NA`) |
| VepCells.MaxOf | scripts/parsing_ClinVar.py:23 | `max` of a non-empty list is at least every element and equal to one of them |
| VepCells.EntryScore | scripts/parsing_ClinVar.py:22 | a `.` or `NA` entry scores 0; an entry fails exactly when it is neither a placeholder nor a number, and then with `ValueError` |
| VepCells.ParseVest4Score | scripts/parsing_ClinVar.py:20-23 | succeeds exactly when every comma-separated entry is `.`, `NA` or a number; the result is at least every entry's score and equal to one of them; an all-placeholder list gives 0 |
| VepCells.Vest4Largest | scripts/parsing_ClinVar.py:22-23 | when every entry parses, the result is the largest entry score |
| VepCells.Vest4Scores | scripts/parsing_ClinVar.py:22-23 | when every entry parses, the reduction succeeds with the maximum of the entry scores |
| VepCells.AbsentVest4IsZero | scripts/parsing_ClinVar.py:36 | the absent-field default `NA` reduces to 0 |
| VepCells.Vest4JoinedExample | scripts/parsing_ClinVar.py:22-23 | `.,0.9,NA` reduces to 0.9 |
| VepCells.VestCell | scripts/parsing_ClinVar.py:62 | a cell that is not a string raises `AttributeError`; a string succeeds exactly when its VEST4 list parses, and then becomes the number `ParseVest4Score` proves to be the largest entry score |
| Strings.Split | scripts/parsing_ClinVar.py:9 | `str.split` pieces hold no separator and there is at least one piece |
| Strings.JoinSplit | scripts/parsing_ClinVar.py:9 | joining the pieces of a split with the separator gives back the string |
| Strings.SplitJoin | scripts/parsing_ClinVar.py:22 | splitting the join of separator-free pieces gives back the pieces |
| Strings.NatToStringInjective | merging_ClinVar.py:31 | distinct row labels are written as distinct decimal strings |
| Frames.CellEq | merging_ClinVar.py:14 | cells compare equal only when they are the same cell and not missing |
| Frames.WithColumn | scripts/parsing_ClinVar.py:36 | assigning a column overwrites it in place or appends it last, leaving every other cell and the row count as they were |
| Frames.Renamed | scripts/parsing_ClinVar.py:58 | renaming relabels each column by the mapping and moves its cells unchanged to the new label |
| Frames.RenamedDistinct | scripts/parsing_ClinVar.py:58 | the renamed labels stay distinct exactly when no present column carries a target label that is not itself renamed away |
| Frames.Reindexed | scripts/parsing_ClinVar.py:75 | reindexing gives exactly the listed columns in order, each cell taken from the table where it has the column and the fill value where it does not, with the row count unchanged |
| Frames.DataFrame.Assign | scripts/parsing_ClinVar.py:36 | assigning a column updates the object to the table with that column set |
| Frames.DataFrame.Rename | scripts/parsing_ClinVar.py:58 | an in-place rename updates the object to the renamed table |
| Frames.LabelsWhere | merging_ClinVar.py:6 | the labels of the rows whose column equals the value, strictly increasing: a label is listed exactly when its row matches |
| Frames.RowsWhere | scripts/generate_vcf.py:35 | a boolean-mask selection keeps the columns and exactly the matching rows, in order |
| VepTable.AddFieldColumns | scripts/parsing_ClinVar.py:35-36 | the field loop leaves the object holding the table with one looked-up column per field, in field order |
| VepTable.SplitPrediction | scripts/parsing_ClinVar.py:40-41 | splitting a column updates the object with its label and score columns |
| VepTable.Prepared | scripts/parsing_ClinVar.py:33-62 | a table that is extracted, split, renamed and VEST4-reduced without an error is well formed and keeps its row count; a table missing `Extra` raises `KeyError`; a table that has an `Extra` column but no rows raises `ValueError` at the SIFT split |
| VepTable.NormalizeRow | scripts/parsing_ClinVar.py:33-75 | a raw row normalises exactly when its `Extra` cell and VEST4 list parse, and then has exactly the output columns |
| VepTable.ProcessTable | scripts/parsing_ClinVar.py:25-77 | the in-place pipeline returns the normalised table (so `ValueError` at line 40 for a table that has an `Extra` column but no rows) and leaves the object holding the prepared table |
| VepTable.Normalized | scripts/parsing_ClinVar.py:25-77 | the prepared table projected onto the output columns: a missing `Extra` column raises `KeyError`, an `Extra` column with no rows `ValueError`; a result is well formed, has exactly the output columns in order and one row per input row (the full meaning is `NormalizedMeaning`) |
| VepTable.NormalizedMeaning | scripts/parsing_ClinVar.py:25-77 | for any schema, the pipeline succeeds exactly when there is an `Extra` column, at least one row, no shadowed label and only rows that normalise; it then returns the output columns in order and, row for row, the row-level reference |
| ParsingClinVar.SelectedDistinct | scripts/parsing_ClinVar.py:64-73 | the script's output list has 34 distinct columns |
| ParsingClinVar.VepSchemaOk | scripts/parsing_ClinVar.py:28-73 | the script's field list, renaming and output list meet everything the pipeline relies on |
| ParsingClinVar.VepShadowed | scripts/parsing_ClinVar.py:43-58 | the raw labels that clash after the rename are the 12 rename targets other than `VEST4_rankscore` |
| ParsingClinVar.ProcessVepOutput | scripts/parsing_ClinVar.py:25-77 | `process_vep_output` returns the normalised table (`ValueError` for a table that has an `Extra` column but no rows) and leaves the caller's table extracted, split, renamed and VEST4-reduced |
| ParsingClinVar.NormalizeVepMeaning | scripts/parsing_ClinVar.py:25-77 | the script's normaliser succeeds exactly when the table has `Extra`, at least one row, none of the 12 shadowed labels and only parsing rows; it then returns the 34 columns in order, and the same rows in the same order, each normalised |
| ParsingClinVar.EmptyTableRaises | scripts/parsing_ClinVar.py:40 | a table with an `Extra` column but no rows raises `ValueError`: the split of an empty column gives no columns for the two labels |
| ParsingClinVar.NormalizedVepRow | scripts/parsing_ClinVar.py:28-75 | every cell of a normalised row: renamed fields and `HGNC_ID` are the `Extra` lookup or `NA`; SIFT and PolyPhen are split; `VEST4_score` is the reduced maximum; each of the 15 raw columns, `Canonical`, `Swissprot`, `Uniparc` and `Uniprot_isoform` included, is the raw cell of that exact name or `NA` |
| MergingClinVar.Select | merging_ClinVar.py:14 | a key-column selection is an order-preserving sub-list of the rows, every row of it matches the key, and it contains every matching row |
| MergingClinVar.SelectPositions | merging_ClinVar.py:14-20 | the selection keeps every matching row, duplicates included: exactly as many rows as matching positions, each the row at its position, so the `len(...) > 1` gates count the matching rows |
| MergingClinVar.MissingCount | merging_ClinVar.py:23 | `isna().sum()` counts the missing cells of a row, never more than its number of cells |
| MergingClinVar.FewestMissing | merging_ClinVar.py:22-24 | the chosen candidate has no more missing cells than any other candidate |
| MergingClinVar.WithCount | merging_ClinVar.py:23 | adding `NaN_count` adds exactly that key, holding the row's missing-cell count, and leaves every other cell as it was |
| MergingClinVar.Match | merging_ClinVar.py:14-26 | the chosen row, if any, shares the clinical row's `Feature` (the stages and tie-break are `MatchChoice` and `MatchedKeys`) |
| MergingClinVar.Merge | merging_ClinVar.py:27 | the merged row has every clinical and every annotation key; the annotation value wins on shared keys |
| MergingClinVar.Candidates | merging_ClinVar.py:14-24 | the staged narrowing leaves no candidate when `Match` finds none and otherwise exactly the row `Match` chooses |
| MergingClinVar.StagesNarrow | merging_ClinVar.py:14-24 | each stage keeps an order-preserving part of the previous one; a stage changes nothing unless more than one candidate remains |
| MergingClinVar.MatchChoice | merging_ClinVar.py:22-26 | no match exactly when no candidate survives; a sole survivor is taken as is; among several, one with the fewest missing cells is taken, carrying its `NaN_count` |
| MergingClinVar.SoleFeatureMatch | merging_ClinVar.py:14-26 | a sole `Feature` match is accepted without looking at `Existing_variation` or `Codons` |
| MergingClinVar.MatchedKeys | merging_ClinVar.py:14-20 | the chosen row shares `Feature`; it also shares `Existing_variation` if several shared `Feature`, and `Codons` if several shared both (a missing cell never counts as shared) |
| MergingClinVar.ChosenCandidate | merging_ClinVar.py:22-24 | the chosen row is a surviving candidate, with at most its `NaN_count` changed |
| MergingClinVar.LabelsStep | merging_ClinVar.py:26-31 | each clinical row extends the merged rows by its merged row when matched, and the log by its line otherwise, and leaves the other output unchanged |
| MergingClinVar.MergeRow | merging_ClinVar.py:13-31 | one pass of the loop appends exactly the row's merged row or its log line |
| MergingClinVar.MergeClinvar | merging_ClinVar.py:6-31 | the loop returns the merged rows of the gene's matched rows in order, and a log that starts with the banner and continues with the lines of the gene's unmatched rows in order |
| MergingClinVar.OneOutcomePerRow | merging_ClinVar.py:13-31 | every row of the gene is matched or unmatched, never both, and merged rows plus log lines number the rows of the gene |
| MergingClinVar.OutputsInOrder | merging_ClinVar.py:13-31 | merged rows and log lines come from the gene's matched and unmatched rows respectively, each in increasing label order |
| MergingClinVar.LogLine | merging_ClinVar.py:31 | one log line per unmatched row, ending in a newline; `LogLineInjective` shows that it names its row |
| MergingClinVar.LogLineInjective | merging_ClinVar.py:31 | a log line determines the row label it names |
| MergingClinVar.LogNamesUnmatched | merging_ClinVar.py:6-31 | the log names a label exactly when that row of the unfiltered clinical table has the gene and finds no match |
| GenerateVcf.VcfLine | scripts/generate_vcf.py:30 | a data line ends in a newline, and before it are the eight fields joined by tabs |
| GenerateVcf.DataLine | scripts/generate_vcf.py:21-30 | a row's data line ends in a newline, and before it are the eight fields of its chromosome, position, reference and alternate allele joined by tabs |
| GenerateVcf.DataLineFields | scripts/generate_vcf.py:30 | a data line without its newline splits at tabs back into the eight fields, chromosome first and unchanged, when no value holds a tab |
| GenerateVcf.CreateVcf | scripts/generate_vcf.py:17-31 | exactly one line per row, in row order, each the row's data line with the chromosome unchanged; empty input gives no lines |
| GenerateVcf.NoHeaderLines | scripts/generate_vcf.py:16-31 | every written line is a data line: it ends in a newline and starts with `#` only if the chromosome value does |
| GenerateVcf.FilterVariantsByGene | scripts/generate_vcf.py:34-35 | keeps the columns and exactly the rows whose `GeneSymbol` equals the gene, in order |

## Left out

- File and CSV I/O is not modelled: `read_csv`, `to_csv`, the opened files and the header-line search in `parse_vep_output`. Tables are parameters. The log and the VCF file are returned line sequences.
- Command-line handling and the hard-coded dataset path are not modelled.
- Which raw strings `read_csv` turns into missing cells is not modelled. Missing is a cell state of its own. The `NA` strings the normaliser writes are read back by the matcher as missing cells.
- The construction of the merged `DataFrame` from the row dictionaries (`merging_ClinVar.py:33`) is not modelled. The merged rows are returned as maps.
- `warnings.simplefilter` has no observable effect on the modelled values.
- VepCells.ParseVest4Score: `float()` is modelled only on plain decimal literals (an optional sign, digits, at most one dot). Exponents, `inf`, `nan`, whitespace and underscores, which Python accepts, are a `ValueError` in the model. IEEE rounding is not modelled.
- VepCells.MatchPrediction: `\d` matches only the ASCII digits `0`–`9`, not every Unicode decimal digit.
- MergingClinVar.FewestMissing: the model takes the first candidate with the fewest missing cells. pandas' default sort is not stable, so the code does not promise which tied candidate it picks. The lemmas about the choice (`FewestMissing`, `MatchChoice`) promise only minimality; the method contracts (`MergeClinvar`, `MergeRow`, `Candidates`) fix the first minimal candidate.
- MergingClinVar.MergeClinvar: the model requires all key columns (`Inputs`), the documented input contract. pandas raises `KeyError` only when a missing column is actually read: `Existing_variation` and `Codons` are read only while more than one candidate remains. That error path is not modelled.
- VepTable.ProcessTable: the state of the caller's table after an exception is not described.
- VepTable.ProcessTable: when the rename produces duplicate labels, pandas raises a `ValueError` only at the final `reindex`. The model reports that `ValueError` at the rename. A VEST4 parse failure would also be a `ValueError` there, so the outcome is the same.
- GenerateVcf.Str: how Python writes a float or an integer cell is a parameter (`showNumber`), not modelled.
- The row label of a clinical row is taken to be its position in the file (the default `RangeIndex` that `read_csv` gives).
