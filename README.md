# Result aggregation of `SRA_SeqSeroIsPCR.py`, modelled in Dafny

The pipeline script downloads sequencing runs, predicts a serotype for each
sample, assembles the reads and runs in-silico PCR against a list of primer
pairs. Its last three steps do the aggregation, and this project models and
verifies them:

- `make_SeqSero_dict` reads the sample registry (`accession<TAB>sample` per
  line). For each sample it opens `<sample>_seqsero.out` and collects the
  value of every `Predicted serotype(s):` line into that sample's list.
- `make_isPCR_list` reads the registry again, opens each `<sample>_is.out`,
  and turns every line that starts with `>` into a hit
  `[sample, [primer_pair, product_length]]`, using the raw second and third
  space-separated fields.
- `create_table` reads the primer file (first space-separated field of each
  line) and appends a header line to `results.out`. It then appends one row
  per registry line: the sample, its serotype cell, and, for every primer
  pair in file order, either `none` or one `name(length)` cell per product.

Modules:

- `Text` (`text.dfy`): the Python string operations involved. `str.split(sep)`
  keeps empty fields and always returns at least one field. The others are
  `sep.join`, `strip(c)` and the slice `s[:n]`.
- `Files` (`files.dfy`): shared pieces. The file system is a map from path to
  lines, each line keeping its `'\n'`. `Error` and `Result` describe failure.
  `Chain` sequences two fallible results. `SampleOf` and `PrimerName` split a
  registry line and a primer line.
- `SeqSero` (`seqsero.dfy`): `make_SeqSero_dict`.
- `IsPcr` (`ispcr.dfy`): `make_isPCR_list`.
- `Table` (`table.dfy`): `create_table`, with `results.out` as the
  append-mode `ResultsFile` class.

Every loop of the three functions is a Dafny method with loop invariants,
with one exception: the loop of `create_table` that appends the amplicon cells
to `observations` (lines 161-162) is the concatenation `[s, serotype] + cells`
in `MakeRow`. Each method is proved equal to a specification function:

| method | specification function |
|---|---|
| `MakeSeqSeroDict` | `SeqSeroDict`, a left fold of `Step` over the registry |
| `MakeIsPcrList` | `IsPcrList` |
| `CreateTable` | `Table`, which returns a `Report`: the lines appended and how the run ended |

The lemmas then state what those functions mean.

A Python exception is modelled as an `Err` result:

- `open` of a missing file gives `FileNotFound(path)`.
- An `IndexError` gives `IndexOutOfRange`.

Processing stops at the first error, in program order. `create_table` writes
as it goes, so a failing run leaves the header and the rows before the failing
registry line in `results.out`. The model keeps that partial output:
`Report.written` holds it and `Report.outcome` holds the error.

The model follows the code in the following cases, where one might expect
the code to do something else:

- A sample with no `Predicted serotype(s):` line has an empty list.
  `create_table` indexes that list unconditionally (line 141), so such a
  sample fails with `IndexOutOfRange`. It does not get a row with an `N/A`
  serotype cell.
- A missing `<sample>_seqsero.out` is an error, like a missing
  `<sample>_is.out`: both are opened unguarded (lines 59 and 111). A missing
  serotype report is not tolerated.
- PCR report lines are not stripped (lines 112-115). A header line with
  exactly three fields that ends in a newline keeps `'\n'` on its length, and
  the cell becomes `p1(412\n)` (`LengthKeepsTerminator`). An unterminated last
  line yields `412` (`LengthWithoutTerminator`). `TwoSampleRows` states a
  two-sample run: the first sample has one serotype call and one product
  `>ctg1 p1 412\n`, the second has no serotype call. The first row is
  `s1\tTyphimurium\tp1(412\n)\tnone\n`, not `s1\tTyphimurium\tp1(412)\tnone`.
  The run then stops at the second sample. It does not write an `N/A` row.
- Primer lines with fewer than three fields are not rejected as malformed. Only their first
  field is used (lines 127-130), and that field always exists.
- Fields are separated by exactly one separator character (`split(' ')`,
  `split('\t')`), so doubled separators yield empty fields. They are not
  collapsed the way general whitespace splitting would collapse them.
- A malformed registry line fails with `IndexError` and carries no line
  number.

## Model

| member | source | states |
|---|---|---|
| Text.Split | SRA_SeqSeroIsPCR.py:56 | `str.split` never returns an empty list, so `fields[0]` always exists |
| Text.SplitFieldsFree | SRA_SeqSeroIsPCR.py:56 | no field of a split contains the separator |
| Text.JoinSplit | SRA_SeqSeroIsPCR.py:163 | joining the fields of a split with the same separator gives back the text |
| Text.SplitJoin | SRA_SeqSeroIsPCR.py:163 | splitting the join of separator-free fields gives back the fields |
| Text.JoinCons | SRA_SeqSeroIsPCR.py:133 | `sep.join([x] + parts)` is `x` followed by each part with a separator in front |
| Text.StripTerminator | SRA_SeqSeroIsPCR.py:55 | `strip('\n')` of a line ending in its only newline removes exactly that newline |
| Text.TakeIsPrefix | SRA_SeqSeroIsPCR.py:141 | `s[:3] == p` for a three-character `p` holds exactly when `p` is a prefix of `s` |
| Files.SampleOf | SRA_SeqSeroIsPCR.py:55-57 | the registry sample exists exactly when the stripped line contains a tab; otherwise `IndexError`; the name contains no tab |
| Files.PrimerName | SRA_SeqSeroIsPCR.py:127-130 | the primer-pair name always exists and contains no space |
| Files.SplitHasSecondField | SRA_SeqSeroIsPCR.py:57 | `split(sep)[1]` exists exactly when the separator occurs |
| Files.RegistryLineSample | SRA_SeqSeroIsPCR.py:55-57 | the line `accession<TAB>name[<TAB>...]\n` names the sample `name` |
| Files.PrimerLineName | SRA_SeqSeroIsPCR.py:127-129 | the line `name forward reverse\n` names the primer pair `name` |
| Files.Chain | SRA_SeqSeroIsPCR.py:54-66 | a step after a failed step is never reached; when the first step succeeds and the second fails, the second step's error is the result; two successful steps concatenate their output |
| SeqSero.Extend | SRA_SeqSeroIsPCR.py:64 | appending to one sample's list changes no other list; the sample becomes a key only when something is appended |
| SeqSero.MakeSeqSeroDict | SRA_SeqSeroIsPCR.py:51-67 | the loops compute `SeqSeroDict`: a missing registry file fails, otherwise the registry lines are processed in order up to the first that fails |
| SeqSero.AddReport | SRA_SeqSeroIsPCR.py:56-66 | one registry line: a malformed line or a missing `<sample>_seqsero.out` fails; otherwise the report's predictions are appended to the sample's list, in report order |
| SeqSero.CollectErrorPersists | SRA_SeqSeroIsPCR.py:54-59 | once a registry line fails, the whole call fails with that error |
| SeqSero.PredictionsAppend | SRA_SeqSeroIsPCR.py:60-64 | the predictions of a report are collected in line order |
| SeqSero.OtherLineIgnored | SRA_SeqSeroIsPCR.py:62-66 | a line whose first tab field is not exactly `Predicted serotype(s):` adds nothing, wherever it appears |
| SeqSero.PredictionLineAppended | SRA_SeqSeroIsPCR.py:62-64 | a prediction line appends its second tab field after everything collected before it |
| SeqSero.ExtendTwice | SRA_SeqSeroIsPCR.py:64 | appending two runs of predictions one after the other is appending their concatenation |
| SeqSero.PredictionsFailure | SRA_SeqSeroIsPCR.py:62-63 | a report fails exactly when one of its prediction lines has no second field, and then with `IndexError` |
| SeqSero.PredictionLineValue | SRA_SeqSeroIsPCR.py:61-63 | the line `Predicted serotype(s):<TAB>value\n` yields exactly `value` |
| SeqSero.CollectOutcome | SRA_SeqSeroIsPCR.py:54-59 | the dictionary is built exactly when every registry line is well formed and its report exists and is well formed; otherwise the error is that of the first line that is not |
| SeqSero.CollectSucceeds | SRA_SeqSeroIsPCR.py:54-59 | the dictionary is built exactly when every registry line's report can be read |
| SeqSero.CollectFailsAt | SRA_SeqSeroIsPCR.py:54-59 | a failing run fails with the error of a registry line all of whose predecessors succeed |
| SeqSero.CollectLookup | SRA_SeqSeroIsPCR.py:52-66 | a sample's list is the concatenation, in registry order, of the predictions of every registry line naming it; the sample is a key exactly when that list is non-empty |
| SeqSero.StepLookup | SRA_SeqSeroIsPCR.py:64 | one registry line adds its report's predictions to its own sample's list and nothing to any other |
| SeqSero.PredictionsForAppend | SRA_SeqSeroIsPCR.py:54 | the predictions of a sample follow registry order |
| IsPcr.MakeIsPcrList | SRA_SeqSeroIsPCR.py:103-119 | the loops compute `IsPcrList`: a missing registry file fails, otherwise each registry line's hits are appended in order up to the first line that fails |
| IsPcr.AddHits | SRA_SeqSeroIsPCR.py:107-118 | one registry line: a malformed line or a missing `<sample>_is.out` fails; otherwise the report's hits are appended after the hits so far |
| IsPcr.FileHitsAppend | SRA_SeqSeroIsPCR.py:112-116 | the hits of a report are in line order |
| IsPcr.RegistryHitsAppend | SRA_SeqSeroIsPCR.py:106-116 | the hits follow registry order, then report order |
| IsPcr.OtherLineIgnored | SRA_SeqSeroIsPCR.py:113-118 | a non-empty line that does not start with `>` adds nothing, wherever it appears |
| IsPcr.FileHitsCount | SRA_SeqSeroIsPCR.py:112-116 | a readable report yields exactly one hit per `>` line, each carrying the registry's sample name |
| IsPcr.LineHitsFailure | SRA_SeqSeroIsPCR.py:112-115 | one report line fails, with `IndexError`, exactly when it is empty or is a `>` line with fewer than three space fields |
| IsPcr.FileHitsFailure | SRA_SeqSeroIsPCR.py:113-115 | a report fails exactly when it has an empty line or a `>` line with fewer than three space fields, and then with `IndexError` |
| IsPcr.HeaderLineHit | SRA_SeqSeroIsPCR.py:113-116 | `>contig primer length[ ...]` yields the hit `(sample, primer, length)` with the raw fields |
| IsPcr.LengthKeepsTerminator | SRA_SeqSeroIsPCR.py:112-115 | `>ctg1 p1 412\n` yields the length `412\n`, because the line is not stripped |
| IsPcr.LengthWithoutTerminator | SRA_SeqSeroIsPCR.py:112-115 | an unterminated `>ctg1 p1 412` yields the length `412` |
| IsPcr.RegistryHitsOutcome | SRA_SeqSeroIsPCR.py:106-111 | the list is built exactly when every registry line's report can be read; otherwise the error is that of the first line whose report cannot |
| Table.ResultsFile.Open | SRA_SeqSeroIsPCR.py:132 | opening in append mode keeps what the file already held |
| Table.ResultsFile.Write | SRA_SeqSeroIsPCR.py:133 | a write appends its text after everything written before |
| Table.PrimerNames | SRA_SeqSeroIsPCR.py:125-130 | one primer-pair name per primer-file line, in file order |
| Table.SerotypeCell | SRA_SeqSeroIsPCR.py:141-144 | an empty prediction list fails with `IndexError`; the cell is exactly `N/A` when the first prediction starts with `N/A`, and otherwise the first prediction verbatim |
| Table.SerotypeCellFirstOnly | SRA_SeqSeroIsPCR.py:141-144 | predictions after the first never affect the serotype cell |
| Table.Primers | SRA_SeqSeroIsPCR.py:151 | one primer name per amplicon of the sample |
| Table.Formatted | SRA_SeqSeroIsPCR.py:154-156 | a primer pair gets exactly as many cells as it has products for the sample |
| Table.FormattedProducts | SRA_SeqSeroIsPCR.py:154-156 | every such cell is `name(length)` of one of that pair's products, the length verbatim |
| Table.PrimerCells | SRA_SeqSeroIsPCR.py:152-159 | a pair with no product gets exactly one `none` cell; a pair with k products gets exactly their k cells |
| Table.OrderedCells | SRA_SeqSeroIsPCR.py:152-159 | the amplicon cells number one per product-less pair plus one per product |
| Table.ReadPrimers | SRA_SeqSeroIsPCR.py:123-131 | the primer loop builds the primer list from the primer file and the header list as `\tSeqSero` followed by that list |
| Table.SampleAmplifications | SRA_SeqSeroIsPCR.py:145-151 | the hit loop collects the sample's amplicons in hit-list order, and their primer names |
| Table.OrderAmplifications | SRA_SeqSeroIsPCR.py:152-159 | the primer loop yields the cells of every primer pair in primer-file order |
| Table.AppendProducts | SRA_SeqSeroIsPCR.py:154-156 | the innermost loop appends one `name(length)` cell per product of the pair, in hit-list order |
| Table.CreateTable | SRA_SeqSeroIsPCR.py:122-165 | `results.out` gains exactly what `Table` says, and the run ends as `Table` says |
| Table.WriteRows | SRA_SeqSeroIsPCR.py:134-163 | the registry loop appends one row per registry line up to the first line that fails |
| Table.MakeRow | SRA_SeqSeroIsPCR.py:136-163 | one registry line's row text: sample, serotype cell and amplicon cells, tab-joined, then a newline |
| Table.HeaderLayout | SRA_SeqSeroIsPCR.py:123-133 | the header line is `\tSeqSero`, then a tab and a name for every primer-file line in order, then a newline |
| Table.HeaderColumns | SRA_SeqSeroIsPCR.py:123-133 | with tab-free names, the header has the columns `""`, `SeqSero` and the names in order |
| Table.AmplificationsAppend | SRA_SeqSeroIsPCR.py:148-151 | a sample's amplicons follow hit-list order |
| Table.CountPositive | SRA_SeqSeroIsPCR.py:151-153 | the test `p in amplifications_short` holds exactly when `p` has a product for the sample |
| Table.FormattedAppend | SRA_SeqSeroIsPCR.py:154-156 | a pair's cells follow hit-list order |
| Table.OrderedCellsAppend | SRA_SeqSeroIsPCR.py:152 | the cells follow primer-file order |
| Table.CellCountWidth | SRA_SeqSeroIsPCR.py:152-162 | every primer pair gets at least one cell; the cells number exactly one per pair when no pair has more than one product |
| Table.CellCountSingles | SRA_SeqSeroIsPCR.py:152-162 | without repeated products there is exactly one cell per primer pair |
| Table.OrderedCellsAt | SRA_SeqSeroIsPCR.py:152-162 | without repeated products, cell `i` belongs to the `i`-th primer pair |
| Table.PrimerCellsIgnore | SRA_SeqSeroIsPCR.py:155 | a product of another pair does not change a pair's cells |
| Table.OrderedCellsIgnore | SRA_SeqSeroIsPCR.py:152-156 | a product of a pair missing from the primer file changes no cell |
| Table.IrrelevantHitIgnored | SRA_SeqSeroIsPCR.py:148-156 | a hit of another sample, or of a primer pair not in the primer file, does not change the row |
| Table.PrimerCellsSwap | SRA_SeqSeroIsPCR.py:154-156 | swapping two adjacent products of different pairs does not change any pair's cells |
| Table.OrderedCellsSwap | SRA_SeqSeroIsPCR.py:152-159 | the same holds for all amplicon cells |
| Table.CellsSwapHits | SRA_SeqSeroIsPCR.py:148-159 | swapping two adjacent hits of different primer pairs anywhere in the hit list leaves a sample's amplicon cells unchanged |
| Table.HitOrderIrrelevant | SRA_SeqSeroIsPCR.py:148-162 | the same holds for the whole row |
| Table.RowWidth | SRA_SeqSeroIsPCR.py:139-162 | a row starts with its sample and has 2 + Σ max(1, products of p) cells; it exactly matches the header's column count precisely when no pair has more than one product |
| Table.RowStartsWithSample | SRA_SeqSeroIsPCR.py:136-163 | every row written starts with the registry's sample name and a tab |
| Table.RowsAppend | SRA_SeqSeroIsPCR.py:134-163 | rows follow registry order, and nothing is written after a failing line |
| Table.RowsOutcome | SRA_SeqSeroIsPCR.py:134-163 | a completed run writes exactly one row per registry line, each that line's row; a failed run has written the rows of the lines before the failing one and nothing for it |
| Table.RowsDone | SRA_SeqSeroIsPCR.py:134-163 | a completed run writes exactly one row per registry line |
| Table.RowsFailedAt | SRA_SeqSeroIsPCR.py:134-163 | a failed run stops at a failing line after writing the rows of all lines before it |
| Table.RowColumns | SRA_SeqSeroIsPCR.py:136-163 | a written row ends in `\n`, and with tab-free cells the rest splits on tabs back into the sample, the serotype cell and the amplicon cells |
| Table.RowMatchesHeader | SRA_SeqSeroIsPCR.py:123-163 | in the written text, with tab-free names and cells, a row has as many tab-separated columns as the header exactly when no primer pair has more than one product for its sample |
| Table.RowTextWithoutCall | SRA_SeqSeroIsPCR.py:141 | a sample without any prediction fails with `IndexError` instead of getting an `N/A` cell |
| Table.TwoSampleRows | SRA_SeqSeroIsPCR.py:134-163 | for the two-sample example, the first row is written with `p1(412\n)`, and the sample without a serotype call stops the run |
| Table.TableOutcome | SRA_SeqSeroIsPCR.py:122-165 | a missing primer file writes nothing; otherwise the header line comes first; a missing registry writes only the header; a completed run writes the header and then the row of each registry line, in order |

## Left out

- `aspera_download`, `RunSeqSero`, `clean_and_assemble` and `isPCR` (SRA_SeqSeroIsPCR.py:24-48 and :71-101) only run external tools through the shell. The model starts from the report files those tools leave behind.
- `main`, its `print` calls and `sys.argv` handling (SRA_SeqSeroIsPCR.py:169-187) are plumbing. `create_table` takes the results of the two parsers as parameters.
- Real I/O is not modelled:
  - Opening, reading and closing files becomes a lookup in a map from path to lines.
  - Splitting file contents into lines is not modelled. A file is given as the sequence of lines that Python's iteration yields.
  - OS errors other than a missing file are not modelled.
- `CreateTable` receives `results.out` as an already open `ResultsFile`. Its contents before the run are a parameter of `ResultsFile.Open`.
- The creation of `results.out` by the append-mode open (line 132) is not modelled. In the source that file is created only once the primer file has been read, so a run with a missing primer file does not create it. The model does not distinguish a missing `results.out` from an empty one.
- Paths are plain names relative to the working directory. The process's working directory is ambient state.
- `predictions[sample]` on the `defaultdict` inserts an empty list for an unknown sample (line 141). The model does not insert it. That lookup is immediately followed by the failing `[0]`, and the dictionary is not used afterwards.
- `str(...)` calls on values that are already strings (lines 58, 110, 149, 155-156) and `map(str, ...)` before the joins are identities and are left out.
- Exception messages and the exact exception classes are not modelled, only their kind (`FileNotFound(path)` or `IndexOutOfRange`).
- Text.TrimStart, Text.TrimEnd, Text.Strip: these carry no postconditions of their own. What the model needs of them is stated by `Text.StripTerminator`.
- IsPcr.LineHits, SeqSero.LinePredictions: their behaviour is stated by the lemmas about them (`HeaderLineHit`, `LineHitsFailure`, `FileHitsFailure`, `PredictionLineValue`, `PredictionsFailure`), not by postconditions.
