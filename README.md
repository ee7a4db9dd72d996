# Outcome-attainment calculator, modelled in Dafny

The repository is a browser tool that teachers use to compute course-outcome (CO) and
program-outcome (PO) attainment. Teachers upload result sheets for the continuous internal
evaluation (CIE) and the semester-end examination (SEE). The tool:

- counts, per CO, the students who reach a target;
- turns those counts into percentages and 0–3 attainment levels;
- blends the CIE and SEE percentages with an indirect (survey) score into a final CO
  percentage;
- aggregates the final percentages over a CO→PO mapping matrix of levels 0–3 into expected
  and attained PO percentages;
- reconciles the CIE and SEE rosters (missing USNs, broken serial numbers, names, row
  cleanup).

A second page (script.js) sums question-wise marks into CO scores. A third page (stats.js)
groups a department sheet by year, branch and course code and averages its columns.

The model covers this arithmetic and these table transformations. They are written over
sequences of cells and rows, with DOM tables as objects holding a sequence of rows. One
module corresponds to each part:

| module | file | source |
|---|---|---|
| `Common` | common.dfy | cells, `Option`/`Result`, `toFixed(2)` as `Round2` |
| `Text` | text.dfy | `trim`, case mapping, `parseInt` with radix 10 and with none (`0x` read as hexadecimal), `parseFloat`, digit runs |
| `Attainment` | attainment.dfy | obe.js `computeSummary` |
| `Normaliser` | normaliser.dfy | obe.js `processAOA`, the upload handler, the template download, the CO-count clamp |
| `FinalScore` | finalscore.dfy | obe.js weight and indirect-score handlers, `computeAndRender` |
| `PoAttainment` | poattainment.dfy | obe.js `computePOAttainment`, `storePOForChart`, `updatePOColumnAverages`, the "Avg Mapping" row |
| `Reconcile` | reconcile.dfy | obe.js `matchSEEwithCIE`, `insertNamesIntoSEE`, `filterSEEByName`, `reorderSEE_SLNO` |
| `QuestionMarks` | questionmarks.dfy | script.js `getQMarks`, `computeCOs`, `addNameColumn` |
| `GroupStats` | groupstats.dfy | stats.js `isNumber`, `average`, `uniqueList`, `generateStats`, `calculate` |

## Modelling conventions

- A spreadsheet cell is `Cell = Num(real) | Str(string) | Empty`. `Empty` stands for
  `undefined` or a hole in a sparse row. Numbers are exact reals. `NaN` is never stored:
  every parse returns an `Option`, and the caller applies the source's default (`|| 0`,
  `isNaN(v) ? 0 : v`).
- `toFixed(2)` followed by a conversion back to a number is `Round2`. It rounds half away
  from zero on exact reals. The model proves that it is monotone, that it keeps two-decimal
  values, and that it maps 0..100 into 0..100.
- JavaScript truthiness of a cell is `Truthy`: a non-zero number or a non-empty string.
- Values that the source reads from `localStorage` or input fields become parameters.
  Examples are targets, weights, mapping levels, field texts and the stored final
  percentages.
- A loop that builds up state is a `method`. It is proved equal to a specification
  function, and the properties are lemmas about that function. A DOM table edited in place
  is a class (`Reconcile.HtmlTable`, `QuestionMarks.OutputTable`) with a `rows` field that
  its methods reassign.

### Where the code differs from its design notes (the code is followed)

- A CO whose pass percentage is below 60 gets level 0. So the worked scenario with targets
  `[60, 60]` and scores `[[70, 50], [80, 90]]` yields levels `[3, 0]`, not `[3, 1]`
  (`Attainment.SummaryExample`).
- The expected PO percentage charted by `storePOForChart` comes from `poAvg`. `poAvg`
  divides the column sum by the total CO count (obe.js:932), not by the number of mapped
  COs. The mapped-only average appears only in the two table rows (obe.js:876).
  The model keeps the two denominators apart.
- The claim "`average` lies between the minimum and the maximum" fails once rounding is
  involved: a single entry 0.001 averages to 0.00. What holds, and what is proved, is
  `Round2(min) <= average <= Round2(max)`.

## Model

| member | source | states |
|---|---|---|
| `Common.Round2` | obe.js:246 | `toFixed(2)` is within 0.005 of its argument and keeps its sign |
| `Common.Round2Monotone` | obe.js:246 | rounding to two decimals never reverses the order of two values |
| `Common.Round2Percent` | obe.js:246 | a value between 0 and 100 rounds to a value between 0 and 100 |
| `Text.ParseIntNatText` | obe.js:394 | `parseInt(…, 10)` reads back the decimal text of a natural number |
| `Text.ParseIntAuto` | obe.js:1306 | `parseInt` with no radix: a numeral without a `0x`/`0X` prefix reads as in decimal; one with the prefix is `NaN` exactly when no hex digit follows |
| `Text.ParseIntAutoNatText` | obe.js:1306 | the radix-less `parseInt` reads back the decimal text of a natural number |
| `Text.ParseIntAutoHex` | script.js:31 | `"0x10"` reads as 16 with no radix, but as 0 in decimal |
| `Text.ParseIntAutoSignedHex` | obe.js:1317 | a sign may precede the hex prefix and hex digits take either case: `" -0XfF"` reads as -255 |
| `Text.ParseIntAutoBarePrefix` | script.js:31 | `"0x"` is `NaN` with no radix, but 0 in decimal |
| `Attainment.CountPassing` | obe.js:239-244 | the count of students reaching CO `i`'s target is at most the class size, and 0 for a CO with no target |
| `Attainment.CountPassingIsCardinality` | obe.js:239-244 | the count equals the number of students whose score reaches the target (inclusive) |
| `Attainment.Percent` | obe.js:246 | the percentage is within 0..100, is 0 when nobody passes and 100 when everybody does |
| `Attainment.Level` | obe.js:248-249 | the level is at most 3, and level `r` > 0 needs at least 50 + 10r percent while level `r` < 3 means below 60 + 10r |
| `Attainment.LevelMonotone` | obe.js:248-249 | a higher percentage never earns a lower level |
| `Attainment.ComputeSummary` | obe.js:236-255 | the nested counting loops produce the summary: counts are the pass cardinalities, percentages lie in 0..100, levels are at most 3, and all three have one entry per CO |
| `Attainment.SummaryExample` | obe.js:236-255 | targets 60/60 and scores (70,50),(80,90) give counts [2,1], percentages [100,50] and levels [3,0] |
| `Normaliser.Headers` | obe.js:152 | trimming the header row keeps its length |
| `Normaliser.StudentOf` | obe.js:168-175 | a student record has exactly `numCOs` scores, read from columns 3.., an unparseable cell giving 0 |
| `Normaliser.Normalise` | obe.js:151-183 | a successful read has one target per CO column, at least one CO and at least one student, each with `numCOs` scores |
| `Normaliser.ReadStudent` | obe.js:165-176 | the row loop body builds the student of that row (serial falls back to the row index) |
| `Normaliser.ProcessAOA` | obe.js:151-194 | the loops compute `Normalise`, and on success the summary is `computeSummary` of the students and targets |
| `Normaliser.LoadSheet` | obe.js:142-143 | a sheet with fewer than two rows is refused as empty; otherwise the result is that of `processAOA` |
| `Normaliser.StudentRowsMembers` | obe.js:164-177 | a student appears exactly when it is the record of some non-empty data row |
| `Normaliser.StudentRowsEmpty` | obe.js:164-179 | no student is found exactly when every data row is empty, so only empty rows are skipped |
| `Normaliser.NormaliseErrors` | obe.js:151-179 | "no CO columns" exactly when no trimmed header matches `CO<n>`; "no student rows" exactly when there are CO columns but every data row is empty |
| `Normaliser.CountCOsZero` | obe.js:154-155 | no CO column is counted exactly when no header matches |
| `Normaliser.CountCOsAppend` | obe.js:154 | the CO count of a joined header row is the sum of the counts |
| `Normaliser.SettingValue` | obe.js:58 | an empty field reads as the fallback |
| `Normaliser.ClampCOCount` | obe.js:58 | the CO count is clamped into 1..12 and kept when already inside |
| `Normaliser.COCountFromField` | obe.js:101 | the template's CO count is at most 12 and at least 1 whenever the field parses |
| `Normaliser.StudentCountFromField` | obe.js:102 | the template's student count is at least 1 whenever the field parses |
| `Normaliser.Template` | obe.js:101-111 | the template has a header and one row per student |
| `Normaliser.BuildTemplate` | obe.js:100-111 | the loops build the template for the clamped CO count and student count |
| `Normaliser.TemplateHeaderLabels` | obe.js:103-104 | the template header survives trimming and holds exactly `n` CO columns |
| `Normaliser.TemplateRoundTrip` | obe.js:100-111 | uploading an unchanged template reads back `n` CO columns and one student per row, serial r and all scores 0 |
| `FinalScore.FinalCOCountRoundTrip` | obe.js:391-392 | a stored count of at least 1 is read back unchanged |
| `FinalScore.ClampDirectWeight` | obe.js:424-428 | the direct weight is clamped into 0..100 and kept when already inside |
| `FinalScore.IndirectWeight` | obe.js:433-438 | the indirect weight is non-negative, complements a direct weight of at most 100 to 100, and is 0 above |
| `FinalScore.ClampedWeightsComplementary` | obe.js:424-438 | after the direct-weight handler the two weights add up to 100 |
| `FinalScore.ClampIndirectScore` | obe.js:538-541 | the indirect score lands in 1..5; NaN and 0 become 1; values inside are kept |
| `FinalScore.WeightsOf` | obe.js:561-565 | each weight is its field divided by 100, NaN reading 0 |
| `FinalScore.DirectPercentBounds` | obe.js:583 | with CIE/SEE weights adding to at most 1, the direct percentage of two percentages is a percentage |
| `FinalScore.IndirectPercentOfClamped` | obe.js:538-541 | a clamped indirect score is worth 20..100 percent, monotonically |
| `FinalScore.FinalBetween` | obe.js:586 | with complementary weights the final percentage lies between the direct and the indirect percentage |
| `FinalScore.HandlerWeights` | obe.js:424-438 | the weights as the handlers leave them are non-negative fractions adding up to 1 |
| `FinalScore.Readings` | obe.js:571-580 | one reading per field |
| `FinalScore.FinalTableOf` | obe.js:571-595 | every result column has one entry per CO, each the rounded formula of that CO |
| `FinalScore.FillColumns` | obe.js:571-595 | the loop pushes exactly the entries of `FinalTableOf` |
| `FinalScore.ComputeAndRender` | obe.js:559-595 | reads the fields of CO 1..n and returns the result table, every column of length n |
| `FinalScore.FinalTableBounds` | obe.js:583-595 | with percentages in 0..100, scores in 1..5, CIE/SEE weights adding to at most 1 and complementary direct/indirect weights, direct and final entries are in 0..100 and indirect ones in 20..100 |
| `FinalScore.FinalTableBetween` | obe.js:583-594 | each final entry lies between the rounded direct and indirect entries of its CO |
| `PoAttainment.LevelAt` | obe.js:923 | a missing mapping entry reads as level 0 |
| `PoAttainment.POAvgOf` | obe.js:932 | one mean level per PO |
| `PoAttainment.POFinalOf` | obe.js:936-940 | one attained percentage per PO |
| `PoAttainment.ChartSeries` | obe.js:960-973 | one expected percentage per PO; the attained series is `poFinal` unchanged |
| `PoAttainment.ComputePOAttainment` | obe.js:904-943 | refuses exactly when no final percentages are stored; otherwise the loops compute the PO attainment |
| `PoAttainment.AddCO` | obe.js:918-929 | one pass of the outer loop adds CO `co` to the weighted sum and the level sum of every PO, leaving both equal to the sums over COs 1..co |
| `PoAttainment.ZeroColumn` | obe.js:918-938 | a PO column with no level anywhere has mean 0, expected 0 and attained 0 |
| `PoAttainment.POBounds` | obe.js:918-938 | with levels 0..3 and finals 0..100, mean levels are in 0..3, expected and attained percentages in 0..100, and attained never above the rounded mean level as a percentage |
| `PoAttainment.ColumnSumBounds` | obe.js:923-926 | with levels 0..3, the level sum over k COs is within 0..3k |
| `PoAttainment.WeightedBelowColumn` | obe.js:925-926 | with non-negative levels and finals 0..100, each CO adds to the weighted sum at most what it adds to the level sum, so the weighted sum stays within 0..level sum |
| `PoAttainment.SumBounds` | obe.js:923-926 | both bounds together: 0 <= weighted sum <= level sum <= 3 per CO |
| `PoAttainment.FullMarks` | obe.js:925-938 | when every CO is fully attained the attained percentage is the rounded mean level as a percentage |
| `PoAttainment.MappedCount` | obe.js:794-802 | a column has no more mapped cells than there are COs |
| `PoAttainment.MappedColumnAverage` | obe.js:865-876 | the inner loop computes the mapped-only average, cells at or below 0 counting for nothing |
| `PoAttainment.UpdatePOColumnAverages` | obe.js:786-807 | one mapped-only average of levels per PO |
| `PoAttainment.AvgMappingRow` | obe.js:844-878 | one mapped-only average of scaled levels per PO |
| `PoAttainment.MappedCountZero` | obe.js:865-874 | a column has no mapped cell exactly when none of its levels is positive |
| `PoAttainment.UnmappedColumn` | obe.js:876 | an unmapped column averages to 0 |
| `PoAttainment.MappedAverageRange` | obe.js:794-804 | with levels 0 or 1..3, a mapped column's average under the table is within 1..3 |
| `PoAttainment.MappedAverageAtLeastMean` | obe.js:794-804 | the mapped-only average is never below the rounded mean over all COs |
| `PoAttainment.DivideByFewer` | obe.js:794-804 | dividing a non-negative sum by fewer COs gives more |
| `Reconcile.CellText` | obe.js:1430-1431 | a cell's trimmed text exists exactly when the row has that cell |
| `Reconcile.UsnKey` | obe.js:1285 | a row has a USN key exactly when it has a second cell |
| `Reconcile.SerialFlagsClean` | obe.js:1303-1312 | no row is flagged exactly when the serials run prev+1, prev+2, … |
| `Reconcile.ConsecutiveUnflagged` | obe.js:1303-1312 | serials running prev+1, prev+2, … raise no flag |
| `Reconcile.UnflaggedConsecutive` | obe.js:1303-1312 | serials raising no flag run prev+1, prev+2, … with no NaN |
| `Reconcile.SerialCheck` | obe.js:1303-1312 | the loop's flags are the serial flags from 0 (a row is flagged when its serial is NaN or not one more than the last valid one), and an error is found exactly when some row is flagged |
| `Reconcile.AlertText` | obe.js:1326-1333 | no alert exactly when there is no USN mismatch either way and no serial mismatch |
| `Reconcile.KeySet` | obe.js:1270-1280 | the USN set holds exactly the keys of the rows |
| `Reconcile.MissingFlags` | obe.js:1284-1300 | a key is flagged exactly when it is not in the other set, and the mismatch flag is set exactly when some key is |
| `Reconcile.UsnKeysMembers` | obe.js:1270-1280 | a key is in the collected keys exactly when some row has it |
| `Reconcile.UsnCheck` | obe.js:1270-1300 | a row is flagged exactly when no row of the other table has its trimmed, upper-cased USN |
| `Reconcile.MatchSEEwithCIE` | obe.js:1256-1334 | SEE rows are flagged iff their USN is absent from the CIE table and symmetrically; the serial flags of both tables are the serial checks from 0; each mismatch flag is set iff some row is flagged |
| `Reconcile.CieEntries` | obe.js:1427-1436 | one dictionary entry per CIE data row, header excluded |
| `Reconcile.NameMapLast` | obe.js:1427-1436 | a lower-cased USN is in the dictionary exactly when some CIE row provides it, and it maps to the name of the last such row |
| `Reconcile.NameForIsLastMatch` | obe.js:1439-1450 | a SEE row gets the non-empty name of the last CIE row with the same lower-cased USN, and "" when no CIE row has that USN |
| `Reconcile.NamesInserted` | obe.js:1439-1450 | the table keeps its shape and its name cells |
| `Reconcile.BuildNameMap` | obe.js:1425-1436 | the loop builds the dictionary of all CIE data rows |
| `Reconcile.HtmlTable.InsertNames` | obe.js:1414-1453 | the SEE table's name cells are replaced by the looked-up names, all else unchanged |
| `Reconcile.NamedRows` | obe.js:1365-1370 | filtering never adds rows |
| `Reconcile.NamedRowsMembers` | obe.js:1365-1370 | a row survives exactly when it was there and its trimmed name is neither "" nor "NOT FOUND" |
| `Reconcile.NamedRowsAppend` | obe.js:1365-1370 | filtering distributes over joined bodies, so survivors keep their order |
| `Reconcile.NamedRowsIdempotent` | obe.js:1365-1370 | filtering a filtered table removes nothing more |
| `Reconcile.FilterStep` | obe.js:1365-1369 | one step of the backward walk deletes row i exactly when it is unnamed and keeps the decided suffix |
| `Reconcile.Filtered` | obe.js:1360-1370 | the header row stays and is followed by the named data rows |
| `Reconcile.HtmlTable.FilterByName` | obe.js:1360-1373 | the backward deletion loop leaves exactly the filtered table |
| `Reconcile.Renumbered` | obe.js:1406-1410 | renumbering keeps the table's shape |
| `Reconcile.HtmlTable.ReorderSlno` | obe.js:1401-1411 | data row r gets serial r, all else unchanged |
| `Reconcile.RenumberedPassesSerialCheck` | obe.js:1406-1410 | after renumbering, the serial check of `matchSEEwithCIE` flags no data row |
| `QuestionMarks.Max` | script.js:54 | `Math.max` is an upper bound and one of its arguments |
| `QuestionMarks.GetQMarks` | script.js:13-23 | the loop sums the numeric values of the columns whose first digit run is `qNo` |
| `QuestionMarks.QMarksAppend` | script.js:15-21 | question marks add up over the columns of a split row |
| `QuestionMarks.QMarksUnnamed` | script.js:16-17 | a question no column header names has no marks |
| `QuestionMarks.QMarksNonNegative` | script.js:18-19 | non-negative values give non-negative marks |
| `QuestionMarks.MappingOf` | script.js:28-32 | question q is in the mapping exactly when 1 ≤ q ≤ 15 and its field is not empty |
| `QuestionMarks.BuildMapping` | script.js:28-32 | the loop builds that mapping |
| `QuestionMarks.OrPair` | script.js:34 | the either/or pairs are (6,7) .. (14,15) |
| `QuestionMarks.InitScores` | script.js:40-42 | every CO that is a mapping target gets an entry, at 0 |
| `QuestionMarks.AddSingles` | script.js:44-46 | each mapped question 1..5 adds its marks to its CO exactly once |
| `QuestionMarks.AddPairs` | script.js:48-55 | each pair whose first question is mapped adds the better of its two marks to that CO |
| `QuestionMarks.StudentScores` | script.js:38-55 | a student's scores have exactly the mapping targets as keys, each the CO total |
| `QuestionMarks.ScoreAll` | script.js:37-58 | one result per student, in input order, each carrying the student's USN and scores |
| `QuestionMarks.ComputeCOs` | script.js:25-61 | refuses exactly when there is no data; otherwise one result per student scored under the mapping of the 15 fields |
| `QuestionMarks.SecondOfPairIgnored` | script.js:49-54 | the mapping of the second question of a pair never changes any score |
| `QuestionMarks.UntargetedCOIsZero` | script.js:44-55 | a CO that no compulsory question and no first question of a pair targets scores 0 |
| `QuestionMarks.COTotalNonNegative` | script.js:44-55 | non-negative marks give non-negative CO scores |
| `QuestionMarks.IndexOf` | script.js:116-117 | `findIndex` gives the first position of the wanted cell, and -1 exactly when it is absent |
| `QuestionMarks.FirstDetail` | script.js:123 | `find` gives the first details record with exactly that USN, or none |
| `QuestionMarks.FindName` | script.js:123-124 | the search returns the first matching record's name, or "" |
| `QuestionMarks.FindIndex` | script.js:116-117 | the search loop returns `findIndex` |
| `QuestionMarks.IndexOfShift` | script.js:106-117 | after the SLNO cell is put in front, the USN column index is one more |
| `QuestionMarks.NumberedReaches` | script.js:106-122 | after numbering, every row reaches the USN column |
| `QuestionMarks.NameColumnPlacement` | script.js:105-126 | every row gains two cells; the header starts with "SLNO" and has "NAME" right after `student_usno`; data row i starts with i and has the looked-up name right after its USN cell, all other cells shifted in order |
| `QuestionMarks.OutputTable.NumberRows` | script.js:105-111 | the SLNO half: a header cell and serials 1..n in front |
| `QuestionMarks.OutputTable.InsertNames` | script.js:119-126 | the NAME half: a name cell after the USN column of every row |
| `QuestionMarks.OutputTable.AddNameColumn` | script.js:98-129 | the table becomes the numbered table with the name column |
| `GroupStats.Numbers` | stats.js:20-23 | a one-cell array keeps its value exactly when it is a number; the values kept are exactly those of number cells |
| `GroupStats.NumbersAppend` | stats.js:23 | filtering distributes over concatenation, so each number cell is kept once, in order, with its multiplicity |
| `GroupStats.Average` | stats.js:22-27 | the result is "" exactly when no entry is a number |
| `GroupStats.AverageBetween` | stats.js:22-27 | the average lies between the rounded smallest and largest number |
| `GroupStats.AverageIgnoresNonNumbers` | stats.js:23 | a non-number entry anywhere in the array does not change the average |
| `GroupStats.Distinct` | stats.js:30 | a value is listed exactly when it occurs, and no value twice |
| `GroupStats.DistinctFirstSeen` | stats.js:30 | values are listed in the order of their first occurrence |
| `GroupStats.TruthyColumn` | stats.js:30 | the column's values kept are exactly the truthy ones |
| `GroupStats.UniqueListMembers` | stats.js:29-30 | the list holds each truthy value of the column once, and nothing else |
| `GroupStats.FindGroup` | stats.js:72 | the lookup finds the group of the key, or reports that there is none |
| `GroupStats.AddRow` | stats.js:63-80 | one pass keeps the groups equal to the grouping of the rows seen so far |
| `GroupStats.GenerateStats` | stats.js:60-83 | the groups are one per distinct key of the kept rows, in first-seen order, each holding its kept rows in row order |
| `GroupStats.KeptKeysMembers` | stats.js:68-70 | a key occurs exactly when some row with truthy year, branch and code has it |
| `GroupStats.RowsWithKeyMembers` | stats.js:68-79 | a row is in a key's rows exactly when it is a kept row with that key |
| `GroupStats.RowsWithAbsentKey` | stats.js:72-79 | a key no kept row has gathers no rows |
| `GroupStats.GroupsPartition` | stats.js:60-80 | keys are distinct, every kept row is in exactly the group of its key, and a row with a falsy year, branch or code is in no group |
| `GroupStats.GroupsFirstSeen` | stats.js:72-77 | groups appear in the order their keys first occur |
| `GroupStats.Column` | stats.js:91 | the column has one entry per row, cell `j` of it |
| `GroupStats.CalcRange` | stats.js:89-92 | `count` averages |
| `GroupStats.Calculate` | stats.js:86-100 | 5 CIE, 5 SEE, 12 PO and 3 PSO averages |
| `GroupStats.ReportedColumns` | stats.js:89-99 | the 25 averages are those of columns 6..15 and 17..31 in order; column 16 is never reported |
| `GroupStats.ReportedAverageBetween` | stats.js:89-92 | a reported average lies between the rounded smallest and largest number of its column |

## Left out

- DOM, localStorage, `FileReader` and XLSX reading and writing are left out. Event
  listeners, Chart.js charts, print windows, image embedding and every HTML string builder
  are left out too: `renderUploaded`, `renderSummary`, `renderTable`, `buildCOPOTable`,
  the cell strings of `renderCOPOTableWithFinal`, stats.js `render` and `verticalList`,
  and script.js `displayResult` and `exportToExcel`. Stored and typed values become
  parameters.
- server.js (static file serving) is not part of this model.
- Which of the uploaded, stored and typed values wins (obe.js:478-485, obe.js:573-580) is
  not modelled. The chosen value is an input.
- `setTimeout(matchSEEwithCIE, 500)` and the `window.location.reload()` of `loadCOResults`
  are timers and page reloads, so they are not modelled.
- Floating-point effects are not modelled: binary rounding of `toFixed`, `Infinity`,
  exponent notation in `parseFloat`/`Number`, and `-0`. Numbers are exact reals.
- `Text.ToUpper` and `Text.ToLower` map ASCII letters only; Unicode case mapping is not
  modelled. `trim` and `\s` are modelled with JavaScript's full white-space set (tab,
  vertical tab, form feed, the byte-order mark, every space separator and the four line
  terminators).
- Commented-out formulas are not modelled (obe.js:763-780, obe.js:846-859, obe.js:937,
  obe.js:954-957). The earlier duplicate of `rebuildAllTargetInputs` and
  `updatePOColumnAverages` is not modelled either; the later definition is the one in
  effect.
- The `poWeight` array of `computePOAttainment` is written but never read, so it is not
  modelled.
- The per-cell products of the CO rows of `renderCOPOTableWithFinal` are display strings
  and are not modelled. Their average row is modelled (`PoAttainment.AvgMappingRow`).
- `PoAttainment.LevelAt`: mapping levels are taken as stored numbers. A missing or empty
  level reads as 0; the number input (obe.js:738) stores nothing else. The model does not
  restrict levels to 0..3.
- `FinalScore.FillColumns` takes the weights as already read. The source reads them once
  before the loop, so this is the same computation.
- `Reconcile.MatchSEEwithCIE` works on the table bodies (`tbody tr`), which exclude the
  header row. The highlight classes are modelled as flag sequences and the alert as its
  text.
- `Reconcile.NameMapLast`: the USN-to-name dictionary is a map on strings. JavaScript
  object keys such as `__proto__` behave differently and are not modelled.
- `Reconcile.HtmlTable.InsertNames` requires every data row to have a name cell. The source
  would throw on a row without one.
- `Reconcile.HtmlTable.FilterByName` requires every data row to have a name cell (index 2).
  The source reads `cells[2].innerText` and would throw on a shorter row (obe.js:1366); the
  table it runs on is built with that cell in every row.
- `Reconcile.HtmlTable.ReorderSlno` requires every data row to have a first cell. The
  source writes `cells[0].innerText` and would throw on an empty row (obe.js:1408).
- `Normaliser.HeaderLabel` keeps a number header as the number rather than as the text
  `String(v).trim()`. Number text never starts with `CO`, so which columns count as CO
  columns is unchanged; the exact header text of a number header is not modelled.
- The `processFinalSEE` step of `loadCOResults` turns the table back into a grid and calls
  `processAOA`, which is modelled as `Normaliser.ProcessAOA`. The text conversion itself is
  not modelled.
- `QuestionMarks.ComputeCOs`: the result object's keys are the strings `CO<n>`. The model
  keys scores by the parsed CO number (`Option<int>`, `None` for `NaN`). The key order of
  the JavaScript object is not modelled.
- `QuestionMarks.OutputTable.AddNameColumn` requires a `student_usno` header cell. Without
  one the source inserts at index 0 and reads `cells[-1]`, which throws; that path is not
  modelled. Detail names are text; a non-string name is not rendered.
- `GroupStats.GenerateStats` groups by the triple of cells. The source groups by the text
  `${year}__${branch}__${code}`. The two differ only when distinct triples print the same,
  for example the number 2023 and the string "2023", or values that contain `__`. Such
  keys always contain `__`, so they are never array indices, and the group order is
  insertion order as modelled.

