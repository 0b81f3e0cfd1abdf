# QA matrix: a verified model of the recomputation engine, the page's record list and the spreadsheet importer

The QA matrix application keeps a list of quality-concern records. Each record
carries a defect rating (1, 3 or 5), six weekly recurrence counts, five groups
of nullable check scores (trim, chassis, final, Q'Control, Q'Control detail)
and derived fields: the recurrence total, that total plus the defect rating,
three control ratings (MFG, Quality, Plant) and three OK/NG statuses
(Workstation, MFG, Plant).

This Dafny project models three parts of it.

- **`QaCalculations`** (`qa_calculations.dfy`) models `sumNonNull` and
  `recalculateStatuses`. The ratings are written as the code computes them:
  per-group value lists are concatenated and summed, and ResidualTorque is
  split off the final group. Beside them sits an independent reference, a
  routing table (`Feeds`) that says which ratings each score field feeds.
  `TableMatchesCode` proves that the two agree.
- **`IndexPage`** (`index_page.dfy`) models the page.
  - The record list is the class `ConcernList`, with a `seq<Entry>` field.
  - Its methods are the update, delete, import and add handlers.
  - The per-record edits are the pure functions `Written` and `Apply`.
  - `Sources` and `Designations` give the source and area choices.
  - The method `FilteredData` runs the six filters in the page's order.
- **`FileUpload`** (`file_upload_dialog.dfy`) models `parseSheet` from the
  decoded row matrix on:
  - header normalisation;
  - the `findCol` loop and its priority order;
  - `getVal`, `getNum` and the defect-rating clamp;
  - the record literal, followed by recomputation;
  - the row loop. It skips empty rows and rows without a concern, and numbers
    records contiguously.

  The row loop `RowsToEntries` takes the record builder as a parameter;
  `ParseSheet` passes it the builder for the columns found.

Supporting modules:

- `QaTypes` holds the record, the closed key sets of the five score groups
  (taken from the literal the importer builds) and `SetScore`.
- `Text` holds an ASCII case map, the ECMAScript `trim`, `startsWith`,
  `includes`, decimal numerals and a string order.
- `Seqs` holds a stable filter, numbering, and sorted distinct values.
- `Wrappers` holds `Option`.

Modelling choices:

- A score group is a `map` from its keys to `Option<int>`; a missing key reads
  as null.
- A decoded cell is `Blank` or `Filled(text, number)`. `number` is the whole
  number the value reads as, if any.
- A record as the page keeps it satisfies `Stored`: six weekly slots, a rating
  of 1, 3 or 5, and derived fields consistent with the routing table.
  `ConcernList.Valid()` says that every record is `Stored`. The update,
  delete and sheet-import methods keep it. `Import` and `AddConcern` keep it
  exactly when the records they append are `Stored`.

## Model

| member | source | states |
|---|---|---|
| QaCalculations.SumNonNullAppend | src/utils/qaCalculations.ts:3-4 | The null-as-0 sum of a concatenation is the sum of the two parts. |
| QaCalculations.SumNonNullMonotone | src/utils/qaCalculations.ts:3-4 | Raising values pointwise (null read as 0) never lowers the sum. |
| QaCalculations.RecalculateStatuses | src/utils/qaCalculations.ts:7-44 | Only the derived fields change (the `Inputs` view is equal). `recurrenceCountPlusDefect` is the defect rating plus the recurrence. Any recurrence makes Workstation NG. Workstation OK implies MFG OK. |
| QaCalculations.RecalculateIsConsistent | src/utils/qaCalculations.ts:8-43 | The recomputed record is `Consistent`. Its recurrence is the weekly total. Its three ratings are the routing-table sums. MFG/Plant are OK iff their rating ≥ the defect rating. Workstation is NG on any recurrence and otherwise equals MFG. |
| QaCalculations.RecalculateKeepsFields | src/utils/qaCalculations.ts:35-43 | sNo, source, concern, defect rating, weekly slots and all five score groups are copied unchanged. |
| QaCalculations.RecalculateIdempotent | src/utils/qaCalculations.ts:35-43 | Recomputing twice gives the same record as recomputing once. |
| QaCalculations.RecalculateFixesConsistent | src/utils/qaCalculations.ts:7-44 | Recomputing a consistent record changes nothing. |
| QaCalculations.RecalculateReadsOnlyInputs | src/utils/qaCalculations.ts:7-44 | Records with the same inputs recompute to the same record, whatever stale derived values they held. |
| QaCalculations.ConsistentIsDetermined | src/utils/qaCalculations.ts:35-43 | Two consistent records with the same inputs are equal: the derived fields are a function of the inputs. |
| QaCalculations.TableMatchesMfg | src/utils/qaCalculations.ts:13-18 | MFG as coded (trim + chassis + final without ResidualTorque) equals the sum over every field the table routes to MFG. |
| QaCalculations.TableMatchesQuality | src/utils/qaCalculations.ts:20-22 | Quality as coded (the Q'Control values) equals the table's Quality sum. |
| QaCalculations.TableMatchesPlant | src/utils/qaCalculations.ts:24-26 | Plant as coded (ResidualTorque, Q'Control, Q'Control detail) equals the table's Plant sum. |
| QaCalculations.TableMatchesCode | src/utils/qaCalculations.ts:13-26 | All three coded ratings equal their routing-table sums. |
| QaCalculations.MfgRatingByGroup | src/utils/qaCalculations.ts:13-18 | MFG is the trim group sum plus the chassis group sum plus the final sum over the keys other than ResidualTorque. |
| QaCalculations.PlantRatingByGroup | src/utils/qaCalculations.ts:24-26 | Plant is ResidualTorque (null as 0) plus the Q'Control group sum plus the Q'Control detail group sum. |
| QaCalculations.ResidualTorqueOnlyMovesPlant | src/utils/qaCalculations.ts:16-18 | Setting ResidualTorque leaves MFG and Quality unchanged and moves Plant by exactly the change in that score. |
| QaCalculations.TrimAndChassisNeverMovePlant | src/utils/qaCalculations.ts:24-26 | Setting a trim or chassis score never changes the Plant or Quality rating. |
| QaCalculations.SixWeekTotal | src/utils/qaCalculations.ts:10 | For six slots, the recurrence is the plain sum of the six counts. |
| QaCalculations.RecurrenceIffPositiveTotal | src/utils/qaCalculations.ts:9-10 | With non-negative counts, the total is ≥ 0, and some week recurred iff the total is positive. |
| QaCalculations.QualityFeedsNoStatus | src/utils/qaCalculations.ts:20-33 | With the same defect rating, weekly counts, MFG rating and Plant rating, all three statuses agree, whatever the Quality rating. |
| QaCalculations.RecurrenceOverridesWorkstationOnly | src/utils/qaCalculations.ts:28-33 | With a recurring week, Workstation is NG, while MFG is still OK iff its rating ≥ the defect rating, and Plant likewise. |
| QaCalculations.TableRatingMonotone | src/utils/qaCalculations.ts:18-26 | Scores at least as high field by field give ratings at least as high, at every level. |
| QaCalculations.RaisingScoresNeverDemotes | src/utils/qaCalculations.ts:18-33 | With the defect rating and weekly counts fixed, raising scores never turns an OK status into NG. |
| QaCalculations.RaisingOneScoreNeverDemotes | src/utils/qaCalculations.ts:18-33 | The single-score edit: raising one score never demotes any status. |
| QaCalculations.NoScoreRatesZero | src/utils/qaCalculations.ts:3-4 | A record with no score rates 0 at every level. |
| QaCalculations.BlankRecordIsNG | src/utils/qaCalculations.ts:8-33 | A stored record with no scores and zero weeks has ratings 0/0/0, recurrence 0, and all three statuses NG. |
| QaTypes.SetScore | src/pages/Index.tsx:39 | `{ ...entry, [section]: { ...entry[section], [key]: value } }`: the one score reads `value`, and every other score is unchanged. |
| QaTypes.SetScoreTwice | src/pages/Index.tsx:39 | Writing the same score twice equals writing it once. |
| IndexPage.SetText | src/pages/Index.tsx:51 | `{ ...entry, [field]: value }` for a text field: that field holds the value; every other text field and every non-text field is unchanged. |
| IndexPage.ApplyKeepsInputs | src/pages/Index.tsx:27-53 | An edit keeps the record's sNo. The edited record's inputs are those of the spread record; recomputation touches derived fields only. |
| IndexPage.WeeklyEdit | src/pages/Index.tsx:27-34 | The weekly edit sets slot `w` to the value and keeps the other slots and every other input. The result is consistent (recomputed). |
| IndexPage.ScoreEdit | src/pages/Index.tsx:36-42 | The score edit sets that score, keeps every other score and every other input, and recomputes. |
| IndexPage.RatingEdit | src/pages/Index.tsx:44-50 | A defect-rating edit sets the rating to the number typed, keeps the other inputs, and recomputes the statuses. |
| IndexPage.TextEdit | src/pages/Index.tsx:51 | A text-field edit sets that field without recomputing. Writing the old text back restores the record exactly. |
| IndexPage.ApplyKeepsStored | src/pages/Index.tsx:27-53 | Every edit maps a stored record to a stored record. |
| IndexPage.ApplyIdempotent | src/pages/Index.tsx:27-53 | Applying the same edit twice equals applying it once. |
| IndexPage.UpdateWhere | src/pages/Index.tsx:28-29 | `prev.map(...)` keeps the length, and every record keeps its sNo. Records with another sNo are unchanged. Records with the sNo are replaced by the edited record. |
| IndexPage.UpdateKeepsStored | src/pages/Index.tsx:27-53 | A list of stored records stays stored under any handler's edit. |
| IndexPage.UpdateIdempotent | src/pages/Index.tsx:27-53 | Sending the same update twice gives the same list as sending it once. |
| IndexPage.DeleteRemovesExactly | src/pages/Index.tsx:55-57 | Delete keeps an order-preserving subsequence. A record stays iff its sNo differs, and each kept record keeps its multiplicity. |
| IndexPage.DeleteKeepsStored | src/pages/Index.tsx:55-57 | Deleting keeps every remaining record stored. |
| IndexPage.AppendStored | src/pages/Index.tsx:59-65 | An appended list is all stored iff both parts are. |
| IndexPage.AsWrittenNextSNoClashes | src/pages/Index.tsx:117-118 | With records numbered 1 and 2, after deleting 1 the number `data.length + 1` is 2, which duplicates the remaining record's number. |
| IndexPage.NextSNo | src/pages/Index.tsx:117-118 | The corrected next number is ≥ 1 and above every sNo in use. |
| IndexPage.NextSNoAgreesWhileDense | src/pages/Index.tsx:117-118 | While records are numbered 1, 2, … in order, the corrected number equals `data.length + 1`. |
| IndexPage.ImportKeepsSNosDistinct | src/pages/Index.tsx:118 | Appending a parsed sheet numbered from the corrected number keeps all sNos distinct. |
| IndexPage.Sources | src/pages/Index.tsx:24 | The source choices are strictly sorted (hence distinct). A value is offered iff some record has that source. |
| IndexPage.Designations | src/pages/Index.tsx:25 | The area choices are strictly sorted. A value is offered iff it is some record's upper-cased designation. |
| IndexPage.SourcesAreUnique | src/pages/Index.tsx:24 | Any strictly sorted list holding exactly the sources in use is the source choice list. |
| IndexPage.SourceChoiceShowsRecords | src/pages/Index.tsx:24 | Picking an offered source shows at least one record. |
| IndexPage.DesignationChoiceShowsRecords | src/pages/Index.tsx:25 | Picking an offered area shows at least one record. |
| IndexPage.FilteredData | src/pages/Index.tsx:67-83 | The six guarded filters, run in order on `result`, return exactly `Filter(data, SelectedBy(c))`: the records passing every filter that is set, in list order. |
| IndexPage.StageStep | src/pages/Index.tsx:68-81 | Each guarded filter turns the records passing the first k-1 filters into those passing the first k. |
| IndexPage.FilteringTwiceShowsSame | src/pages/Index.tsx:67-83 | Filtering the shown records again by the same criteria shows the same records. |
| IndexPage.FilterShowsExactlySelected | src/pages/Index.tsx:67-83 | The shown records are an order-preserving subsequence of the list. A record is shown iff it is in the list and passes every filter set. |
| IndexPage.NoCriteriaShowsAll | src/pages/Index.tsx:67-83 | With no search, source, area or rating filter, and a status filter other than "NG" and "OK", the whole list is shown. |
| IndexPage.SearchFindsSNo | src/pages/Index.tsx:69-75 | Searching for a record's decimal sNo shows that record. |
| IndexPage.RatingFindsRecord | src/pages/Index.tsx:79 | Choosing a record's defect rating, as decimal text, in the rating filter shows that record. |
| IndexPage.UnreadableRatingShowsNothing | src/pages/Index.tsx:79 | A rating filter that is not a number matches no record. |
| IndexPage.StatusFiltersSplit | src/pages/Index.tsx:80-81 | "Has NG" and "All OK" partition what the other filters show: their counts add up to the unfiltered count. |
| IndexPage.NGMeansShortfall | src/pages/Index.tsx:80 | For a stored record, "Has NG" holds iff a week recurred or the MFG or Plant rating is below the defect rating. |
| IndexPage.ConcernList.constructor | src/pages/Index.tsx:15 | The list starts as the records loaded, and it is valid exactly when they are all stored. |
| IndexPage.ConcernList.UpdateWeekly | src/pages/Index.tsx:27-34 | The list becomes `UpdateWhere(old, sNo, Weekly(...))`, keeps `Valid()`, and keeps the sNo sequence. |
| IndexPage.ConcernList.UpdateScore | src/pages/Index.tsx:36-42 | The list becomes `UpdateWhere(old, sNo, Score(...))`, keeps `Valid()`, and keeps the sNo sequence. |
| IndexPage.ConcernList.UpdateField | src/pages/Index.tsx:44-53 | The list becomes `UpdateWhere(old, sNo, SetField(...))`, keeps `Valid()`, and keeps the sNo sequence. |
| IndexPage.ConcernList.Delete | src/pages/Index.tsx:55-57 | The list becomes the stable filter without sNo. It keeps `Valid()` and distinct sNos. |
| IndexPage.ConcernList.Import | src/pages/Index.tsx:59-61 | The imported records are appended after the existing list. The list is valid iff it was and the imported records are stored. |
| IndexPage.ConcernList.AddConcern | src/pages/Index.tsx:63-65 | The record is appended at the end. The list is valid iff it was and the record is stored. |
| IndexPage.ConcernList.ImportSheet | src/components/FileUploadDialog.tsx:122-135 | The sheet is parsed, numbered from the corrected `NextSNo(old(data))` (the largest sNo + 1), and any records are appended. The page as written numbers from `data.length + 1` (src/pages/Index.tsx:118); see the Findings row. Valid and distinct sNos are kept. |
| FileUpload.Header | src/components/FileUploadDialog.tsx:26 | A normalised header holds no capital letter and no white space at either end. It is "" iff its cell's text is all white space. |
| FileUpload.HeaderIsTrimmedSlice | src/components/FileUploadDialog.tsx:26 | A header is the lower-cased slice `x[a..b]` of its cell's text `x`, with only white space before `a` and after `b`. |
| FileUpload.HeaderOfName | src/components/FileUploadDialog.tsx:26 | A header cell holding a name without surrounding white space reads as the lower-cased name, so it matches that name in any case. |
| FileUpload.Headers | src/components/FileUploadDialog.tsx:26 | There is one header per cell of the first row. Each holds no capital letter and no white space at either end, and is "" iff its cell's text is all white space. |
| FileUpload.IndexWhere | src/components/FileUploadDialog.tsx:31-35 | `indexOf`/`findIndex`: the first header passing the test, or -1 iff none does. No earlier header passes. |
| FileUpload.LocatePriority | src/components/FileUploadDialog.tsx:30-36 | For one name: the first exact header wins; failing any exact one, the first prefix match; failing any prefix match, the first substring match. |
| FileUpload.LocateFindsContaining | src/components/FileUploadDialog.tsx:30-36 | A name is located iff some header contains it. The index found is that of a header containing it. |
| FileUpload.ColumnMissing | src/components/FileUploadDialog.tsx:28-39 | `findCol` returns -1 iff no header contains any of the lower-cased names. |
| FileUpload.ColumnHoldsAName | src/components/FileUploadDialog.tsx:28-39 | A column found contains one of the names. |
| FileUpload.FirstContainedNameDecides | src/components/FileUploadDialog.tsx:28-39 | The names are tried in order. If no header contains any earlier name and some header contains `names[k]`, the column is where `names[k]` is located. |
| FileUpload.ExactFirstNameWins | src/components/FileUploadDialog.tsx:29-32 | If a header equals the first name, its first occurrence is the column, whatever later names match. |
| FileUpload.FindCol | src/components/FileUploadDialog.tsx:28-39 | The early-return loop returns `ColumnFor(headers, names)`, an index in range or -1. |
| FileUpload.GetVal | src/components/FileUploadDialog.tsx:41-44 | The result is "" for a column < 0 or past the row. For a column in the row it is a slice `x[a..b]` of the cell's text `x`, with only white space before `a` and after `b`. It is always already trimmed. |
| FileUpload.GetNum | src/components/FileUploadDialog.tsx:46-52 | Null for a column out of range or for an empty cell; otherwise the cell's number, null when not numeric. |
| FileUpload.ClampRating | src/components/FileUploadDialog.tsx:72-73 | The result is 1, 3 or 5: the parsed value when it is one of them, and 1 otherwise. |
| FileUpload.BuildEntryFacts | src/components/FileUploadDialog.tsx:75-100 | The record of a row is stored and numbered as given. Its text fields are the trimmed cells (a blank source becomes "Import"). Its rating is clamped, its six slots are zero, and it has no score. |
| FileUpload.ImportedRecordStartsNG | src/components/FileUploadDialog.tsx:90-100 | A fresh record rates 0/0/0 with recurrence 0, and all three statuses are NG: the OK statuses written in the literal never survive recomputation. |
| FileUpload.SheetEntries | src/components/FileUploadDialog.tsx:24 | Fewer than two rows give no records. In every case there are at most `rows.length - 1` records. |
| FileUpload.Records | src/components/FileUploadDialog.tsx:63-101 | At most one record per data row. |
| FileUpload.RecordsNumbered | src/components/FileUploadDialog.tsx:76 | The k-th record is built from the k-th kept row and has sNo `start + k`. |
| FileUpload.SheetEntriesNumbered | src/components/FileUploadDialog.tsx:76 | The records of a sheet are numbered `startSNo`, `startSNo + 1`, … contiguously. |
| FileUpload.SheetEntriesStored | src/components/FileUploadDialog.tsx:100 | Every record a sheet yields is recomputed, hence stored. |
| FileUpload.RecordsKeepRowsWithConcern | src/components/FileUploadDialog.tsx:65-100 | Every data row with cells and a concern text yields its record at some position k, numbered `start + k`. |
| FileUpload.RecordsComeFromKeptRows | src/components/FileUploadDialog.tsx:66-70 | Every record comes from a data row that has cells and a non-empty concern: other rows yield nothing. |
| FileUpload.ParseSheet | src/components/FileUploadDialog.tsx:22-104 | The method (early return, eight `findCol` calls, row loop) returns exactly `SheetEntries(rows, startSNo)`. |
| FileUpload.RowsToEntries | src/components/FileUploadDialog.tsx:63-101 | The row loop returns the built records of the kept data rows in order, the k-th numbered `startSNo + k`. |
| Text.Trim | src/components/FileUploadDialog.tsx:43 | `trim()`: the result is a slice `s[a..b]` of the input with only white space before `a` and after `b`, and it has no white space at either end. |
| Text.TrimEmptyIff | src/components/FileUploadDialog.tsx:43 | The trimmed text is empty if and only if the input is all white space. |
| Text.TrimIdempotent | src/components/FileUploadDialog.tsx:43 | Trimming twice equals trimming once. |
| Seqs.FilterKeepsOrderAndCounts | src/pages/Index.tsx:56 | `filter` keeps an order-preserving subsequence. Each passing value appears exactly as often as in the input, and others not at all. |
| Seqs.SortedDistinct | src/pages/Index.tsx:24-25 | `[...new Set(xs)].sort()`: strictly sorted, no duplicates, and holding exactly the values of xs. |

## Left out

- Rendering, React hooks, dialog open/close state, the `filter` state that the dashboard sets, and `clearAllFilters`: these are UI state.
- `usePersistedData`, `resetToExcel`, `exportToCSV` and `exportToXLSX`: persistence and file export. Their sources are not part of this model. The list is modelled as the field `ConcernList.data`.
- `FileReader`, `XLSX.read` and `XLSX.utils.sheet_to_json`: the model starts from the decoded row matrix (`seq<Row>`). A missing row (`!row`) is modelled as an empty row.
- src/components/Dashboard.tsx and `getDashboardSummary`: the aggregation lives in a file that is not part of this model.
- `AddConcernDialog` is not part of this model. `ConcernList.AddConcern` takes the record it hands over as given.
- FileUpload.GetNum: JavaScript `Number()` coercion is abstracted into the cell's `number` field, a whole number when the value reads as one. Fractional values, `Infinity` and hexadecimal or exponent notation are not modelled.
- FileUpload.Headers: JavaScript truthiness in `String(h || "")` is not modelled. A cell holding the number 0 or `false` reads as its text, not as "".
- IndexPage.Selected: `Number(ratingFilter)` is modelled by a decimal digit parser. The page only offers "1", "3" and "5", and a non-number matches nothing, as NaN does.
- Text.Lower and Text.Upper map ASCII letters only. Other characters are kept: there is no Unicode case mapping.
- Seqs.SortedDistinct uses code-point order on `seq<char>`, not the UTF-16 order of `Array.prototype.sort`.
- Ratings and totals are unbounded integers. JavaScript doubles agree with them for the small counts and scores in use; rounding beyond 2^53 is not modelled.
- IndexPage.ConcernList.UpdateWeekly requires `0 <= weekIndex < |weeklyRecurrence|`. The code accepts any index, and the out-of-range behaviour (growing the array) is not modelled.
- IndexPage.ConcernList.UpdateField requires a rating text that reads as 1, 3 or 5 when the field is `defectRating`. The code casts any string, and other values are not modelled.
- FileUpload.Headers reads a blank header cell as "". The sheet decoder leaves a blank cell before the last filled one as a hole in the header array, and `.map` at src/components/FileUploadDialog.tsx:26 keeps the hole. `indexOf` skips it, but `findIndex` at :33 calls `startsWith` on `undefined` when it reaches it and throws. So a header row such as `Source | (blank) | Concern` can make the import fail when a name has no exact match. The model does not capture that failure.
- IndexPage.ConcernList.UpdateScore takes a `ScoreRef`, so the key is one of its group's closed set of checks. `handleScoreUpdate` (src/pages/Index.tsx:36, 39) accepts any string key. A key outside the set would add a property that `Object.values` (src/utils/qaCalculations.ts:14-25) then sums into the ratings. Such keys are not modelled.
- IndexPage.ConcernList.UpdateField takes one of the seven editable fields (`Field`). Writing an arbitrary property name, which would add a new key to the record, is not modelled.
- `guaranteedQuality` is carried as a field but no handler of the page edits it, and recomputation copies it.
- FileUpload.RowsToEntries is given the record builder as a parameter. `ParseSheet` passes it `Builder(cols)`, the recomputed literal for the columns found. The loop itself does not inline the literal.

## Findings

| source | as written | input that shows it | evidently intended | confidence | as-written member | corrected member |
|---|---|---|---|---|---|---|
| src/pages/Index.tsx:117-118 | The next record number handed to the add and import dialogs is `data.length + 1`. | Records numbered 1 and 2. Delete record 1, leaving one record numbered 2. The next number is then `1 + 1 = 2`, so an added or imported record duplicates sNo 2. | A number above every sNo in use, so that sNos stay unique. The update and delete handlers select records by sNo, so a duplicate is edited or deleted together with the other record. | not executed | IndexPage.AsWrittenNextSNoClashes | IndexPage.ImportKeepsSNosDistinct |
