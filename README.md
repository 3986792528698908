# Approval-latency report: a verified model of its event reconstruction

The program reads a CSV export of tracked issues. Each cell that carries an
"Approved in" or "Rejected in" notice becomes an event. The event is dated by
the first word of the cell's first line (layout `02/Jan/06`) and takes its week
number from the first `W<digits>` on that line. Events dated in 2022 are filed
under their issue key. Each issue's events are then sorted by date, and one
forward pass finds:

- the first approval;
- how many rejections came before it;
- the `W<week>` labels of every later approval;
- the latency in days from the issue's creation to the first approval.

The result is one row per issue.

This project models that logic in Dafny, split into modules that follow the
steps of `main()`:

- `Calendar` (calendar.dfy): dates as day numbers since Go's zero time, each
  with its calendar year. Also the latency in whole days, including Go's
  `time.Duration` saturation.
- `Text` (text.dfy): substring search, the first field of a split, and
  `strconv.Atoi` / `strconv.Itoa` on decimal digit runs.
- `Cells` (cells.dfy): the `specStruct` record (`Spec`), the classification of
  a cell, and the week extraction. The extraction is a hand-written
  left-to-right scan (`ScanWeek`) proved equal to a definition by leftmost
  match and maximal digit run.
- `Grouping` (grouping.dfy): the year filter, one cell read into an optional
  record (`CellEvent`), and the issue map as a class (`SpecTable`) whose
  `Add`, `IngestRow` and `Ingest` methods update it in place. They are proved
  against `Grouped`, the pure fold of appends.
- `Reconstruction` (reconstruction.dfy):
  - an in-place sort of an issue's array by date;
  - the forward pass, as a loop (`FirstApprovalPass`) proved equal to a pure
    fold (`Scan`);
  - the output row (`Summary`);
  - the per-issue and whole-report methods;
  - the lemmas that say what the pass computes.

Date parsing (`time.Parse`) is a library call. It is a parameter of the model
(`DateParser`): a total function from text to an optional `CalendarDate`, where
`None` is a parse error. A `CalendarDate` is a date whose day number lies within
its year, as every date Go parses is. As in the code, a parse error leaves the
zero time, 1 January of year 1.

The record `specStruct` (main.go:22-34) is the datatype `Cells.Spec`, with the
same eleven fields. Its Go zero value, which the pass starts from and which an
issue without approval reports (main.go:122), is the constant `Cells.ZeroSpec`:
an Approved event at the zero time, with empty strings, week 0, no later
approvals and no rejections.

The model follows the code as written. In particular:

- An issue with no approval still gets a row. The row holds the zero record:
  year 1, week 0, no later approvals, latency 0 and no rejections. The issue
  is not dropped.
- An unparsable date is not skipped. It becomes the zero time. For an event
  cell, the year filter then drops the cell. For a creation date, the latency
  saturates at 106751 days.
- The sort is `sort.Slice`, which is not stable. The model promises only a
  date-sorted permutation, and every lemma about the pass holds whatever order
  events with equal dates end up in.
- A kept cell without a `W<digits>` on its first line makes the code panic.
  The model requires such a match; it does not skip the cell.
- The code has no rework detection, no quarter buckets and no "minus one
  month" year rule. The printed year is the first approval's calendar year.

## Model

| member | source | states |
|---|---|---|
| `Calendar.LatencyDays` | main.go:143-145 | Latency lies within ±106751 days. It is positive exactly when creation precedes the approval and negative exactly when the approval precedes creation. Within Duration's range it is the exact, unclamped day difference. |
| `Calendar.UnparsedCreationSaturates` | main.go:79-82 | An unparsable creation date is the zero time. Against a 2022 approval, the latency saturates at 106751 days. |
| `Calendar.YearsAreOrdered` | main.go:72 | Every valid date of one year has a smaller day number (the sort key) than every valid date of a later year. |
| `Text.Contains` | main.go:58 | `strings.Contains` is true exactly when the marker occurs at some index of the cell. |
| `Text.FirstField` | main.go:65-66 | `strings.Split(s, sep)[0]` is the longest prefix free of `sep`. It is all of `s` or stops just before the first `sep`. |
| `Text.Atoi` | main.go:86 | `strconv.Atoi` on a digit run gives its decimal value when that fits in a 64-bit int, and exactly the largest 64-bit int when it does not. |
| `Text.DecimalString` | main.go:133 | `strconv.Itoa` of a non-negative week is a non-empty digit run with no leading zero, one digit long exactly when the week is below 10. |
| `Text.DecimalRoundTrip` | main.go:133 | Reading back the digits `Itoa` printed gives the number. |
| `Text.DecimalStringOfValue` | main.go:86 | Printing the value of a digit run without a leading zero gives the run back. |
| `Cells.Classify` | main.go:58-64 | A cell is Approved exactly when "Approved in" occurs in it, even if "Rejected in" does too. It is Rejected exactly when only "Rejected in" occurs, and no event exactly when neither does. |
| `Cells.FirstWeekAt` | main.go:84 | Finds the leftmost position where `W(\d)+` matches, with no match before it, or reports that there is none. |
| `Cells.DigitsEnd` | main.go:84 | The greedy `(\d)+` takes the maximal run of digits after the `W`. |
| `Cells.Week` | main.go:84-86 | The week of a line is never above the largest int. The leftmost `W<digit>` match has a non-empty maximal digit run after it, and when that run's value fits the week is exactly that value. `Cells.LabelNamesWeek` is its inverse. |
| `Cells.ScanWeek` | main.go:84-86 | The left-to-right scan returns the `Atoi` value of the digits of the leftmost `W<digits>` match on the line, and never more than the largest int. |
| `Cells.Label` | main.go:133 | A later-approval label is `W` followed by digits. |
| `Cells.LabelNamesWeek` | main.go:133 | Extracting the week from a later-approval label `"W"+Itoa(week)` gives the week back. |
| `Grouping.ParsedOrZero` | main.go:67-70 | A parse result is a valid calendar date: the parsed date when parsing succeeds, and the zero time, in year 1, when it fails. The same holds for the creation date at main.go:79-82. |
| `Grouping.Kept` | main.go:58-72 | A kept cell carries one of the two markers, and its date token parsed successfully (the zero time is never in 2022). |
| `Grouping.UnparsedEventDropped` | main.go:67-72 | An event date that fails to parse is the zero time, so the cell is not kept. |
| `Grouping.CellSpec` | main.go:73-88 | A kept cell's record has the cell's event type, a 2022 event date, the row's issue key, valid event and creation dates, and no later approvals or rejections yet. |
| `Grouping.CellEvent` | main.go:58-88 | Reading one cell yields a record exactly when the cell has a marker and a 2022 date. The record is built from the cell and its row's fixed columns. |
| `Grouping.CellsSpecs` | main.go:57-88 | One row yields at most one record per cell. Each is dated in 2022 on a valid date, carries the row's issue, and has no later approvals or rejections yet. |
| `Grouping.RowsSpecs` | main.go:56-88 | Every record all rows yield is dated in 2022 on a valid date. None comes from a date that failed to parse, and none has later approvals or rejections yet. |
| `Grouping.Appended` | main.go:90-99 | Filing one record appends exactly that record to its issue's list (creating it when absent) and leaves every other key's list unchanged. |
| `Grouping.Grouped` | main.go:90-99 | Filing a sequence of records, in order, never removes a key. `Grouping.GroupedKeys` and `Grouping.GroupedByIssue` give its full meaning. |
| `Grouping.GroupedKeys` | main.go:90-99 | After ingestion, a key is in the map exactly when it was there before or some ingested record carries it. |
| `Grouping.GroupedByIssue` | main.go:90-99 | Each key's list is its earlier list followed by exactly that issue's records, in encounter order. |
| `Grouping.GroupedConcat` | main.go:56-57 | Filing two batches one after the other is filing their concatenation. |
| `Grouping.SpecTable.constructor` | main.go:54 | The map starts empty. |
| `Grouping.SpecTable.Add` | main.go:90-99 | Adding a record appends exactly that record to its issue's list, creating the list if absent. Every other key's list is unchanged. |
| `Grouping.SpecTable.IngestRow` | main.go:57-102 | Scanning one row files that row's kept records in cell order. |
| `Grouping.SpecTable.Ingest` | main.go:56-103 | Scanning all rows leaves the map equal to the old map with every kept record filed in order. |
| `Reconstruction.SortByDate` | main.go:112-114 | After sorting, the array holds the same records, in non-decreasing date order. |
| `Reconstruction.SortedByYear` | main.go:112-114 | After sorting by date, a record of a later year never precedes one of an earlier year, because every parsed date is valid. |
| `Reconstruction.Step` | main.go:126-139 | One iteration marks the first approval as found exactly when the record is an approval or one was already found. An approval resets the rejection counter and a rejection bumps it. The first approval becomes the record, with the rejections counted so far. Once the record is chosen, a step only appends to its later approvals and changes nothing else. |
| `Reconstruction.Scan` | main.go:118-141 | After the whole pass, an approval was found exactly when the list holds one. Without one, the state is the start state with every record counted as a rejection. |
| `Reconstruction.FirstApprovalPass` | main.go:118-141 | The loop leaves `firstSpec` equal to the fold of the pass over the sorted list. |
| `Reconstruction.FirstApproved` | main.go:126-131 | Finds the index of the first approved record, before which every record is a rejection, or reports that every record is a rejection. |
| `Reconstruction.ScanResult` | main.go:118-141 | With no approval, the record stays the zero value. Otherwise it is the first approval, with the count of rejections before it and the labels of every later approval, in order. |
| `Reconstruction.PassCounts` | main.go:118-138 | `rejections` equals the number of records before the first approval, all of them rejections. The later labels number one fewer than the approvals (plus any labels the record already had). |
| `Reconstruction.EventsAfterFirstApproval` | main.go:132-138 | Events after the first approval leave its record unchanged, except that later approvals append their labels. Later rejections never change `rejections`. |
| `Reconstruction.FirstApprovalIsEarliest` | main.go:112-131 | On a date-sorted list, no approval is dated before the first one. Every rejection dated earlier is counted. Every counted rejection is dated no later. |
| `Reconstruction.CountKindPermutation` | main.go:112-114 | Sorting does not change how many approvals or rejections an issue has. |
| `Reconstruction.NoApprovalRow` | main.go:122 | An issue without an approval still gets a row: the zero record's, with year 1 and every count and the latency zero. |
| `Reconstruction.SummaryOf` | main.go:143-145 | The printed row has the record's issue, year and rejection count. Its later-approval count is the length of the joined list of labels. Its latency lies within ±106751 days and is positive exactly when creation precedes the event. |
| `Reconstruction.IngestedLists` | main.go:54-103 | Every list of a table filled from empty holds only 2022 records on valid dates with no later approvals or rejections yet, so every issue of the report meets the requirement of `Reconstruction.IssueRow`. |
| `Reconstruction.IssueRow` | main.go:108-145 | For any date-sorted permutation of an issue's ingested records with an approval, the row is dated 2022 and lists (approvals − 1) later weeks. Its date comes from an approval no other approval precedes. It counts exactly the rejections placed before that approval. Its latency runs from that approval's date to the creation date. |
| `Reconstruction.ReconstructIssue` | main.go:110-145 | An issue's array is sorted in place into a date-ordered permutation, and the row is computed from the pass over that order. |
| `Reconstruction.Report` | main.go:108-147 | Every issue's list is sorted in place within the map. Each issue gets exactly one row, keyed by issue, computed from its sorted list. |
| `Reconstruction.WorkedExample` | main.go:118-145 | An issue rejected twice, approved in week 2, rejected again and approved in week 7 reports week 2, one later approval "W7", two rejections, and 40 days from a 1 December creation to a 10 January approval. |

## Left out

- Opening and reading `cenpro.csv`, and `log.Fatal` on its errors (main.go:37-50), are file I/O. The model starts from the rows.
- The header line and the row format string (main.go:106, 145) are output formatting. The model returns a `Summary` record per issue, whose `laterWeeks` is the list the code joins with ":".
- `time.Parse` with layout "02/Jan/06" (main.go:67, 79) is a library call. It is the `DateParser` parameter. The "Date … not parsed" diagnostic is output and is not modelled.
- Go's regular-expression engine (main.go:52, 84) is replaced by the explicit leftmost-match scan in `Cells`.
- The panic on `week[1:]` when a kept cell has no `W<digits>` (main.go:86) is a precondition (`CellWellFormed`). No recovery is invented.
- The fixed column indices 1, 4, 20, 604, 629 and 1096 (main.go:73-78) and their bounds panics are CSV-shape issues. Each row's fixed columns arrive already extracted as `RowMeta`.
- Go's map iteration order (main.go:108) is unspecified. The report is a map keyed by issue, so no row order is stated.
- `Reconstruction.SortByDate`: the algorithm inside `sort.Slice` is not modelled. An insertion sort stands in for it, and only what `sort.Slice` promises is stated: sorted by date, same records. Every lemma about the pass holds for any order of equal-dated events.
- `latency.Hours()/24` in floating point (main.go:145) is modelled as integer day subtraction, clamped to ±106751 days. Both dates are midnights UTC, so within Duration's range the float quotient is an exact whole number. When `Sub` saturates at 2^63-1 nanoseconds, the quotient is 106751.99… and `int64()` truncates it toward zero to 106751, which is the clamp's value.
