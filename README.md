# Production dashboard core, in Dafny

`app.py` is a Streamlit page that watches one plant's production for the
current day. It reads the rows of the `prod.v_dashboard_hoy` view and
processes them in a fixed order. The processing between the UI calls is what
this project models:

1. **Normalisation.** Every row gets its line's hourly target ("Meta por
   Hora"), with 0 for a line that has none. The lost minutes become a number,
   with 0 for a missing or non-numeric value.
2. **Filtering.** The user selects a line and a shift. "Todas" and "Todos"
   mean no restriction.
3. **Gap reconciliation.** Each row's hour is read from the text before the
   first ':'. The table is left-merged against every hour from the first to
   the last registered one. An hour with no row becomes a placeholder row.
   When one line is selected, the placeholder gets that line's target.
4. **Running sums.** "Acumulado Real" and "Acumulado Meta" are cumulative
   sums of output and target. An absent value counts as 0.
5. **The stop.** The page stops when no row has an output value.
6. **Incidents.** The page selects the rows that have a shift and either
   positive lost minutes, a note that is not blank, or a NULL note. The NULL
   case is a defect of line 144 (see Findings). Each incident gets a
   severity: Observación, Leve, Moderado or Crítico.
7. **Totals and efficiency.** Efficiency is output over target, as a
   percentage, and 0 when the target is not positive.
8. **Detail table and export.** The detail table shows the rows with a shift,
   coloured by the same minute thresholds. The CSV export holds the same rows.

The modules follow these steps:

- `Rows` holds the row types and normalisation.
- `Filters` holds the selection.
- `Gaps` holds hour parsing, the missing hours, the merge and reconciliation.
- `Sums` holds the running sums, totals and efficiency.
- `Alerts` holds incident selection, severity, the highlight tier and the rows with a shift.
- `Pipeline` holds one whole pass as a method.

`Seqs` and `Text` are shared helpers:

- `Keep` is a row mask that preserves order. `MapSeq` is a whole-column assignment.
- `Text` covers `str.strip()`, the prefix before ':' and integer literals.

The script rebinds its table `df` step by step. `Pipeline.Run` does the same
with a local sequence. The column loops of pandas become functions over
sequences. The cumulative sums are a loop (`Sums.RunningSum`), and so is the
classification loop over incidents (`Alerts.ClassifyAlerts`). A cell that
pandas holds as NULL or NaN is an absent `Option` value.

## Model

| member | source | states |
|---|---|---|
| Rows.TargetMap | app.py:35-42 | The target map has exactly the six lines as keys, each mapped to its configured target. |
| Rows.Coerce | app.py:62 | `to_numeric(errors='coerce').fillna(0)` for one cell. A number is kept. NULL and text that is not an integer literal give 0. Digit text gives its value, with a leading "-" negating it and a leading "+" leaving it unchanged. |
| Rows.Normalize | app.py:54-62 | Row count and order are kept, and every other column is copied. The target is the line's mapped value, or 0 for an unmapped or missing line. Lost minutes are always present: the number, the parsed integer text, or 0 for NULL or unparseable text. |
| Rows.NormalizeReadsShownMinutes | app.py:62 | Lost minutes written as the text of an integer are read back as that integer. |
| Filters.Filter | app.py:85-89 | The result holds exactly the rows whose line matches (unless "Todas") and whose shift matches (unless "Todos"). It is never longer than the input, and it is the input itself when both sentinels are selected. |
| Filters.FilterIsSubsequence | app.py:85-89 | The two masks in a row equal one order-preserving mask by the combined selection. |
| Filters.FilterAppend | app.py:85-89 | Filtering a concatenation concatenates the filtered parts, so row order is preserved. |
| Filters.FilterOne | app.py:87-89 | A single row survives exactly when it passes the selection. |
| Text.Strip | app.py:144 | `str.strip()`: the result is a slice of the input with only whitespace before and after it. It is blank exactly when every character is whitespace. A non-blank result neither starts nor ends with whitespace. |
| Text.ParseInt | app.py:93 | The text gives a value exactly when it is an integer literal with an optional sign. The value is the literal's, negated after '-' and unchanged after '+'. |
| Text.ParseShow | app.py:93 | Parsing the text of an integer gives that integer back. |
| Text.BeforeColon | app.py:93 | The result is the longest prefix of the text that contains no ':'. |
| Text.HourNum | app.py:93 | An hour is read exactly when the text before the first ':' is an integer literal. `Text.HourNumOfClock` gives its value for clock text. |
| Text.HourNumOfClock | app.py:93 | A clock reading "h:..." and a bare "h" both give hour h. |
| Gaps.WithHourNum | app.py:93 | "Hora_Num" is added to every row from its "Hora". Nothing else changes, and the row count is kept. |
| Gaps.ValidHours | app.py:96 | The non-missing parsed hours are exactly the hours held by the table. |
| Gaps.MinOf | app.py:100 | The result is an element of the list and no element is smaller. |
| Gaps.MaxOf | app.py:101 | The result is an element of the list and no element is larger. |
| Gaps.HoursBetween | app.py:104 | `range(lo, hi + 1)` is strictly ascending and holds exactly the integers from lo to hi. |
| Gaps.MissingHours | app.py:105-106 | The missing hours are exactly the hours in the range that are not registered, strictly ascending. The list is empty exactly when the registered hours cover the range. |
| Gaps.MissingExample | app.py:100-106 | With registered hours 6, 7 and 9, the range is 6 to 9 and the missing list is [8]. |
| Gaps.ParsedExample | app.py:93-96 | Rows whose hours parse to 6, 7 and 9 are all registered, and none of them is at hour 8. |
| Gaps.AtHour | app.py:113 | The rows at one hour are exactly the table's rows with that "Hora_Num". |
| Gaps.Block | app.py:113 | The merge's output for one expected hour is non-empty and lies wholly at that hour. |
| Gaps.Merge | app.py:112-113 | Every merged row has an hour from the expected list. |
| Gaps.MergeAtHour | app.py:112-113 | Over distinct expected hours, the merge holds each expected hour's block and nothing at any other hour. |
| Gaps.MergeAscending | app.py:112-113 | Over ascending expected hours, merged hours never decrease. |
| Gaps.MergeCount | app.py:112-113 | The merge holds every row at an expected hour plus one row per expected hour that has no match. |
| Gaps.KeepHourRuns | app.py:112-113 | In a table sorted by hour, the rows at one hour and the rows at later hours come out of a mask as two consecutive runs. |
| Gaps.MergeSorted | app.py:112-113 | Over ascending expected hours that each match a row, merging a table sorted by hour gives that table's rows at those hours, in table order. |
| Gaps.SettleRow | app.py:115-118 | One row of `Gaps.Settle`: "Hora" is set from a parsed "Hora_Num". A missing target takes the fill and an existing one is never overwritten. No other column changes. |
| Gaps.Settle | app.py:115-118 | Lines 115 and 118 as one per-row step; its effect is stated by `Gaps.SettleRow`. |
| Gaps.Reconcile | app.py:92-118 | The missing hours are strictly ascending. When no hour parses, the table is returned with its new column and nothing is missing. The table is characterised by `Gaps.ReconcileAtHour`, `Gaps.ReconcileCovers`, `Gaps.ReconcileAscending`, `Gaps.ReconcileCount`, `Gaps.ReconcileWithoutHours`, `Gaps.ReconcileIdempotent` and `Gaps.ReconcileTwice`. |
| Gaps.ReconcileAtHour | app.py:92-118 | For each hour in the range, the table holds one of two things. If the hour is registered: that hour's rows, in input order, each once, with "Hora" set. If it is missing: one placeholder with no shift, output or lost minutes, whose target is the fill. Outside the range it holds nothing. |
| Gaps.ReconcileCovers | app.py:100-113 | The table's hours are exactly the range from the smallest to the largest registered hour. |
| Gaps.ReconcileAscending | app.py:112-115 | Hours never decrease along the table, and every row's "Hora" equals its "Hora_Num". |
| Gaps.ReconcileCount | app.py:104-113 | The table size is the number of rows whose hour parses plus the number of missing hours. Rows whose hour does not parse are dropped. |
| Gaps.ReconcileWithoutHours | app.py:93-98 | When no hour parses, the table is returned with its new column only, and no hour is reported missing. |
| Gaps.ReconcileIdempotent | app.py:92-118 | A table sorted by hour, whose hours all parse and cover their range without a gap, comes back as it is, with "Hora" set and the fill applied, and no hour is reported missing. |
| Gaps.SettleTwice | app.py:115-118 | Settling a row twice is settling it once. |
| Gaps.HourNumSettled | app.py:93 | Rows whose "Hora" already holds their parsed hour are unchanged by adding "Hora_Num". |
| Gaps.ReconcileSettled | app.py:92-118 | A settled table sorted by hour whose hours are exactly a contiguous range is left as it is, with nothing missing. |
| Gaps.ReconcileTwice | app.py:92-118 | Reconciliation is idempotent: reconciling the reconciled table returns that table and reports no missing hour. |
| Gaps.HoursOfExample | app.py:93-96 | Rows whose "Hora" reads "6:00", "7:00" and "9:00" all parse, and none of them is at hour 8. |
| Gaps.ReconcileOfHours | app.py:100-118 | Three rows whose hours parse to 6, 7 and 9 give missing hours [8] and a four-row table. At hour 8 the table holds one placeholder carrying the fill. |
| Gaps.ReconcileExample | app.py:93-118 | Rows logged at "6:00", "7:00" and "9:00" on a line with target 800 give missing hours [8] and a four-row table. At hour 8 the table holds one placeholder carrying target 800. |
| Sums.SumAppend | app.py:121-122 | The sum of a concatenation is the sum of its parts. |
| Sums.SumPrefixMonotone | app.py:121-122 | With non-negative values, a longer prefix never sums to less. |
| Sums.RunningSum | app.py:121-122 | Position i holds the sum of positions 0 to i, with absent values read as 0. The last position holds the column total. With non-negative values the sums never decrease. |
| Sums.Efficiency | app.py:184 | Efficiency is exactly 0 when the target is not positive. Otherwise efficiency times target equals output times 100. Efficiency is at least 100 exactly when output reaches the target, and equals 100 exactly when they are equal. It is never negative for non-negative output. |
| Sums.Summarize | app.py:180-184 | The totals are the column sums, skipping absent values, and the efficiency is related to them as above. |
| Sums.KeepSplitOutput | app.py:180 | Masks that split the rows in two split the kept rows' total output likewise. |
| Sums.MergeOutput | app.py:112-113 | The merge carries exactly the output of the rows at the expected hours. Gap rows add none. |
| Sums.ReconcileKeepsOutput | app.py:112-118 | The reconciled table's total output is that of the rows whose hour parses. |
| Pipeline.NoValidData | app.py:138 | The stop condition holds exactly when no row of the table has an output value. It holds for the empty table. |
| Pipeline.NoValidDataTotals | app.py:138 | A table with no output value totals zero output. |
| Pipeline.FillFor | app.py:117-118 | Placeholders get no target when every line is shown, and otherwise the selected line's target. |
| Pipeline.LineChoices | app.py:69 | The sidebar offers seven distinct lines, "Todas" first. |
| Pipeline.ChoicesAccepted | app.py:69-70 | With the target map built from the six inputs, every offered line meets the precondition of `Pipeline.Run`. Placeholders get no target exactly when "Todas" is chosen. |
| Pipeline.Run | app.py:83-184 | One pass, stated through the specification functions. The table and missing hours are the reconciliation of the filtered, normalised rows. The two running sums are prefix sums of output and target. The pass stops exactly when no row has output. Otherwise it yields, in table order, the incidents selected by the predicate as written at line 144 with their severity, the totals, the colour of each shown row and the exported rows. The last running sums equal the totals. |
| Alerts.SeverityOf | app.py:153-160 | Observación exactly when the minutes are absent or 0. Leve exactly when non-zero and at most 15. Moderado exactly when above 15 and at most 45. Crítico exactly when above 45. |
| Alerts.SeverityMonotone | app.py:153-160 | For positive lost minutes, more minutes never give a lower severity. Negative minutes fall to Leve, so the order does not extend below 0. |
| Alerts.Highlight | app.py:230-243 | Positive lost minutes give the severity's colour: red for Crítico, orange for Moderado, yellow for Leve. Otherwise the row is light blue exactly when its stripped note text is not "", "None" or "nan", and uncoloured if not. |
| Alerts.NoteText | app.py:232 | `str(notes).strip()`: a NULL note prints as "None". A written note gives the note minus its leading and trailing whitespace, blank exactly when the note is all whitespace. A non-blank result neither starts nor ends with whitespace. |
| Alerts.NullNotePlain | app.py:232-243 | Without lost time, a NULL note leaves the row uncoloured. |
| Alerts.IsAlertAsWritten | app.py:143-144 | As written, a row is an incident exactly when it has a shift and lost time, a NULL note, or a note that is not all whitespace. Every row with a shift and a NULL note is one. |
| Alerts.IsAlert | app.py:143-144 | As intended, a row is an incident exactly when it has a shift and lost time or a note that is not all whitespace. Every intended incident is also one as written. |
| Alerts.AsWrittenFlagsRowWithoutNote | app.py:143-144 | As written, a row with a shift, 0 lost minutes and a NULL note is selected as an incident. The intended predicate rejects it, and the table leaves it uncoloured. |
| Alerts.AlertMeansVisibleNote | app.py:143-144 | Under the intended predicate, a row is an incident exactly when it has a shift and either lost time or a note with a non-whitespace character. |
| Alerts.AlertIsHighlighted | app.py:143-144 | A row with a shift and a note that is not literally "None" or "nan" is an incident exactly when the detail table colours it. |
| Alerts.SelectAlerts | app.py:143-144 | As written: the incident rows are exactly the table's rows that satisfy the written predicate, never more rows than the table. |
| Alerts.SelectAlertsAppend | app.py:143-144 | Selecting from a concatenation concatenates the selections, so incidents keep table order. |
| Alerts.SelectIntendedAlerts | app.py:143-144 | Corrected: the incident rows are exactly the table's rows that satisfy the intended predicate. |
| Alerts.SelectAlertsAsWritten | app.py:143-144 | The written selection equals selecting by the intended predicate or "has a shift and a NULL note". |
| Alerts.IntendedDropsSilentNulls | app.py:143-144 | The intended selection is the written one minus the rows with a NULL note and no lost time, in the same order. |
| Alerts.ClassifyAlerts | app.py:149-160 | There is one incident per selected row, in order. Each severity is `SeverityOf` of the row's minutes. Every incident row comes from the table, has a shift and satisfies the written predicate. |
| Alerts.WithShift | app.py:228 | The shown rows are exactly the table's rows with a shift, never more rows than the table. The same rows are exported at line 271. |
| Alerts.WithShiftAppend | app.py:228 | Dropping shiftless rows from a concatenation concatenates the results, so table order and repeated rows are kept. |
| Alerts.WithShiftOne | app.py:228 | A single row is kept exactly when it has a shift. |
| Alerts.WithShiftAllShifted | app.py:228 | A table whose rows all have a shift is shown whole. |
| Alerts.Highlights | app.py:228-259 | There is one colour per shown row. With lost time it is the severity's colour. Without it, it is light blue exactly when the stripped note text is not "", "None" or "nan", and otherwise uncoloured. |

## Left out

- The Streamlit page itself is left out. This covers widgets, titles, messages, expanders, the missing-hours warning text, the incident count text and the `st.stop` control flow. Line 138 is modelled as a result: `Report.dashboard` is absent.
- The database query and its cache are left out. The view's rows are the input of `Pipeline.Run`. The six configured targets are the input of `Rows.TargetMap`, whose result `Pipeline.Run` takes as its target map.
- The Plotly charts and the table's number formatting are left out. They are presentation.
- CSV encoding, the download button and the timestamp in the file name are left out. Only the row filter of the export is modelled (`Alerts.WithShift`).
- Floating-point behaviour and NaN are left out. Output and targets are unbounded integers. Lost minutes and efficiency are exact reals. A NaN or NULL cell is an absent value.
- Text.ParseInt: only integer literals with an optional sign are read. `pd.to_numeric` also accepts surrounding whitespace, decimals and exponents, in the hour prefix and in lost-minute text. The model reads such text as not a number.
- Rows.Normalize: a lost-minute cell is a number, a text or NULL. Other Python objects a database driver could return are not modelled.
- Pipeline.Run: every note is text or NULL. A notes column pandas holds as numbers, where `.str` would raise an error, is not modelled.
- The incident title formatting at line 163 and the incident details are left out. They are presentation, except for the failure described next.
- Pipeline.Run: when no hour parses, lines 98-118 are skipped and "Hora" keeps the view's value. Line 163 then calls `float(fila['Hora'])` on every incident. A NULL hour or text such as "abc" raises an error there, and the page stops before the totals, the detail table and the export. The model does not capture that abort: `Pipeline.Run` completes the pass and returns a full dashboard in this case.

## Findings

| source | as written | input that shows it | evidently intended | confidence | as-written member | corrected member |
|---|---|---|---|---|---|---|
| app.py:144 | `df_alertas["Observaciones"].str.strip() != ""` is true for a NULL note. `.str.strip()` turns NULL into NaN, and `NaN != ""` holds. | A row with shift "Turno 1", 0 lost minutes and a NULL note | A row with no lost time is an incident only when its note has visible text. This matches the detail table at lines 232 and 240, which treats "None" and "nan" as no note and leaves such a row uncoloured. | not executed | Alerts.AsWrittenFlagsRowWithoutNote | Alerts.AlertIsHighlighted |
