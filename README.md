# Salesforce report factMap flattening, modelled in Dafny

A Salesforce Analytics report comes back as JSON. Its `factMap` maps
grouping keys (`"T!T"`, `"0!T"`, `"0_1!0"`, …) to sections. Each section
has detail `rows` made of `dataCells` and a list of `aggregates`. The
Python scripts modelled here flatten a fact map into tables:

- factmap/factmap.py and factmap/factmap2.py build one frame per report
  format: TABULAR detail rows, SUMMARY grand-total rows, MATRIX
  row/column cells.
- factmap/factmap3.py splits one SUMMARY fact map into a detail table
  and a summary table.
- factmap/fm2.py and factmap/rpt-factmap.py file each section under its
  grouping name.
- rpts/rpt.py builds a label table and an aggregate table with sorted
  `"Aggregate k"` columns and `"N/A"` holes.
- xls/rpt_xls.py and xls/rpt_xls2.py build the REST URLs and the file
  name of the Excel download.

Each imperative script is a Dafny `method` whose loops keep invariants
against a specification function of the fact map. Lemmas about those
functions state what the script promises.

How the Python values are represented:

- A parsed JSON value is `Json`: null, a boolean, an integer or a string.
- A missing member is `None`; for example, `Section.rows == None` means
  the section has no `rows` key.
- A Python dict is an insertion-ordered association list (`OrderedDict`):
  - `d[k] = v` on a present key replaces the value in place;
  - on a new key it appends;
  - a dict comprehension is the fold `FromPairs`.
- `key.replace("!T", "")`, `key.endswith`, `"!T" in key`,
  `s.split(sep)`, `s.strip(c)`, `sep.join`, `str(n)` and string `<` are
  each written out in `Text`.

Python's `KeyError` and `IndexError` cases are preconditions. The inputs
that would raise them are excluded by named predicates such as
`SectionsFit`, `TotalsHaveAggregates` and `TableInputOk`.

The files, in dependency order:

- `text.dfy`, `json.dfy`, `seqs.dfy`, `dict.dfy`, `sorting.dfy`: the
  building blocks;
- `report.dfy`: the shared fact-map model;
- `groups.dfy`;
- one file per script: `factmap.dfy`, `factmap2.dfy`, `factmap3.dfy`,
  `fm2.dfy`, `rpt_factmap.dfy`, `rpt.dfy`, `xls.dfy`;
- `scenarios.dfy`: worked examples.

## Model

| member | source | states |
|---|---|---|
| Text.RemoveAll | factmap/factmap.py:28 | removing every `"!T"` never makes a key longer |
| Text.RemoveAllUnchanged | factmap/factmap.py:28 | `replace` leaves the key unchanged exactly when it has no occurrence; otherwise it is at least one occurrence shorter |
| Text.TotalSuffixRemoved | factmap/factmap.py:28 | stripping `k + "!T"` gives the same name as stripping `k` |
| Text.RemoveTotalAppend | factmap/fm2.py:15 | stripping distributes over concatenation when no `"!T"` straddles the seam |
| Text.RemoveAllNotIdempotent | factmap/fm2.py:15 | one pass of `replace` can leave a `"!T"` behind (`"!!TT"` becomes `"!T"`) |
| Text.EndsWithContains | factmap/factmap3.py:25 | a key ending in a pattern contains it |
| Text.ContainsChar | factmap/factmap2.py:40 | a one-character pattern occurs exactly when the character is in the string |
| Text.SplitOn | factmap/factmap2.py:40 | `split` always yields at least one piece |
| Text.JoinSplit | factmap/factmap2.py:40 | joining the pieces with the separator gives back the key |
| Text.SplitPiecesClean | factmap/factmap2.py:40 | no piece contains the separator |
| Text.FirstPieceIsPrefix | factmap/factmap2.py:41 | the first piece is a prefix of the key |
| Text.SplitSingle | factmap/factmap2.py:42 | exactly one piece comes back iff the separator does not occur |
| Text.SplitCharHead | factmap/factmap2.py:40-41 | a leading part free of the separator character is cut off as the first piece |
| Text.SplitCharNone | factmap/factmap2.py:42 | a key free of the separator character splits into itself alone |
| Text.ContainsInfix | xls/rpt_xls2.py:35 | a string with the pattern in its middle contains it |
| Text.JoinSnoc | factmap/factmap2.py:17 | joining one more piece appends the separator and the piece |
| Text.Repeat | xls/rpt_xls2.py:36 | a run of n copies of one character |
| Text.TrimStart | xls/rpt_xls2.py:36 | the result is the input minus a run of the character in front, and does not start with it |
| Text.TrimEnd | xls/rpt_xls2.py:36 | the result is the input minus a run of the character at the end, and does not end with it |
| Text.RepeatSnoc | xls/rpt_xls2.py:36 | a run extended by one copy is the next longer run |
| Text.Strip | xls/rpt_xls2.py:36 | `strip('"')` neither starts nor ends with `"`, and the input is that result with runs of `"` on both sides |
| Text.Decimal | rpts/rpt.py:52 | `str(n)` is digits only, with no leading zero |
| Text.DecimalRoundTrip | rpts/rpt.py:52 | reading the digits of `str(n)` back gives `n` |
| Text.DecimalInjective | rpts/rpt.py:52 | different numbers print differently |
| Text.IntToString | factmap/factmap2.py:17 | `str(i)` is non-empty and starts with `-` exactly for negative `i` |
| Text.LessIrreflexive | rpts/rpt.py:68 | no string sorts before itself |
| Text.LessTotal | rpts/rpt.py:68 | any two different strings are ordered one way |
| Text.LessAsymmetric | rpts/rpt.py:68 | no two strings are ordered both ways |
| Text.LessTransitive | rpts/rpt.py:68 | the order is transitive |
| Text.LessCommonPrefix | rpts/rpt.py:68 | strings with a common prefix compare as their remainders |
| JsonValue.Show | factmap/factmap2.py:17 | Python's `str()` of a JSON scalar; `JsonValue.ShowInt` proves an integer shows as its decimal spelling |
| JsonValue.ShowInt | factmap/factmap2.py:17 | `str()` of a whole-number value is its decimal spelling |
| Seqs.Filter | factmap/factmap.py:27 | selecting entries never adds any |
| Seqs.FilterSnoc | factmap/factmap.py:26-29 | one more entry is kept exactly when it passes the test |
| Seqs.FilterMembers | factmap/factmap.py:27 | exactly the entries passing the test are kept |
| Seqs.FilterPartition | factmap/factmap3.py:25-31 | a test and its negation split the entries, and their sizes add up |
| Seqs.SumLengthsSnoc | factmap/factmap.py:20-23 | one more group adds its size to the count |
| Seqs.FlattenLength | factmap/factmap.py:20-23 | the nested append loops produce as many rows as all groups together |
| Seqs.FlattenSnoc | factmap/factmap.py:20-23 | a further group's rows come after all earlier ones |
| Seqs.FlattenAt | factmap/factmap.py:20-23 | row j of group s lands right after every row of the groups before s |
| Seqs.FlattenPrefix | factmap/factmap.py:20-23 | concatenating one more group extends the prefix's concatenation |
| OrderedDict.Get | factmap/fm2.py:23 | a lookup finds nothing exactly when the key is absent |
| OrderedDict.Put | factmap/fm2.py:23 | after `d[k] = v` the key holds `v`, and every other key holds what it held before |
| OrderedDict.PutKeys | factmap/fm2.py:23 | an existing key keeps its position, a new key goes last, and keys stay distinct |
| OrderedDict.PutKeyOrder | factmap/fm2.py:23 | the key order after one assignment: unchanged for a present key, appended for a new one |
| OrderedDict.FromPairs | factmap/factmap.py:22 | a dict comprehension has distinct keys and at most one entry per pair |
| OrderedDict.FromPairsSnoc | factmap/factmap.py:22 | one more pair is one more assignment |
| OrderedDict.FromPairsGet | factmap/factmap.py:22 | a key holds the value assigned to it last |
| OrderedDict.FromPairsKeys | factmap/fm2.py:14-27 | keys come out once each, in order of first assignment |
| OrderedDict.FromPairsDistinct | factmap/factmap.py:22 | with no repeated key every pair is kept, in order |
| OrderedDict.PutAbsent | factmap/fm2.py:23 | assigning a new key appends it |
| OrderedDict.LastValueAt | factmap/factmap.py:22 | a pair that no later pair overrides is the one a lookup finds |
| OrderedDict.LastValueAbsent | factmap/factmap.py:22 | a key that no pair carries is not found |
| OrderedDict.LastValueFrom | factmap/fm2.py:23 | a value found under a key was assigned to that key |
| OrderedDict.DedupMembers | factmap/fm2.py:14-27 | deduplicating keeps exactly the keys that occur |
| OrderedDict.ZipLookup | factmap/rpt-factmap.py:16 | `{names[i]: vals[i]}` has one key per distinct name used; a name holds its value unless a later position overwrites it; with distinct names it is the zip |
| OrderedDict.LastIndexOf | factmap/rpt-factmap.py:16 | every position has a last position with the same name |
| Report.TotalKeyHasMarker | factmap/factmap3.py:25 | every key ending in `"!T"` also contains it |
| Report.Grouping | factmap/factmap.py:28 | `key.replace("!T", "")`; `Report.GroupingUnchanged` proves it keeps a key without `"!T"` and groups `key + "!T"` like `key` |
| Report.GroupingUnchanged | factmap/factmap.py:28 | the grouping label equals the key iff the key has no `"!T"`, and `key + "!T"` groups like `key` |
| Report.ExtractAggregates | factmap/factmap2.py:16-17 | `extract_aggregates`; `Report.ExtractAggregatesSnoc` and `Factmap2.ExtractAggregatesShape` give its display entry by entry |
| Report.ExtractAggregatesSnoc | factmap/factmap2.py:16-17 | the display is `""` for no aggregates, `str(value)` for one, and grows by `", " + str(value)` per further aggregate |
| Report.CellValues | factmap/fm2.py:20 | one value per cell, in cell order |
| Report.CellLabels | factmap/rpt-factmap.py:20 | one label per cell, in cell order |
| Report.DetailRecord | factmap/factmap.py:22 | the `{detail_columns[i]: cell.get("value", "-")}` comprehension; `Report.DetailRecordColumns` gives its columns and values |
| Report.DetailRecordColumns | factmap/factmap.py:22 | a detail row's columns are exactly the first `len(dataCells)` detail columns; each holds its cell's value or `"-"`, a later cell winning on a repeated name; with distinct names the row is the zip |
| Report.AggregateValues | factmap/fm2.py:16 | one value per aggregate, in order |
| Report.ValueRows | factmap/fm2.py:19-21 | one value list per data row |
| Report.LabelRows | rpts/rpt.py:43-45 | one label list per data row |
| Report.TabularRecords | factmap/factmap.py:19-23 | the TABULAR records of a fact map; `Report.TabularRecordsShape` gives their count and index formula |
| Report.TabularRecordsShape | factmap/factmap.py:19-23 | TABULAR gives one record per data row of the whole fact map, section by section and row by row, so the record index is the rows before the section plus the row index |
| Report.CountMatches | factmap/factmap.py:19-23 | the per-section record lists add up to the fact map's row count |
| Report.PerSectionCount | factmap/factmap.py:19-23 | any per-row output, section by section, adds up to the row count |
| Report.TabularRecordsPrefix | factmap/factmap.py:20-23 | one more section's loop appends that section's records |
| Report.TabularRecordsSnoc | factmap/factmap3.py:31-34 | appending a section appends its records |
| Report.AsFrame | factmap/factmap.py:31 | `DataFrame(rows) if rows else None`: None exactly for no rows, else the rows |
| Report.CollectDetailRecords | factmap/factmap.py:19-23 | the TABULAR loops append exactly the TABULAR records of the fact map |
| Report.AppendSectionRecords | factmap/factmap3.py:32-34 | the loop over a section's rows appends that section's records, in row order |
| Report.AppendLabelRows | rpts/rpt.py:42-45 | the loop over a section's rows appends one label list per row, in row order |
| Report.AppendValueRows | factmap/fm2.py:18-21 | the loop over a section's rows appends one value list per row, in row order |
| Rpt.AggregateHeaderValue | rpts/rpt.py:51-53 | column `Aggregate k` of `agg_row` holds aggregate k's label |
| Rpt.AggregateHeaderAbsent | rpts/rpt.py:51-53 | `agg_row` has no column for a number beyond its aggregates |
| Rpt.HeaderColumnsAbsent | rpts/rpt.py:52 | a header numbered beyond n is not among `Section`, `Aggregate 1..n` |
| Factmap.ParsedFrame | factmap/factmap.py:16-31 | what `parse_fact_map` returns per format; `Factmap.ParseFactMap` computes it and `Factmap.NoFrameCases` gives its None cases |
| Factmap.TotalRows | factmap/factmap.py:25-29 | the grouping rows of the `"!T"` keys; `Factmap.TotalRowsPerTotalKey` gives one per such key in order |
| Factmap.ParseFactMap | factmap/factmap.py:16-31 | the loops compute `ParsedFrame`: TABULAR records, SUMMARY/MATRIX grouping rows, or None |
| Factmap.TotalRowsPerTotalKey | factmap/factmap.py:25-29 | SUMMARY/MATRIX give exactly one row per key ending in `"!T"`, in order, holding the stripped key and the raw aggregates list |
| Factmap.NoFrameCases | factmap/factmap.py:25-31 | None exactly for an unknown format, a TABULAR map without data rows, or a SUMMARY/MATRIX map without `"!T"` keys |
| Factmap2.ExtractAggregatesShape | factmap/factmap2.py:16-17 | `extract_aggregates` is `""` for no aggregates, `"-"` for a missing value, and one `", "`-separated entry per aggregate |
| Factmap2.RowGroup | factmap/factmap2.py:40-41 | `key.split("!")[0]`; `Factmap2.MatrixKeySplit` and `Factmap2.MatrixKeyParts` pin it down |
| Factmap2.ColumnGroup | factmap/factmap2.py:40-42 | `row_col[1]` or `"T"`; `Factmap2.MatrixKeySplit` and `Factmap2.MatrixKeyParts` pin it down |
| Factmap2.MatrixKeySplit | factmap/factmap2.py:40-42 | `"A"` gives (`"A"`, `"T"`), `"A!B"` gives (`"A"`, `"B"`), and `"A!B!C"` gives (`"A"`, `"B"`) |
| Factmap2.MatrixKeyParts | factmap/factmap2.py:40-42 | the row group is the `!`-free start of the key; a key without `!` has column group `"T"`; otherwise the two groups with `!` between them start the key, and the column group runs up to the next `!` or the end of the key |
| Factmap2.JoinSplitPieces | factmap/factmap2.py:42 | the first piece of a join starts it |
| Factmap2.ParsedFrame | factmap/factmap2.py:20-50 | what `parse_fact_map` returns per format; `Factmap2.ParseFactMap` computes it and `Factmap2.NoFrameCases` gives its None cases |
| Factmap2.ParseFactMap | factmap/factmap2.py:20-50 | the per-format loops compute `ParsedFrame` |
| Factmap2.SummaryRows | factmap/factmap2.py:29-36 | the SUMMARY rows; `Factmap2.SummaryRowsPerTotalKey` gives one per `"!T"` key in order |
| Factmap2.SummaryRowsPerTotalKey | factmap/factmap2.py:29-36 | exactly one SUMMARY row per key ending in `"!T"`, in order, with the stripped key and the joined aggregates |
| Factmap2.MatrixRows | factmap/factmap2.py:38-48 | the MATRIX rows; `Factmap2.MatrixRowsPerKey` gives row i from key i |
| Factmap2.MatrixRowsPerKey | factmap/factmap2.py:38-48 | exactly one MATRIX row per key, row i coming from key i |
| Factmap2.NoFrameCases | factmap/factmap2.py:23-50 | None exactly for an unknown format, no data rows (TABULAR), no `"!T"` key (SUMMARY) or an empty map (MATRIX) |
| Factmap2.SummaryRowsDisplayTotals | factmap/factmap2.py:32-35 | the SUMMARY rows are factmap.py's grouping rows with the aggregates list replaced by its display |
| Factmap3.SummaryInputPrefix | factmap/factmap3.py:24 | the loop's inputs stay well-formed on every prefix |
| Factmap3.ParseSummaryReport | factmap/factmap3.py:20-36 | the loop computes the detail and summary tables, each None exactly when empty |
| Factmap3.KeyClassesPartition | factmap/factmap3.py:25-31 | every key goes to exactly one of the two tables, and the two key counts add up to all keys |
| Factmap3.UnmarkedFit | factmap/factmap3.py:31-33 | the detail sections meet the TABULAR precondition |
| Factmap3.Details | factmap/factmap3.py:31-34 | the detail records; `Factmap3.DetailsAreUnmarkedRecords` and `Factmap3.DetailsCount` characterise them |
| Factmap3.DetailsAreUnmarkedRecords | factmap/factmap3.py:31-34 | the detail table is the TABULAR flattening of exactly the keys without `"!T"` |
| Factmap3.DetailsCount | factmap/factmap3.py:32-34 | one detail record per row of the sections without `"!T"`, a section without `rows` adding none, each the positional mapping with `"-"` |
| Factmap3.Summaries | factmap/factmap3.py:25-30 | the summary rows; `Factmap3.SummariesPerMarkedKey` gives one per key containing `"!T"` |
| Factmap3.SummariesPerMarkedKey | factmap/factmap3.py:25-30 | one summary row per key containing `"!T"` anywhere, in order, with the stripped key and the joined aggregates |
| Factmap3.SummariesMatchFactmap2 | factmap/factmap3.py:25 | when every key containing `"!T"` ends with it, the summary table equals factmap2.py's SUMMARY rows |
| Factmap3.InnerMarkerDiffers | factmap/factmap3.py:25 | a key with an inner `"!T"` (`"0!T_1"`) passes this test but not `endswith` |
| Factmap3.ViewReport | factmap/factmap3.py:71-84 | only SUMMARY is parsed; any other format gives the warning and no tables |
| Groups.GroupedShape | factmap/fm2.py:14-27 | the groups are the distinct stripped keys in first-seen order, at most one per key, exactly one per key without collisions; each holds a value made for its name |
| Groups.GroupedLast | factmap/fm2.py:23 | a stripped key holds the value from its last section |
| Groups.CollidingKeys | factmap/rpt-factmap.py:15 | `"1"` and `"1!T"` strip to the same group `"1"` |
| Fm2.GroupPairs | factmap/fm2.py:14-27 | each section is paired, in order, with its stripped key |
| Fm2.GroupPairsPrefix | factmap/fm2.py:14-27 | one more section adds one more pair |
| Fm2.ParseFactmap | factmap/fm2.py:10-29 | the loops compute exactly the assignments `grouped_data[name] = group` in fact-map order |
| Fm2.GroupOf | factmap/fm2.py:16-27 | the group of one section; `Fm2.GroupContents` gives its aggregates, rows and columns |
| Fm2.Parsed | factmap/fm2.py:10-29 | `grouped_data`; `Fm2.ParseFactmap` computes it and `Fm2.GroupsShape` and `Fm2.GroupsLastWins` characterise it |
| Fm2.GroupContents | factmap/fm2.py:16-21 | aggregate values in order with 0 for a missing value; one value list per row with `"-"`; an absent `rows` or `aggregates` gives an empty list |
| Fm2.GroupsShape | factmap/fm2.py:14-27 | groups are the distinct stripped keys, at most one per key and one per key without collisions, each with `columns == column_names` |
| Fm2.GroupsLastWins | factmap/fm2.py:15-23 | a stripped key holds the group of its last section |
| RptFactmap.GroupPairs | factmap/rpt-factmap.py:14-27 | each section is paired, in order, with its stripped key |
| RptFactmap.GroupPairsPrefix | factmap/rpt-factmap.py:14-27 | one more section adds one more pair |
| RptFactmap.ParseFactmap | factmap/rpt-factmap.py:10-29 | the loops compute exactly the assignments `grouped_data[name] = group` in fact-map order |
| RptFactmap.AggregateMap | factmap/rpt-factmap.py:16 | the `{aggregate_names[i]: agg.get("value", 0)}` comprehension; `RptFactmap.AggregateMapLookup` gives its keys and values |
| RptFactmap.AggregateMapLookup | factmap/rpt-factmap.py:16 | the aggregates dict has the first `len(aggregates)` names; each holds its value or 0 unless a later duplicate name overwrites it |
| RptFactmap.GroupOf | factmap/rpt-factmap.py:16-27 | the group of one section; `RptFactmap.GroupRows` and `RptFactmap.AggregateMapLookup` give its contents |
| RptFactmap.Parsed | factmap/rpt-factmap.py:10-29 | `grouped_data`; `RptFactmap.ParseFactmap` computes it and `RptFactmap.GroupsShape` and `RptFactmap.GroupsLastWins` characterise it |
| RptFactmap.GroupRows | factmap/rpt-factmap.py:19-21 | one label list per data row, in order, as long as its `dataCells`, with `"-"` for a missing label |
| RptFactmap.GroupsShape | factmap/rpt-factmap.py:14-27 | groups are the distinct stripped keys, at most one per key and one per key without collisions, each with `columns == column_names` |
| RptFactmap.GroupsLastWins | factmap/rpt-factmap.py:15-23 | colliding keys keep only the later section's group |
| Sorting.MinExists | rpts/rpt.py:68 | every non-empty set of strings has a least member |
| Sorting.SortStrings | rpts/rpt.py:68 | `sorted(list(s))` is strictly increasing, holds exactly the members of `s`, and has their number |
| Sorting.SortedUnique | rpts/rpt.py:68 | two increasing lists with the same members are equal, so the sorted order is determined |
| Sorting.HeadIsMember | rpts/rpt.py:68 | the first entry of a non-empty list is in it |
| Rpt.TableInputCells | rpts/rpt.py:44 | a frame-shaped fact map has `dataCells` in every row |
| Rpt.TableRowsPrefix | rpts/rpt.py:40-45 | one more section's loop appends its label rows |
| Rpt.TableRows | rpts/rpt.py:40-45 | `table_data`; `Rpt.TableRowsShape` gives its index formula |
| Rpt.TableRowsShape | rpts/rpt.py:40-45 | one table row per data row, section by section and row by row, each the cells' labels with `"-"` |
| Rpt.HeaderDistinct | rpts/rpt.py:52 | different aggregate numbers give different headers, none of them `"Section"` |
| Rpt.TenSortsBeforeTwo | rpts/rpt.py:68 | `"Aggregate 10"` sorts before `"Aggregate 2"` |
| Rpt.AggregateRecord | rpts/rpt.py:50-53 | `agg_row` of one section; `Rpt.AggregateRecordColumns` gives its keys and values |
| Rpt.AggregateRecordColumns | rpts/rpt.py:50-53 | `agg_row` is `Section` then `Aggregate 1..n` in order; `Section` holds the key, `Aggregate k` holds label k or `"N/A"`, and higher numbers are absent |
| Rpt.HeaderSet | rpts/rpt.py:54 | `aggregate_headers`; `Rpt.HeaderSetRange` proves it is `Aggregate 1..m` |
| Rpt.HeaderSetRange | rpts/rpt.py:54 | the header set is `{"Aggregate 1" … "Aggregate m"}` for the largest aggregate count m |
| Rpt.AggregateRecords | rpts/rpt.py:48-55 | `aggregate_data`; `Rpt.AggregateRecordsPerSection` gives one row per section with aggregates |
| Rpt.AggregateRecordsPerSection | rpts/rpt.py:48-55 | one aggregate row per section with a non-empty `aggregates` list, in order |
| Rpt.FillNA | rpts/rpt.py:69 | `fillna("N/A")` of one cell; `Rpt.FilledAggregateRow` gives the filled row cell by cell |
| Rpt.FilledAggregateRow | rpts/rpt.py:69 | after `fillna`, `Section` shows the key, `Aggregate k` shows label k, and a missing or null label or an unused header shows `"N/A"` |
| Rpt.AggregateColumnsUnique | rpts/rpt.py:68 | the aggregate columns are determined by the fact map |
| Rpt.AggregateRow | rpts/rpt.py:50-54 | the inner loop builds `agg_row` and adds `Aggregate 1..n` to the headers |
| Rpt.AggregateRowStart | rpts/rpt.py:50 | `agg_row` starts as `{"Section": key}` with no headers |
| Rpt.AggregateRowStep | rpts/rpt.py:51-54 | each aggregate assigns its header and adds it to the set |
| Rpt.HeadersUpToSnoc | rpts/rpt.py:54 | one more aggregate adds one more header |
| Rpt.AggregatePrefix | rpts/rpt.py:47-55 | one more section extends the aggregate rows and headers |
| Rpt.CollectSections | rpts/rpt.py:40-55 | the section loop computes the label table, the aggregate rows and the header set |
| Rpt.BuildReportTables | rpts/rpt.py:29-70 | no headers means no processing; otherwise the label table (None when empty) and the aggregate frame (None exactly when no section has aggregates), with columns `Section` plus the sorted headers and `fillna` applied |
| Xls.GetApiUrl | xls/rpt_xls2.py:18-19 | `get_api_url`; `Xls.GetApiUrlParts` and `Xls.EndpointUrls` characterise the URLs |
| Xls.GetApiUrlParts | xls/rpt_xls2.py:18-19 | the URL starts with the instance's data root, and with a `/`-free version, version and endpoint can be read back from it |
| Xls.EndpointUrls | xls/rpt_xls2.py:24-97 | report, describe (`…/describe`), details (`…?includeDetails=true`) and list URLs |
| Xls.RptXlsUrlIsVersion60 | xls/rpt_xls.py:9 | rpt_xls.py's URL is `get_api_url` at version 60.0 for the report endpoint |
| Xls.DownloadFilename | xls/rpt_xls2.py:33-36 | without `filename=` the name is `Salesforce_Report.xlsx`; with it, the name neither starts nor ends with `"` |
| Xls.FilenameAfterLastMarker | xls/rpt_xls.py:23-26 | with `filename=`, the header is a prefix, `filename=`, then a tail free of `filename=`, and the name is that tail with its `"` runs stripped |
| Scenarios.SummaryScenario | factmap/factmap2.py:29-36 | `{"1!T": {aggregates: [42]}}` gives the single summary row (`"1"`, `"42"`) and no detail rows |
| Scenarios.TabularScenario | factmap/factmap2.py:23-27 | one row of `Acme`, `100` gives `{Name: "Acme", Amount: 100}` |
| Scenarios.MatrixScenario | factmap/factmap2.py:38-48 | `{"A!B": {aggregates: [5]}}` gives the single cell row (`"A"`, `"B"`, `"5"`) |

## Left out

- HTTP: every `requests.get` is network I/O. This covers `get_report_data`, `get_excel_report`, `describe_report`, `get_report_details`, `list_reports` and `get_report_types`; dashboards/dashboards.py is not part of this model. Only the URLs these calls build are modelled.
- Streamlit: tabs, inputs, `st_ace`, `st.dataframe`, download buttons and warnings are presentation. Three branches are kept as outcome values: factmap3.py's SUMMARY-only dispatch (`Factmap3.ViewReport`), rpt.py's `st.error` for missing column headers (rpts/rpt.py:29-30, `Rpt.Outcome.NoColumnHeaders`), and rpt.py's `st.warning` for a report without row-level data (rpts/rpt.py:58-63, `table == None`).
- File system work is not modelled: `load_credentials`, `os.makedirs`, writing the xlsx, `json.load` and `json.dumps`. The parsers take already-parsed JSON.
- jqapp.py: a thin wrapper over the external `jq` library.
- Charts: `plot_chart` and `display_grouped_data` in fm2.py and rpt-factmap.py draw with matplotlib. fm2.py's `sum(aggregates)` works over report values that may be floating point.
- JSON floats and nested objects: `Json` has only null, booleans, integers and strings, so `str()` of a float is not modelled.
- pandas internals:
  - Each frame is the row list the script hands to `DataFrame`, with None for the script's `None`.
  - For list-of-dict frames, the union of keys into columns is not modelled.
  - For rpt.py's aggregate frame, exactly that union is spelled out, together with `fillna` and the column selection.
- Rpt.BuildReportTables: `TableInputOk` asks every row for exactly `len(detail_columns)` cells. pandas raises only when the widest row's width differs from `len(detail_columns)`, and pads shorter rows with None (rpts/rpt.py:59); that padding is not modelled, so maps with rows shorter than `detail_columns` are excluded.
- Python exceptions are preconditions, stated as named predicates:
  - `KeyError` on `row["dataCells"]` or `section["aggregates"]`;
  - `IndexError` on `detail_columns[i]` or `aggregate_names[i]` when there are more cells or aggregates than names.
- Extra cells are not dropped and no unsupported-format flag is set, as the code does: a row with more cells than detail columns raises `IndexError` (a precondition here), and an unknown format returns `None` (factmap.py, factmap2.py) or shows a warning (factmap3.py).
- MATRIX reports in factmap.py get the same `endswith("!T")` treatment as SUMMARY, as the code does.
