/**
 * A Salesforce report's `factMap` after `json.load`, and the pieces every
 * flattening script shares: the missing-value defaults, the `!T` key tests,
 * the positional mapping of a row's `dataCells` onto `detailColumns`, and
 * the TABULAR concatenation of all rows.
 */
module Report {
  import opened Text
  import opened JsonValue
  import opened OrderedDict
  import opened Seqs

  /**
   * A data cell or an aggregate: a JSON object with optional `value` and
   * `label` members (None: the member is absent; Some(Null): it is `null`).
   * `label` is a reserved word in Dafny, hence the field name `labelText`.
   */
  datatype Cell = Cell(value: Option<Json>, labelText: Option<Json>)

  /** A detail row; `dataCells` is absent when None. */
  datatype Row = Row(dataCells: Option<seq<Cell>>)

  /** One fact-map section; either member may be absent. */
  datatype Section = Section(rows: Option<seq<Row>>, aggregates: Option<seq<Cell>>)

  /** The sections in the order `fact_map.items()` yields them. */
  type FactMap = seq<(string, Section)>

  /** A detail row as the scripts build it: a dict from column name to value. */
  type Record = Dict<Json>

  /** Placeholder for a missing cell value or label. */
  const Dash: Json := Str("-")

  /** Placeholder for a missing aggregate value in the grouping scripts. */
  const Zero: Json := Int(0)

  /** `section.get("rows", [])` */
  function RowsOf(s: Section): seq<Row> {
    s.rows.GetOr([])
  }

  /** `section.get("aggregates", [])` */
  function AggregatesOf(s: Section): seq<Cell> {
    s.aggregates.GetOr([])
  }

  /** `cell.get("value", "-")` */
  function CellValue(c: Cell): Json {
    c.value.GetOr(Dash)
  }

  /** `key.endswith("!T")`: a grand-total section. */
  predicate IsTotalKey(key: string) {
    EndsWith(key, "!T")
  }

  /** `"!T" in key` */
  predicate HasTotalMarker(key: string) {
    Contains(key, "!T")
  }

  /** `key.replace("!T", "")`: the grouping label of a section. */
  function Grouping(key: string): string {
    RemoveAll(key, "!T")
  }

  /** Every total key carries the marker, so the two key tests nest. */
  lemma TotalKeyHasMarker(key: string)
    ensures IsTotalKey(key) ==> HasTotalMarker(key)
  {
    if IsTotalKey(key) { EndsWithContains(key, "!T"); }
  }

  function IsTotalEntry(e: (string, Section)): bool {
    IsTotalKey(e.0)
  }

  /** `section["aggregates"]` exists for every key ending in `!T`. */
  predicate TotalsHaveAggregates(fm: FactMap) {
    forall e :: e in fm && IsTotalKey(e.0) ==> e.1.aggregates.Some?
  }

  /** The grouping label of a key is the key exactly when it has no `!T`. */
  lemma GroupingUnchanged(key: string)
    ensures Grouping(key) == key <==> !HasTotalMarker(key)
    ensures Grouping(key + "!T") == Grouping(key)
  {
    RemoveAllUnchanged(key, "!T");
    TotalSuffixRemoved(key);
  }

  /** `", ".join([str(agg.get("value", "-")) for agg in aggregates])` */
  function ExtractAggregates(aggs: seq<Cell>): string {
    Join(seq(|aggs|, i requires 0 <= i < |aggs| => Show(CellValue(aggs[i]))), ", ")
  }

  /**
   * The joined display grows one `", "`-separated entry per aggregate, in
   * order, and is empty for no aggregates.
   */
  lemma ExtractAggregatesSnoc(aggs: seq<Cell>, a: Cell)
    ensures ExtractAggregates([]) == ""
    ensures ExtractAggregates([a]) == Show(CellValue(a))
    ensures aggs != [] ==>
      ExtractAggregates(aggs + [a]) == ExtractAggregates(aggs) + ", " + Show(CellValue(a))
  {
    var shown := seq(|aggs|, i requires 0 <= i < |aggs| => Show(CellValue(aggs[i])));
    var all := aggs + [a];
    assert seq(|all|, i requires 0 <= i < |all| => Show(CellValue(all[i]))) == shown + [Show(CellValue(a))];
    if aggs != [] { JoinSnoc(shown, Show(CellValue(a)), ", "); }
  }

  // ---------------------------------------------------------------------
  // detail rows

  /** `[cell.get("value", "-") for cell in cells]` */
  function CellValues(cells: seq<Cell>): (r: seq<Json>)
    ensures |r| == |cells|
  {
    seq(|cells|, i requires 0 <= i < |cells| => CellValue(cells[i]))
  }

  /** `cell.get("label", "-")` */
  function CellLabel(c: Cell): Json {
    c.labelText.GetOr(Dash)
  }

  /** `[cell.get("label", "-") for cell in cells]` */
  function CellLabels(cells: seq<Cell>): (r: seq<Json>)
    ensures |r| == |cells|
  {
    seq(|cells|, i requires 0 <= i < |cells| => CellLabel(cells[i]))
  }

  /**
   * `{detail_columns[i]: cell.get("value", "-") for i, cell in
   * enumerate(row["dataCells"])}`
   */
  function DetailRecord(cols: seq<string>, cells: seq<Cell>): Record
    requires |cells| <= |cols|
  {
    FromPairs(Zip(cols, CellValues(cells)))
  }

  /**
   * A detail row has one column per distinct name among the first
   * `|cells|` detail columns; column `cols[i]` holds cell i's value (or
   * `"-"`) unless a later cell reuses the name, in which case the later one
   * wins.  With distinct names the row is exactly the zip.
   */
  lemma DetailRecordColumns(cols: seq<string>, cells: seq<Cell>)
    requires |cells| <= |cols|
    ensures forall k :: Get(DetailRecord(cols, cells), k).Some? <==> k in cols[..|cells|]
    ensures forall i :: 0 <= i < |cells| && cols[i] !in cols[i + 1..|cells|] ==>
      Get(DetailRecord(cols, cells), cols[i]) == Some(CellValue(cells[i]))
    ensures Distinct(cols[..|cells|]) ==>
      DetailRecord(cols, cells) == seq(|cells|, i requires 0 <= i < |cells| => (cols[i], CellValue(cells[i])))
  {
    ZipLookup(cols, CellValues(cells));
  }

  /** `agg.get("value", 0)` */
  function AggregateValue(c: Cell): Json {
    c.value.GetOr(Zero)
  }

  /** `[agg.get("value", 0) for agg in aggregates]` */
  function AggregateValues(aggs: seq<Cell>): (r: seq<Json>)
    ensures |r| == |aggs|
  {
    seq(|aggs|, i requires 0 <= i < |aggs| => AggregateValue(aggs[i]))
  }

  /** Every row of the section has `dataCells` (`row["dataCells"]`). */
  predicate SectionHasCells(s: Section) {
    forall r :: r in RowsOf(s) ==> r.dataCells.Some?
  }

  predicate RowsHaveCells(fm: FactMap) {
    forall e :: e in fm ==> SectionHasCells(e.1)
  }

  /** A section's rows, each as its cells' values (`"-"` when missing). */
  function ValueRows(s: Section): (rows: seq<seq<Json>>)
    requires SectionHasCells(s)
    ensures |rows| == |RowsOf(s)|
  {
    var rs := RowsOf(s);
    seq(|rs|, j requires 0 <= j < |rs| => assert rs[j] in rs; CellValues(rs[j].dataCells.value))
  }

  /** A section's rows, each as its cells' labels (`"-"` when missing). */
  function LabelRows(s: Section): (rows: seq<seq<Json>>)
    requires SectionHasCells(s)
    ensures |rows| == |RowsOf(s)|
  {
    var rs := RowsOf(s);
    seq(|rs|, j requires 0 <= j < |rs| => assert rs[j] in rs; CellLabels(rs[j].dataCells.value))
  }

  /** `row["dataCells"]` exists and fits into `detail_columns[i]`. */
  predicate RowFits(r: Row, cols: seq<string>) {
    r.dataCells.Some? && |r.dataCells.value| <= |cols|
  }

  predicate SectionFits(s: Section, cols: seq<string>) {
    forall r :: r in RowsOf(s) ==> RowFits(r, cols)
  }

  /** No detail row of these sections raises KeyError or IndexError. */
  predicate SectionsFit(fm: FactMap, cols: seq<string>) {
    forall e :: e in fm ==> SectionFits(e.1, cols)
  }

  /** The detail records of one section, in row order. */
  function SectionRecords(s: Section, cols: seq<string>): seq<Record>
    requires SectionFits(s, cols)
  {
    var rows := RowsOf(s);
    seq(|rows|, j requires 0 <= j < |rows| =>
      assert rows[j] in rows;
      DetailRecord(cols, rows[j].dataCells.value))
  }

  function PerSectionRecords(fm: FactMap, cols: seq<string>): seq<seq<Record>>
    requires SectionsFit(fm, cols)
  {
    seq(|fm|, i requires 0 <= i < |fm| => SectionRecords(fm[i].1, cols))
  }

  /** TABULAR: the detail records of every section, section by section. */
  function TabularRecords(fm: FactMap, cols: seq<string>): seq<Record>
    requires SectionsFit(fm, cols)
  {
    Flatten(PerSectionRecords(fm, cols))
  }

  /** Reference count: the number of `rows` over all sections. */
  function DataRowCount(fm: FactMap): nat {
    if fm == [] then 0 else |RowsOf(fm[0].1)| + DataRowCount(fm[1..])
  }

  /**
   * TABULAR output: one record per data row in the whole fact map, and
   * record number (rows of the sections before `s`) + `j` is row `j` of
   * section `s`.
   */
  lemma TabularRecordsShape(fm: FactMap, cols: seq<string>, s: nat, j: nat)
    requires SectionsFit(fm, cols)
    ensures |TabularRecords(fm, cols)| == DataRowCount(fm)
    ensures s < |fm| && j < |RowsOf(fm[s].1)| ==> fm[s] in fm && RowsOf(fm[s].1)[j] in RowsOf(fm[s].1)
    ensures s < |fm| && j < |RowsOf(fm[s].1)| ==>
      && DataRowCount(fm[..s]) + j < |TabularRecords(fm, cols)|
      && TabularRecords(fm, cols)[DataRowCount(fm[..s]) + j]
         == DetailRecord(cols, RowsOf(fm[s].1)[j].dataCells.value)
  {
    TabularCount(fm, cols);
    if s < |fm| && j < |RowsOf(fm[s].1)| {
      TabularRecordAt(fm, cols, s, j);
    }
  }

  lemma TabularCount(fm: FactMap, cols: seq<string>)
    requires SectionsFit(fm, cols)
    ensures |TabularRecords(fm, cols)| == DataRowCount(fm)
  {
    FlattenLength(PerSectionRecords(fm, cols));
    CountMatches(fm, cols);
  }

  lemma TabularRecordAt(fm: FactMap, cols: seq<string>, s: nat, j: nat)
    requires SectionsFit(fm, cols) && s < |fm| && j < |RowsOf(fm[s].1)|
    ensures fm[s] in fm && RowsOf(fm[s].1)[j] in RowsOf(fm[s].1)
    ensures SectionsFit(fm[..s], cols)
    ensures DataRowCount(fm[..s]) + j < |TabularRecords(fm, cols)|
    ensures TabularRecords(fm, cols)[DataRowCount(fm[..s]) + j]
         == DetailRecord(cols, RowsOf(fm[s].1)[j].dataCells.value)
  {
    var xss := PerSectionRecords(fm, cols);
    assert fm[s] in fm;
    PerSectionRecordsPrefix(fm, cols, s);
    TabularCount(fm[..s], cols);
    assert |xss[s]| == |RowsOf(fm[s].1)|;
    FlattenAt(xss, s, j);
    assert xss[s] == SectionRecords(fm[s].1, cols);
  }

  lemma PerSectionRecordsPrefix(fm: FactMap, cols: seq<string>, s: nat)
    requires SectionsFit(fm, cols) && s <= |fm|
    ensures SectionsFit(fm[..s], cols)
    ensures PerSectionRecords(fm[..s], cols) == PerSectionRecords(fm, cols)[..s]
  {
    assert forall e :: e in fm[..s] ==> e in fm;
  }

  lemma CountMatches(fm: FactMap, cols: seq<string>)
    requires SectionsFit(fm, cols)
    ensures SumLengths(PerSectionRecords(fm, cols)) == DataRowCount(fm)
  {
    PerSectionCount(fm, PerSectionRecords(fm, cols));
  }

  /** One output per row, section by section, adds up to the row count. */
  lemma {:induction false} PerSectionCount<T>(fm: FactMap, xss: seq<seq<T>>)
    requires |xss| == |fm|
    requires forall i :: 0 <= i < |fm| ==> |xss[i]| == |RowsOf(fm[i].1)|
    ensures SumLengths(xss) == DataRowCount(fm)
    decreases |fm|
  {
    if fm != [] {
      PerSectionCount(fm[1..], xss[1..]);
    }
  }

  /** Appending one section's records extends the TABULAR output. */
  lemma TabularRecordsPrefix(fm: FactMap, cols: seq<string>, i: nat)
    requires SectionsFit(fm, cols) && i < |fm|
    ensures TabularRecords(fm[..i + 1], cols) == TabularRecords(fm[..i], cols) + SectionRecords(fm[i].1, cols)
  {
    var xss := PerSectionRecords(fm, cols);
    assert PerSectionRecords(fm[..i + 1], cols) == xss[..i + 1];
    assert PerSectionRecords(fm[..i], cols) == xss[..i];
    FlattenPrefix(xss, i);
  }

  /** Appending a section appends its records. */
  lemma TabularRecordsSnoc(fm: FactMap, e: (string, Section), cols: seq<string>)
    requires SectionsFit(fm + [e], cols)
    ensures SectionsFit(fm, cols) && SectionFits(e.1, cols)
    ensures TabularRecords(fm + [e], cols) == TabularRecords(fm, cols) + SectionRecords(e.1, cols)
  {
    var all := fm + [e];
    assert forall x :: x in fm ==> x in all;
    assert all[|fm|] == e && e in all;
    TabularRecordsPrefix(all, cols, |fm|);
    assert all[..|fm|] == fm && all[..|fm| + 1] == all;
  }

  /**
   * The TABULAR loops: for each section, for each row, append the row's
   * mapping onto the detail columns.
   */
  method CollectDetailRecords(factMap: FactMap, detailColumns: seq<string>) returns (dataRows: seq<Record>)
    requires SectionsFit(factMap, detailColumns)
    ensures dataRows == TabularRecords(factMap, detailColumns)
  {
    dataRows := [];
    for i := 0 to |factMap|
      invariant dataRows == TabularRecords(factMap[..i], detailColumns)
    {
      assert factMap[i] in factMap;
      dataRows := AppendSectionRecords(dataRows, factMap[i].1, detailColumns);
      TabularRecordsPrefix(factMap, detailColumns, i);
    }
    assert factMap[..|factMap|] == factMap;
  }

  /** The inner loop over one section's rows. */
  method AppendSectionRecords(dataRows: seq<Record>, section: Section, detailColumns: seq<string>)
    returns (out: seq<Record>)
    requires SectionFits(section, detailColumns)
    ensures out == dataRows + SectionRecords(section, detailColumns)
  {
    out := dataRows;
    var rows := RowsOf(section);
    for j := 0 to |rows|
      invariant out == dataRows + SectionRecords(section, detailColumns)[..j]
    {
      assert rows[j] in rows;
      var rowData := DetailRecord(detailColumns, rows[j].dataCells.value);
      out := out + [rowData];
      assert SectionRecords(section, detailColumns)[..j + 1]
        == SectionRecords(section, detailColumns)[..j] + [rowData];
    }
    assert SectionRecords(section, detailColumns)[..|rows|] == SectionRecords(section, detailColumns);
  }

  /** A loop over one section's rows appending each row's cell labels. */
  method AppendLabelRows(acc: seq<seq<Json>>, section: Section) returns (out: seq<seq<Json>>)
    requires SectionHasCells(section)
    ensures out == acc + LabelRows(section)
  {
    out := acc;
    var rows := RowsOf(section);
    for j := 0 to |rows|
      invariant out == acc + LabelRows(section)[..j]
    {
      assert rows[j] in rows;
      var rowData := CellLabels(rows[j].dataCells.value);
      out := out + [rowData];
      assert LabelRows(section)[..j + 1] == LabelRows(section)[..j] + [rowData];
    }
    assert LabelRows(section)[..|rows|] == LabelRows(section);
  }

  /** A loop over one section's rows appending each row's cell values. */
  method AppendValueRows(acc: seq<seq<Json>>, section: Section) returns (out: seq<seq<Json>>)
    requires SectionHasCells(section)
    ensures out == acc + ValueRows(section)
  {
    out := acc;
    var rows := RowsOf(section);
    for j := 0 to |rows|
      invariant out == acc + ValueRows(section)[..j]
    {
      assert rows[j] in rows;
      var rowData := CellValues(rows[j].dataCells.value);
      out := out + [rowData];
      assert ValueRows(section)[..j + 1] == ValueRows(section)[..j] + [rowData];
    }
    assert ValueRows(section)[..|rows|] == ValueRows(section);
  }

  /** An empty row list is shown as no frame at all (`... if data_rows else None`). */
  function AsFrame<T>(rows: seq<T>): (r: Option<seq<T>>)
    ensures r.None? <==> rows == []
    ensures r.Some? ==> r.value == rows
  {
    if rows == [] then None else Some(rows)
  }
}
