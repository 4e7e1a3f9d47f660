/**
 * rpts/rpt.py: the report viewer's table building.  With no detail columns
 * it only reports the missing headers.  Otherwise it collects every data
 * row as its cells' labels, and, for every section with aggregates, a
 * `{"Section": key, "Aggregate 1": label, …}` row; the aggregate table's
 * columns are `"Section"` and the aggregate headers in sorted order, with
 * every hole filled with `"N/A"`.
 */
module Rpt {
  import opened Text
  import opened JsonValue
  import opened OrderedDict
  import opened Seqs
  import opened Report
  import opened Sorting

  /** The aggregate table's placeholder. */
  const NA: Json := Str("N/A")

  /** A frame: its column names and its rows in order. */
  datatype Table = Table(columns: seq<string>, rows: seq<seq<Json>>)

  /**
   * `if not detail_columns: st.error(…)`, or the two frames, each None
   * when there is nothing to show.
   */
  datatype Outcome = NoColumnHeaders | Tables(table: Option<Table>, aggregates: Option<Table>)

  /** Every row has `dataCells`, one per detail column (the frame's shape). */
  predicate TableInputOk(fm: FactMap, cols: seq<string>) {
    forall e :: e in fm ==> forall r :: r in RowsOf(e.1) ==>
      r.dataCells.Some? && |r.dataCells.value| == |cols|
  }

  lemma TableInputCells(fm: FactMap, cols: seq<string>)
    requires TableInputOk(fm, cols)
    ensures RowsHaveCells(fm)
  {
  }

  // ---------------------------------------------------------------------
  // the row-level table

  function PerSectionLabelRows(fm: FactMap): seq<seq<seq<Json>>>
    requires RowsHaveCells(fm)
  {
    seq(|fm|, i requires 0 <= i < |fm| => assert fm[i] in fm; LabelRows(fm[i].1))
  }

  /** `table_data`: the label rows of every section, section by section. */
  function TableRows(fm: FactMap): seq<seq<Json>>
    requires RowsHaveCells(fm)
  {
    Flatten(PerSectionLabelRows(fm))
  }

  lemma TableRowsPrefix(fm: FactMap, i: nat)
    requires RowsHaveCells(fm) && i < |fm|
    ensures fm[i] in fm
    ensures RowsHaveCells(fm[..i]) && RowsHaveCells(fm[..i + 1])
    ensures TableRows(fm[..i + 1]) == TableRows(fm[..i]) + LabelRows(fm[i].1)
  {
    assert forall e :: e in fm[..i] ==> e in fm;
    assert forall e :: e in fm[..i + 1] ==> e in fm;
    var xss := PerSectionLabelRows(fm);
    assert PerSectionLabelRows(fm[..i + 1]) == xss[..i + 1];
    assert PerSectionLabelRows(fm[..i]) == xss[..i];
    FlattenPrefix(xss, i);
  }

  /**
   * One table row per data row of the whole fact map; row number (rows of
   * the sections before `s`) + `j` is row `j` of section `s`, as its cells'
   * labels with `"-"` for a missing label.
   */
  lemma TableRowsShape(fm: FactMap, s: nat, j: nat)
    requires RowsHaveCells(fm)
    ensures |TableRows(fm)| == DataRowCount(fm)
    ensures s < |fm| && j < |RowsOf(fm[s].1)| ==> fm[s] in fm && RowsOf(fm[s].1)[j] in RowsOf(fm[s].1)
    ensures s < |fm| && j < |RowsOf(fm[s].1)| ==>
      && DataRowCount(fm[..s]) + j < |TableRows(fm)|
      && TableRows(fm)[DataRowCount(fm[..s]) + j] == CellLabels(RowsOf(fm[s].1)[j].dataCells.value)
  {
    TableRowsCount(fm);
    if s < |fm| && j < |RowsOf(fm[s].1)| {
      TableRowAt(fm, s, j);
    }
  }

  lemma TableRowsCount(fm: FactMap)
    requires RowsHaveCells(fm)
    ensures |TableRows(fm)| == DataRowCount(fm)
  {
    var xss := PerSectionLabelRows(fm);
    FlattenLength(xss);
    PerSectionCount(fm, xss);
  }

  lemma TableRowAt(fm: FactMap, s: nat, j: nat)
    requires RowsHaveCells(fm) && s < |fm| && j < |RowsOf(fm[s].1)|
    ensures fm[s] in fm && RowsOf(fm[s].1)[j] in RowsOf(fm[s].1)
    ensures RowsHaveCells(fm[..s])
    ensures DataRowCount(fm[..s]) + j < |TableRows(fm)|
    ensures TableRows(fm)[DataRowCount(fm[..s]) + j] == CellLabels(RowsOf(fm[s].1)[j].dataCells.value)
  {
    var xss := PerSectionLabelRows(fm);
    assert fm[s] in fm;
    PerSectionLabelRowsPrefix(fm, s);
    TableRowsCount(fm[..s]);
    assert xss[s] == LabelRows(fm[s].1);
    FlattenAt(xss, s, j);
  }

  lemma PerSectionLabelRowsPrefix(fm: FactMap, s: nat)
    requires RowsHaveCells(fm) && s <= |fm|
    ensures RowsHaveCells(fm[..s])
    ensures PerSectionLabelRows(fm[..s]) == PerSectionLabelRows(fm)[..s]
  {
    assert forall e :: e in fm[..s] ==> e in fm;
  }

  // ---------------------------------------------------------------------
  // aggregate rows

  /** `f"Aggregate {idx+1}"` for aggregate number `k` = `idx + 1`. */
  function Header(k: nat): string {
    "Aggregate " + Decimal(k)
  }

  /** Different aggregate numbers give different headers, none of them `"Section"`. */
  lemma HeaderDistinct(m: nat, n: nat)
    ensures Header(m) == Header(n) ==> m == n
    ensures Header(m) != "Section"
  {
    if Header(m) == Header(n) {
      assert Header(m)[10..] == Decimal(m) && Header(n)[10..] == Decimal(n);
      DecimalInjective(m, n);
    }
    assert Header(m)[0] == 'A';
  }

  /** `sorted` compares the digits as text: `"Aggregate 10"` comes before `"Aggregate 2"`. */
  lemma TenSortsBeforeTwo()
    ensures Less(Header(10), Header(2))
  {
    assert Decimal(10) == Decimal(1) + [DigitChar(0)] == "10";
    assert Decimal(2) == "2";
    assert Less("10", "2");
    LessCommonPrefix("Aggregate ", "10", "2");
  }

  /** `agg.get("label", "N/A")` */
  function AggLabel(c: Cell): Json {
    c.labelText.GetOr(NA)
  }

  /** The pairs assigned into `agg_row`, in order. */
  function AggregatePairs(key: string, aggs: seq<Cell>): seq<(string, Json)> {
    [("Section", Str(key))] + seq(|aggs|, i requires 0 <= i < |aggs| => (Header(i + 1), AggLabel(aggs[i])))
  }

  /** `agg_row` */
  function AggregateRecord(key: string, aggs: seq<Cell>): Record {
    FromPairs(AggregatePairs(key, aggs))
  }

  /**
   * An aggregate row has the column `"Section"` holding the key, then one
   * column `"Aggregate k"` per aggregate, holding aggregate k's label or
   * `"N/A"`; no two of its columns clash, so nothing is overwritten.
   */
  lemma AggregateRecordColumns(key: string, aggs: seq<Cell>)
    ensures AggregateRecord(key, aggs) == AggregatePairs(key, aggs)
    ensures Keys(AggregateRecord(key, aggs))
      == HeaderColumns(|aggs|)
    ensures Get(AggregateRecord(key, aggs), "Section") == Some(Str(key))
    ensures forall k :: 1 <= k <= |aggs| ==> Get(AggregateRecord(key, aggs), Header(k)) == Some(AggLabel(aggs[k - 1]))
    ensures forall k :: k > |aggs| ==> Get(AggregateRecord(key, aggs), Header(k)) == None
  {
    var ps := AggregatePairs(key, aggs);
    AggregatePairsKeys(key, aggs);
    FromPairsDistinct(ps);
    FromPairsGet(ps, "Section");
    forall j | 0 < j < |ps| ensures ps[j].0 != ps[0].0 {
      assert Keys(ps)[j] == ps[j].0 && Keys(ps)[0] == ps[0].0;
    }
    LastValueAt(ps, 0);
    forall k | 1 <= k <= |aggs| ensures Get(AggregateRecord(key, aggs), Header(k)) == Some(AggLabel(aggs[k - 1])) {
      AggregateHeaderValue(key, aggs, k);
    }
    forall k | k > |aggs| ensures Get(AggregateRecord(key, aggs), Header(k)) == None {
      AggregateHeaderAbsent(key, aggs, k);
    }
  }

  /** The pairs of an aggregate row carry `"Section"` and the headers, once each. */
  lemma AggregatePairsKeys(key: string, aggs: seq<Cell>)
    ensures Keys(AggregatePairs(key, aggs))
      == HeaderColumns(|aggs|)
    ensures DistinctKeys(AggregatePairs(key, aggs))
  {
    var ps := AggregatePairs(key, aggs);
    var hs := HeaderColumns(|aggs|);
    assert Keys(ps) == hs;
    forall i, j | 0 <= i < j < |hs| ensures hs[i] != hs[j] {
      HeaderDistinct(j, i);
      if i > 0 { HeaderDistinct(i, j); }
    }
  }

  lemma AggregateHeaderValue(key: string, aggs: seq<Cell>, k: nat)
    requires 1 <= k <= |aggs|
    ensures Get(AggregateRecord(key, aggs), Header(k)) == Some(AggLabel(aggs[k - 1]))
  {
    var ps := AggregatePairs(key, aggs);
    AggregatePairsKeys(key, aggs);
    FromPairsGet(ps, Header(k));
    assert ps[k] == (Header(k), AggLabel(aggs[k - 1]));
    forall j | k < j < |ps| ensures ps[j].0 != ps[k].0 {
      assert ps[j].0 == Header(j);
      HeaderDistinct(j, k);
    }
    LastValueAt(ps, k);
  }

  lemma AggregateHeaderAbsent(key: string, aggs: seq<Cell>, k: nat)
    requires k > |aggs|
    ensures Get(AggregateRecord(key, aggs), Header(k)) == None
  {
    AggregatePairsKeys(key, aggs);
    FromPairsDistinct(AggregatePairs(key, aggs));
    HeaderColumnsAbsent(|aggs|, k);
  }

  /** `"Section"` followed by the headers of aggregates 1 to `n`. */
  function HeaderColumns(n: nat): seq<string> {
    ["Section"] + seq(n, i requires 0 <= i < n => Header(i + 1))
  }

  lemma HeaderColumnsAbsent(n: nat, k: nat)
    requires k > n
    ensures Header(k) !in HeaderColumns(n)
  {
    var hs := HeaderColumns(n);
    forall j | 0 <= j < |hs| ensures hs[j] != Header(k) {
      if j == 0 {
        HeaderDistinct(k, k);
      } else {
        HeaderDistinct(j, k);
      }
    }
  }

  /** `if aggregates:` — the section's aggregates list is non-empty. */
  function HasAggregatesEntry(e: (string, Section)): bool {
    |AggregatesOf(e.1)| > 0
  }

  /** `aggregate_data`: one row per section with aggregates, in order. */
  function AggregateRecords(fm: FactMap): seq<Record> {
    if fm == [] then []
    else
      var n := |fm| - 1;
      AggregateRecords(fm[..n])
      + (if HasAggregatesEntry(fm[n]) then [AggregateRecord(fm[n].0, AggregatesOf(fm[n].1))] else [])
  }

  /** The headers `"Aggregate 1"` … `"Aggregate m"`. */
  function HeadersUpTo(m: nat): set<string> {
    set k | 1 <= k <= m :: Header(k)
  }

  /** `aggregate_headers` after the sections of `fm`. */
  function HeaderSet(fm: FactMap): set<string> {
    if fm == [] then {}
    else
      var n := |fm| - 1;
      HeaderSet(fm[..n]) + HeadersUpTo(|AggregatesOf(fm[n].1)|)
  }

  /** The largest aggregate count of any section. */
  function MaxAggregates(fm: FactMap): nat {
    if fm == [] then 0
    else
      var n := |fm| - 1;
      var m := MaxAggregates(fm[..n]);
      if |AggregatesOf(fm[n].1)| > m then |AggregatesOf(fm[n].1)| else m
  }

  /**
   * The headers are exactly `"Aggregate 1"` … `"Aggregate m"` for the
   * largest aggregate count m.
   */
  lemma {:induction false} HeaderSetRange(fm: FactMap)
    ensures HeaderSet(fm) == HeadersUpTo(MaxAggregates(fm))
    decreases |fm|
  {
    if fm != [] {
      var n := |fm| - 1;
      HeaderSetRange(fm[..n]);
      var a := MaxAggregates(fm[..n]);
      var b := |AggregatesOf(fm[n].1)|;
      if a <= b {
        assert HeadersUpTo(a) <= HeadersUpTo(b);
      } else {
        assert HeadersUpTo(b) <= HeadersUpTo(a);
      }
    }
  }

  /**
   * One aggregate row per section with a non-empty `aggregates` list, in
   * fact-map order, built from that section's key and aggregates.
   */
  lemma {:induction false} AggregateRecordsPerSection(fm: FactMap)
    ensures var f := Filter(fm, HasAggregatesEntry);
      && (forall i :: 0 <= i < |f| ==> f[i] in fm && |AggregatesOf(f[i].1)| > 0)
      && |AggregateRecords(fm)| == |f|
      && forall i :: 0 <= i < |f| ==> AggregateRecords(fm)[i] == AggregateRecord(f[i].0, AggregatesOf(f[i].1))
    decreases |fm|
  {
    var f := Filter(fm, HasAggregatesEntry);
    FilterMembers(fm, HasAggregatesEntry);
    assert forall i :: 0 <= i < |f| ==> f[i] in f;
    if fm != [] {
      AggregateRecordsPerSection(fm[..|fm| - 1]);
    }
  }

  // ---------------------------------------------------------------------
  // the aggregate frame

  /** `fillna("N/A")` on one cell: a missing column or a null becomes `"N/A"`. */
  function FillNA(v: Option<Json>): Json {
    if v.None? || v.value.Null? then NA else v.value
  }

  /** One row of `DataFrame(aggregate_data).fillna("N/A")[agg_columns]`. */
  function FilledRow(r: Record, cols: seq<string>): seq<Json> {
    seq(|cols|, c requires 0 <= c < |cols| => FillNA(Get(r, cols[c])))
  }

  function FilledRows(rs: seq<Record>, cols: seq<string>): seq<seq<Json>> {
    seq(|rs|, i requires 0 <= i < |rs| => FilledRow(rs[i], cols))
  }

  /**
   * In the aggregate frame, section `key`'s row shows the key under
   * `"Section"`, aggregate k's label under `"Aggregate k"` (`"N/A"` when
   * the label is missing or null), and `"N/A"` under the headers of
   * aggregate numbers beyond its own count.
   */
  lemma FilledAggregateRow(key: string, aggs: seq<Cell>, cols: seq<string>)
    ensures |FilledRow(AggregateRecord(key, aggs), cols)| == |cols|
    ensures forall c :: 0 <= c < |cols| && cols[c] == "Section" ==>
      FilledRow(AggregateRecord(key, aggs), cols)[c] == Str(key)
    ensures forall c, k :: 0 <= c < |cols| && 1 <= k <= |aggs| && cols[c] == Header(k) ==>
      FilledRow(AggregateRecord(key, aggs), cols)[c]
      == (if aggs[k - 1].labelText.Some? && !aggs[k - 1].labelText.value.Null?
          then aggs[k - 1].labelText.value else NA)
    ensures forall c, k :: 0 <= c < |cols| && k > |aggs| && cols[c] == Header(k) ==>
      FilledRow(AggregateRecord(key, aggs), cols)[c] == NA
  {
    AggregateRecordColumns(key, aggs);
  }

  /** The aggregate frame's columns: `["Section"] + sorted(list(aggregate_headers))`. */
  ghost predicate AggregateColumnsOf(cols: seq<string>, fm: FactMap) {
    && |cols| > 0 && cols[0] == "Section"
    && StrictlySorted(cols[1..])
    && forall x :: x in cols[1..] <==> x in HeaderSet(fm)
  }

  /** The sorted column order is determined by the fact map alone. */
  lemma AggregateColumnsUnique(a: seq<string>, b: seq<string>, fm: FactMap)
    requires AggregateColumnsOf(a, fm) && AggregateColumnsOf(b, fm)
    ensures a == b
  {
    SortedUnique(a[1..], b[1..]);
    assert a == [a[0]] + a[1..] && b == [b[0]] + b[1..];
  }

  /**
   * The inner loop over one section's aggregates: the `agg_row` it builds
   * and the headers it adds to `aggregate_headers`.
   */
  method AggregateRow(key: string, aggregates: seq<Cell>) returns (aggRow: Record, headers: set<string>)
    ensures aggRow == AggregateRecord(key, aggregates)
    ensures headers == HeadersUpTo(|aggregates|)
  {
    aggRow := [("Section", Str(key))];
    headers := {};
    AggregateRowStart(key, aggregates);
    for idx := 0 to |aggregates|
      invariant aggRow == FromPairs(AggregatePairs(key, aggregates[..idx]))
      invariant headers == HeadersUpTo(idx)
    {
      var columnName := Header(idx + 1);
      AggregateRowStep(key, aggregates, idx);
      aggRow := Put(aggRow, columnName, AggLabel(aggregates[idx]));
      headers := headers + {columnName};
    }
    assert aggregates[..|aggregates|] == aggregates;
  }

  lemma AggregateRowStart(key: string, aggs: seq<Cell>)
    ensures FromPairs(AggregatePairs(key, aggs[..0])) == [("Section", Str(key))]
    ensures HeadersUpTo(0) == {}
  {
    assert AggregatePairs(key, aggs[..0]) == [("Section", Str(key))];
    assert FromPairs([("Section", Str(key))]) == Put([], "Section", Str(key));
  }

  lemma AggregateRowStep(key: string, aggs: seq<Cell>, idx: nat)
    requires idx < |aggs|
    ensures FromPairs(AggregatePairs(key, aggs[..idx + 1]))
      == Put(FromPairs(AggregatePairs(key, aggs[..idx])), Header(idx + 1), AggLabel(aggs[idx]))
    ensures HeadersUpTo(idx + 1) == HeadersUpTo(idx) + {Header(idx + 1)}
  {
    var pre := aggs[..idx];
    var ps := AggregatePairs(key, pre);
    var q := (Header(idx + 1), AggLabel(aggs[idx]));
    assert aggs[..idx + 1] == pre + [aggs[idx]];
    assert AggregatePairs(key, pre + [aggs[idx]]) == ps + [q];
    FromPairsSnoc(ps, q.0, q.1);
    HeadersUpToSnoc(idx);
  }

  lemma HeadersUpToSnoc(m: nat)
    ensures HeadersUpTo(m + 1) == HeadersUpTo(m) + {Header(m + 1)}
  {
  }

  /** Appending a section extends the aggregate rows and the header set. */
  lemma AggregatePrefix(fm: FactMap, i: nat)
    requires i < |fm|
    ensures AggregateRecords(fm[..i + 1])
      == AggregateRecords(fm[..i])
         + (if HasAggregatesEntry(fm[i]) then [AggregateRecord(fm[i].0, AggregatesOf(fm[i].1))] else [])
    ensures HeaderSet(fm[..i + 1]) == HeaderSet(fm[..i]) + HeadersUpTo(|AggregatesOf(fm[i].1)|)
  {
    assert fm[..i + 1][..i] == fm[..i];
  }

  /**
   * The loop over the sections (lines 40-55): `table_data`,
   * `aggregate_data` and `aggregate_headers` when it ends.
   */
  method CollectSections(factMap: FactMap)
    returns (tableData: seq<seq<Json>>, aggregateData: seq<Record>, aggregateHeaders: set<string>)
    requires RowsHaveCells(factMap)
    ensures tableData == TableRows(factMap)
    ensures aggregateData == AggregateRecords(factMap)
    ensures aggregateHeaders == HeaderSet(factMap)
  {
    tableData := [];
    aggregateData := [];
    aggregateHeaders := {};
    for i := 0 to |factMap|
      invariant RowsHaveCells(factMap[..i])
      invariant tableData == TableRows(factMap[..i])
      invariant aggregateData == AggregateRecords(factMap[..i])
      invariant aggregateHeaders == HeaderSet(factMap[..i])
    {
      var (key, section) := factMap[i];
      TableRowsPrefix(factMap, i);
      AggregatePrefix(factMap, i);
      tableData := AppendLabelRows(tableData, section);
      var aggregates := AggregatesOf(section);
      if |aggregates| > 0 {
        var aggRow, headers := AggregateRow(key, aggregates);
        aggregateData := aggregateData + [aggRow];
        aggregateHeaders := aggregateHeaders + headers;
      } else {
        AggregateRowStart(key, aggregates);
      }
    }
    assert factMap[..|factMap|] == factMap;
  }

  /** Lines 29-70: what the viewer builds for a loaded report. */
  method BuildReportTables(detailColumns: seq<string>, factMap: FactMap) returns (outcome: Outcome)
    requires detailColumns != [] ==> TableInputOk(factMap, detailColumns)
    ensures outcome.NoColumnHeaders? <==> detailColumns == []
    ensures detailColumns != [] ==> RowsHaveCells(factMap)
    ensures detailColumns != [] ==>
      && outcome.table == (if TableRows(factMap) == [] then None else Some(Table(detailColumns, TableRows(factMap))))
      && (outcome.aggregates.None? <==> AggregateRecords(factMap) == [])
      && (outcome.aggregates.Some? ==>
            && AggregateColumnsOf(outcome.aggregates.value.columns, factMap)
            && outcome.aggregates.value.rows
               == FilledRows(AggregateRecords(factMap), outcome.aggregates.value.columns))
  {
    if detailColumns == [] {
      return NoColumnHeaders;
    }
    TableInputCells(factMap, detailColumns);
    var tableData, aggregateData, aggregateHeaders := CollectSections(factMap);
    var table := if tableData != [] then Some(Table(detailColumns, tableData)) else None;
    var aggTable: Option<Table> := None;
    if aggregateData != [] {
      var sortedHeaders := SortStrings(aggregateHeaders);
      var aggColumns := ["Section"] + sortedHeaders;
      assert aggColumns[1..] == sortedHeaders;
      aggTable := Some(Table(aggColumns, FilledRows(aggregateData, aggColumns)));
    }
    outcome := Tables(table, aggTable);
  }
}
