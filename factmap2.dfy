/**
 * factmap/factmap2.py: `extract_aggregates` joins a section's aggregate
 * values for display, and `parse_fact_map` builds one frame per report
 * format: TABULAR detail dicts, one SUMMARY row per key ending in `!T`, or
 * one MATRIX row per key with the key split on `!` into row and column
 * groups.
 */
module Factmap2 {
  import opened Text
  import opened JsonValue
  import opened Seqs
  import opened Report
  import Factmap

  /** `{"Grouping": …, "Aggregates": extract_aggregates(…)}` */
  datatype SummaryRow = SummaryRow(grouping: string, aggregates: string)

  /** `{"Row Group": …, "Column Group": …, "Aggregates": extract_aggregates(…)}` */
  datatype MatrixRow = MatrixRow(rowGroup: string, columnGroup: string, aggregates: string)

  datatype Frame =
    | DetailFrame(records: seq<Record>)
    | SummaryFrame(summaries: seq<SummaryRow>)
    | MatrixFrame(cells: seq<MatrixRow>)

  /**
   * `extract_aggregates`: each aggregate's `str(value)` (`"-"` when the
   * value is absent) joined with `", "`; the empty list gives `""`.
   */
  lemma ExtractAggregatesShape(aggs: seq<Cell>, a: Cell)
    ensures ExtractAggregates([]) == ""
    ensures ExtractAggregates([a]) == Show(CellValue(a))
    ensures a.value.None? ==> ExtractAggregates([a]) == "-"
    ensures aggs != [] ==>
      ExtractAggregates(aggs + [a]) == ExtractAggregates(aggs) + ", " + Show(CellValue(a))
  {
    ExtractAggregatesSnoc(aggs, a);
  }

  // ---------------------------------------------------------------------
  // MATRIX keys

  /** `key.split("!")[0]` */
  function RowGroup(key: string): string {
    SplitOn(key, "!")[0]
  }

  /** `row_col[1] if len(row_col) > 1 else "T"` */
  function ColumnGroup(key: string): string {
    var parts := SplitOn(key, "!");
    if |parts| > 1 then parts[1] else "T"
  }

  /**
   * `"A"` gives (`"A"`, `"T"`), `"A!B"` gives (`"A"`, `"B"`), and
   * `"A!B!C…"` gives (`"A"`, `"B"`): segments after the second are dropped.
   */
  lemma MatrixKeySplit(a: string, b: string, rest: string)
    requires '!' !in a && '!' !in b
    ensures RowGroup(a) == a && ColumnGroup(a) == "T"
    ensures RowGroup(a + "!" + b) == a && ColumnGroup(a + "!" + b) == b
    ensures RowGroup(a + "!" + b + "!" + rest) == a && ColumnGroup(a + "!" + b + "!" + rest) == b
  {
    SplitCharNone(a, '!');
    MatrixKeyTwo(a, b);
    MatrixKeyMore(a, b, rest);
  }

  lemma MatrixKeyTwo(a: string, b: string)
    requires '!' !in a && '!' !in b
    ensures SplitOn(a + "!" + b, "!") == [a, b]
  {
    SplitCharHead(a, '!', b);
    SplitCharNone(b, '!');
  }

  lemma MatrixKeyMore(a: string, b: string, rest: string)
    requires '!' !in a && '!' !in b
    ensures var parts := SplitOn(a + "!" + b + "!" + rest, "!");
      |parts| > 1 && parts[0] == a && parts[1] == b
  {
    assert a + "!" + b + "!" + rest == a + "!" + (b + "!" + rest);
    SplitCharHead(a, '!', b + "!" + rest);
    SplitCharHead(b, '!', rest);
  }

  /**
   * For every key: the row group is the key up to its first `!` and holds
   * no `!`; there is a column group other than `"T"`'s default exactly when
   * the key has a `!`, and then it is what follows that `!` up to the next.
   */
  lemma MatrixKeyParts(key: string)
    ensures '!' !in RowGroup(key) && IsPrefix(RowGroup(key), key)
    ensures '!' !in key ==> RowGroup(key) == key && ColumnGroup(key) == "T"
    ensures '!' in key ==>
      && IsPrefix(RowGroup(key) + "!" + ColumnGroup(key), key)
      && '!' !in ColumnGroup(key)
    ensures '!' in key ==>
      var n := |RowGroup(key)| + 1 + |ColumnGroup(key)|;
      n <= |key| && (n == |key| || key[n] == '!')
  {
    var parts := SplitOn(key, "!");
    SplitPiecesClean(key, "!");
    ContainsChar(parts[0], '!');
    FirstPieceIsPrefix(key, "!");
    SplitSingle(key, "!");
    ContainsChar(key, '!');
    JoinSplit(key, "!");
    if |parts| > 1 {
      ContainsChar(parts[1], '!');
      var tail := parts[1..];
      assert Join(parts, "!") == parts[0] + "!" + Join(tail, "!");
      FirstPieceIsPrefix(Join(tail, "!"), "!");
      JoinSplitPieces(tail);
      if |tail| > 1 {
        assert Join(tail, "!") == parts[1] + "!" + Join(tail[1..], "!");
        assert key == parts[0] + "!" + parts[1] + "!" + Join(tail[1..], "!");
        assert key[|parts[0]| + 1 + |parts[1]|] == '!';
      } else {
        assert Join(tail, "!") == parts[1];
        assert key == parts[0] + "!" + parts[1];
      }
    } else {
      assert key == parts[0];
    }
  }

  /** The first piece of a join is where the join starts. */
  lemma JoinSplitPieces(parts: seq<string>)
    requires |parts| > 0
    ensures IsPrefix(parts[0], Join(parts, "!"))
  {
    if |parts| > 1 {
      assert Join(parts, "!") == parts[0] + ("!" + Join(parts[1..], "!"));
    }
  }

  // ---------------------------------------------------------------------
  // the three formats

  /** `section["aggregates"]` exists in every section (MATRIX). */
  predicate AllHaveAggregates(fm: FactMap) {
    forall e :: e in fm ==> e.1.aggregates.Some?
  }

  /** SUMMARY: one row per key ending in `!T`, in fact-map order. */
  function SummaryRows(fm: FactMap): seq<SummaryRow>
    requires TotalsHaveAggregates(fm)
  {
    if fm == [] then []
    else
      var n := |fm| - 1;
      assert forall e :: e in fm[..n] ==> e in fm;
      SummaryRows(fm[..n])
      + (if IsTotalKey(fm[n].0)
         then [SummaryRow(Grouping(fm[n].0), ExtractAggregates(fm[n].1.aggregates.value))]
         else [])
  }

  /** The MATRIX row made from one key and its aggregates. */
  function MatrixRowOf(key: string, aggs: seq<Cell>): MatrixRow {
    MatrixRow(RowGroup(key), ColumnGroup(key), ExtractAggregates(aggs))
  }

  /** MATRIX: one row per key, in fact-map order. */
  function MatrixRows(fm: FactMap): seq<MatrixRow>
    requires AllHaveAggregates(fm)
  {
    if fm == [] then []
    else
      var n := |fm| - 1;
      assert forall e :: e in fm[..n] ==> e in fm;
      MatrixRows(fm[..n]) + [MatrixRowOf(fm[n].0, fm[n].1.aggregates.value)]
  }

  /** What `parse_fact_map` returns; None stands for Python's `None`. */
  function ParsedFrame(fm: FactMap, cols: seq<string>, format: string): Option<Frame>
    requires format == "TABULAR" ==> SectionsFit(fm, cols)
    requires format == "SUMMARY" ==> TotalsHaveAggregates(fm)
    requires format == "MATRIX" ==> AllHaveAggregates(fm)
  {
    if format == "TABULAR" then
      var records := TabularRecords(fm, cols);
      if records == [] then None else Some(DetailFrame(records))
    else if format == "SUMMARY" then
      var rows := SummaryRows(fm);
      if rows == [] then None else Some(SummaryFrame(rows))
    else if format == "MATRIX" then
      var rows := MatrixRows(fm);
      if rows == [] then None else Some(MatrixFrame(rows))
    else None
  }

  method ParseFactMap(factMap: FactMap, detailColumns: seq<string>, reportFormat: string)
    returns (df: Option<Frame>)
    requires reportFormat == "TABULAR" ==> SectionsFit(factMap, detailColumns)
    requires reportFormat == "SUMMARY" ==> TotalsHaveAggregates(factMap)
    requires reportFormat == "MATRIX" ==> AllHaveAggregates(factMap)
    ensures df == ParsedFrame(factMap, detailColumns, reportFormat)
  {
    if reportFormat == "TABULAR" {
      var dataRows := CollectDetailRecords(factMap, detailColumns);
      df := if dataRows == [] then None else Some(DetailFrame(dataRows));
    } else if reportFormat == "SUMMARY" {
      var dataRows: seq<SummaryRow> := [];
      for i := 0 to |factMap|
        invariant dataRows == SummaryRows(factMap[..i])
      {
        var (key, section) := factMap[i];
        assert factMap[..i + 1][..i] == factMap[..i];
        if IsTotalKey(key) {
          assert factMap[i] in factMap;
          var rowData := SummaryRow(Grouping(key), ExtractAggregates(section.aggregates.value));
          dataRows := dataRows + [rowData];
        }
      }
      assert factMap[..|factMap|] == factMap;
      df := if dataRows == [] then None else Some(SummaryFrame(dataRows));
    } else if reportFormat == "MATRIX" {
      var dataRows: seq<MatrixRow> := [];
      for i := 0 to |factMap|
        invariant dataRows == MatrixRows(factMap[..i])
      {
        var (key, section) := factMap[i];
        assert factMap[..i + 1][..i] == factMap[..i];
        assert factMap[i] in factMap;
        var rowCol := SplitOn(key, "!");
        var rowGroup := rowCol[0];
        var colGroup := if |rowCol| > 1 then rowCol[1] else "T";
        var rowData := MatrixRow(rowGroup, colGroup, ExtractAggregates(section.aggregates.value));
        dataRows := dataRows + [rowData];
      }
      assert factMap[..|factMap|] == factMap;
      df := if dataRows == [] then None else Some(MatrixFrame(dataRows));
    } else {
      df := None;
    }
  }

  /**
   * SUMMARY: exactly one row per key ending in `!T`, in order, carrying the
   * stripped key and the joined aggregates; other keys (and all detail
   * rows) are ignored.
   */
  lemma {:induction false} SummaryRowsPerTotalKey(fm: FactMap)
    requires TotalsHaveAggregates(fm)
    ensures var f := Filter(fm, IsTotalEntry);
      forall i :: 0 <= i < |f| ==> f[i] in fm && IsTotalKey(f[i].0)
    ensures var f := Filter(fm, IsTotalEntry);
      && |SummaryRows(fm)| == |f|
      && forall i :: 0 <= i < |f| ==>
           SummaryRows(fm)[i] == SummaryRow(Grouping(f[i].0), ExtractAggregates(f[i].1.aggregates.value))
    decreases |fm|
  {
    var f := Filter(fm, IsTotalEntry);
    forall i | 0 <= i < |f| ensures f[i] in fm && IsTotalKey(f[i].0) {
      FilterAt(fm, IsTotalEntry, i);
    }
    if fm != [] {
      var n := |fm| - 1;
      var prev := fm[..n];
      var g := Filter(prev, IsTotalEntry);
      assert forall e :: e in prev ==> e in fm;
      SummaryRowsPerTotalKey(prev);
      assert f == g + (if IsTotalEntry(fm[n]) then [fm[n]] else []);
      forall i | 0 <= i < |g| ensures f[i] == g[i] {}
    }
  }

  /** MATRIX: row i comes from key i, so there are as many rows as keys. */
  lemma {:induction false} MatrixRowsPerKey(fm: FactMap)
    requires AllHaveAggregates(fm)
    ensures |MatrixRows(fm)| == |fm|
    ensures forall i :: 0 <= i < |fm| ==> fm[i] in fm
    ensures forall i :: 0 <= i < |fm| ==>
      MatrixRows(fm)[i] == MatrixRowOf(fm[i].0, fm[i].1.aggregates.value)
    decreases |fm|
  {
    if fm != [] {
      var n := |fm| - 1;
      var prev := fm[..n];
      assert forall e :: e in prev ==> e in fm;
      MatrixRowsPerKey(prev);
      var rows := MatrixRows(fm);
      assert rows == MatrixRows(prev) + [MatrixRowOf(fm[n].0, fm[n].1.aggregates.value)];
      forall i | 0 <= i < |fm|
        ensures rows[i] == MatrixRowOf(fm[i].0, fm[i].1.aggregates.value)
      {
        if i < n { assert prev[i] == fm[i]; }
      }
    }
  }

  /**
   * No frame exactly when the format is unrecognised or nothing was
   * collected: no data row (TABULAR), no `!T` key (SUMMARY), an empty fact
   * map (MATRIX).
   */
  lemma NoFrameCases(fm: FactMap, cols: seq<string>, format: string)
    requires format == "TABULAR" ==> SectionsFit(fm, cols)
    requires format == "SUMMARY" ==> TotalsHaveAggregates(fm)
    requires format == "MATRIX" ==> AllHaveAggregates(fm)
    ensures ParsedFrame(fm, cols, format).None? <==>
      || (format != "TABULAR" && format != "SUMMARY" && format != "MATRIX")
      || (format == "TABULAR" && DataRowCount(fm) == 0)
      || (format == "SUMMARY" && Filter(fm, IsTotalEntry) == [])
      || (format == "MATRIX" && fm == [])
  {
    if format == "TABULAR" {
      TabularRecordsShape(fm, cols, 0, 0);
    } else if format == "SUMMARY" {
      SummaryRowsPerTotalKey(fm);
    } else if format == "MATRIX" {
      MatrixRowsPerKey(fm);
    }
  }

  /**
   * The SUMMARY rows here are factmap.py's grouping rows with the raw
   * aggregates list replaced by its joined display.
   */
  lemma {:induction false} SummaryRowsDisplayTotals(fm: FactMap)
    requires TotalsHaveAggregates(fm)
    ensures |SummaryRows(fm)| == |Factmap.TotalRows(fm)|
    ensures forall i :: 0 <= i < |SummaryRows(fm)| ==>
      SummaryRows(fm)[i] == SummaryRow(Factmap.TotalRows(fm)[i].grouping,
                                       ExtractAggregates(Factmap.TotalRows(fm)[i].aggregates))
    decreases |fm|
  {
    if fm != [] {
      var n := |fm| - 1;
      assert forall e :: e in fm[..n] ==> e in fm;
      SummaryRowsDisplayTotals(fm[..n]);
    }
  }
}
