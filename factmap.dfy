/**
 * factmap/factmap.py: `parse_fact_map` turns a fact map into the rows of one
 * frame.  TABULAR reports give one detail dict per data row; SUMMARY and
 * MATRIX reports give one `{Grouping, Aggregates}` row per section whose key
 * ends in `!T`, carrying the section's aggregates list untouched.
 */
module Factmap {
  import opened JsonValue
  import opened Seqs
  import opened Report

  /** `{"Grouping": key.replace("!T", ""), "Aggregates": section["aggregates"]}` */
  datatype TotalRow = TotalRow(grouping: string, aggregates: seq<Cell>)

  /** The frame returned: detail dicts (TABULAR) or grouping rows. */
  datatype Frame = DetailFrame(records: seq<Record>) | TotalFrame(totals: seq<TotalRow>)

  /** The grouping rows of the sections whose key ends in `!T`, in order. */
  function TotalRows(fm: FactMap): seq<TotalRow>
    requires TotalsHaveAggregates(fm)
  {
    if fm == [] then []
    else
      var n := |fm| - 1;
      assert forall e :: e in fm[..n] ==> e in fm;
      TotalRows(fm[..n])
      + (if IsTotalKey(fm[n].0) then [TotalRow(Grouping(fm[n].0), fm[n].1.aggregates.value)] else [])
  }

  predicate IsSummaryFormat(format: string) {
    format == "SUMMARY" || format == "MATRIX"
  }

  /** What `parse_fact_map` returns; None stands for Python's `None`. */
  function ParsedFrame(fm: FactMap, cols: seq<string>, format: string): Option<Frame>
    requires format == "TABULAR" ==> SectionsFit(fm, cols)
    requires IsSummaryFormat(format) ==> TotalsHaveAggregates(fm)
  {
    if format == "TABULAR" then
      var records := TabularRecords(fm, cols);
      if records == [] then None else Some(DetailFrame(records))
    else if IsSummaryFormat(format) then
      var totals := TotalRows(fm);
      if totals == [] then None else Some(TotalFrame(totals))
    else None
  }

  method ParseFactMap(factMap: FactMap, detailColumns: seq<string>, reportFormat: string)
    returns (df: Option<Frame>)
    requires reportFormat == "TABULAR" ==> SectionsFit(factMap, detailColumns)
    requires IsSummaryFormat(reportFormat) ==> TotalsHaveAggregates(factMap)
    ensures df == ParsedFrame(factMap, detailColumns, reportFormat)
  {
    if reportFormat == "TABULAR" {
      var dataRows := CollectDetailRecords(factMap, detailColumns);
      df := if dataRows == [] then None else Some(DetailFrame(dataRows));
    } else if IsSummaryFormat(reportFormat) {
      var dataRows: seq<TotalRow> := [];
      for i := 0 to |factMap|
        invariant dataRows == TotalRows(factMap[..i])
      {
        var (key, section) := factMap[i];
        assert factMap[..i + 1][..i] == factMap[..i];
        if IsTotalKey(key) {
          assert factMap[i] in factMap;
          dataRows := dataRows + [TotalRow(Grouping(key), section.aggregates.value)];
        }
      }
      assert factMap[..|factMap|] == factMap;
      df := if dataRows == [] then None else Some(TotalFrame(dataRows));
    } else {
      df := None;
    }
  }

  /**
   * SUMMARY/MATRIX: exactly one grouping row per key ending in `!T`, in
   * fact-map order; every other key contributes nothing.
   */
  lemma {:induction false} TotalRowsPerTotalKey(fm: FactMap)
    requires TotalsHaveAggregates(fm)
    ensures var f := Filter(fm, IsTotalEntry);
      forall i :: 0 <= i < |f| ==> f[i] in fm && IsTotalKey(f[i].0)
    ensures var f := Filter(fm, IsTotalEntry);
      && |TotalRows(fm)| == |f|
      && forall i :: 0 <= i < |f| ==>
           TotalRows(fm)[i] == TotalRow(Grouping(f[i].0), f[i].1.aggregates.value)
    decreases |fm|
  {
    var f := Filter(fm, IsTotalEntry);
    forall i | 0 <= i < |f| ensures f[i] in fm && IsTotalKey(f[i].0) {
      FilterAt(fm, IsTotalEntry, i);
    }
    if fm != [] {
      var n := |fm| - 1;
      var prev := fm[..n];
      var g := Filter(prev, IsTotalEntry);
      assert forall e :: e in prev ==> e in fm;
      TotalRowsPerTotalKey(prev);
      assert f == g + (if IsTotalEntry(fm[n]) then [fm[n]] else []);
      forall i | 0 <= i < |g| ensures f[i] == g[i] {}
    }
  }

  /**
   * No frame (`None`) exactly when the format is not one of the three, or
   * when it produced no rows: TABULAR with no data row at all, SUMMARY or
   * MATRIX with no key ending in `!T`.
   */
  lemma NoFrameCases(fm: FactMap, cols: seq<string>, format: string)
    requires format == "TABULAR" ==> SectionsFit(fm, cols)
    requires IsSummaryFormat(format) ==> TotalsHaveAggregates(fm)
    ensures ParsedFrame(fm, cols, format).None? <==>
      || (format != "TABULAR" && !IsSummaryFormat(format))
      || (format == "TABULAR" && DataRowCount(fm) == 0)
      || (IsSummaryFormat(format) && Filter(fm, IsTotalEntry) == [])
  {
    if format == "TABULAR" {
      TabularRecordsShape(fm, cols, 0, 0);
    } else if IsSummaryFormat(format) {
      TotalRowsPerTotalKey(fm);
    }
  }
}
