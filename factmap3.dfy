/**
 * factmap/factmap3.py: `parse_summary_report` walks the fact map once and
 * sends every section whose key contains `!T` anywhere to the summary
 * table, and every other section's rows to the detail table.  The viewer
 * calls it only for SUMMARY reports.
 */
module Factmap3 {
  import opened Text
  import opened JsonValue
  import opened Seqs
  import opened Report
  import Factmap2

  function HasMarkerEntry(e: (string, Section)): bool {
    HasTotalMarker(e.0)
  }

  function NoMarkerEntry(e: (string, Section)): bool {
    !HasTotalMarker(e.0)
  }

  /**
   * What the loop reads without a KeyError or IndexError: `aggregates` in
   * every section whose key contains `!T`, and rows that fit
   * `detail_columns` in every other section.
   */
  predicate SummaryInputOk(fm: FactMap, cols: seq<string>) {
    && (forall e :: e in fm && HasTotalMarker(e.0) ==> e.1.aggregates.Some?)
    && (forall e :: e in fm && !HasTotalMarker(e.0) ==> SectionFits(e.1, cols))
  }

  lemma SummaryInputPrefix(fm: FactMap, cols: seq<string>, n: nat)
    requires SummaryInputOk(fm, cols) && n <= |fm|
    ensures SummaryInputOk(fm[..n], cols)
  {
    assert forall e :: e in fm[..n] ==> e in fm;
  }

  /** The detail records, from the sections whose key has no `!T`. */
  function Details(fm: FactMap, cols: seq<string>): seq<Record>
    requires SummaryInputOk(fm, cols)
  {
    if fm == [] then []
    else
      var n := |fm| - 1;
      SummaryInputPrefix(fm, cols, n);
      assert fm[n] in fm;
      Details(fm[..n], cols) + (if HasTotalMarker(fm[n].0) then [] else SectionRecords(fm[n].1, cols))
  }

  /** The summary rows, from the sections whose key has `!T`. */
  function Summaries(fm: FactMap, cols: seq<string>): seq<Factmap2.SummaryRow>
    requires SummaryInputOk(fm, cols)
  {
    if fm == [] then []
    else
      var n := |fm| - 1;
      SummaryInputPrefix(fm, cols, n);
      assert fm[n] in fm;
      Summaries(fm[..n], cols)
      + (if HasTotalMarker(fm[n].0)
         then [Factmap2.SummaryRow(Grouping(fm[n].0), ExtractAggregates(fm[n].1.aggregates.value))]
         else [])
  }

  /** Both results of `parse_summary_report`; None stands for Python's `None`. */
  method ParseSummaryReport(factMap: FactMap, detailColumns: seq<string>)
    returns (details: Option<seq<Record>>, summary: Option<seq<Factmap2.SummaryRow>>)
    requires SummaryInputOk(factMap, detailColumns)
    ensures details == AsFrame(Details(factMap, detailColumns))
    ensures summary == AsFrame(Summaries(factMap, detailColumns))
  {
    var dataRows: seq<Record> := [];
    var summaryRows: seq<Factmap2.SummaryRow> := [];
    for i := 0 to |factMap|
      invariant SummaryInputOk(factMap[..i], detailColumns)
      invariant dataRows == Details(factMap[..i], detailColumns)
      invariant summaryRows == Summaries(factMap[..i], detailColumns)
    {
      var (key, section) := factMap[i];
      ParseStep(factMap, detailColumns, i);
      if HasTotalMarker(key) {
        var rowData := Factmap2.SummaryRow(Grouping(key), ExtractAggregates(section.aggregates.value));
        summaryRows := summaryRows + [rowData];
      } else {
        dataRows := AppendSectionRecords(dataRows, section, detailColumns);
      }
    }
    assert factMap[..|factMap|] == factMap;
    details := AsFrame(dataRows);
    summary := AsFrame(summaryRows);
  }

  /** What one more section adds to each table. */
  lemma ParseStep(fm: FactMap, cols: seq<string>, i: nat)
    requires SummaryInputOk(fm, cols) && i < |fm|
    ensures SummaryInputOk(fm[..i + 1], cols)
    ensures HasTotalMarker(fm[i].0) ==> fm[i].1.aggregates.Some?
    ensures !HasTotalMarker(fm[i].0) ==> SectionFits(fm[i].1, cols)
    ensures Details(fm[..i + 1], cols)
      == Details(fm[..i], cols) + (if HasTotalMarker(fm[i].0) then [] else SectionRecords(fm[i].1, cols))
    ensures HasTotalMarker(fm[i].0) ==>
      Summaries(fm[..i + 1], cols) == Summaries(fm[..i], cols)
        + [Factmap2.SummaryRow(Grouping(fm[i].0), ExtractAggregates(fm[i].1.aggregates.value))]
    ensures !HasTotalMarker(fm[i].0) ==> Summaries(fm[..i + 1], cols) == Summaries(fm[..i], cols)
  {
    assert fm[i] in fm;
    assert fm[..i + 1][..i] == fm[..i];
    SummaryInputPrefix(fm, cols, i + 1);
  }

  /**
   * The two key tests split the fact map: every entry goes to exactly one
   * side, and the sides' sizes add up to the number of keys.
   */
  lemma KeyClassesPartition(fm: FactMap)
    ensures |Filter(fm, HasMarkerEntry)| + |Filter(fm, NoMarkerEntry)| == |fm|
    ensures forall e :: e in fm ==> (e in Filter(fm, HasMarkerEntry) <==> e !in Filter(fm, NoMarkerEntry))
  {
    FilterPartition(fm, HasMarkerEntry, NoMarkerEntry);
    FilterMembers(fm, HasMarkerEntry);
    FilterMembers(fm, NoMarkerEntry);
  }

  /** The detail sections satisfy the TABULAR precondition. */
  lemma UnmarkedFit(fm: FactMap, cols: seq<string>)
    requires SummaryInputOk(fm, cols)
    ensures SectionsFit(Filter(fm, NoMarkerEntry), cols)
  {
    FilterMembers(fm, NoMarkerEntry);
  }

  /**
   * The detail table is the TABULAR concatenation of the sections whose key
   * has no `!T`.
   */
  lemma {:induction false} DetailsAreUnmarkedRecords(fm: FactMap, cols: seq<string>)
    requires SummaryInputOk(fm, cols)
    ensures SectionsFit(Filter(fm, NoMarkerEntry), cols)
    ensures Details(fm, cols) == TabularRecords(Filter(fm, NoMarkerEntry), cols)
    decreases |fm|
  {
    UnmarkedFit(fm, cols);
    if fm != [] {
      var n := |fm| - 1;
      SummaryInputPrefix(fm, cols, n);
      var prev := fm[..n];
      DetailsAreUnmarkedRecords(prev, cols);
      var g := Filter(prev, NoMarkerEntry);
      var f := Filter(fm, NoMarkerEntry);
      assert fm[n] in fm;
      if NoMarkerEntry(fm[n]) {
        assert f == g + [fm[n]];
        TabularRecordsSnoc(g, fm[n], cols);
        assert Details(fm, cols) == Details(prev, cols) + SectionRecords(fm[n].1, cols);
      } else {
        assert f == g;
        assert Details(fm, cols) == Details(prev, cols);
      }
    }
  }

  /**
   * So the detail table holds one record per row of the sections without
   * `!T` (a section without `rows` adds none), and the record of row `j` of
   * such a section is its positional mapping with `"-"` for a missing value.
   */
  lemma DetailsCount(fm: FactMap, cols: seq<string>, s: nat, j: nat)
    requires SummaryInputOk(fm, cols)
    ensures SectionsFit(Filter(fm, NoMarkerEntry), cols)
    ensures |Details(fm, cols)| == DataRowCount(Filter(fm, NoMarkerEntry))
    ensures var f := Filter(fm, NoMarkerEntry);
      s < |f| && j < |RowsOf(f[s].1)| ==>
        && f[s] in fm && !HasTotalMarker(f[s].0)
        && RowsOf(f[s].1)[j] in RowsOf(f[s].1)
        && DataRowCount(f[..s]) + j < |Details(fm, cols)|
        && Details(fm, cols)[DataRowCount(f[..s]) + j]
           == DetailRecord(cols, RowsOf(f[s].1)[j].dataCells.value)
  {
    DetailsAreUnmarkedRecords(fm, cols);
    var f := Filter(fm, NoMarkerEntry);
    TabularRecordsShape(f, cols, s, j);
    if s < |f| { FilterAt(fm, NoMarkerEntry, s); }
  }

  /**
   * Exactly one summary row per key containing `!T`, in fact-map order,
   * carrying the key with every `!T` removed and the joined aggregates.
   */
  lemma {:induction false} SummariesPerMarkedKey(fm: FactMap, cols: seq<string>)
    requires SummaryInputOk(fm, cols)
    ensures var f := Filter(fm, HasMarkerEntry);
      forall i :: 0 <= i < |f| ==> f[i] in fm && HasTotalMarker(f[i].0)
    ensures var f := Filter(fm, HasMarkerEntry);
      && |Summaries(fm, cols)| == |f|
      && forall i :: 0 <= i < |f| ==>
           Summaries(fm, cols)[i]
           == Factmap2.SummaryRow(Grouping(f[i].0), ExtractAggregates(f[i].1.aggregates.value))
    decreases |fm|
  {
    var f := Filter(fm, HasMarkerEntry);
    forall i | 0 <= i < |f| ensures f[i] in fm && HasTotalMarker(f[i].0) {
      FilterAt(fm, HasMarkerEntry, i);
    }
    if fm != [] {
      var n := |fm| - 1;
      var prev := fm[..n];
      var g := Filter(prev, HasMarkerEntry);
      SummaryInputPrefix(fm, cols, n);
      SummariesPerMarkedKey(prev, cols);
      assert f == g + (if HasMarkerEntry(fm[n]) then [fm[n]] else []);
      forall i | 0 <= i < |g| ensures f[i] == g[i] {}
    }
  }

  /**
   * When every key containing `!T` ends with it (as Salesforce's grouping
   * keys do), the summary table here and factmap2.py's SUMMARY table agree.
   */
  lemma {:induction false} SummariesMatchFactmap2(fm: FactMap, cols: seq<string>)
    requires SummaryInputOk(fm, cols)
    requires forall e :: e in fm && HasTotalMarker(e.0) ==> IsTotalKey(e.0)
    ensures TotalsHaveAggregates(fm)
    ensures Summaries(fm, cols) == Factmap2.SummaryRows(fm)
    decreases |fm|
  {
    forall e | e in fm && IsTotalKey(e.0) ensures e.1.aggregates.Some? {
      TotalKeyHasMarker(e.0);
    }
    if fm != [] {
      var n := |fm| - 1;
      SummaryInputPrefix(fm, cols, n);
      assert forall e :: e in fm[..n] ==> e in fm;
      SummariesMatchFactmap2(fm[..n], cols);
      assert fm[n] in fm;
      TotalKeyHasMarker(fm[n].0);
    }
  }

  /**
   * The two tests do differ: a key with an inner `!T` is a summary key here
   * but not in factmap2.py.
   */
  lemma InnerMarkerDiffers()
    ensures HasTotalMarker("0!T_1") && !IsTotalKey("0!T_1")
  {
    assert IsPrefix("!T", "!T_1");
    assert Contains("!T_1", "!T");
    assert "0!T_1"[1..] == "!T_1";
    assert "0!T_1"[|"0!T_1"| - 2..] == "_1";
  }

  /** The viewer's outcome: the two tables, or the unsupported-format warning. */
  datatype Outcome =
    | Tables(details: Option<seq<Record>>, summary: Option<seq<Factmap2.SummaryRow>>)
    | UnsupportedWarning

  /** `if report_format == "SUMMARY": parse_summary_report(…) else: st.warning(…)` */
  method ViewReport(factMap: FactMap, detailColumns: seq<string>, reportFormat: string)
    returns (outcome: Outcome)
    requires reportFormat == "SUMMARY" ==> SummaryInputOk(factMap, detailColumns)
    ensures outcome.UnsupportedWarning? <==> reportFormat != "SUMMARY"
    ensures outcome.Tables? ==>
      && outcome.details == AsFrame(Details(factMap, detailColumns))
      && outcome.summary == AsFrame(Summaries(factMap, detailColumns))
  {
    if reportFormat == "SUMMARY" {
      var details, summary := ParseSummaryReport(factMap, detailColumns);
      outcome := Tables(details, summary);
    } else {
      outcome := UnsupportedWarning;
    }
  }
}
