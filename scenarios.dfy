/**
 * Worked reports: a SUMMARY grand total, a TABULAR detail row and a MATRIX
 * cell, with the parsers' results stated and proved.
 */
module Scenarios {
  import opened Text
  import opened JsonValue
  import opened Report
  import Factmap2
  import Factmap3
  import Groups

  /** `{"1!T": {"aggregates": [{"value": 42}]}}` */
  const SummaryReport: FactMap := [("1!T", Section(None, Some([Cell(Some(Int(42)), None)])))]

  /** The SUMMARY report gives one summary row `("1", "42")` and no detail table. */
  lemma SummaryScenario()
    ensures TotalsHaveAggregates(SummaryReport)
    ensures Factmap2.ParsedFrame(SummaryReport, [], "SUMMARY")
      == Some(Factmap2.SummaryFrame([Factmap2.SummaryRow("1", "42")]))
    ensures Factmap3.SummaryInputOk(SummaryReport, [])
    ensures Factmap3.Details(SummaryReport, []) == []
    ensures Factmap3.Summaries(SummaryReport, []) == [Factmap2.SummaryRow("1", "42")]
  {
    var fm := SummaryReport;
    var agg := Cell(Some(Int(42)), None);
    SummaryKey();
    Shows42(agg);
    assert fm[..0] == [];
    assert Factmap2.SummaryRows([]) == [];
    assert Factmap2.SummaryRows(fm) == [Factmap2.SummaryRow("1", "42")];
  }

  /** `"1!T"` is a grand-total key of group `"1"`. */
  lemma SummaryKey()
    ensures IsTotalKey("1!T") && HasTotalMarker("1!T") && Grouping("1!T") == "1"
  {
    var key := "1!T";
    assert key[|key| - 2..] == "!T";
    TotalKeyHasMarker(key);
    Groups.CollidingKeys();
  }

  lemma Shows42(agg: Cell)
    requires agg == Cell(Some(Int(42)), None)
    ensures ExtractAggregates([agg]) == "42"
  {
    ShowInt(42);
    assert Decimal(42) == Decimal(4) + [DigitChar(2)] == "42";
    ExtractAggregatesSnoc([], agg);
  }

  /** `{"1": {"rows": [{"dataCells": [{"value": "Acme"}, {"value": 100}]}]}}` */
  const TabularReport: FactMap :=
    [("1", Section(Some([Row(Some([Cell(Some(Str("Acme")), None), Cell(Some(Int(100)), None)]))]), None))]

  /** The TABULAR report gives the one detail row `{Name: "Acme", Amount: 100}`. */
  lemma TabularScenario()
    ensures SectionsFit(TabularReport, ["Name", "Amount"])
    ensures Factmap2.ParsedFrame(TabularReport, ["Name", "Amount"], "TABULAR")
      == Some(Factmap2.DetailFrame([[("Name", Str("Acme")), ("Amount", Int(100))]]))
  {
    var cols := ["Name", "Amount"];
    var cells := [Cell(Some(Str("Acme")), None), Cell(Some(Int(100)), None)];
    var fm := TabularReport;
    assert forall e :: e in fm ==> e == fm[0];
    DetailRecordColumns(cols, cells);
    assert cols[..|cells|] == cols;
    var rec := DetailRecord(cols, cells);
    assert rec == [("Name", Str("Acme")), ("Amount", Int(100))];
    TabularRecordsShape(fm, cols, 0, 0);
    assert TabularRecords(fm, cols) == [rec] by {
      assert fm[..0] == [];
    }
  }

  /** `{"A!B": {"aggregates": [{"value": 5}]}}` */
  const MatrixReport: FactMap := [("A!B", Section(None, Some([Cell(Some(Int(5)), None)])))]

  /** The MATRIX report gives the one cell row `("A", "B", "5")`. */
  lemma MatrixScenario()
    ensures Factmap2.AllHaveAggregates(MatrixReport)
    ensures Factmap2.ParsedFrame(MatrixReport, [], "MATRIX")
      == Some(Factmap2.MatrixFrame([Factmap2.MatrixRow("A", "B", "5")]))
  {
    Factmap2.MatrixKeySplit("A", "B", "");
    ShowInt(5);
    ExtractAggregatesSnoc([], Cell(Some(Int(5)), None));
    var fm := MatrixReport;
    assert fm[..0] == [];
    var agg := Cell(Some(Int(5)), None);
    assert ExtractAggregates([agg]) == "5";
    assert "A" + "!" + "B" == "A!B";
    assert Factmap2.MatrixRows(fm) == [Factmap2.MatrixRowOf("A!B", [agg])];
  }
}
