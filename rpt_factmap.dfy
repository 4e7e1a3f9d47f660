/**
 * factmap/rpt-factmap.py: `parse_factmap` files every section under its
 * group name, turning the aggregates into a dict keyed by the report's
 * aggregate names (0 for a missing value), the data rows into lists of cell
 * labels (`"-"` for a missing label), and keeping the column names.
 */
module RptFactmap {
  import opened JsonValue
  import opened OrderedDict
  import opened Report
  import opened Groups

  /** `{"aggregates": {name: value}, "rows": …, "columns": column_names}` */
  datatype Group = Group(aggregates: Dict<Json>, rows: seq<seq<Json>>, columns: seq<string>)

  /**
   * `{aggregate_names[i]: agg.get("value", 0) for i, agg in
   * enumerate(aggregates)}`; there must be a name for every aggregate.
   */
  function AggregateMap(names: seq<string>, aggs: seq<Cell>): Dict<Json>
    requires |aggs| <= |names|
  {
    FromPairs(Zip(names, AggregateValues(aggs)))
  }

  /** What the loop reads without a KeyError or IndexError. */
  predicate InputOk(fm: FactMap, aggNames: seq<string>) {
    && RowsHaveCells(fm)
    && forall e :: e in fm ==> |AggregatesOf(e.1)| <= |aggNames|
  }

  function GroupOf(s: Section, cols: seq<string>, aggNames: seq<string>): Group
    requires SectionHasCells(s) && |AggregatesOf(s)| <= |aggNames|
  {
    Group(AggregateMap(aggNames, AggregatesOf(s)), LabelRows(s), cols)
  }

  function GroupPairs(fm: FactMap, cols: seq<string>, aggNames: seq<string>): (ps: seq<(string, Group)>)
    requires InputOk(fm, aggNames)
    ensures NamedByGrouping(fm, ps)
  {
    seq(|fm|, i requires 0 <= i < |fm| =>
      assert fm[i] in fm;
      (Grouping(fm[i].0), GroupOf(fm[i].1, cols, aggNames)))
  }

  /** What `parse_factmap` returns. */
  function Parsed(fm: FactMap, cols: seq<string>, aggNames: seq<string>): Dict<Group>
    requires InputOk(fm, aggNames)
  {
    FromPairs(GroupPairs(fm, cols, aggNames))
  }

  method ParseFactmap(factMap: FactMap, columnNames: seq<string>, aggregateNames: seq<string>)
    returns (groupedData: Dict<Group>)
    requires InputOk(factMap, aggregateNames)
    ensures groupedData == Parsed(factMap, columnNames, aggregateNames)
  {
    groupedData := [];
    for i := 0 to |factMap|
      invariant InputOk(factMap[..i], aggregateNames)
      invariant groupedData == FromPairs(GroupPairs(factMap[..i], columnNames, aggregateNames))
    {
      var (key, section) := factMap[i];
      ParseStep(factMap, columnNames, aggregateNames, i);
      var groupName := Grouping(key);
      var aggregates := AggregateMap(aggregateNames, AggregatesOf(section));
      var rows := AppendLabelRows([], section);
      assert rows == LabelRows(section);
      var group := Group(aggregates, rows, columnNames);
      groupedData := Put(groupedData, groupName, group);
    }
    assert factMap[..|factMap|] == factMap;
  }

  /** One pass of the loop assigns the section's group under its name. */
  lemma ParseStep(fm: FactMap, cols: seq<string>, aggNames: seq<string>, i: nat)
    requires InputOk(fm, aggNames) && i < |fm|
    ensures fm[i] in fm && SectionHasCells(fm[i].1) && |AggregatesOf(fm[i].1)| <= |aggNames|
    ensures InputOk(fm[..i + 1], aggNames)
    ensures FromPairs(GroupPairs(fm[..i + 1], cols, aggNames))
      == Put(FromPairs(GroupPairs(fm[..i], cols, aggNames)), Grouping(fm[i].0), GroupOf(fm[i].1, cols, aggNames))
  {
    GroupPairsPrefix(fm, cols, aggNames, i);
    FromPairsSnoc(GroupPairs(fm[..i], cols, aggNames), Grouping(fm[i].0), GroupOf(fm[i].1, cols, aggNames));
  }

  /** One more section adds one more pair. */
  lemma GroupPairsPrefix(fm: FactMap, cols: seq<string>, aggNames: seq<string>, i: nat)
    requires InputOk(fm, aggNames) && i < |fm|
    ensures fm[i] in fm
    ensures InputOk(fm[..i], aggNames) && InputOk(fm[..i + 1], aggNames)
    ensures GroupPairs(fm[..i + 1], cols, aggNames)
      == GroupPairs(fm[..i], cols, aggNames) + [(Grouping(fm[i].0), GroupOf(fm[i].1, cols, aggNames))]
  {
    assert forall e :: e in fm[..i] ==> e in fm;
    assert forall e :: e in fm[..i + 1] ==> e in fm;
  }

  /**
   * The aggregates dict has one entry per distinct name among the first
   * `len(aggregates)` aggregate names; a name holds its aggregate's value
   * (0 when missing) unless a later aggregate reuses the name and
   * overwrites it.
   */
  lemma AggregateMapLookup(names: seq<string>, aggs: seq<Cell>)
    requires |aggs| <= |names|
    ensures forall k :: Get(AggregateMap(names, aggs), k).Some? <==> k in names[..|aggs|]
    ensures forall i :: 0 <= i < |aggs| && names[i] !in names[i + 1..|aggs|] ==>
      Get(AggregateMap(names, aggs), names[i])
      == Some(if aggs[i].value.Some? then aggs[i].value.value else Int(0))
    ensures Distinct(names[..|aggs|]) ==> |AggregateMap(names, aggs)| == |aggs|
  {
    ZipLookup(names, AggregateValues(aggs));
  }

  /**
   * A group holds one list of labels per data row, in order, as long as the
   * row's `dataCells` (`"-"` for a missing label).
   */
  lemma GroupRows(s: Section, cols: seq<string>, aggNames: seq<string>)
    requires SectionHasCells(s) && |AggregatesOf(s)| <= |aggNames|
    ensures var g := GroupOf(s, cols, aggNames);
      && |g.rows| == |RowsOf(s)|
      && (forall j :: 0 <= j < |g.rows| ==> RowsOf(s)[j] in RowsOf(s))
      && (forall j :: 0 <= j < |g.rows| ==>
            && |g.rows[j]| == |RowsOf(s)[j].dataCells.value|
            && forall c :: 0 <= c < |g.rows[j]| ==>
                 g.rows[j][c] == if RowsOf(s)[j].dataCells.value[c].labelText.Some?
                                 then RowsOf(s)[j].dataCells.value[c].labelText.value else Str("-"))
      && (s.rows.None? ==> g.rows == [])
      && (s.aggregates.None? ==> g.aggregates == [])
  {
  }

  /**
   * The groups are the distinct stripped keys in first-appearance order, at
   * most one per key and exactly one per key when no stripped keys collide;
   * every group carries `column_names`.
   */
  lemma GroupsShape(fm: FactMap, cols: seq<string>, aggNames: seq<string>)
    requires InputOk(fm, aggNames)
    ensures Keys(Parsed(fm, cols, aggNames)) == Dedup(GroupNames(fm))
    ensures |Parsed(fm, cols, aggNames)| <= |fm|
    ensures Distinct(GroupNames(fm)) ==> |Parsed(fm, cols, aggNames)| == |fm|
    ensures forall name :: Get(Parsed(fm, cols, aggNames), name).Some? <==> name in GroupNames(fm)
    ensures forall name :: Get(Parsed(fm, cols, aggNames), name).Some? ==>
      Get(Parsed(fm, cols, aggNames), name).value.columns == cols
  {
    var ps := GroupPairs(fm, cols, aggNames);
    GroupedShape(fm, ps);
    forall name | Get(Parsed(fm, cols, aggNames), name).Some?
      ensures Get(Parsed(fm, cols, aggNames), name).value.columns == cols
    {
      var i :| 0 <= i < |ps| && ps[i] == (name, Get(Parsed(fm, cols, aggNames), name).value);
    }
  }

  /**
   * A stripped key holds the group of the last section filed under it:
   * colliding keys such as `"1"` and `"1!T"` keep only the later section.
   */
  lemma GroupsLastWins(fm: FactMap, cols: seq<string>, aggNames: seq<string>, i: nat)
    requires InputOk(fm, aggNames)
    requires i < |fm|
    requires forall j :: i < j < |fm| ==> Grouping(fm[j].0) != Grouping(fm[i].0)
    ensures fm[i] in fm
    ensures Get(Parsed(fm, cols, aggNames), Grouping(fm[i].0)) == Some(GroupOf(fm[i].1, cols, aggNames))
  {
    GroupedLast(fm, GroupPairs(fm, cols, aggNames), i);
  }
}
