/**
 * factmap/fm2.py: `parse_factmap` files every section under its group name,
 * keeping the aggregate values as a list (0 for a missing value), the data
 * rows as lists of cell values (`"-"` for a missing value) and the report's
 * column names.
 */
module Fm2 {
  import opened JsonValue
  import opened OrderedDict
  import opened Report
  import opened Groups

  /** `{"aggregates": …, "rows": …, "columns": column_names}` */
  datatype Group = Group(aggregates: seq<Json>, rows: seq<seq<Json>>, columns: seq<string>)

  /** The group made from one section. */
  function GroupOf(s: Section, cols: seq<string>): Group
    requires SectionHasCells(s)
  {
    Group(AggregateValues(AggregatesOf(s)), ValueRows(s), cols)
  }

  function GroupPairs(fm: FactMap, cols: seq<string>): (ps: seq<(string, Group)>)
    requires RowsHaveCells(fm)
    ensures NamedByGrouping(fm, ps)
  {
    seq(|fm|, i requires 0 <= i < |fm| => assert fm[i] in fm; (Grouping(fm[i].0), GroupOf(fm[i].1, cols)))
  }

  /** What `parse_factmap` returns. */
  function Parsed(fm: FactMap, cols: seq<string>): Dict<Group>
    requires RowsHaveCells(fm)
  {
    FromPairs(GroupPairs(fm, cols))
  }

  method ParseFactmap(factMap: FactMap, columnNames: seq<string>) returns (groupedData: Dict<Group>)
    requires RowsHaveCells(factMap)
    ensures groupedData == Parsed(factMap, columnNames)
  {
    groupedData := [];
    for i := 0 to |factMap|
      invariant RowsHaveCells(factMap[..i])
      invariant groupedData == FromPairs(GroupPairs(factMap[..i], columnNames))
    {
      var (key, section) := factMap[i];
      ParseStep(factMap, columnNames, i);
      var groupName := Grouping(key);
      var aggregates := AggregateValues(AggregatesOf(section));
      var rows := AppendValueRows([], section);
      assert rows == ValueRows(section);
      groupedData := Put(groupedData, groupName, Group(aggregates, rows, columnNames));
    }
    assert factMap[..|factMap|] == factMap;
  }

  /** One pass of the loop assigns the section's group under its name. */
  lemma ParseStep(fm: FactMap, cols: seq<string>, i: nat)
    requires RowsHaveCells(fm) && i < |fm|
    ensures fm[i] in fm && SectionHasCells(fm[i].1)
    ensures RowsHaveCells(fm[..i + 1])
    ensures FromPairs(GroupPairs(fm[..i + 1], cols))
      == Put(FromPairs(GroupPairs(fm[..i], cols)), Grouping(fm[i].0), GroupOf(fm[i].1, cols))
  {
    GroupPairsPrefix(fm, cols, i);
    FromPairsSnoc(GroupPairs(fm[..i], cols), Grouping(fm[i].0), GroupOf(fm[i].1, cols));
  }

  /** One more section adds one more pair. */
  lemma GroupPairsPrefix(fm: FactMap, cols: seq<string>, i: nat)
    requires RowsHaveCells(fm) && i < |fm|
    ensures fm[i] in fm
    ensures RowsHaveCells(fm[..i]) && RowsHaveCells(fm[..i + 1])
    ensures GroupPairs(fm[..i + 1], cols) == GroupPairs(fm[..i], cols) + [(Grouping(fm[i].0), GroupOf(fm[i].1, cols))]
  {
    assert forall e :: e in fm[..i] ==> e in fm;
    assert forall e :: e in fm[..i + 1] ==> e in fm;
  }

  /**
   * A group holds its section's aggregate values in order (0 for a missing
   * value) and one list of cell values per data row (`"-"` for a missing
   * value); a section without `aggregates` or `rows` gives empty lists.
   */
  lemma GroupContents(s: Section, cols: seq<string>)
    requires SectionHasCells(s)
    ensures var g := GroupOf(s, cols);
      && |g.aggregates| == |AggregatesOf(s)|
      && (forall i :: 0 <= i < |g.aggregates| ==>
            g.aggregates[i] == if AggregatesOf(s)[i].value.Some? then AggregatesOf(s)[i].value.value else Int(0))
      && |g.rows| == |RowsOf(s)|
      && (forall j :: 0 <= j < |g.rows| ==> RowsOf(s)[j] in RowsOf(s))
      && (forall j :: 0 <= j < |g.rows| ==>
            && |g.rows[j]| == |RowsOf(s)[j].dataCells.value|
            && forall c :: 0 <= c < |g.rows[j]| ==>
                 g.rows[j][c] == if RowsOf(s)[j].dataCells.value[c].value.Some?
                                 then RowsOf(s)[j].dataCells.value[c].value.value else Str("-"))
      && (s.aggregates.None? ==> g.aggregates == [])
      && (s.rows.None? ==> g.rows == [])
  {
  }

  /**
   * The groups are the distinct stripped keys in first-appearance order, at
   * most one per key and exactly one per key when no stripped keys collide;
   * every group carries `column_names`.
   */
  lemma GroupsShape(fm: FactMap, cols: seq<string>)
    requires RowsHaveCells(fm)
    ensures Keys(Parsed(fm, cols)) == Dedup(GroupNames(fm))
    ensures |Parsed(fm, cols)| <= |fm|
    ensures Distinct(GroupNames(fm)) ==> |Parsed(fm, cols)| == |fm|
    ensures forall name :: Get(Parsed(fm, cols), name).Some? <==> name in GroupNames(fm)
    ensures forall name :: Get(Parsed(fm, cols), name).Some? ==> Get(Parsed(fm, cols), name).value.columns == cols
  {
    var ps := GroupPairs(fm, cols);
    GroupedShape(fm, ps);
    forall name | Get(Parsed(fm, cols), name).Some?
      ensures Get(Parsed(fm, cols), name).value.columns == cols
    {
      var i :| 0 <= i < |ps| && ps[i] == (name, Get(Parsed(fm, cols), name).value);
    }
  }

  /**
   * A stripped key holds the group of the last section filed under it:
   * colliding keys such as `"1"` and `"1!T"` keep only the later section.
   */
  lemma GroupsLastWins(fm: FactMap, cols: seq<string>, i: nat)
    requires RowsHaveCells(fm)
    requires i < |fm|
    requires forall j :: i < j < |fm| ==> Grouping(fm[j].0) != Grouping(fm[i].0)
    ensures fm[i] in fm
    ensures Get(Parsed(fm, cols), Grouping(fm[i].0)) == Some(GroupOf(fm[i].1, cols))
  {
    GroupedLast(fm, GroupPairs(fm, cols), i);
  }
}
