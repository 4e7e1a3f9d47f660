/**
 * The grouping scripts (factmap/fm2.py, factmap/rpt-factmap.py) file every
 * section under `key.replace("!T", "")` with `grouped_data[name] = …`, so a
 * later section whose key strips to the same name replaces an earlier one
 * in place.  What follows holds for any per-section value.
 */
module Groups {
  import opened Text
  import opened JsonValue
  import opened OrderedDict
  import opened Report

  /** The group name of every key, in fact-map order. */
  function GroupNames(fm: FactMap): seq<string> {
    seq(|fm|, i requires 0 <= i < |fm| => Grouping(fm[i].0))
  }

  /** `ps` pairs each section, in order, with a value under its group name. */
  predicate NamedByGrouping<V>(fm: FactMap, ps: seq<(string, V)>) {
    |ps| == |fm| && forall i :: 0 <= i < |fm| ==> ps[i].0 == Grouping(fm[i].0)
  }

  /**
   * The groups are the distinct group names in order of first appearance,
   * so there are at most as many groups as keys, and exactly one group per
   * key when no two keys strip to the same name.  A name is present exactly
   * when some key strips to it, and what it holds is one of the values
   * made for it.
   */
  lemma GroupedShape<V>(fm: FactMap, ps: seq<(string, V)>)
    requires NamedByGrouping(fm, ps)
    ensures Keys(FromPairs(ps)) == Dedup(GroupNames(fm))
    ensures |FromPairs(ps)| <= |fm|
    ensures Distinct(GroupNames(fm)) ==> FromPairs(ps) == ps && |FromPairs(ps)| == |fm|
    ensures forall name :: Get(FromPairs(ps), name).Some? <==> name in GroupNames(fm)
    ensures forall name :: Get(FromPairs(ps), name).Some? ==> (name, Get(FromPairs(ps), name).value) in ps
  {
    assert Keys(ps) == GroupNames(fm);
    FromPairsKeys(ps);
    DedupMembers(GroupNames(fm));
    if Distinct(GroupNames(fm)) {
      FromPairsDistinct(ps);
    }
    forall name ensures Get(FromPairs(ps), name).Some? ==> (name, Get(FromPairs(ps), name).value) in ps {
      FromPairsGet(ps, name);
      LastValueFrom(ps, name);
    }
  }

  /**
   * Looking up the group name of key `i`, when no later key strips to the
   * same name, finds the value made from section `i`.
   */
  lemma GroupedLast<V>(fm: FactMap, ps: seq<(string, V)>, i: nat)
    requires NamedByGrouping(fm, ps)
    requires i < |fm|
    requires forall j :: i < j < |fm| ==> Grouping(fm[j].0) != Grouping(fm[i].0)
    ensures Get(FromPairs(ps), Grouping(fm[i].0)) == Some(ps[i].1)
  {
    FromPairsGet(ps, Grouping(fm[i].0));
    LastValueAt(ps, i);
  }

  /** Keys `"1"` and `"1!T"` collide: both go to group `"1"`. */
  lemma CollidingKeys()
    ensures Grouping("1") == "1" && Grouping("1!T") == "1"
  {
    assert !IsPrefix("!T", "1");
    assert RemoveAll("", "!T") == "";
    assert RemoveAll("1", "!T") == "1" + RemoveAll("", "!T");
    TotalSuffixRemoved("1");
    assert "1!T" == "1" + "!T";
  }
}
