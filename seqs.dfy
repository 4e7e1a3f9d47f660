/**
 * Sequence shapes shared by the parsers: concatenating per-section row lists
 * (nested `for` loops that `append`) and keeping the entries a test selects.
 */
module Seqs {

  /** The rows of every group, one group after another. */
  function Flatten<T>(xss: seq<seq<T>>): seq<T>
  {
    if xss == [] then [] else Flatten(xss[..|xss| - 1]) + xss[|xss| - 1]
  }

  /** Reference count: the group sizes added up from the front. */
  function SumLengths<T>(xss: seq<seq<T>>): nat
  {
    if xss == [] then 0 else |xss[0]| + SumLengths(xss[1..])
  }

  lemma {:induction false} SumLengthsSnoc<T>(xss: seq<seq<T>>, xs: seq<T>)
    ensures SumLengths(xss + [xs]) == SumLengths(xss) + |xs|
    decreases |xss|
  {
    if xss == [] {
      assert (xss + [xs])[1..] == [];
    } else {
      assert (xss + [xs])[1..] == xss[1..] + [xs];
      SumLengthsSnoc(xss[1..], xs);
    }
  }

  lemma {:induction false} FlattenLength<T>(xss: seq<seq<T>>)
    ensures |Flatten(xss)| == SumLengths(xss)
    decreases |xss|
  {
    if xss != [] {
      var n := |xss| - 1;
      FlattenLength(xss[..n]);
      SumLengthsSnoc(xss[..n], xss[n]);
      assert xss[..n] + [xss[n]] == xss;
    }
  }

  lemma FlattenSnoc<T>(xss: seq<seq<T>>, xs: seq<T>)
    ensures Flatten(xss + [xs]) == Flatten(xss) + xs
  {
    assert (xss + [xs])[..|xss|] == xss;
  }

  /**
   * Element `j` of group `s` sits right after all elements of the groups
   * before `s`: groups in order, and within each group its own order.
   */
  lemma {:induction false} FlattenAt<T>(xss: seq<seq<T>>, s: nat, j: nat)
    requires s < |xss| && j < |xss[s]|
    ensures |Flatten(xss[..s])| + j < |Flatten(xss)|
    ensures Flatten(xss)[|Flatten(xss[..s])| + j] == xss[s][j]
    decreases |xss|
  {
    var n := |xss| - 1;
    if s < n {
      FlattenAt(xss[..n], s, j);
      assert xss[..n][..s] == xss[..s];
    } else {
      assert xss[..n] == xss[..s];
    }
  }

  /** Flattening commutes with taking a prefix of the groups. */
  lemma FlattenPrefix<T>(xss: seq<seq<T>>, i: nat)
    requires i < |xss|
    ensures Flatten(xss[..i + 1]) == Flatten(xss[..i]) + xss[i]
  {
    assert xss[..i + 1][..i] == xss[..i];
  }

  /** The entries of `s` that satisfy `p`, in their order. */
  function Filter<T>(s: seq<T>, p: T -> bool): (r: seq<T>)
    ensures |r| <= |s|
  {
    if s == [] then []
    else Filter(s[..|s| - 1], p) + (if p(s[|s| - 1]) then [s[|s| - 1]] else [])
  }

  lemma FilterSnoc<T>(s: seq<T>, x: T, p: T -> bool)
    ensures Filter(s + [x], p) == Filter(s, p) + (if p(x) then [x] else [])
  {
    assert (s + [x])[..|s|] == s;
  }

  /** Exactly the entries of `s` that satisfy `p` are kept. */
  lemma {:induction false} FilterMembers<T>(s: seq<T>, p: T -> bool)
    ensures forall x :: x in Filter(s, p) <==> x in s && p(x)
    decreases |s|
  {
    if s != [] {
      var n := |s| - 1;
      FilterMembers(s[..n], p);
      assert s == s[..n] + [s[n]];
      forall x ensures x in s <==> x in s[..n] || x == s[n] {
        if x in s {
          var k :| 0 <= k < |s| && s[k] == x;
          if k < n { assert s[..n][k] == x; }
        }
      }
    }
  }

  /** Each kept entry comes from `s` and passes the test. */
  lemma FilterAt<T>(s: seq<T>, p: T -> bool, i: nat)
    requires i < |Filter(s, p)|
    ensures Filter(s, p)[i] in s && p(Filter(s, p)[i])
  {
    FilterMembers(s, p);
    assert Filter(s, p)[i] in Filter(s, p);
  }

  /**
   * Splitting by a test and by its negation partitions the entries: every
   * entry lands in exactly one of the two.
   */
  lemma {:induction false} FilterPartition<T>(s: seq<T>, p: T -> bool, q: T -> bool)
    requires forall x :: q(x) == !p(x)
    ensures |Filter(s, p)| + |Filter(s, q)| == |s|
    decreases |s|
  {
    if s != [] {
      FilterPartition(s[..|s| - 1], p, q);
    }
  }
}
