/**
 * Python dictionaries keyed by strings, as the scripts use them: insertion
 * ordered, and assigning to a key that is already present replaces its
 * value where it stands.  A dict comprehension and a loop of `d[k] = v`
 * statements both build `FromPairs` of the pairs in the order they are made.
 */
module OrderedDict {
  import opened JsonValue

  type Dict<V> = seq<(string, V)>

  function Keys<V>(d: Dict<V>): seq<string>
  {
    seq(|d|, i requires 0 <= i < |d| => d[i].0)
  }

  predicate Distinct(ks: seq<string>) {
    forall i, j :: 0 <= i < j < |ks| ==> ks[i] != ks[j]
  }

  predicate DistinctKeys<V>(d: Dict<V>) {
    Distinct(Keys(d))
  }

  /** `d.get(k)` */
  function Get<V>(d: Dict<V>, k: string): (r: Option<V>)
    ensures r.None? <==> k !in Keys(d)
  {
    if d == [] then None
    else if d[0].0 == k then
      assert Keys(d)[0] == k;
      Some(d[0].1)
    else
      var r := Get(d[1..], k);
      assert Keys(d) == [d[0].0] + Keys(d[1..]);
      r
  }

  /** `d[k] = v` */
  function Put<V>(d: Dict<V>, k: string, v: V): (r: Dict<V>)
    ensures Get(r, k) == Some(v)
    ensures forall k' :: k' != k ==> Get(r, k') == Get(d, k')
  {
    if d == [] then [(k, v)]
    else if d[0].0 == k then [(k, v)] + d[1..]
    else
      var rest := Put(d[1..], k, v);
      var r := [d[0]] + rest;
      assert r[1..] == rest;
      r
  }

  /**
   * Assigning to a present key keeps the key order; assigning to a new key
   * appends it.  Keys stay distinct.
   */
  lemma PutKeys<V>(d: Dict<V>, k: string, v: V)
    ensures Get(d, k).Some? ==> Keys(Put(d, k, v)) == Keys(d)
    ensures Get(d, k).None? ==> Keys(Put(d, k, v)) == Keys(d) + [k]
    ensures DistinctKeys(d) ==> DistinctKeys(Put(d, k, v))
  {
    PutKeyOrder(d, k, v);
    if Get(d, k).None? && DistinctKeys(d) {
      var ks := Keys(d) + [k];
      forall i, j | 0 <= i < j < |ks| ensures ks[i] != ks[j] {
        if j == |ks| - 1 { assert ks[i] == Keys(d)[i]; }
        else { assert ks[i] == Keys(d)[i] && ks[j] == Keys(d)[j]; }
      }
    }
  }

  lemma {:induction false} PutKeyOrder<V>(d: Dict<V>, k: string, v: V)
    ensures Get(d, k).Some? ==> Keys(Put(d, k, v)) == Keys(d)
    ensures Get(d, k).None? ==> Keys(Put(d, k, v)) == Keys(d) + [k]
    decreases |d|
  {
    var r := Put(d, k, v);
    if d == [] {
    } else if d[0].0 != k {
      var rest := Put(d[1..], k, v);
      PutKeyOrder(d[1..], k, v);
      assert r == [d[0]] + rest;
      KeysCons(d);
      KeysCons(r);
      assert r[1..] == rest;
      assert Get(d, k) == Get(d[1..], k);
      if Get(d, k).None? {
        assert Keys(r) == [d[0].0] + (Keys(d[1..]) + [k]);
      }
    } else {
      KeysCons(d);
      KeysCons(r);
      assert r[1..] == d[1..];
    }
  }

  lemma KeysCons<V>(d: Dict<V>)
    requires d != []
    ensures Keys(d) == [d[0].0] + Keys(d[1..])
  {
  }

  lemma KeysPrefix<V>(d: Dict<V>, n: nat)
    requires n <= |d|
    ensures Keys(d[..n]) == Keys(d)[..n]
  {
  }

  /** The dict made by assigning the pairs one after another. */
  function FromPairs<V>(ps: seq<(string, V)>): (d: Dict<V>)
    ensures DistinctKeys(d)
    ensures |d| <= |ps|
  {
    if ps == [] then []
    else
      var n := |ps| - 1;
      var prev := FromPairs(ps[..n]);
      PutKeys(prev, ps[n].0, ps[n].1);
      Put(prev, ps[n].0, ps[n].1)
  }

  /** Reference definition: the value of the last pair with key `k`, if any. */
  function LastValue<V>(ps: seq<(string, V)>, k: string): Option<V>
  {
    if ps == [] then None
    else if ps[|ps| - 1].0 == k then Some(ps[|ps| - 1].1)
    else LastValue(ps[..|ps| - 1], k)
  }

  /** Reference definition: the keys of `ks` in order of first appearance. */
  function Dedup(ks: seq<string>): seq<string>
  {
    if ks == [] then []
    else
      var n := |ks| - 1;
      var r := Dedup(ks[..n]);
      if ks[n] in r then r else r + [ks[n]]
  }

  lemma FromPairsSnoc<V>(ps: seq<(string, V)>, k: string, v: V)
    ensures FromPairs(ps + [(k, v)]) == Put(FromPairs(ps), k, v)
  {
    assert (ps + [(k, v)])[..|ps|] == ps;
  }

  /** Looking up a key finds the value that was assigned to it last. */
  lemma {:induction false} FromPairsGet<V>(ps: seq<(string, V)>, k: string)
    ensures Get(FromPairs(ps), k) == LastValue(ps, k)
    decreases |ps|
  {
    if ps != [] {
      FromPairsGet(ps[..|ps| - 1], k);
    }
  }

  /**
   * The keys come out once each, in the order they were first assigned,
   * even when a later assignment replaced the value.
   */
  lemma {:induction false} FromPairsKeys<V>(ps: seq<(string, V)>)
    ensures Keys(FromPairs(ps)) == Dedup(Keys(ps))
    decreases |ps|
  {
    if ps != [] {
      var n := |ps| - 1;
      var ks := Keys(ps);
      var pre := ps[..n];
      var prev := FromPairs(pre);
      var k := ps[n].0;
      KeysPrefix(ps, n);
      FromPairsKeys(pre);
      PutKeyOrder(prev, k, ps[n].1);
      assert ks[n] == k;
      assert FromPairs(ps) == Put(prev, k, ps[n].1);
      assert Dedup(ks) == if k in Dedup(ks[..n]) then Dedup(ks[..n]) else Dedup(ks[..n]) + [k];
      assert Keys(prev) == Dedup(ks[..n]);
    }
  }

  /** With no repeated key nothing is overwritten: one entry per pair. */
  lemma {:induction false} FromPairsDistinct<V>(ps: seq<(string, V)>)
    requires DistinctKeys(ps)
    ensures FromPairs(ps) == ps
    decreases |ps|
  {
    if ps != [] {
      var n := |ps| - 1;
      var pre := ps[..n];
      DistinctLastNew(ps);
      FromPairsDistinct(pre);
      PutAbsent(pre, ps[n].0, ps[n].1);
      assert FromPairs(ps) == Put(FromPairs(pre), ps[n].0, ps[n].1);
      assert pre + [ps[n]] == ps;
    }
  }

  /** Dropping the last pair keeps the keys distinct, and the last key is new. */
  lemma DistinctLastNew<V>(ps: seq<(string, V)>)
    requires DistinctKeys(ps) && ps != []
    ensures DistinctKeys(ps[..|ps| - 1])
    ensures ps[|ps| - 1].0 !in Keys(ps[..|ps| - 1])
  {
    var n := |ps| - 1;
    var ks := Keys(ps);
    var pks := Keys(ps[..n]);
    assert forall i :: 0 <= i < n ==> pks[i] == ks[i];
    assert ks[n] == ps[n].0;
  }

  lemma {:induction false} PutAbsent<V>(d: Dict<V>, k: string, v: V)
    requires k !in Keys(d)
    ensures Put(d, k, v) == d + [(k, v)]
    decreases |d|
  {
    if d != [] {
      KeysCons(d);
      assert d[0].0 != k;
      PutAbsent(d[1..], k, v);
      assert Put(d, k, v) == [d[0]] + Put(d[1..], k, v);
      assert [d[0]] + (d[1..] + [(k, v)]) == d + [(k, v)];
    }
  }

  /** A pair no later pair overrides is the one a lookup finds. */
  lemma {:induction false} LastValueAt<V>(ps: seq<(string, V)>, i: nat)
    requires i < |ps|
    requires forall j :: i < j < |ps| ==> ps[j].0 != ps[i].0
    ensures LastValue(ps, ps[i].0) == Some(ps[i].1)
    decreases |ps|
  {
    if i < |ps| - 1 {
      LastValueAt(ps[..|ps| - 1], i);
    }
  }

  /** A key no pair carries is not found. */
  lemma {:induction false} LastValueAbsent<V>(ps: seq<(string, V)>, k: string)
    requires forall j :: 0 <= j < |ps| ==> ps[j].0 != k
    ensures LastValue(ps, k) == None
    decreases |ps|
  {
    if ps != [] {
      LastValueAbsent(ps[..|ps| - 1], k);
    }
  }

  /** `{names[i]: vals[i] for i in range(len(vals))}` as a list of pairs. */
  function Zip<V>(names: seq<string>, vals: seq<V>): seq<(string, V)>
    requires |vals| <= |names|
  {
    seq(|vals|, i requires 0 <= i < |vals| => (names[i], vals[i]))
  }

  /**
   * The dict built by assigning `vals[i]` to `names[i]` in order has one key
   * per distinct name among the first `|vals|`; name `names[i]` holds
   * `vals[i]` unless a later position reuses the name, in which case the
   * later value wins.  With distinct names the dict is exactly the zip.
   */
  lemma ZipLookup<V>(names: seq<string>, vals: seq<V>)
    requires |vals| <= |names|
    ensures forall k :: Get(FromPairs(Zip(names, vals)), k).Some? <==> k in names[..|vals|]
    ensures forall i :: 0 <= i < |vals| && names[i] !in names[i + 1..|vals|] ==>
      Get(FromPairs(Zip(names, vals)), names[i]) == Some(vals[i])
    ensures Distinct(names[..|vals|]) ==> FromPairs(Zip(names, vals)) == Zip(names, vals)
  {
    var ps := Zip(names, vals);
    var n := |vals|;
    forall k ensures Get(FromPairs(ps), k).Some? <==> k in names[..n] {
      FromPairsGet(ps, k);
      if k in names[..n] {
        var i :| 0 <= i < n && names[..n][i] == k;
        var last := LastIndexOf(ps, i);
        LastValueAt(ps, last);
      } else {
        forall j | 0 <= j < n ensures ps[j].0 != k { assert names[..n][j] == names[j]; }
        LastValueAbsent(ps, k);
      }
    }
    forall i | 0 <= i < n && names[i] !in names[i + 1..n]
      ensures Get(FromPairs(ps), names[i]) == Some(vals[i])
    {
      forall j | i < j < n ensures ps[j].0 != ps[i].0 {
        assert names[i + 1..n][j - i - 1] == names[j];
      }
      FromPairsGet(ps, names[i]);
      LastValueAt(ps, i);
    }
    if Distinct(names[..n]) {
      assert Keys(ps) == names[..n];
      FromPairsDistinct(ps);
    }
  }

  /** The last pair carrying the same key as pair `i`. */
  lemma {:induction false} LastIndexOf<V>(ps: seq<(string, V)>, i: nat) returns (last: nat)
    requires i < |ps|
    ensures i <= last < |ps| && ps[last].0 == ps[i].0
    ensures forall j :: last < j < |ps| ==> ps[j].0 != ps[i].0
    decreases |ps| - i
  {
    last := i;
    var j := i + 1;
    while j < |ps|
      invariant i <= last < j <= |ps| && ps[last].0 == ps[i].0
      invariant forall m :: last < m < j ==> ps[m].0 != ps[i].0
    {
      if ps[j].0 == ps[i].0 { last := j; }
      j := j + 1;
    }
  }

  /** Deduplicating keeps exactly the keys that occur. */
  lemma {:induction false} DedupMembers(ks: seq<string>)
    ensures forall k :: k in Dedup(ks) <==> k in ks
    decreases |ks|
  {
    if ks != [] {
      var n := |ks| - 1;
      DedupMembers(ks[..n]);
      assert ks == ks[..n] + [ks[n]];
    }
  }

  /** A value found under `k` was the value of a pair with key `k`. */
  lemma {:induction false} LastValueFrom<V>(ps: seq<(string, V)>, k: string)
    ensures LastValue(ps, k).Some? ==> (k, LastValue(ps, k).value) in ps
    decreases |ps|
  {
    if ps != [] && ps[|ps| - 1].0 != k {
      var n := |ps| - 1;
      LastValueFrom(ps[..n], k);
      if LastValue(ps, k).Some? {
        assert ps[..n] <= ps;
      }
    }
  }
}
