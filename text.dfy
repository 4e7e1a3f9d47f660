/**
 * The handful of Python `str` operations the report scripts rely on, written
 * out over `seq<char>`: `in`, `endswith`, `replace(pat, "")`, `split`,
 * `join`, `strip(c)` and `str()` of an integer, together with the string
 * order that `sorted` uses.
 */
module Text {

  /** `s.startswith(p)` */
  predicate IsPrefix(p: string, s: string) {
    |p| <= |s| && s[..|p|] == p
  }

  /** `pat in s` (true for the empty pattern, as in Python) */
  predicate Contains(s: string, pat: string)
    decreases |s|
  {
    IsPrefix(pat, s) || (|s| > 0 && Contains(s[1..], pat))
  }

  /** `s.endswith(suffix)` */
  predicate EndsWith(s: string, suffix: string) {
    |suffix| <= |s| && s[|s| - |suffix|..] == suffix
  }

  lemma {:induction false} ContainsChar(s: string, c: char)
    ensures Contains(s, [c]) <==> c in s
  {
    if |s| > 0 {
      ContainsChar(s[1..], c);
      assert s == [s[0]] + s[1..];
    }
  }

  lemma {:induction false} EndsWithContains(s: string, suffix: string)
    requires EndsWith(s, suffix)
    ensures Contains(s, suffix)
    decreases |s|
  {
    if !IsPrefix(suffix, s) {
      assert |s| > |suffix|;
      assert s[1..][|s[1..]| - |suffix|..] == s[|s| - |suffix|..];
      EndsWithContains(s[1..], suffix);
    }
  }

  // ---------------------------------------------------------------------
  // s.replace(pat, "")

  /**
   * Python's `s.replace(pat, "")`: scans left to right and drops every
   * non-overlapping occurrence of `pat`.
   */
  function RemoveAll(s: string, pat: string): (r: string)
    requires |pat| > 0
    ensures |r| <= |s|
    decreases |s|
  {
    if IsPrefix(pat, s) then RemoveAll(s[|pat|..], pat)
    else if s == [] then []
    else [s[0]] + RemoveAll(s[1..], pat)
  }

  /** Removing a pattern changes the string exactly when the pattern occurs. */
  lemma {:induction false} RemoveAllUnchanged(s: string, pat: string)
    requires |pat| > 0
    ensures RemoveAll(s, pat) == s <==> !Contains(s, pat)
    ensures Contains(s, pat) ==> |RemoveAll(s, pat)| <= |s| - |pat|
    decreases |s|
  {
    if IsPrefix(pat, s) {
      assert |RemoveAll(s, pat)| <= |s| - |pat|;
    } else if s != [] {
      RemoveAllUnchanged(s[1..], pat);
      assert s == [s[0]] + s[1..];
    }
  }

  /**
   * Removing `"!T"` distributes over a concatenation unless the seam itself
   * reads `"!T"`.
   */
  lemma {:induction false} RemoveTotalAppend(a: string, b: string)
    requires !(|a| > 0 && |b| > 0 && a[|a| - 1] == '!' && b[0] == 'T')
    ensures RemoveAll(a + b, "!T") == RemoveAll(a, "!T") + RemoveAll(b, "!T")
    decreases |a|, 1
  {
    if a == [] {
      assert a + b == b;
    } else if |a| == 1 {
      RemoveTotalAppendChar(a, b);
    } else if IsPrefix("!T", a) {
      RemoveTotalPrefixStep(a, b);
    } else {
      RemoveTotalCharStep(a, b);
    }
  }

  lemma RemoveTotalAppendChar(a: string, b: string)
    requires |a| == 1 && !(|b| > 0 && a[0] == '!' && b[0] == 'T')
    ensures RemoveAll(a + b, "!T") == a + RemoveAll(b, "!T")
    ensures RemoveAll(a, "!T") == a
  {
    var s := a + b;
    assert !IsPrefix("!T", s) by {
      if |s| >= 2 { assert s[..2] == [a[0], b[0]]; }
    }
    assert s[0] == a[0] && s[1..] == b;
    assert a[1..] == [] && a == [a[0]];
  }

  lemma {:induction false} RemoveTotalPrefixStep(a: string, b: string)
    requires IsPrefix("!T", a)
    requires !(|b| > 0 && a[|a| - 1] == '!' && b[0] == 'T')
    ensures RemoveAll(a + b, "!T") == RemoveAll(a, "!T") + RemoveAll(b, "!T")
    decreases |a|, 0
  {
    var s := a + b;
    var t := a[2..];
    assert s[..2] == a[..2];
    assert s[2..] == t + b;
    assert RemoveAll(s, "!T") == RemoveAll(t + b, "!T");
    assert RemoveAll(a, "!T") == RemoveAll(t, "!T");
    assert t == [] || t[|t| - 1] == a[|a| - 1];
    RemoveTotalAppend(t, b);
  }

  lemma {:induction false} RemoveTotalCharStep(a: string, b: string)
    requires |a| >= 2 && !IsPrefix("!T", a)
    requires !(|b| > 0 && a[|a| - 1] == '!' && b[0] == 'T')
    ensures RemoveAll(a + b, "!T") == RemoveAll(a, "!T") + RemoveAll(b, "!T")
    decreases |a|, 0
  {
    var s := a + b;
    var t := a[1..];
    assert s[..2] == a[..2];
    assert s[0] == a[0] && s[1..] == t + b;
    assert RemoveAll(s, "!T") == [a[0]] + RemoveAll(t + b, "!T");
    assert RemoveAll(a, "!T") == [a[0]] + RemoveAll(t, "!T");
    assert t[|t| - 1] == a[|a| - 1];
    RemoveTotalAppend(t, b);
  }

  /** `(k + "!T").replace("!T", "") == k.replace("!T", "")` */
  lemma TotalSuffixRemoved(k: string)
    ensures RemoveAll(k + "!T", "!T") == RemoveAll(k, "!T")
  {
    RemoveTotalAppend(k, "!T");
    assert IsPrefix("!T", "!T");
    assert "!T"[2..] == [];
  }

  /**
   * One pass of `replace` can create a new occurrence: `"!!TT"` becomes
   * `"!T"`, so a stripped key may still contain `"!T"`.
   */
  lemma RemoveAllNotIdempotent()
    ensures RemoveAll("!!TT", "!T") == "!T"
    ensures Contains(RemoveAll("!!TT", "!T"), "!T")
  {
    var s := "!!TT";
    assert !IsPrefix("!T", s) by { assert s[..2] == "!!"; }
    assert s[1..] == "!TT";
    assert IsPrefix("!T", "!TT") by { assert "!TT"[..2] == "!T"; }
    assert "!TT"[2..] == "T";
    assert !IsPrefix("!T", "T");
    assert "T"[1..] == [];
    assert RemoveAll("T", "!T") == "T";
    assert RemoveAll(s, "!T") == "!T";
    assert IsPrefix("!T", "!T");
  }

  // ---------------------------------------------------------------------
  // sep.join(parts) and s.split(sep)

  /** `sep.join(parts)` */
  function Join(parts: seq<string>, sep: string): string
  {
    if |parts| == 0 then ""
    else if |parts| == 1 then parts[0]
    else parts[0] + sep + Join(parts[1..], sep)
  }

  lemma {:induction false} JoinSnoc(parts: seq<string>, x: string, sep: string)
    requires |parts| > 0
    ensures Join(parts + [x], sep) == Join(parts, sep) + sep + x
    decreases |parts|
  {
    if |parts| == 1 {
      assert (parts + [x])[1..] == [x];
    } else {
      assert (parts + [x])[1..] == parts[1..] + [x];
      JoinSnoc(parts[1..], x, sep);
    }
  }

  /**
   * Python's `s.split(sep)` for a non-empty separator: the pieces between the
   * non-overlapping occurrences of `sep`, found left to right.
   */
  function SplitOn(s: string, sep: string): (parts: seq<string>)
    requires |sep| > 0
    ensures |parts| >= 1
    decreases |s|
  {
    if IsPrefix(sep, s) then [""] + SplitOn(s[|sep|..], sep)
    else if s == [] then [""]
    else
      var rest := SplitOn(s[1..], sep);
      [[s[0]] + rest[0]] + rest[1..]
  }

  /** Joining the pieces of a split gives back the string. */
  lemma {:induction false} JoinSplit(s: string, sep: string)
    requires |sep| > 0
    ensures Join(SplitOn(s, sep), sep) == s
    decreases |s|
  {
    if IsPrefix(sep, s) {
      var tail := s[|sep|..];
      JoinSplit(tail, sep);
      JoinCons("", SplitOn(tail, sep), sep);
      assert s == sep + tail;
    } else if s != [] {
      var tail := s[1..];
      JoinSplit(tail, sep);
      JoinExtendHead(s[0], SplitOn(tail, sep), sep);
      assert s == [s[0]] + tail;
    }
  }

  lemma JoinCons(p: string, rest: seq<string>, sep: string)
    requires |rest| > 0
    ensures Join([p] + rest, sep) == p + sep + Join(rest, sep)
  {
    assert ([p] + rest)[1..] == rest;
  }

  /** Putting a character in front of the first piece puts it in front of the join. */
  lemma JoinExtendHead(c: char, rest: seq<string>, sep: string)
    requires |rest| > 0
    ensures Join([[c] + rest[0]] + rest[1..], sep) == [c] + Join(rest, sep)
  {
    if |rest| > 1 {
      JoinCons([c] + rest[0], rest[1..], sep);
      JoinCons(rest[0], rest[1..], sep);
      assert [rest[0]] + rest[1..] == rest;
    }
  }

  /** No piece of a split contains the separator. */
  lemma {:induction false} SplitPiecesClean(s: string, sep: string)
    requires |sep| > 0
    ensures forall i :: 0 <= i < |SplitOn(s, sep)| ==> !Contains(SplitOn(s, sep)[i], sep)
    decreases |s|
  {
    var parts := SplitOn(s, sep);
    if IsPrefix(sep, s) {
      SplitPiecesClean(s[|sep|..], sep);
      assert !Contains("", sep);
      forall i | 0 <= i < |parts| ensures !Contains(parts[i], sep) {
        if i > 0 { assert parts[i] == SplitOn(s[|sep|..], sep)[i - 1]; }
      }
    } else if s != [] {
      var rest := SplitOn(s[1..], sep);
      SplitPiecesClean(s[1..], sep);
      FirstPieceIsPrefix(s[1..], sep);
      var first := [s[0]] + rest[0];
      assert !Contains(first, sep) by {
        assert first[1..] == rest[0];
      }
      forall i | 0 <= i < |parts| ensures !Contains(parts[i], sep) {
        if i > 0 { assert parts[i] == rest[i]; }
      }
    }
  }

  /** The first piece of a split is where the string starts. */
  lemma {:induction false} FirstPieceIsPrefix(s: string, sep: string)
    requires |sep| > 0
    ensures IsPrefix(SplitOn(s, sep)[0], s)
  {
    JoinSplit(s, sep);
    var parts := SplitOn(s, sep);
    if |parts| > 1 {
      assert Join(parts, sep) == parts[0] + sep + Join(parts[1..], sep);
    }
  }

  /** A split yields more than one piece exactly when the separator occurs. */
  lemma {:induction false} SplitSingle(s: string, sep: string)
    requires |sep| > 0
    ensures |SplitOn(s, sep)| == 1 <==> !Contains(s, sep)
  {
    JoinSplit(s, sep);
    SplitPiecesClean(s, sep);
    var parts := SplitOn(s, sep);
    if |parts| > 1 {
      var tail := Join(parts[1..], sep);
      assert s == parts[0] + (sep + tail);
      ContainsInfix(parts[0], sep, tail);
    }
  }

  lemma {:induction false} ContainsInfix(a: string, pat: string, b: string)
    ensures Contains(a + (pat + b), pat)
    decreases |a|
  {
    if a == [] {
      assert a + (pat + b) == pat + b;
      assert (pat + b)[..|pat|] == pat;
    } else {
      assert (a + (pat + b))[1..] == a[1..] + (pat + b);
      ContainsInfix(a[1..], pat, b);
    }
  }

  /** Splitting on a character: a piece free of it is cut off whole. */
  lemma {:induction false} SplitCharHead(a: string, c: char, rest: string)
    requires c !in a
    ensures SplitOn(a + [c] + rest, [c]) == [a] + SplitOn(rest, [c])
    decreases |a|
  {
    var s := a + [c] + rest;
    if a == [] {
      assert s == [c] + rest;
      assert IsPrefix([c], s);
      assert s[1..] == rest;
    } else {
      assert s[0] == a[0];
      assert !IsPrefix([c], s);
      assert s[1..] == a[1..] + [c] + rest;
      SplitCharHead(a[1..], c, rest);
      assert [a[0]] + a[1..] == a;
    }
  }

  /** Splitting a string free of the character gives the string alone. */
  lemma {:induction false} SplitCharNone(a: string, c: char)
    requires c !in a
    ensures SplitOn(a, [c]) == [a]
    decreases |a|
  {
    if a != [] {
      assert a[0] in a;
      assert !IsPrefix([c], a);
      SplitCharNone(a[1..], c);
      assert [a[0]] + a[1..] == a;
    } else {
      assert !IsPrefix([c], a);
    }
  }

  // ---------------------------------------------------------------------
  // s.strip(c)

  function Repeat(c: char, n: nat): (r: string)
    ensures |r| == n && forall i :: 0 <= i < n ==> r[i] == c
  {
    if n == 0 then [] else [c] + Repeat(c, n - 1)
  }

  /** `s.lstrip(c)` */
  function TrimStart(s: string, c: char): (r: string)
    ensures |r| <= |s| && s == Repeat(c, |s| - |r|) + r
    ensures r == [] || r[0] != c
    decreases |s|
  {
    if |s| > 0 && s[0] == c then
      var r := TrimStart(s[1..], c);
      assert Repeat(c, |s| - |r|) == [c] + Repeat(c, |s| - 1 - |r|);
      assert s == [c] + (Repeat(c, |s| - 1 - |r|) + r);
      r
    else
      assert Repeat(c, 0) + s == s;
      s
  }

  /** `s.rstrip(c)` */
  function TrimEnd(s: string, c: char): (r: string)
    ensures |r| <= |s| && s == r + Repeat(c, |s| - |r|)
    ensures r == [] || r[|r| - 1] != c
    decreases |s|
  {
    if |s| > 0 && s[|s| - 1] == c then
      var r := TrimEnd(s[..|s| - 1], c);
      RepeatSnoc(c, |s| - 1 - |r|);
      assert s == s[..|s| - 1] + [c];
      r
    else
      assert s + Repeat(c, 0) == s;
      s
  }

  lemma {:induction false} RepeatSnoc(c: char, n: nat)
    ensures Repeat(c, n) + [c] == Repeat(c, n + 1)
  {
    var a, b := Repeat(c, n) + [c], Repeat(c, n + 1);
    assert |a| == |b| && forall i :: 0 <= i < |a| ==> a[i] == b[i];
  }

  /**
   * `s.strip(c)`: every leading and every trailing `c` removed, whatever
   * their number; what is left neither starts nor ends with `c`.
   */
  function Strip(s: string, c: char): (r: string)
    ensures r == [] || (r[0] != c && r[|r| - 1] != c)
    ensures exists i: nat, j: nat :: s == Repeat(c, i) + r + Repeat(c, j)
  {
    var t := TrimStart(s, c);
    var r := TrimEnd(t, c);
    assert s == Repeat(c, |s| - |t|) + r + Repeat(c, |t| - |r|);
    r
  }

  // ---------------------------------------------------------------------
  // str(n) for an integer

  function DigitChar(d: nat): char
    requires d < 10
  {
    "0123456789"[d]
  }

  /** `str(n)` for a natural number: decimal digits without leading zeros. */
  function Decimal(n: nat): (r: string)
    ensures |r| > 0 && (|r| > 1 ==> r[0] != '0')
    ensures forall i :: 0 <= i < |r| ==> '0' <= r[i] <= '9'
  {
    if n < 10 then [DigitChar(n)] else Decimal(n / 10) + [DigitChar(n % 10)]
  }

  /** Reads a string of decimal digits back as a number (reference definition). */
  function ParseDecimal(s: string): nat
    requires forall i :: 0 <= i < |s| ==> '0' <= s[i] <= '9'
  {
    if s == [] then 0
    else ParseDecimal(s[..|s| - 1]) * 10 + ((s[|s| - 1] as int) - ('0' as int))
  }

  lemma {:induction false} DecimalRoundTrip(n: nat)
    ensures ParseDecimal(Decimal(n)) == n
  {
    if n >= 10 {
      DecimalRoundTrip(n / 10);
      var s := Decimal(n);
      assert s[..|s| - 1] == Decimal(n / 10);
    }
  }

  lemma DecimalInjective(m: nat, n: nat)
    requires Decimal(m) == Decimal(n)
    ensures m == n
  {
    DecimalRoundTrip(m);
    DecimalRoundTrip(n);
  }

  /** `str(i)` for any integer, including the minus sign. */
  function IntToString(i: int): (r: string)
    ensures |r| > 0
    ensures (r[0] == '-') <==> i < 0
  {
    if i < 0 then "-" + Decimal(-i) else Decimal(i)
  }

  // ---------------------------------------------------------------------
  // string order, as used by `sorted`

  /** `a < b` for Python strings: lexicographic on code points. */
  predicate Less(a: string, b: string)
    decreases |a|
  {
    |b| > 0 && (|a| == 0 || a[0] < b[0] || (a[0] == b[0] && Less(a[1..], b[1..])))
  }

  lemma {:induction false} LessIrreflexive(a: string)
    ensures !Less(a, a)
    decreases |a|
  {
    if |a| > 0 { LessIrreflexive(a[1..]); }
  }

  lemma {:induction false} LessTotal(a: string, b: string)
    ensures a == b || Less(a, b) || Less(b, a)
    decreases |a|
  {
    if |a| > 0 && |b| > 0 && a[0] == b[0] {
      LessTotal(a[1..], b[1..]);
      if a[1..] == b[1..] {
        assert a == [a[0]] + a[1..] && b == [b[0]] + b[1..];
      }
    }
  }

  lemma {:induction false} LessAsymmetric(a: string, b: string)
    ensures !(Less(a, b) && Less(b, a))
    decreases |a|
  {
    if |a| > 0 && |b| > 0 && a[0] == b[0] { LessAsymmetric(a[1..], b[1..]); }
  }

  lemma {:induction false} LessTransitive(a: string, b: string, c: string)
    requires Less(a, b) && Less(b, c)
    ensures Less(a, c)
    decreases |a|
  {
    if |a| > 0 && a[0] == b[0] && b[0] == c[0] {
      LessTransitive(a[1..], b[1..], c[1..]);
    }
  }

  /** Strings that share a prefix compare as what follows it. */
  lemma {:induction false} LessCommonPrefix(p: string, a: string, b: string)
    requires Less(a, b)
    ensures Less(p + a, p + b)
    decreases |p|
  {
    if |p| > 0 {
      assert (p + a)[0] == p[0] == (p + b)[0];
      assert |p + b| > 0;
      assert (p + a)[1..] == p[1..] + a && (p + b)[1..] == p[1..] + b;
      LessCommonPrefix(p[1..], a, b);
    } else {
      assert p + a == a && p + b == b;
    }
  }
}
