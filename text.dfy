/** The three Python builtins the core relies on, on strings:
    `sep.join(parts)`, `sorted(...)` of a list of `str`, and `str(n)` of a
    non-negative integer. Each comes with an independent partner
    (splitting, a uniqueness theorem for sorting, decimal parsing). */
module Text {

  /* ---------------- sep.join(parts) ---------------- */

  /** Python's `sep.join(parts)`: the parts with `sep` between neighbours. */
  function Join(sep: string, parts: seq<string>): (r: string)
    ensures |parts| == 0 ==> r == ""
    ensures |parts| > 0 ==> |r| == TotalLength(parts) + |sep| * (|parts| - 1)
    decreases |parts|
  {
    if |parts| == 0 then ""
    else if |parts| == 1 then parts[0]
    else
      var rest := Join(sep, parts[1..]);
      assert |sep| * (|parts| - 1) == |sep| + |sep| * (|parts| - 2);
      parts[0] + sep + rest
  }

  /** The summed length of the parts. */
  function TotalLength(parts: seq<string>): nat
    decreases |parts|
  {
    if |parts| == 0 then 0 else |parts[0]| + TotalLength(parts[1..])
  }

  /** Python's `s.split(d)` for a one-character delimiter: never empty;
      `"".split(d) == [""]`. */
  function Split(s: string, d: char): (r: seq<string>)
    ensures |r| > 0
    decreases |s|
  {
    if |s| == 0 then [""]
    else
      var rest := Split(s[1..], d);
      if s[0] == d then [""] + rest
      else [[s[0]] + rest[0]] + rest[1..]
  }

  /** Splitting a string that starts with a delimiter-free piece `a`
      glues `a` onto the first field. */
  lemma {:induction false} SplitPrefix(a: string, t: string, d: char)
    requires d !in a
    ensures Split(a + t, d) == [a + Split(t, d)[0]] + Split(t, d)[1..]
    decreases |a|
  {
    if |a| > 0 {
      assert (a + t)[1..] == a[1..] + t;
      assert (a + t)[0] == a[0];
      SplitPrefix(a[1..], t, d);
      assert [a[0]] + (a[1..] + Split(t, d)[0]) == a + Split(t, d)[0];
    } else {
      var r := Split(t, d);
      assert a + t == t;
      assert a + r[0] == r[0];
      assert r == [r[0]] + r[1..];
    }
  }

  /** `Split` undoes `Join` when no part contains the delimiter and there
      is at least one part. */
  lemma {:induction false} SplitJoin(parts: seq<string>, d: char)
    requires |parts| > 0
    requires forall k :: 0 <= k < |parts| ==> d !in parts[k]
    ensures Split(Join([d], parts), d) == parts
    decreases |parts|
  {
    if |parts| == 1 {
      SplitPrefix(parts[0], "", d);
      assert parts[0] + "" == parts[0];
    } else {
      var rest := Join([d], parts[1..]);
      assert Join([d], parts) == parts[0] + ([d] + rest);
      SplitPrefix(parts[0], [d] + rest, d);
      assert ([d] + rest)[1..] == rest;
      SplitJoin(parts[1..], d);
      assert Split([d] + rest, d) == [""] + parts[1..];
      assert parts[0] + "" == parts[0];
      assert parts == [parts[0]] + parts[1..];
    }
  }

  /* ---------------- sorted() on str ---------------- */

  /** Python's `a <= b` on `str`: lexicographic by code point, a proper
      prefix coming first. */
  predicate LexLeq(a: string, b: string)
    decreases |a|
  {
    |a| == 0 || (|b| > 0 && (a[0] < b[0] || (a[0] == b[0] && LexLeq(a[1..], b[1..]))))
  }

  lemma {:induction false} LexLeqTotal(a: string, b: string)
    ensures LexLeq(a, b) || LexLeq(b, a)
    decreases |a|
  {
    if |a| > 0 && |b| > 0 && a[0] == b[0] {
      LexLeqTotal(a[1..], b[1..]);
    }
  }

  lemma {:induction false} LexLeqAntisymmetric(a: string, b: string)
    requires LexLeq(a, b) && LexLeq(b, a)
    ensures a == b
    decreases |a|
  {
    if |a| > 0 {
      LexLeqAntisymmetric(a[1..], b[1..]);
      assert a == [a[0]] + a[1..] && b == [b[0]] + b[1..];
    }
  }

  lemma {:induction false} LexLeqReflexive(a: string)
    ensures LexLeq(a, a)
    decreases |a|
  {
    if |a| > 0 {
      LexLeqReflexive(a[1..]);
    }
  }

  lemma {:induction false} LexLeqTransitive(a: string, b: string, c: string)
    requires LexLeq(a, b) && LexLeq(b, c)
    ensures LexLeq(a, c)
    decreases |a|
  {
    if |a| > 0 && a[0] == b[0] && b[0] == c[0] {
      LexLeqTransitive(a[1..], b[1..], c[1..]);
    }
  }

  predicate SortedLex(s: seq<string>)
  {
    forall i, j :: 0 <= i < j < |s| ==> LexLeq(s[i], s[j])
  }

  lemma SortedTail(s: seq<string>)
    requires SortedLex(s) && |s| > 0
    ensures SortedLex(s[1..])
  {
    forall i, j | 0 <= i < j < |s| - 1 ensures LexLeq(s[1..][i], s[1..][j]) {
      assert s[1..][i] == s[i + 1] && s[1..][j] == s[j + 1];
    }
  }

  lemma SortedCons(h: string, t: seq<string>)
    requires SortedLex(t)
    requires forall j :: 0 <= j < |t| ==> LexLeq(h, t[j])
    ensures SortedLex([h] + t)
  {
    var r := [h] + t;
    forall i, j | 0 <= i < j < |r| ensures LexLeq(r[i], r[j]) {
      assert r[j] == t[j - 1];
      if i > 0 {
        assert r[i] == t[i - 1];
      }
    }
  }

  /** Inserts `x` before the first element it does not follow. */
  function InsertLex(x: string, s: seq<string>): (r: seq<string>)
    ensures |r| == |s| + 1
    decreases |s|
  {
    if |s| == 0 || LexLeq(x, s[0]) then [x] + s
    else [s[0]] + InsertLex(x, s[1..])
  }

  /** Inserting adds exactly one copy of `x`. */
  lemma {:induction false} InsertLexCounts(x: string, s: seq<string>)
    ensures multiset(InsertLex(x, s)) == multiset(s) + multiset{x}
    decreases |s|
  {
    if |s| > 0 && !LexLeq(x, s[0]) {
      InsertLexCounts(x, s[1..]);
      assert s == [s[0]] + s[1..];
    }
  }

  /** Inserting into a sorted list keeps it sorted. */
  lemma {:induction false} InsertLexSorts(x: string, s: seq<string>)
    requires SortedLex(s)
    ensures SortedLex(InsertLex(x, s))
    decreases |s|
  {
    if |s| == 0 {
    } else if LexLeq(x, s[0]) {
      forall j | 0 <= j < |s| ensures LexLeq(x, s[j]) {
        if j > 0 { LexLeqTransitive(x, s[0], s[j]); }
      }
      SortedCons(x, s);
    } else {
      SortedTail(s);
      InsertLexSorts(x, s[1..]);
      InsertLexCounts(x, s[1..]);
      var tail := InsertLex(x, s[1..]);
      LexLeqTotal(x, s[0]);
      forall j | 0 <= j < |tail| ensures LexLeq(s[0], tail[j]) {
        assert tail[j] in multiset(tail);
        if tail[j] != x {
          assert tail[j] in multiset(s[1..]);
          var k :| 0 <= k < |s[1..]| && s[1..][k] == tail[j];
          assert s[k + 1] == tail[j];
        }
      }
      SortedCons(s[0], tail);
    }
  }

  /** Python's `sorted(...)` on a list of `str`, as an insertion sort. */
  function SortStrings(s: seq<string>): (r: seq<string>)
    ensures |r| == |s|
    decreases |s|
  {
    if |s| == 0 then [] else InsertLex(s[0], SortStrings(s[1..]))
  }

  /** `SortStrings` returns a permutation of its input in lexicographic
      order. */
  lemma {:induction false} SortStringsSorts(s: seq<string>)
    ensures SortedLex(SortStrings(s))
    ensures multiset(SortStrings(s)) == multiset(s)
    decreases |s|
  {
    if |s| > 0 {
      SortStringsSorts(s[1..]);
      InsertLexSorts(s[0], SortStrings(s[1..]));
      InsertLexCounts(s[0], SortStrings(s[1..]));
      assert s == [s[0]] + s[1..];
    }
  }

  /** The head of a sorted list is below every element of the list. */
  lemma SortedHeadLeq(s: seq<string>, x: string)
    requires SortedLex(s) && x in multiset(s)
    ensures LexLeq(s[0], x)
  {
    var i :| 0 <= i < |s| && s[i] == x;
    if i == 0 {
      LexLeqReflexive(x);
    }
  }

  lemma TailMultiset(s: seq<string>)
    requires |s| > 0
    ensures multiset(s[1..]) == multiset(s) - multiset{s[0]}
  {
    assert s == [s[0]] + s[1..];
  }

  /** Two sorted arrangements of the same non-empty strings start alike. */
  lemma SortedHeadsEqual(a: seq<string>, b: seq<string>)
    requires SortedLex(a) && SortedLex(b)
    requires multiset(a) == multiset(b) && |a| > 0
    ensures |b| > 0 && a[0] == b[0]
  {
    assert a[0] in multiset(a);
    assert |b| > 0 by { assert |multiset(b)| > 0; }
    assert b[0] in multiset(b);
    SortedHeadLeq(a, b[0]);
    SortedHeadLeq(b, a[0]);
    LexLeqAntisymmetric(a[0], b[0]);
  }

  lemma ConsEqual(a: seq<string>, b: seq<string>)
    requires |a| > 0 && |b| > 0 && a[0] == b[0] && a[1..] == b[1..]
    ensures a == b
  {
    assert a == [a[0]] + a[1..] && b == [b[0]] + b[1..];
  }

  /** Any two sorted arrangements of the same strings are equal, so
      `SortStrings` returns what Python's `sorted` returns, whatever
      algorithm either uses. */
  lemma {:induction false} SortedUnique(a: seq<string>, b: seq<string>)
    requires SortedLex(a) && SortedLex(b)
    requires multiset(a) == multiset(b)
    ensures a == b
    decreases |a|
  {
    if |a| == 0 {
      assert |multiset(b)| == 0;
    } else {
      SortedHeadsEqual(a, b);
      TailMultiset(a);
      TailMultiset(b);
      SortedTail(a);
      SortedTail(b);
      SortedUnique(a[1..], b[1..]);
      ConsEqual(a, b);
    }
  }

  /* ---------------- str(n) ---------------- */

  predicate IsDigit(c: char) { '0' <= c <= '9' }

  function DigitChar(d: nat): (c: char)
    requires d < 10
  {
    "0123456789"[d]
  }

  /** Python's `str(n)` for a non-negative `int`: decimal, no leading zero. */
  function NatToString(n: nat): (s: string)
    ensures |s| > 0
    ensures forall k :: 0 <= k < |s| ==> IsDigit(s[k])
    ensures n > 0 ==> s[0] != '0'
    ensures ';' !in s
    decreases n
  {
    if n < 10 then
      assert n > 0 ==> DigitChar(n) != '0';
      [DigitChar(n)]
    else NatToString(n / 10) + [DigitChar(n % 10)]
  }

  /** Reads a string of decimal digits back as a number. */
  function ParseNat(s: string): nat
    requires forall k :: 0 <= k < |s| ==> IsDigit(s[k])
    decreases |s|
  {
    if |s| == 0 then 0
    else
      var c := s[|s| - 1];
      assert IsDigit(c);
      10 * ParseNat(s[..|s| - 1]) + (c as int - '0' as int)
  }

  lemma {:induction false} ParseNatToString(n: nat)
    ensures ParseNat(NatToString(n)) == n
    decreases n
  {
    var s := NatToString(n);
    if n < 10 {
      assert s[..|s| - 1] == [];
    } else {
      ParseNatToString(n / 10);
      assert s[..|s| - 1] == NatToString(n / 10);
    }
  }

  /** Distinct local ids give distinct strings, so the membership string
      never merges two courses. */
  lemma NatToStringInjective(m: nat, n: nat)
    requires NatToString(m) == NatToString(n)
    ensures m == n
  {
    ParseNatToString(m);
    ParseNatToString(n);
  }
}
