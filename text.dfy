/**
 * String primitives with the meaning JavaScript gives them: `split` on a
 * regular expression, `trim`, `startsWith`, `replace` with a string pattern,
 * `join`, the default order used by `Array.prototype.sort` (taken here as
 * code-point order, which is the same as its UTF-16 code-unit order below
 * U+10000), and
 * the first-occurrence deduplication of `Array.from(new Set(xs))`.
 */
module Text {
  import opened Wrappers

  /** The characters matched by the regular-expression class `\s`. */
  predicate IsWs(c: char) {
    c == ' ' || c == '\t' || c == '\n' || c == '\r' || c == '\U{B}' || c == '\U{C}'
    || c == '\U{A0}' || c == '\U{1680}' || ('\U{2000}' <= c <= '\U{200A}')
    || c == '\U{2028}' || c == '\U{2029}' || c == '\U{202F}' || c == '\U{205F}'
    || c == '\U{3000}' || c == '\U{FEFF}'
  }

  predicate NoWs(s: string) {
    forall i :: 0 <= i < |s| ==> !IsWs(s[i])
  }

  predicate AllWs(s: string) {
    forall i :: 0 <= i < |s| ==> IsWs(s[i])
  }

  /** Index of the first character satisfying `p`, or `|s|` when there is none. */
  function FirstWhere(s: string, p: char -> bool): (i: nat)
    ensures i <= |s|
    ensures forall k :: 0 <= k < i ==> !p(s[k])
    ensures i < |s| ==> p(s[i])
  {
    if |s| == 0 then 0 else if p(s[0]) then 0 else 1 + FirstWhere(s[1..], p)
  }

  /**
   * `s.split(/\s+/)`: the pieces between maximal runs of white space. A
   * leading or trailing run yields an empty first or last piece, and the
   * empty string yields `[""]`.
   */
  function SplitWs(s: string): (r: seq<string>)
    ensures |r| >= 1
    ensures forall k :: 0 <= k < |r| ==> NoWs(r[k])
    decreases |s|
  {
    var i := FirstWhere(s, IsWs);
    if i == |s| then [s]
    else
      var j := i + FirstWhere(s[i..], c => !IsWs(c));
      [s[..i]] + SplitWs(s[j..])
  }

  /** `s.split(sep)` for a single-character separator class: every separator splits. */
  function SplitEach(s: string, sep: char -> bool): (r: seq<string>)
    ensures |r| >= 1
    ensures forall k, i :: 0 <= k < |r| && 0 <= i < |r[k]| ==> !sep(r[k][i])
    decreases |s|
  {
    var i := FirstWhere(s, sep);
    if i == |s| then [s] else [s[..i]] + SplitEach(s[i + 1..], sep)
  }

  /** A string with no separator is one piece. */
  lemma SplitEachNone(p: string, sep: char -> bool)
    requires forall k :: 0 <= k < |p| ==> !sep(p[k])
    ensures SplitEach(p, sep) == [p]
  {
  }

  /** A separator after a piece without one ends that piece. */
  lemma SplitEachCons(p: string, c: char, rest: string, sep: char -> bool)
    requires forall k :: 0 <= k < |p| ==> !sep(p[k])
    requires sep(c)
    ensures SplitEach(p + [c] + rest, sep) == [p] + SplitEach(rest, sep)
  {
    var s := p + [c] + rest;
    assert forall k :: 0 <= k < |p| ==> s[k] == p[k];
    assert s[|p|] == c;
    assert FirstWhere(s, sep) == |p|;
    assert s[..|p|] == p && s[|p| + 1..] == rest;
  }

  /** `Boolean(s)` for a string. */
  predicate NonEmpty(s: string) { s != "" }

  /** `s.filter(p)`, order kept. */
  function Filter<T(!new)>(s: seq<T>, p: T -> bool): (r: seq<T>)
    ensures |r| <= |s|
    ensures forall x :: x in r <==> x in s && p(x)
  {
    if |s| == 0 then []
    else
      assert s == s[..|s| - 1] + [s[|s| - 1]];
      Filter(s[..|s| - 1], p) + (if p(s[|s| - 1]) then [s[|s| - 1]] else [])
  }

  /** Filtering one more element appends it exactly when it passes. */
  lemma FilterSnoc<T(!new)>(s: seq<T>, x: T, p: T -> bool)
    ensures Filter(s + [x], p) == Filter(s, p) + (if p(x) then [x] else [])
  {
    assert (s + [x])[..|s|] == s;
  }

  lemma SplitLast<T>(s: seq<T>, t: seq<T>)
    requires |t| > 0
    ensures t == t[..|t| - 1] + [t[|t| - 1]]
    ensures s + t == (s + t[..|t| - 1]) + [t[|t| - 1]]
  {
  }

  lemma Associative<T>(a: seq<T>, b: seq<T>, c: seq<T>)
    ensures (a + b) + c == a + (b + c)
  {
  }

  /** Filtering a concatenation filters each part. */
  lemma {:induction false} FilterAppend<T(!new)>(s: seq<T>, t: seq<T>, p: T -> bool)
    ensures Filter(s + t, p) == Filter(s, p) + Filter(t, p)
    decreases |t|
  {
    if |t| == 0 {
      assert s + t == s;
    } else {
      var u, x := t[..|t| - 1], t[|t| - 1];
      FilterAppend(s, u, p);
      SplitLast(s, t);
      FilterSnoc(s + u, x, p);
      FilterSnoc(u, x, p);
      Associative(Filter(s, p), Filter(u, p), if p(x) then [x] else []);
    }
  }

  /** Nothing is kept when nothing passes the test. */
  lemma {:induction false} FilterNone<T(!new)>(s: seq<T>, p: T -> bool)
    requires forall x :: x in s ==> !p(x)
    ensures Filter(s, p) == []
  {
    if |s| > 0 {
      assert s[|s| - 1] in s;
      assert forall x :: x in s[..|s| - 1] ==> x in s;
      FilterNone(s[..|s| - 1], p);
    }
  }

  /** `parts.join(sep)`. */
  function Join(parts: seq<string>, sep: string): string {
    if |parts| == 0 then ""
    else if |parts| == 1 then parts[0]
    else parts[0] + sep + Join(parts[1..], sep)
  }

  /** `parts.join('')`. */
  function Concat(parts: seq<string>): string {
    if |parts| == 0 then "" else parts[0] + Concat(parts[1..])
  }

  function TrimEnd(s: string): string {
    if |s| > 0 && IsWs(s[|s| - 1]) then TrimEnd(s[..|s| - 1]) else s
  }

  /** `s.trim()`. */
  function Trim(s: string): string {
    TrimEnd(s[FirstWhere(s, c => !IsWs(c))..])
  }

  predicate StartsWith(s: string, prefix: string) {
    |prefix| <= |s| && s[..|prefix|] == prefix
  }

  predicate OccursAt(s: string, pat: string, k: nat) {
    k + |pat| <= |s| && s[k..k + |pat|] == pat
  }

  /** An occurrence one place further in `s` is an occurrence in its tail. */
  lemma OccursShift(s: string, pat: string, k: nat)
    requires |s| > 0
    ensures OccursAt(s, pat, k + 1) <==> OccursAt(s[1..], pat, k)
  {
    if k + 1 + |pat| <= |s| {
      assert s[k + 1..k + 1 + |pat|] == s[1..][k..k + |pat|];
    }
  }

  /** `s.indexOf(pat)`, `None` for -1. */
  function IndexOf(s: string, pat: string): (r: Option<nat>)
    ensures r.Some? ==> OccursAt(s, pat, r.value)
    ensures r.Some? ==> forall k :: 0 <= k < r.value ==> !OccursAt(s, pat, k)
    ensures r.None? ==> forall k: nat :: !OccursAt(s, pat, k)
    decreases |s|
  {
    if StartsWith(s, pat) then Some(0)
    else if |s| == 0 then None
    else
      var rest := IndexOf(s[1..], pat);
      match rest
      case None =>
        assert forall k: nat :: !OccursAt(s, pat, k) by {
          forall k: nat ensures !OccursAt(s, pat, k) {
            if k > 0 { OccursShift(s, pat, k - 1); }
          }
        }
        None
      case Some(k) =>
        OccursShift(s, pat, k);
        assert forall m :: 0 <= m < k + 1 ==> !OccursAt(s, pat, m) by {
          forall m | 0 <= m < k + 1 ensures !OccursAt(s, pat, m) {
            if m > 0 { OccursShift(s, pat, m - 1); }
          }
        }
        Some(k + 1)
  }

  /**
   * `s.replace(pat, rep)` with a string pattern: only the first occurrence is
   * replaced; an absent pattern leaves `s` unchanged.
   */
  function ReplaceFirst(s: string, pat: string, rep: string): (r: string)
    ensures IndexOf(s, pat).None? ==> r == s
    ensures IndexOf(s, pat).Some? ==>
      var k := IndexOf(s, pat).value;
      r == s[..k] + rep + s[k + |pat|..]
  {
    match IndexOf(s, pat)
    case None => s
    case Some(k) => s[..k] + rep + s[k + |pat|..]
  }

  /** Replacing inside a string without white space by one without keeps it so. */
  lemma ReplaceFirstNoWs(s: string, pat: string, rep: string)
    requires NoWs(s) && NoWs(rep)
    ensures NoWs(ReplaceFirst(s, pat, rep))
  {
    if IndexOf(s, pat).Some? {
      var k := IndexOf(s, pat).value;
      var r := s[..k] + rep + s[k + |pat|..];
      forall i | 0 <= i < |r| ensures !IsWs(r[i]) {
        if i < k { assert r[i] == s[i]; }
        else if i < k + |rep| { assert r[i] == rep[i - k]; }
        else { assert r[i] == s[i - |rep| + |pat|]; }
      }
    }
  }

  // ---------------------------------------------------------------------
  // The default order of `Array.prototype.sort` on strings: lexicographic
  // comparison of characters by code point. JavaScript compares UTF-16 code
  // units, which orders the same except for characters from U+10000 up.

  predicate Less(a: string, b: string) {
    if |a| == 0 then |b| > 0
    else if |b| == 0 then false
    else if a[0] != b[0] then a[0] < b[0]
    else Less(a[1..], b[1..])
  }

  predicate LessEq(a: string, b: string) {
    a == b || Less(a, b)
  }

  lemma {:induction false} LessIrreflexive(a: string)
    ensures !Less(a, a)
  {
    if |a| > 0 { LessIrreflexive(a[1..]); }
  }

  lemma {:induction false} LessTransitive(a: string, b: string, c: string)
    requires Less(a, b) && Less(b, c)
    ensures Less(a, c)
  {
    if |a| > 0 && |b| > 0 && |c| > 0 && a[0] == b[0] && b[0] == c[0] {
      LessTransitive(a[1..], b[1..], c[1..]);
    }
  }

  lemma {:induction false} LessTotal(a: string, b: string)
    ensures Less(a, b) || a == b || Less(b, a)
  {
    if |a| > 0 && |b| > 0 && a[0] == b[0] {
      LessTotal(a[1..], b[1..]);
      if a[1..] == b[1..] {
        assert a == [a[0]] + a[1..] && b == [b[0]] + b[1..];
      }
    }
  }

  lemma LessEqTransitive(a: string, b: string, c: string)
    requires LessEq(a, b) && LessEq(b, c)
    ensures LessEq(a, c)
  {
    if a != b && b != c { LessTransitive(a, b, c); }
  }

  predicate Sorted(s: seq<string>) {
    forall i, j :: 0 <= i < j < |s| ==> LessEq(s[i], s[j])
  }

  function Insert(x: string, s: seq<string>): (r: seq<string>)
    ensures multiset(r) == multiset(s) + multiset{x}
    ensures |r| == |s| + 1
  {
    if |s| == 0 then [x]
    else if LessEq(x, s[0]) then [x] + s
    else
      assert s == [s[0]] + s[1..];
      [s[0]] + Insert(x, s[1..])
  }

  lemma {:induction false} InsertSorted(x: string, s: seq<string>)
    requires Sorted(s)
    ensures Sorted(Insert(x, s))
  {
    if |s| == 0 {
    } else if LessEq(x, s[0]) {
      var r := [x] + s;
      forall i, j | 0 <= i < j < |r| ensures LessEq(r[i], r[j]) {
        if i == 0 { LessEqTransitive(x, s[0], s[j - 1]); }
      }
    } else {
      InsertSorted(x, s[1..]);
      var t := Insert(x, s[1..]);
      var r := [s[0]] + t;
      LessTotal(x, s[0]);
      forall i, j | 0 <= i < j < |r| ensures LessEq(r[i], r[j]) {
        if i == 0 {
          // every element of t is s[k] for some k >= 1, or x; all are >= s[0]
          assert r[j] in multiset(t);
          assert r[j] in multiset(s[1..]) || r[j] == x;
          if r[j] != x {
            var k :| 1 <= k < |s| && s[k] == r[j];
          }
        }
      }
    }
  }

  /**
   * The strings of `s` in ascending order. Any stable or unstable sort yields
   * this sequence, since a sorted permutation under a total order is unique.
   */
  function Sort(s: seq<string>): (r: seq<string>)
    ensures multiset(r) == multiset(s)
    ensures |r| == |s|
  {
    if |s| == 0 then []
    else
      assert s == s[..|s| - 1] + [s[|s| - 1]];
      Insert(s[|s| - 1], Sort(s[..|s| - 1]))
  }

  /** Sorting keeps exactly the elements it was given. */
  lemma SortMembers(s: seq<string>)
    ensures forall y :: y in Sort(s) <==> y in s
  {
    forall y
      ensures y in Sort(s) <==> y in s
    {
      assert y in Sort(s) <==> y in multiset(Sort(s));
      assert y in s <==> y in multiset(s);
    }
  }

  lemma {:induction false} SortSorted(s: seq<string>)
    ensures Sorted(Sort(s))
  {
    if |s| > 0 {
      SortSorted(s[..|s| - 1]);
      InsertSorted(s[|s| - 1], Sort(s[..|s| - 1]));
    }
  }

  // ---------------------------------------------------------------------
  // `Array.from(new Set(xs))`: first occurrences, in order.

  predicate NoDup<T(==)>(s: seq<T>) {
    forall i, j :: 0 <= i < j < |s| ==> s[i] != s[j]
  }

  function FirstIndex(s: seq<string>, x: string): (i: nat)
    requires x in s
    ensures i < |s| && s[i] == x
    ensures forall k :: 0 <= k < i ==> s[k] != x
  {
    if s[0] == x then 0 else 1 + FirstIndex(s[1..], x)
  }

  function Uniq(s: seq<string>): (r: seq<string>)
    ensures forall x :: x in r <==> x in s
    ensures NoDup(r)
  {
    if |s| == 0 then []
    else
      var r := Uniq(s[..|s| - 1]);
      var x := s[|s| - 1];
      assert forall y :: y in s <==> y in s[..|s| - 1] || y == x by {
        assert s == s[..|s| - 1] + [x];
      }
      if x in r then r else r + [x]
  }

  lemma FirstIndexPrefix(s: seq<string>, n: nat, x: string)
    requires n <= |s| && x in s[..n]
    ensures x in s && FirstIndex(s, x) == FirstIndex(s[..n], x)
  {
    var i := FirstIndex(s[..n], x);
    assert s[i] == x;
  }

  lemma {:induction false} UniqFirstOccurrenceOrder(s: seq<string>)
    ensures forall i, j :: 0 <= i < j < |Uniq(s)| ==>
      FirstIndex(s, Uniq(s)[i]) < FirstIndex(s, Uniq(s)[j])
  {
    if |s| > 0 {
      var p := s[..|s| - 1];
      var x := s[|s| - 1];
      var r := Uniq(p);
      UniqFirstOccurrenceOrder(p);
      forall i | 0 <= i < |r| ensures r[i] in s && r[i] in p && FirstIndex(s, r[i]) == FirstIndex(p, r[i]) && FirstIndex(p, r[i]) < |p| {
        assert r[i] in p;
        FirstIndexPrefix(s, |s| - 1, r[i]);
      }
      if x !in r {
        assert x !in p;
        assert forall k :: 0 <= k < |s| - 1 ==> s[k] == p[k];
        assert FirstIndex(s, x) == |s| - 1;
      }
    }
  }
}
