// strings.Compare and the sorts built on it: lexicographic order, and what any
// correct sort must return when the sort keys are distinct.
module Lex {
  import opened Seqs

  // strings.Compare(a, b) < 0.
  predicate Less(a: string, b: string) {
    |b| > 0 && (|a| == 0 || a[0] < b[0] || (a[0] == b[0] && Less(a[1..], b[1..])))
  }

  lemma {:induction false} LessIsStrictTotal(a: string, b: string)
    ensures Less(a, b) || a == b || Less(b, a)
    ensures !(Less(a, b) && Less(b, a)) && !Less(a, a)
    decreases |a|
  {
    if a != [] {
      if b != [] && a[0] == b[0] {
        LessIsStrictTotal(a[1..], b[1..]);
        assert a == [a[0]] + a[1..] && b == [b[0]] + b[1..];
      }
      LessIsStrictTotal(a[1..], a[1..]);
    }
  }

  // Dictionary order: a proper prefix comes first, otherwise the first position
  // at which two strings differ decides.
  lemma {:induction false} LessIsDictionaryOrder(a: string, b: string, n: nat)
    requires n <= |a| && n <= |b| && a[..n] == b[..n]
    ensures n == |a| < |b| ==> Less(a, b)
    ensures n < |a| && n < |b| && a[n] < b[n] ==> Less(a, b)
    decreases n
  {
    if n > 0 {
      assert a[0] == a[..n][0] && b[0] == b[..n][0];
      assert a[1..][..n - 1] == a[..n][1..] && b[1..][..n - 1] == b[..n][1..];
      LessIsDictionaryOrder(a[1..], b[1..], n - 1);
    }
  }

  lemma {:induction false} LessTransitive(a: string, b: string, c: string)
    requires Less(a, b) && Less(b, c)
    ensures Less(a, c)
  {
    if a != [] && a[0] == b[0] && b[0] == c[0] {
      LessTransitive(a[1..], b[1..], c[1..]);
    }
  }

  // slices.SortFunc by a string key: no later element is below an earlier one.
  ghost predicate Sorted<T>(s: seq<T>, key: T -> string) {
    forall i, j :: 0 <= i < j < |s| ==> !Less(key(s[j]), key(s[i]))
  }

  ghost predicate StrictlySorted<T>(s: seq<T>, key: T -> string) {
    forall i, j :: 0 <= i < j < |s| ==> Less(key(s[i]), key(s[j]))
  }

  ghost predicate DistinctKeys<T>(s: seq<T>, key: T -> string) {
    forall i, j :: 0 <= i < j < |s| ==> key(s[i]) != key(s[j])
  }

  function Insert<T>(s: seq<T>, x: T, key: T -> string): (r: seq<T>)
    ensures multiset(r) == multiset(s) + multiset{x}
  {
    if s == [] then [x]
    else if Less(key(x), key(s[|s| - 1])) then
      assert s == s[..|s| - 1] + [s[|s| - 1]];
      Insert(s[..|s| - 1], x, key) + [s[|s| - 1]]
    else s + [x]
  }

  function SortBy<T>(s: seq<T>, key: T -> string): (r: seq<T>)
    ensures multiset(r) == multiset(s)
  {
    if s == [] then [] else
      assert s == s[..|s| - 1] + [s[|s| - 1]];
      Insert(SortBy(s[..|s| - 1], key), s[|s| - 1], key)
  }

  lemma NotLessTransitive(a: string, b: string, c: string)
    requires !Less(b, a) && !Less(c, b)
    ensures !Less(c, a)
  {
    LessIsStrictTotal(a, b);
    LessIsStrictTotal(b, c);
    LessIsStrictTotal(a, c);
    if Less(c, a) && Less(a, b) { LessTransitive(c, a, b); }
  }

  lemma {:induction false} InsertSorts<T>(s: seq<T>, x: T, key: T -> string)
    requires Sorted(s, key)
    ensures Sorted(Insert(s, x, key), key)
  {
    if s != [] {
      var last := s[|s| - 1];
      if Less(key(x), key(last)) {
        var front := Insert(s[..|s| - 1], x, key);
        InsertSorts(s[..|s| - 1], x, key);
        forall i | 0 <= i < |front|
          ensures !Less(key(last), key(front[i]))
        {
          assert front[i] in multiset(front);
          assert front[i] == x || front[i] in s[..|s| - 1];
          LessIsStrictTotal(key(x), key(last));
        }
      } else {
        forall i | 0 <= i < |s|
          ensures !Less(key(x), key(s[i]))
        {
          if i < |s| - 1 { NotLessTransitive(key(s[i]), key(last), key(x)); }
        }
      }
    }
  }

  lemma {:induction false} SortBySorts<T>(s: seq<T>, key: T -> string)
    ensures Sorted(SortBy(s, key), key)
  {
    if s != [] {
      SortBySorts(s[..|s| - 1], key);
      InsertSorts(SortBy(s[..|s| - 1], key), s[|s| - 1], key);
    }
  }

  lemma SameMembers<T>(s: seq<T>, t: seq<T>)
    requires multiset(s) == multiset(t)
    ensures |s| == |t| && forall x :: x in s <==> x in t
  {
    assert |multiset(s)| == |s| && |multiset(t)| == |t|;
    assert forall x :: x in s <==> x in multiset(s);
    assert forall x :: x in t <==> x in multiset(t);
  }

  // With distinct keys the sort is strict, and so has one possible outcome.
  lemma {:induction false} SortOfDistinct<T>(s: seq<T>, key: T -> string)
    requires DistinctKeys(s, key)
    ensures StrictlySorted(SortBy(s, key), key)
    ensures |SortBy(s, key)| == |s| && forall x :: x in SortBy(s, key) <==> x in s
  {
    var r := SortBy(s, key);
    SortBySorts(s, key);
    SameMembers(r, s);
    forall i, j | 0 <= i < j < |r|
      ensures Less(key(r[i]), key(r[j]))
    {
      KeysStayDistinct(s, r, key, i, j);
      LessIsStrictTotal(key(r[i]), key(r[j]));
    }
  }

  lemma KeysStayDistinct<T>(s: seq<T>, r: seq<T>, key: T -> string, i: nat, j: nat)
    requires DistinctKeys(s, key) && multiset(s) == multiset(r) && i < j < |r|
    ensures key(r[i]) != key(r[j])
  {
    SameMembers(s, r);
    assert r[i] in r && r[j] in r;
    var a :| 0 <= a < |s| && s[a] == r[i];
    var b :| 0 <= b < |s| && s[b] == r[j];
    if a == b {
      OccursOnce(s, a, key);
      OccursTwice(r, i, j);
    }
  }

  lemma OccursOnce<T>(s: seq<T>, a: nat, key: T -> string)
    requires DistinctKeys(s, key) && a < |s|
    ensures multiset(s)[s[a]] == 1
  {
    assert s == s[..a] + [s[a]] + s[a + 1..];
    assert s[a] !in s[..a] && s[a] !in s[a + 1..];
  }

  lemma OccursTwice<T>(r: seq<T>, i: nat, j: nat)
    requires i < j < |r| && r[i] == r[j]
    ensures multiset(r)[r[i]] >= 2
  {
    assert r == r[..j] + [r[j]] + r[j + 1..];
    assert r[i] == r[..j][i];
    assert r[i] in multiset(r[..j]);
  }

  // A strictly sorted list is determined by its members.
  lemma {:induction false} StrictlySortedUnique<T>(s: seq<T>, t: seq<T>, key: T -> string)
    requires StrictlySorted(s, key) && StrictlySorted(t, key)
    requires forall x :: x in s <==> x in t
    ensures s == t
    decreases |s|
  {
    if s != [] { assert s[|s| - 1] in t; }
    if t != [] { assert t[|t| - 1] in s; }
    if s != [] {
      var x, y := s[|s| - 1], t[|t| - 1];
      assert x in t && y in s;
      LessIsStrictTotal(key(x), key(y));
      assert x == y;
      var s', t' := s[..|s| - 1], t[..|t| - 1];
      assert s == s' + [x] && t == t' + [x];
      LessIsStrictTotal(key(x), key(x));
      assert x !in s' && x !in t';
      forall z
        ensures z in s' <==> z in t'
      {
        assert z in s' <==> z in s && z != x;
        assert z in t' <==> z in t && z != x;
      }
      StrictlySortedUnique(s', t', key);
    }
  }

  lemma StrictlySortedDistinct<T>(s: seq<T>, key: T -> string)
    requires StrictlySorted(s, key)
    ensures Distinct(s) && DistinctKeys(s, key)
  {
    forall i, j | 0 <= i < j < |s|
      ensures key(s[i]) != key(s[j])
    {
      LessIsStrictTotal(key(s[i]), key(s[i]));
    }
  }
}
