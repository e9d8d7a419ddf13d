// Sequence vocabulary shared by every model: reversal, distinctness and
// filtering by a set. Filters recurse on the last element so that loops that
// run forwards can extend them one step at a time.
module Seqs {
  datatype Option<+T> = None | Some(value: T)

  function Reversed<T>(s: seq<T>): (r: seq<T>)
    ensures |r| == |s|
    ensures forall i :: 0 <= i < |s| ==> r[i] == s[|s| - 1 - i]
  {
    seq(|s|, i requires 0 <= i < |s| => s[|s| - 1 - i])
  }

  function ToSet<T(==)>(s: seq<T>): set<T> {
    set x | x in s
  }

  // Distinctness is stated over a named relation, so that it is used for the
  // pairs a proof mentions and not for every pair of index terms.
  ghost predicate Differ<T>(s: seq<T>, i: int, j: int)
    requires 0 <= i < j < |s|
  {
    s[i] != s[j]
  }

  ghost predicate Distinct<T>(s: seq<T>) {
    forall i, j {:trigger Differ(s, i, j)} :: 0 <= i < j < |s| ==> Differ(s, i, j)
  }

  lemma DistinctAt<T>(s: seq<T>, i: nat, j: nat)
    requires Distinct(s) && i < |s| && j < |s| && i != j
    ensures s[i] != s[j]
  {
    assert if i < j then Differ(s, i, j) else Differ(s, j, i);
  }

  // A distinct list splits into distinct lists with no element in common.
  lemma DistinctSplit<T>(s: seq<T>, n: nat)
    requires Distinct(s) && n <= |s|
    ensures Distinct(s[..n]) && Distinct(s[n..])
    ensures forall x :: x in s[..n] ==> x !in s[n..]
  {
    forall i, j | 0 <= i < j < |s[..n]|
      ensures Differ(s[..n], i, j)
    {
      assert Differ(s, i, j);
    }
    forall i, j | 0 <= i < j < |s[n..]|
      ensures Differ(s[n..], i, j)
    {
      assert Differ(s, n + i, n + j);
    }
    forall i, j | 0 <= i < n <= j < |s|
      ensures s[i] != s[j]
    {
      assert Differ(s, i, j);
    }
  }

  lemma DistinctAppend<T>(s: seq<T>, x: T)
    ensures Distinct(s + [x]) <==> Distinct(s) && x !in s
  {
    var t := s + [x];
    assert t[..|s|] == s && t[|t| - 1] == x;
    if Distinct(t) {
      DistinctLast(t);
    } else if Distinct(s) && x !in s {
      ConcatDistinct(s, [x]);
    }
  }

  lemma DistinctLast<T>(s: seq<T>)
    requires Distinct(s) && s != []
    ensures Distinct(s[..|s| - 1]) && s[|s| - 1] !in s[..|s| - 1]
    ensures s == s[..|s| - 1] + [s[|s| - 1]]
  {
    DistinctSplit(s, |s| - 1);
    assert s[|s| - 1..] == [s[|s| - 1]];
  }

  lemma HasMember<T>(s: seq<T>)
    requires s != []
    ensures exists x :: x in s
  {
    assert s[0] in s;
  }

  lemma MultiplicityOfDistinct<T>(s: seq<T>, x: T)
    requires Distinct(s)
    ensures multiset(s)[x] == if x in s then 1 else 0
  {
    if x in s {
      var i :| 0 <= i < |s| && s[i] == x;
      assert s == s[..i] + [x] + s[i + 1..];
      forall j | 0 <= j < |s| && j != i
        ensures s[j] != x
      {
        DistinctAt(s, i, j);
      }
    }
  }

  lemma DistinctSameMembers<T(!new)>(s: seq<T>, t: seq<T>)
    requires Distinct(s) && Distinct(t) && forall x :: x in s <==> x in t
    ensures multiset(s) == multiset(t)
  {
    forall x
      ensures multiset(s)[x] == multiset(t)[x]
    {
      MultiplicityOfDistinct(s, x);
      MultiplicityOfDistinct(t, x);
    }
  }

  // The elements of s that are in keep, in order.
  function Within<T(==)>(s: seq<T>, keep: set<T>): (r: seq<T>)
    ensures forall x :: x in r ==> x in s && x in keep
    ensures forall x :: x in s && x in keep ==> x in r
  {
    if s == [] then [] else
    Within(s[..|s| - 1], keep) + if s[|s| - 1] in keep then [s[|s| - 1]] else []
  }

  // The elements of s that are not in drop, in order.
  function Without<T(==)>(s: seq<T>, drop: set<T>): (r: seq<T>)
    ensures forall x :: x in r ==> x in s && x !in drop
    ensures forall x :: x in s && x !in drop ==> x in r
  {
    if s == [] then [] else
    Without(s[..|s| - 1], drop) + if s[|s| - 1] in drop then [] else [s[|s| - 1]]
  }

  lemma WithinAppend<T>(s: seq<T>, x: T, keep: set<T>)
    ensures Within(s + [x], keep) == Within(s, keep) + if x in keep then [x] else []
  {
    var all := s + [x];
    assert all[..|all| - 1] == s && all[|all| - 1] == x;
  }

  lemma {:induction false} WithinConcat<T>(a: seq<T>, b: seq<T>, keep: set<T>)
    ensures Within(a + b, keep) == Within(a, keep) + Within(b, keep)
    decreases |b|
  {
    hide Within;
    if b == [] {
      assert a + b == a;
      WithinEmpty(b, keep);
    } else {
      var front, x := b[..|b| - 1], b[|b| - 1];
      WithinConcat(a, front, keep);
      assert b == front + [x];
      ConcatAssociative(a, front, [x]);
      WithinAppend(front, x, keep);
      WithinAppend(a + front, x, keep);
      ConcatAssociative(Within(a, keep), Within(front, keep), if x in keep then [x] else []);
    }
  }

  lemma WithinEmpty<T>(s: seq<T>, keep: set<T>)
    requires s == []
    ensures Within(s, keep) == []
  {
  }

  lemma WithoutAppend<T>(s: seq<T>, x: T, drop: set<T>)
    ensures Without(s + [x], drop) == Without(s, drop) + if x in drop then [] else [x]
  {
    var all := s + [x];
    assert all[..|all| - 1] == s && all[|all| - 1] == x;
  }

  lemma {:induction false} WithoutConcat<T>(a: seq<T>, b: seq<T>, drop: set<T>)
    ensures Without(a + b, drop) == Without(a, drop) + Without(b, drop)
    decreases |b|
  {
    hide Without;
    if b == [] {
      assert a + b == a;
      WithoutEmpty(b, drop);
    } else {
      var front, x := b[..|b| - 1], b[|b| - 1];
      WithoutConcat(a, front, drop);
      assert b == front + [x];
      ConcatAssociative(a, front, [x]);
      WithoutAppend(front, x, drop);
      WithoutAppend(a + front, x, drop);
      ConcatAssociative(Without(a, drop), Without(front, drop), if x in drop then [] else [x]);
    }
  }

  lemma WithoutEmpty<T>(s: seq<T>, drop: set<T>)
    requires s == []
    ensures Without(s, drop) == []
  {
  }

  lemma {:induction false} WithoutDistinct<T>(s: seq<T>, drop: set<T>)
    requires Distinct(s)
    ensures Distinct(Without(s, drop))
  {
    if s != [] {
      var t, last := s[..|s| - 1], s[|s| - 1];
      DistinctLast(s);
      WithoutDistinct(t, drop);
      ConcatDistinct(Without(t, drop), if last in drop then [] else [last]);
    }
  }

  lemma {:induction false} WithinDistinct<T>(s: seq<T>, keep: set<T>)
    requires Distinct(s)
    ensures Distinct(Within(s, keep))
  {
    if s != [] {
      var t, last := s[..|s| - 1], s[|s| - 1];
      DistinctLast(s);
      WithinDistinct(t, keep);
      ConcatDistinct(Within(t, keep), if last in keep then [last] else []);
    }
  }

  // Filtering only looks at the membership of the elements filtered.
  lemma {:induction false} WithoutAgrees<T>(s: seq<T>, d0: set<T>, d1: set<T>)
    requires forall x :: x in s ==> (x in d0 <==> x in d1)
    ensures Without(s, d0) == Without(s, d1)
  {
    if s != [] {
      WithoutAgrees(s[..|s| - 1], d0, d1);
    }
  }

  lemma {:induction false} WithinAgrees<T>(s: seq<T>, k0: set<T>, k1: set<T>)
    requires forall x :: x in s ==> (x in k0 <==> x in k1)
    ensures Within(s, k0) == Within(s, k1)
  {
    if s != [] {
      WithinAgrees(s[..|s| - 1], k0, k1);
    }
  }

  lemma {:induction false} WithinAll<T>(s: seq<T>, keep: set<T>)
    requires forall x :: x in s ==> x in keep
    ensures Within(s, keep) == s
  {
    if s != [] {
      WithinAll(s[..|s| - 1], keep);
      assert s == s[..|s| - 1] + [s[|s| - 1]];
    }
  }

  lemma {:induction false} WithoutNone<T>(s: seq<T>, drop: set<T>)
    requires forall x :: x in s ==> x !in drop
    ensures Without(s, drop) == s
  {
    if s != [] {
      WithoutNone(s[..|s| - 1], drop);
      assert s == s[..|s| - 1] + [s[|s| - 1]];
    }
  }

  lemma ReversedMembers<T>(s: seq<T>)
    ensures forall x :: x in Reversed(s) <==> x in s
    ensures Distinct(s) ==> Distinct(Reversed(s))
  {
    forall x | x in s
      ensures x in Reversed(s)
    {
      var k :| 0 <= k < |s| && s[k] == x;
      assert Reversed(s)[|s| - 1 - k] == x;
    }
    if Distinct(s) {
      forall i, j | 0 <= i < j < |s|
        ensures Differ(Reversed(s), i, j)
      {
        assert Differ(s, |s| - 1 - j, |s| - 1 - i);
      }
    }
  }

  lemma ReversedConcat<T>(a: seq<T>, b: seq<T>)
    ensures Reversed(a + b) == Reversed(b) + Reversed(a)
  {
  }

  lemma {:induction false} WithinReversed<T>(s: seq<T>, keep: set<T>)
    ensures Within(Reversed(s), keep) == Reversed(Within(s, keep))
  {
    if s != [] {
      var t, x := s[..|s| - 1], s[|s| - 1];
      assert s == t + [x];
      ReversedConcat(t, [x]);
      assert Reversed([x]) == [x];
      WithinConcat([x], Reversed(t), keep);
      assert Within([x], keep) == if x in keep then [x] else [] by {
        assert [x][..0] == [];
      }
      WithinReversed(t, keep);
      ReversedConcat(Within(t, keep), if x in keep then [x] else []);
    }
  }

  function FlatMap<A, B>(s: seq<A>, f: A -> seq<B>): seq<B> {
    if s == [] then [] else FlatMap(s[..|s| - 1], f) + f(s[|s| - 1])
  }

  lemma {:induction false} FlatMapConcat<A, B>(a: seq<A>, b: seq<A>, f: A -> seq<B>)
    ensures FlatMap(a + b, f) == FlatMap(a, f) + FlatMap(b, f)
    decreases |b|
  {
    if b == [] {
      assert a + b == a;
    } else {
      FlatMapConcat(a, b[..|b| - 1], f);
      assert (a + b)[..|a + b| - 1] == a + b[..|b| - 1];
      assert (a + b)[|a + b| - 1] == b[|b| - 1];
      ConcatAssociative(FlatMap(a, f), FlatMap(b[..|b| - 1], f), f(b[|b| - 1]));
    }
  }

  lemma {:induction false} FlatMapMembers<A, B(!new)>(s: seq<A>, f: A -> seq<B>)
    ensures forall x :: x in FlatMap(s, f) ==> exists a :: a in s && x in f(a)
    ensures forall a, x :: a in s && x in f(a) ==> x in FlatMap(s, f)
  {
    if s != [] {
      var t, last := s[..|s| - 1], s[|s| - 1];
      FlatMapMembers(t, f);
      assert s == t + [last];
      forall x | x in FlatMap(s, f)
        ensures exists a :: a in s && x in f(a)
      {
        if x in FlatMap(t, f) {
          var a :| a in t && x in f(a);
          assert a in s;
        } else {
          assert last in s && x in f(last);
        }
      }
    }
  }

  lemma {:induction false} FlatMapDistinct<A, B(!new)>(s: seq<A>, f: A -> seq<B>)
    requires Distinct(s) && forall a :: a in s ==> Distinct(f(a))
    requires forall a, b, x :: a in s && b in s && x in f(a) && x in f(b) ==> a == b
    ensures Distinct(FlatMap(s, f))
  {
    if s != [] {
      var t, last := s[..|s| - 1], s[|s| - 1];
      DistinctLast(s);
      FlatMapDistinct(t, f);
      FlatMapMembers(t, f);
      ConcatDistinct(FlatMap(t, f), f(last));
    }
  }

  lemma {:induction false} FlatMapStep<A, B>(s: seq<A>, at: nat, f: A -> seq<B>)
    requires at < |s|
    ensures FlatMap(s[..at + 1], f) == FlatMap(s[..at], f) + f(s[at]) <= FlatMap(s, f)
  {
    var front := s[..at + 1];
    assert front[..|front| - 1] == s[..at];
    assert s == front + s[at + 1..];
    FlatMapConcat(front, s[at + 1..], f);
  }

  lemma FlatMapSingleton<A, B>(a: A, f: A -> seq<B>)
    ensures FlatMap([a], f) == f(a)
  {
    assert [a][..0] == [];
  }

  lemma {:induction false} FlatMapReversed<A, B>(s: seq<A>, f: A -> seq<B>, g: A -> seq<B>)
    requires forall a :: a in s ==> g(a) == Reversed(f(a))
    ensures FlatMap(Reversed(s), g) == Reversed(FlatMap(s, f))
  {
    if s != [] {
      var t, last := s[..|s| - 1], s[|s| - 1];
      assert s == t + [last];
      FlatMapReversed(t, f, g);
      assert Reversed(s) == [last] + Reversed(t);
      FlatMapConcat([last], Reversed(t), g);
      FlatMapSingleton(last, g);
      ReversedConcat(FlatMap(t, f), f(last));
    }
  }

  lemma ConcatDistinct<T>(a: seq<T>, b: seq<T>)
    requires Distinct(a) && Distinct(b)
    requires forall x :: x in a ==> x !in b
    ensures Distinct(a + b)
  {
    forall i, j | 0 <= i < j < |a + b|
      ensures Differ(a + b, i, j)
    {
      if j < |a| { assert Differ(a, i, j); }
      else if |a| <= i { assert Differ(b, i - |a|, j - |a|); }
      else { assert a[i] in a && b[j - |a|] in b; }
    }
  }

  lemma ConcatAssociative<T>(a: seq<T>, b: seq<T>, c: seq<T>)
    ensures (a + b) + c == a + (b + c)
  {
  }

  function Flatten<T>(parts: seq<seq<T>>): seq<T> {
    if parts == [] then [] else Flatten(parts[..|parts| - 1]) + parts[|parts| - 1]
  }

  lemma FlattenAppend<T>(parts: seq<seq<T>>, last: seq<T>)
    ensures Flatten(parts + [last]) == Flatten(parts) + last
  {
    assert (parts + [last])[..|parts|] == parts;
  }

  // The two-index swap loop Go uses to reverse a slice.
  method ReverseSlice<T>(s: seq<T>) returns (r: seq<T>)
    ensures r == Reversed(s)
  {
    r := s;
    var i, j := 0, |r| - 1;
    while i < j
      invariant |r| == |s| && 0 <= i && j == |s| - 1 - i && i <= j + 1
      invariant forall k :: 0 <= k < i ==> r[k] == s[|s| - 1 - k]
      invariant forall k :: j < k < |s| ==> r[k] == s[|s| - 1 - k]
      invariant forall k :: i <= k <= j ==> r[k] == s[k]
    {
      r := r[i := r[j]][j := r[i]];
      i, j := i + 1, j - 1;
    }
  }
}
