// Walks, cycles and edge-respecting lists in a graph with adjacency lists.
module Walks {
  import opened Seqs

  // g.Vertices[v] in Go: a missing key reads as an empty list.
  function Succ<V(==)>(adj: map<V, seq<V>>, v: V): seq<V> {
    if v in adj then adj[v] else []
  }

  ghost predicate IsWalk<V>(adj: map<V, seq<V>>, p: seq<V>) {
    |p| > 0 && forall i :: 0 <= i < |p| - 1 ==> p[i + 1] in Succ(adj, p[i])
  }

  ghost predicate Reaches<V(!new)>(adj: map<V, seq<V>>, u: V, v: V) {
    exists p :: IsWalk(adj, p) && p[0] == u && p[|p| - 1] == v
  }

  // A closed walk; its vertices need not be distinct.
  ghost predicate IsCycle<V>(adj: map<V, seq<V>>, p: seq<V>) {
    |p| >= 2 && IsWalk(adj, p) && p[0] == p[|p| - 1]
  }

  ghost predicate ReachableFrom<V(!new)>(adj: map<V, seq<V>>, roots: seq<V>, v: V) {
    exists r :: r in roots && Reaches(adj, r, v)
  }

  ghost predicate HasReachableCycle<V(!new)>(adj: map<V, seq<V>>, roots: seq<V>) {
    exists p :: IsCycle(adj, p) && ReachableFrom(adj, roots, p[0])
  }

  // Every edge leaving the list leads to a later element of it.
  ghost predicate SourcesFirst<V(!new)>(adj: map<V, seq<V>>, s: seq<V>) {
    forall i, c :: 0 <= i < |s| && c in Succ(adj, s[i]) ==> c in s[i + 1..]
  }

  // Every edge leaving the list leads to an earlier element of it.
  ghost predicate TargetsFirst<V(!new)>(adj: map<V, seq<V>>, s: seq<V>) {
    forall i, c :: 0 <= i < |s| && c in Succ(adj, s[i]) ==> c in s[..i]
  }

  lemma WalkExtends<V(!new)>(adj: map<V, seq<V>>, u: V, v: V, w: V)
    requires Reaches(adj, u, v) && w in Succ(adj, v)
    ensures Reaches(adj, u, w)
  {
    var p :| IsWalk(adj, p) && p[0] == u && p[|p| - 1] == v;
    var q := p + [w];
    assert IsWalk(adj, q) && q[0] == u && q[|q| - 1] == w;
  }

  lemma ReachesItself<V(!new)>(adj: map<V, seq<V>>, v: V)
    ensures Reaches(adj, v, v)
  {
    var p := [v];
    assert IsWalk(adj, p) && p[0] == v && p[|p| - 1] == v;
  }

  // Along a walk inside a targets-first list, positions strictly decrease.
  lemma {:induction false} WalkDescends<V(!new)>(adj: map<V, seq<V>>, s: seq<V>, p: seq<V>, at: nat)
    requires TargetsFirst(adj, s) && Distinct(s)
    requires IsWalk(adj, p) && at < |s| && s[at] == p[0]
    ensures p[|p| - 1] in s
    ensures |p| >= 2 ==> p[|p| - 1] in s[..at]
    decreases |p|
  {
    if |p| >= 2 {
      assert p[1] in Succ(adj, s[at]);
      assert p[1] in s[..at];
      var k :| 0 <= k < at && s[k] == p[1];
      var q := p[1..];
      assert forall i :: 0 <= i < |q| ==> q[i] == p[i + 1];
      WalkDescends(adj, s, q, k);
      assert s[..k] <= s[..at];
    }
  }

  // A targets-first list cannot be left along edges and holds no closed walk.
  lemma TargetsFirstIsAcyclic<V(!new)>(adj: map<V, seq<V>>, roots: seq<V>, s: seq<V>)
    requires TargetsFirst(adj, s) && Distinct(s)
    requires forall r :: r in roots ==> r in s
    ensures forall v :: ReachableFrom(adj, roots, v) ==> v in s
    ensures !HasReachableCycle(adj, roots)
  {
    forall v | ReachableFrom(adj, roots, v)
      ensures v in s
    {
      var r :| r in roots && Reaches(adj, r, v);
      var p :| IsWalk(adj, p) && p[0] == r && p[|p| - 1] == v;
      var k :| 0 <= k < |s| && s[k] == r;
      WalkDescends(adj, s, p, k);
    }
    forall p | IsCycle(adj, p) && ReachableFrom(adj, roots, p[0])
      ensures false
    {
      var k :| 0 <= k < |s| && s[k] == p[0];
      WalkDescends(adj, s, p, k);
      var m :| 0 <= m < k && s[m] == p[0];
      DistinctAt(s, m, k);
    }
  }

  lemma ReversedTargetsFirst<V(!new)>(adj: map<V, seq<V>>, s: seq<V>)
    ensures TargetsFirst(adj, s) ==> SourcesFirst(adj, Reversed(s))
    ensures SourcesFirst(adj, s) ==> TargetsFirst(adj, Reversed(s))
  {
    var r := Reversed(s);
    if TargetsFirst(adj, s) {
      forall i, c | 0 <= i < |r| && c in Succ(adj, r[i])
        ensures c in r[i + 1..]
      {
        var n := |s| - 1 - i;
        assert c in s[..n];
        var k :| 0 <= k < n && s[k] == c;
        assert r[i + 1..][|s| - 1 - k - (i + 1)] == c;
      }
    }
    if SourcesFirst(adj, s) {
      forall i, c | 0 <= i < |r| && c in Succ(adj, r[i])
        ensures c in r[..i]
      {
        var n := |s| - 1 - i;
        assert c in s[n + 1..];
        var k :| n + 1 <= k < |s| && s[k] == c;
        assert r[..i][|s| - 1 - k] == c;
      }
    }
  }
}
