// The order in which a depth-first search meets vertices, described without the
// search: by the first path that leads to each of them.
module FirstPaths {
  import opened Seqs
  import opened Walks

  // path picks, in starts and then in one adjacency list after the other, the
  // first vertex that reaches x, until it arrives at x.
  ghost predicate FirstPath<V(!new)>(adj: map<V, seq<V>>, starts: seq<V>, path: seq<nat>, x: V)
    decreases |path|
  {
    && path != [] && path[0] < |starts| && Reaches(adj, starts[path[0]], x)
    && (forall k :: 0 <= k < path[0] ==> !Reaches(adj, starts[k], x))
    && if starts[path[0]] == x then |path| == 1 else FirstPath(adj, Succ(adj, starts[path[0]]), path[1..], x)
  }

  // Lexicographic order; a proper prefix comes first.
  predicate LexBefore(p: seq<nat>, q: seq<nat>) {
    q != [] && (p == [] || p[0] < q[0] || (p[0] == q[0] && LexBefore(p[1..], q[1..])))
  }

  ghost predicate MetBefore<V(!new)>(adj: map<V, seq<V>>, starts: seq<V>, u: V, v: V) {
    exists p, q :: FirstPath(adj, starts, p, u) && FirstPath(adj, starts, q, v) && LexBefore(p, q)
  }

  ghost predicate Unrelated<V(!new)>(adj: map<V, seq<V>>, u: V, v: V) {
    !Reaches(adj, u, v) && !Reaches(adj, v, u)
  }

  // Whether a comes before b in the order the search produces, for any two
  // vertices of an acyclic graph.
  ghost predicate Precedes<V(!new)>(adj: map<V, seq<V>>, starts: seq<V>, a: V, b: V) {
    Reaches(adj, a, b) || (!Reaches(adj, b, a) && MetBefore(adj, starts, b, a))
  }

  ghost predicate Arranged<V(!new)>(adj: map<V, seq<V>>, starts: seq<V>, s: seq<V>) {
    forall i, j :: 0 <= i < j < |s| ==> Precedes(adj, starts, s[i], s[j])
  }

  lemma {:induction false} LexBeforeIsStrict(p: seq<nat>, q: seq<nat>)
    ensures !(LexBefore(p, q) && LexBefore(q, p))
    ensures p == q ==> !LexBefore(p, q)
    decreases |p|
  {
    if p != [] && q != [] { LexBeforeIsStrict(p[1..], q[1..]); }
  }

  lemma {:induction false} FirstPathIsUnique<V(!new)>(adj: map<V, seq<V>>, starts: seq<V>, p: seq<nat>, q: seq<nat>,
                                                      x: V)
    requires FirstPath(adj, starts, p, x) && FirstPath(adj, starts, q, x)
    ensures p == q
    decreases |p|
  {
    assert p[0] == q[0];
    if starts[p[0]] != x {
      FirstPathIsUnique(adj, Succ(adj, starts[p[0]]), p[1..], q[1..], x);
      assert p == [p[0]] + p[1..] && q == [q[0]] + q[1..];
    } else {
      assert p == [p[0]] && q == [q[0]];
    }
  }

  lemma ReachesThrough<V(!new)>(adj: map<V, seq<V>>, u: V, v: V, w: V)
    requires Reaches(adj, u, v) && Reaches(adj, v, w)
    ensures Reaches(adj, u, w)
  {
    var p :| IsWalk(adj, p) && p[0] == u && p[|p| - 1] == v;
    var q :| IsWalk(adj, q) && q[0] == v && q[|q| - 1] == w;
    var r := p + q[1..];
    forall i | 0 <= i < |r| - 1
      ensures r[i + 1] in Succ(adj, r[i])
    {
      if i >= |p| - 1 { assert q[i - (|p| - 1) + 1] in Succ(adj, q[i - (|p| - 1)]); }
    }
    assert IsWalk(adj, r) && r[0] == u && r[|r| - 1] == w;
  }

  // ---------- what lies to the left of a path ----------

  // The vertex a path of indices arrives at.
  ghost predicate LeadsTo<V>(adj: map<V, seq<V>>, starts: seq<V>, path: seq<nat>, stack: seq<V>)
    decreases |path|
  {
    |path| == |stack|
    && (path != [] ==> path[0] < |starts| && starts[path[0]] == stack[0]
                       && LeadsTo(adj, Succ(adj, stack[0]), path[1..], stack[1..]))
  }

  // u can be reached from a vertex passed over to the left of the path; the
  // last index may be past the end of its list.
  ghost predicate LeftOf<V(!new)>(adj: map<V, seq<V>>, starts: seq<V>, path: seq<nat>, u: V)
    decreases |path|
  {
    path != []
    && ((exists k :: 0 <= k < path[0] && k < |starts| && Reaches(adj, starts[k], u))
        || (path[0] < |starts| && LeftOf(adj, Succ(adj, starts[path[0]]), path[1..], u)))
  }

  // Every vertex passed over to the left of the path is in done.
  ghost predicate LeftDone<V(!new)>(adj: map<V, seq<V>>, starts: seq<V>, path: seq<nat>, done: seq<V>)
    decreases |path|
  {
    path != [] ==>
      (forall k :: 0 <= k < path[0] && k < |starts| ==> starts[k] in done)
      && (path[0] < |starts| ==> LeftDone(adj, Succ(adj, starts[path[0]]), path[1..], done))
  }

  lemma {:induction false} LeftDoneGrows<V(!new)>(adj: map<V, seq<V>>, starts: seq<V>, path: seq<nat>, done: seq<V>,
                                                  done': seq<V>)
    requires LeftDone(adj, starts, path, done) && forall x :: x in done ==> x in done'
    ensures LeftDone(adj, starts, path, done')
    decreases |path|
  {
    if path != [] && path[0] < |starts| {
      LeftDoneGrows(adj, Succ(adj, starts[path[0]]), path[1..], done, done');
    }
  }

  // What has been passed over stays passed over one level deeper.
  lemma {:induction false} GoDeeper<V(!new)>(adj: map<V, seq<V>>, starts: seq<V>, path: seq<nat>, i: nat, u: V)
    requires LeftOf(adj, starts, path, u)
    ensures LeftOf(adj, starts, path + [i], u)
    decreases |path|
  {
    assert (path + [i])[1..] == path[1..] + [i];
    if path[0] < |starts| && LeftOf(adj, Succ(adj, starts[path[0]]), path[1..], u) {
      GoDeeper(adj, Succ(adj, starts[path[0]]), path[1..], i, u);
    }
  }

  // The list the next index of a path refers to.
  function Choices<V(==)>(adj: map<V, seq<V>>, starts: seq<V>, stack: seq<V>): seq<V> {
    if stack == [] then starts else Succ(adj, stack[|stack| - 1])
  }

  lemma {:induction false} ExtendPath<V(!new)>(adj: map<V, seq<V>>, starts: seq<V>, path: seq<nat>, stack: seq<V>,
                                               i: nat)
    requires LeadsTo(adj, starts, path, stack) && i < |Choices(adj, starts, stack)|
    ensures LeadsTo(adj, starts, path + [i], stack + [Choices(adj, starts, stack)[i]])
    decreases |path|
  {
    if path != [] {
      ExtendPath(adj, Succ(adj, stack[0]), path[1..], stack[1..], i);
      assert (path + [i])[1..] == path[1..] + [i];
      var v := Choices(adj, starts, stack)[i];
      assert (stack + [v])[1..] == stack[1..] + [v];
    }
  }

  // Moving on by one passes over one more choice.
  lemma {:induction false} PassOver<V(!new)>(adj: map<V, seq<V>>, starts: seq<V>, path: seq<nat>, stack: seq<V>,
                                             i: nat, u: V)
    requires LeadsTo(adj, starts, path, stack) && i < |Choices(adj, starts, stack)|
    requires LeftOf(adj, starts, path + [i], u) || Reaches(adj, Choices(adj, starts, stack)[i], u)
    ensures LeftOf(adj, starts, path + [i + 1], u)
    decreases |path|
  {
    if path != [] {
      assert (path + [i])[1..] == path[1..] + [i];
      assert (path + [i + 1])[1..] == path[1..] + [i + 1];
      if !(exists k :: 0 <= k < path[0] && Reaches(adj, starts[k], u)) {
        PassOver(adj, Succ(adj, stack[0]), path[1..], stack[1..], i, u);
      }
    }
  }

  lemma {:induction false} PassOverDone<V(!new)>(adj: map<V, seq<V>>, starts: seq<V>, path: seq<nat>, stack: seq<V>,
                                                 i: nat, done: seq<V>)
    requires LeadsTo(adj, starts, path, stack) && i < |Choices(adj, starts, stack)|
    requires LeftDone(adj, starts, path + [i], done) && Choices(adj, starts, stack)[i] in done
    ensures LeftDone(adj, starts, path + [i + 1], done)
    decreases |path|
  {
    if path != [] {
      assert (path + [i])[1..] == path[1..] + [i];
      assert (path + [i + 1])[1..] == path[1..] + [i + 1];
      PassOverDone(adj, Succ(adj, stack[0]), path[1..], stack[1..], i, done);
    }
  }

  lemma {:induction false} GoDeeperDone<V(!new)>(adj: map<V, seq<V>>, starts: seq<V>, path: seq<nat>, done: seq<V>)
    requires LeftDone(adj, starts, path, done)
    ensures LeftDone(adj, starts, path + [0], done)
    decreases |path|
  {
    if path != [] {
      assert (path + [0])[1..] == path[1..] + [0];
      if path[0] < |starts| {
        GoDeeperDone(adj, Succ(adj, starts[path[0]]), path[1..], done);
      }
    }
  }

  lemma ClosedUnderReaching<V(!new)>(adj: map<V, seq<V>>, done: seq<V>, u: V, v: V)
    requires TargetsFirst(adj, done) && Distinct(done) && u in done && Reaches(adj, u, v)
    ensures v in done
  {
    var p :| IsWalk(adj, p) && p[0] == u && p[|p| - 1] == v;
    var k :| 0 <= k < |done| && done[k] == u;
    WalkDescends(adj, done, p, k);
  }

  lemma {:induction false} StackIsAWalk<V(!new)>(adj: map<V, seq<V>>, starts: seq<V>, path: seq<nat>, stack: seq<V>)
    requires LeadsTo(adj, starts, path, stack) && stack != []
    ensures IsWalk(adj, stack)
    decreases |path|
  {
    if |stack| > 1 {
      StackIsAWalk(adj, Succ(adj, stack[0]), path[1..], stack[1..]);
      assert stack[1] in Succ(adj, stack[0]);
      forall i | 0 <= i < |stack| - 1
        ensures stack[i + 1] in Succ(adj, stack[i])
      {
        if i > 0 { assert stack[1..][i] in Succ(adj, stack[1..][i - 1]); }
      }
    }
  }

  // When everything to the left is done and the vertex at the end is not, the
  // path is that vertex's first path.
  lemma StackIsFirstPath<V(!new)>(adj: map<V, seq<V>>, starts: seq<V>, path: seq<nat>, stack: seq<V>, done: seq<V>)
    requires LeadsTo(adj, starts, path, stack) && LeftDone(adj, starts, path, done) && path != []
    requires Distinct(stack) && TargetsFirst(adj, done) && Distinct(done) && stack[|stack| - 1] !in done
    ensures FirstPath(adj, starts, path, stack[|stack| - 1])
    decreases |path|
  {
    hide TargetsFirst;
    var x := stack[|stack| - 1];
    StackIsAWalk(adj, starts, path, stack);
    assert Reaches(adj, starts[path[0]], x);
    forall k | 0 <= k < path[0]
      ensures !Reaches(adj, starts[k], x)
    {
      if Reaches(adj, starts[k], x) { ClosedUnderReaching(adj, done, starts[k], x); }
    }
    if |stack| > 1 {
      DistinctAt(stack, 0, |stack| - 1);
      DistinctSplit(stack, 1);
      StackIsFirstPath(adj, Succ(adj, stack[0]), path[1..], stack[1..], done);
    }
  }

  lemma {:induction false} LeftIsBelow<V(!new)>(adj: map<V, seq<V>>, v: V, path: seq<nat>, u: V)
    requires LeftOf(adj, Succ(adj, v), path, u)
    ensures Reaches(adj, v, u)
    decreases |path|
  {
    var children := Succ(adj, v);
    ReachesItself(adj, v);
    if exists k :: 0 <= k < path[0] && k < |children| && Reaches(adj, children[k], u) {
      var k :| 0 <= k < path[0] && k < |children| && Reaches(adj, children[k], u);
      WalkExtends(adj, v, v, children[k]);
      ReachesThrough(adj, v, children[k], u);
    } else {
      LeftIsBelow(adj, children[path[0]], path[1..], u);
      WalkExtends(adj, v, v, children[path[0]]);
      ReachesThrough(adj, v, children[path[0]], u);
    }
  }

  // A vertex to the left of x's first path is met before x.
  lemma {:induction false} LeftIsMetBefore<V(!new)>(adj: map<V, seq<V>>, starts: seq<V>, p: seq<nat>, u: V,
                                                    q: seq<nat>, x: V)
    requires FirstPath(adj, starts, p, u) && FirstPath(adj, starts, q, x)
    requires LeftOf(adj, starts, q, u) && !Reaches(adj, u, x)
    ensures LexBefore(p, q)
    decreases |p|
  {
    if !(exists k :: 0 <= k < q[0] && Reaches(adj, starts[k], u)) {
      var next := starts[q[0]];
      LeftIsBelow(adj, next, q[1..], u);
      assert p[0] == q[0];
      LeftIsMetBefore(adj, Succ(adj, next), p[1..], u, q[1..], x);
    }
  }

  // ---------- the chart of a search ----------

  ghost predicate HasFirstPath<V(!new)>(adj: map<V, seq<V>>, starts: seq<V>, x: V) {
    exists p :: FirstPath(adj, starts, p, x)
  }

  // Finished vertices, in the order they were finished in.
  ghost predicate FinishOrder<V(!new)>(adj: map<V, seq<V>>, starts: seq<V>, done: seq<V>) {
    forall i, j :: 0 <= i < j < |done| ==> Precedes(adj, starts, done[j], done[i])
  }

  // Where a search stands: stack was entered along path, choice i is next, and
  // everything finished lies to the left.
  ghost predicate Chart<V(!new)>(adj: map<V, seq<V>>, starts: seq<V>, path: seq<nat>, stack: seq<V>, done: seq<V>,
                                 i: nat)
  {
    && LeadsTo(adj, starts, path, stack)
    && LeftDone(adj, starts, path + [i], done)
    && (forall u :: u in done ==> LeftOf(adj, starts, path + [i], u) && HasFirstPath(adj, starts, u))
    && FinishOrder(adj, starts, done)
  }

  lemma ChartStart<V(!new)>(adj: map<V, seq<V>>, starts: seq<V>)
    ensures Chart(adj, starts, [], [], [], 0)
  {
    assert ([] + [0])[1..] == [];
  }

  lemma ChartEnter<V(!new)>(adj: map<V, seq<V>>, starts: seq<V>, path: seq<nat>, stack: seq<V>, done: seq<V>, i: nat)
    requires Chart(adj, starts, path, stack, done, i) && i < |Choices(adj, starts, stack)|
    ensures Chart(adj, starts, path + [i], stack + [Choices(adj, starts, stack)[i]], done, 0)
  {
    hide LeadsTo, LeftDone, LeftOf, HasFirstPath, FinishOrder;
    ExtendPath(adj, starts, path, stack, i);
    GoDeeperDone(adj, starts, path + [i], done);
    forall u | u in done
      ensures LeftOf(adj, starts, path + [i] + [0], u)
    {
      GoDeeper(adj, starts, path + [i], 0, u);
    }
  }

  lemma ChartSkip<V(!new)>(adj: map<V, seq<V>>, starts: seq<V>, path: seq<nat>, stack: seq<V>, done: seq<V>, i: nat)
    requires Chart(adj, starts, path, stack, done, i) && i < |Choices(adj, starts, stack)|
    requires Choices(adj, starts, stack)[i] in done
    ensures Chart(adj, starts, path, stack, done, i + 1)
  {
    hide LeadsTo, LeftDone, LeftOf, HasFirstPath, FinishOrder;
    PassOverDone(adj, starts, path, stack, i, done);
    forall u | u in done
      ensures LeftOf(adj, starts, path + [i + 1], u)
    {
      PassOver(adj, starts, path, stack, i, u);
    }
  }

  // Everything finished when v is discovered comes after v in the result.
  lemma Discovered<V(!new)>(adj: map<V, seq<V>>, starts: seq<V>, path: seq<nat>, stack: seq<V>, done: seq<V>, i: nat,
                            v: V)
    requires Chart(adj, starts, path, stack, done, i)
    requires i < |Choices(adj, starts, stack)| && v == Choices(adj, starts, stack)[i]
    requires Distinct(stack + [v]) && TargetsFirst(adj, done) && Distinct(done) && v !in done
    ensures HasFirstPath(adj, starts, v)
    ensures forall u :: u in done ==> Precedes(adj, starts, v, u)
  {
    hide LeadsTo, LeftDone, LeftOf, FirstPath, FinishOrder, LexBefore, TargetsFirst, Reaches;
    ExtendPath(adj, starts, path, stack, i);
    StackIsFirstPath(adj, starts, path + [i], stack + [v], done);
    forall u | u in done
      ensures Precedes(adj, starts, v, u)
    {
      if Reaches(adj, u, v) { ClosedUnderReaching(adj, done, u, v); }
      var p :| FirstPath(adj, starts, p, u);
      LeftIsMetBefore(adj, starts, p, u, path + [i], v);
    }
  }

  lemma FinishNext<V(!new)>(adj: map<V, seq<V>>, starts: seq<V>, done: seq<V>, v: V)
    requires FinishOrder(adj, starts, done) && forall u :: u in done ==> Precedes(adj, starts, v, u)
    ensures FinishOrder(adj, starts, done + [v])
  {
    hide Precedes;
  }

  lemma ChartLeave<V(!new)>(adj: map<V, seq<V>>, starts: seq<V>, path: seq<nat>, stack: seq<V>, done: seq<V>,
                            done': seq<V>, i: nat, n: nat, v: V)
    requires Chart(adj, starts, path, stack, done, i)
    requires i < |Choices(adj, starts, stack)| && v == Choices(adj, starts, stack)[i]
    requires HasFirstPath(adj, starts, v) && forall u :: u in done ==> Precedes(adj, starts, v, u)
    requires Chart(adj, starts, path + [i], stack + [v], done', n)
    requires done <= done' && forall u :: u in done' ==> u in done || Reaches(adj, v, u)
    ensures Chart(adj, starts, path, stack, done' + [v], i + 1)
  {
    hide LeadsTo, LeftDone, LeftOf, HasFirstPath, FinishOrder, Reaches, MetBefore;
    var all := done' + [v];
    assert forall u :: u in done ==> u in all;
    LeftDoneGrows(adj, starts, path + [i], done, all);
    assert v in all;
    PassOverDone(adj, starts, path, stack, i, all);
    ReachesItself(adj, v);
    forall u | u in all
      ensures LeftOf(adj, starts, path + [i + 1], u)
    {
      PassOver(adj, starts, path, stack, i, u);
    }
    FinishNext(adj, starts, done', v);
  }

  lemma ChartEnd<V(!new)>(adj: map<V, seq<V>>, starts: seq<V>, done: seq<V>, i: nat)
    requires Chart(adj, starts, [], [], done, i)
    ensures FinishOrder(adj, starts, done) && Arranged(adj, starts, Reversed(done))
    ensures forall v :: v in done ==> HasFirstPath(adj, starts, v)
  {
    hide Precedes, HasFirstPath;
  }

  // ---------- what the arrangement says ----------

  // Unrelated vertices come out in the opposite order of their first paths.
  lemma {:induction false} OrderOfUnrelated<V(!new)>(adj: map<V, seq<V>>, starts: seq<V>, s: seq<V>, i: nat, j: nat,
                                                     p: seq<nat>, q: seq<nat>)
    requires Arranged(adj, starts, s) && i < |s| && j < |s| && i != j
    requires Unrelated(adj, s[i], s[j]) && FirstPath(adj, starts, p, s[i]) && FirstPath(adj, starts, q, s[j])
    ensures i < j <==> LexBefore(q, p)
  {
    hide FirstPath, Reaches;
    var a, b := if i < j then i else j, if i < j then j else i;
    assert Precedes(adj, starts, s[a], s[b]);
    var x, y :| FirstPath(adj, starts, x, s[b]) && FirstPath(adj, starts, y, s[a]) && LexBefore(x, y);
    if i < j {
      FirstPathIsUnique(adj, starts, x, q, s[j]);
      FirstPathIsUnique(adj, starts, y, p, s[i]);
    } else {
      FirstPathIsUnique(adj, starts, x, p, s[i]);
      FirstPathIsUnique(adj, starts, y, q, s[j]);
      LexBeforeIsStrict(p, q);
    }
  }

  // If the first starting points that lead to them differ, the later one wins.
  lemma {:induction false} LaterStartComesFirst<V(!new)>(adj: map<V, seq<V>>, starts: seq<V>, s: seq<V>, i: nat,
                                                         j: nat, p: seq<nat>, q: seq<nat>)
    requires Arranged(adj, starts, s) && i < |s| && j < |s| && i != j
    requires Unrelated(adj, s[i], s[j]) && FirstPath(adj, starts, p, s[i]) && FirstPath(adj, starts, q, s[j])
    requires p[0] != q[0]
    ensures i < j <==> q[0] < p[0]
  {
    hide Reaches, Arranged, Unrelated;
    OrderOfUnrelated(adj, starts, s, i, j, p, q);
  }

  // Unrelated starting points keep their relative order.
  ghost predicate KeepsOrder<V(!new)>(adj: map<V, seq<V>>, starts: seq<V>, s: seq<V>) {
    forall i, j, a, b ::
      (0 <= i < j < |starts| && 0 <= a < |s| && 0 <= b < |s| && s[a] == starts[i] && s[b] == starts[j]
       && Unrelated(adj, starts[i], starts[j])) ==> a < b
  }

  // They do, all of them, exactly when of any two the later one is met first.
  lemma KeepsOrderExactlyWhen<V(!new)>(adj: map<V, seq<V>>, starts: seq<V>, s: seq<V>)
    requires Arranged(adj, starts, s) && Distinct(starts) && forall v :: v in starts ==> v in s
    ensures KeepsOrder(adj, starts, s)
            <==> forall i, j :: 0 <= i < j < |starts| && Unrelated(adj, starts[i], starts[j]) ==>
                   MetBefore(adj, starts, starts[j], starts[i])
  {
    forall i, j, a, b | 0 <= i < j < |starts| && 0 <= a < |s| && 0 <= b < |s| && s[a] == starts[i] && s[b] == starts[j]
                        && Unrelated(adj, starts[i], starts[j])
      ensures a < b <==> MetBefore(adj, starts, starts[j], starts[i])
    {
      DistinctAt(starts, i, j);
      UnrelatedByMeeting(adj, starts, s, a, b);
    }
    if KeepsOrder(adj, starts, s) {
      forall i, j | 0 <= i < j < |starts| && Unrelated(adj, starts[i], starts[j])
        ensures MetBefore(adj, starts, starts[j], starts[i])
      {
        assert starts[i] in s && starts[j] in s;
        var a :| 0 <= a < |s| && s[a] == starts[i];
        var b :| 0 <= b < |s| && s[b] == starts[j];
      }
    }
  }

  lemma UnrelatedByMeeting<V(!new)>(adj: map<V, seq<V>>, starts: seq<V>, s: seq<V>, a: nat, b: nat)
    requires Arranged(adj, starts, s) && a < |s| && b < |s| && s[a] != s[b] && Unrelated(adj, s[a], s[b])
    ensures a < b <==> MetBefore(adj, starts, s[b], s[a])
  {
    hide FirstPath, Reaches;
    if a < b {
      assert Precedes(adj, starts, s[a], s[b]);
    } else {
      assert Precedes(adj, starts, s[b], s[a]);
      if MetBefore(adj, starts, s[b], s[a]) {
        var p, q :| FirstPath(adj, starts, p, s[b]) && FirstPath(adj, starts, q, s[a]) && LexBefore(p, q);
        OrderOfUnrelated(adj, starts, s, b, a, p, q);
        LexBeforeIsStrict(p, q);
      }
    }
  }

  // ---------- two small graphs ----------

  const ADDED := ['A', 'B', 'C']
  const APART := map['A' := ['B'], 'B' := [], 'C' := []]
  const FORK := map['A' := ['C', 'B'], 'B' := [], 'C' := []]

  // Nothing outside a closed list can be reached from inside.
  lemma OnlyInside(adj: map<char, seq<char>>, done: seq<char>)
    requires TargetsFirst(adj, done) && Distinct(done)
    ensures forall u, v :: u in done && v !in done ==> !Reaches(adj, u, v)
  {
    forall u, v | u in done && v !in done
      ensures !Reaches(adj, u, v)
    {
      if Reaches(adj, u, v) { ClosedUnderReaching(adj, done, u, v); }
    }
  }

  lemma LeafIsClosed(adj: map<char, seq<char>>, leaf: char)
    requires Succ(adj, leaf) == []
    ensures forall v :: v != leaf ==> !Reaches(adj, leaf, v)
  {
    assert leaf in [leaf];
    OnlyInside(adj, [leaf]);
  }

  // A -> B, with C isolated and added last: C comes before A.
  lemma OrderIsNotKept(s: seq<char>)
    requires Arranged(APART, ADDED, s) && forall v :: v in ADDED ==> v in s
    ensures !KeepsOrder(APART, ADDED, s)
  {
    ApartPaths();
    hide Reaches, FirstPath, Arranged, Unrelated, LexBefore;
    assert ADDED[0] == 'A' && ADDED[2] == 'C' && ADDED[0] in s && ADDED[2] in s;
    var a :| 0 <= a < |s| && s[a] == 'A';
    var c :| 0 <= c < |s| && s[c] == 'C';
    LaterStartComesFirst(APART, ADDED, s, a, c, [0], [2]);
  }

  lemma ApartPaths()
    ensures Unrelated(APART, 'A', 'C')
    ensures FirstPath(APART, ADDED, [0], 'A') && FirstPath(APART, ADDED, [2], 'C')
  {
    LeafIsClosed(APART, 'B');
    LeafIsClosed(APART, 'C');
    var done := ['B', 'A'];
    assert done[..1] == ['B'] && done[0] == 'B' && done[1] == 'A';
    assert Differ(done, 0, 1);
    assert TargetsFirst(APART, done);
    OnlyInside(APART, done);
    assert 'A' in done && 'C' !in done;
    ReachesItself(APART, 'A');
    ReachesItself(APART, 'C');
    hide Reaches;
  }

  // A -> C and A -> B in this order: B and C keep theirs.
  lemma OrderIsKept(s: seq<char>)
    requires Arranged(FORK, ADDED, s) && forall v :: v in ADDED ==> v in s
    ensures Unrelated(FORK, 'B', 'C') && KeepsOrder(FORK, ADDED, s)
  {
    ForkPaths();
    hide FirstPath, Arranged, LexBefore;
    assert ADDED[0] == 'A' && ADDED[1] == 'B' && ADDED[2] == 'C';
    assert Distinct(ADDED) by { assert Differ(ADDED, 0, 1) && Differ(ADDED, 0, 2) && Differ(ADDED, 1, 2); }
    assert MetBefore(FORK, ADDED, 'C', 'B');
    hide Reaches, MetBefore;
    KeepsOrderExactlyWhen(FORK, ADDED, s);
  }

  lemma ForkPaths()
    ensures Unrelated(FORK, 'B', 'C') && Reaches(FORK, 'A', 'B') && Reaches(FORK, 'A', 'C')
    ensures FirstPath(FORK, ADDED, [0, 1], 'B') && FirstPath(FORK, ADDED, [0, 0], 'C') && LexBefore([0, 0], [0, 1])
  {
    LeafIsClosed(FORK, 'B');
    LeafIsClosed(FORK, 'C');
    ReachesItself(FORK, 'A');
    ReachesItself(FORK, 'B');
    ReachesItself(FORK, 'C');
    WalkExtends(FORK, 'A', 'A', 'B');
    WalkExtends(FORK, 'A', 'A', 'C');
    hide Reaches;
    var children := Succ(FORK, 'A');
    assert children[0] == 'C' && children[1] == 'B';
    assert FirstPath(FORK, children, [1], 'B') && FirstPath(FORK, children, [0], 'C');
    assert [0, 1][1..] == [1] && [0, 0][1..] == [0];
  }
}
