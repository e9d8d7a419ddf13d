// Which result a depth-first search returns: there is only one order it can
// produce, and of several cycles it reports the one its first path closes.
module FirstCycles {
  import opened Seqs
  import opened Walks
  import opened FirstPaths

  // ---------- one order ----------

  // Two vertices of an acyclic graph cannot precede each other.
  lemma PrecedesOneWay<V(!new)>(adj: map<V, seq<V>>, starts: seq<V>, u: V, v: V)
    requires u != v && !HasReachableCycle(adj, starts) && ReachableFrom(adj, starts, u)
    ensures !(Precedes(adj, starts, u, v) && Precedes(adj, starts, v, u))
  {
    if Reaches(adj, u, v) && Reaches(adj, v, u) { BothWaysIsCycle(adj, u, v); }
    if MetBefore(adj, starts, u, v) && MetBefore(adj, starts, v, u) {
      hide FirstPath;
      var p, q :| FirstPath(adj, starts, p, u) && FirstPath(adj, starts, q, v) && LexBefore(p, q);
      var p', q' :| FirstPath(adj, starts, q', v) && FirstPath(adj, starts, p', u) && LexBefore(q', p');
      FirstPathIsUnique(adj, starts, p, p', u);
      FirstPathIsUnique(adj, starts, q, q', v);
      LexBeforeIsStrict(p, q);
    }
  }

  lemma BothWaysIsCycle<V(!new)>(adj: map<V, seq<V>>, u: V, v: V)
    requires u != v && Reaches(adj, u, v) && Reaches(adj, v, u)
    ensures exists p :: IsCycle(adj, p) && p[0] == u
  {
    var p :| IsWalk(adj, p) && p[0] == u && p[|p| - 1] == v;
    var q :| IsWalk(adj, q) && q[0] == v && q[|q| - 1] == u;
    var r := p + q[1..];
    forall i | 0 <= i < |r| - 1
      ensures r[i + 1] in Succ(adj, r[i])
    {
      if i >= |p| - 1 { assert q[i - (|p| - 1) + 1] in Succ(adj, q[i - (|p| - 1)]); }
    }
    assert IsCycle(adj, r) && r[0] == u;
  }

  // Two lists of the same vertices, arranged by the same graph, are equal.
  lemma {:induction false} ArrangedIsUnique<V(!new)>(adj: map<V, seq<V>>, starts: seq<V>, s: seq<V>, t: seq<V>)
    requires !HasReachableCycle(adj, starts) && forall v :: v in s ==> ReachableFrom(adj, starts, v)
    requires Arranged(adj, starts, s) && Arranged(adj, starts, t) && Distinct(s) && Distinct(t)
    requires forall v :: v in s <==> v in t
    ensures s == t
  {
    hide Precedes, HasReachableCycle, ReachableFrom;
    if s != [] {
      assert s[0] in t;
      assert t[0] in s;
      var i :| 0 <= i < |s| && s[i] == t[0];
      var j :| 0 <= j < |t| && t[j] == s[0];
      assert i > 0 ==> Precedes(adj, starts, s[0], s[i]);
      assert j > 0 ==> Precedes(adj, starts, t[0], t[j]);
      if s[0] != t[0] { PrecedesOneWay(adj, starts, s[0], t[0]); }
      TailOfDistinct(s);
      TailOfDistinct(t);
      ArrangedTail(adj, starts, s);
      ArrangedTail(adj, starts, t);
      hide Arranged, Distinct;
      ArrangedIsUnique(adj, starts, s[1..], t[1..]);
      assert s == [s[0]] + s[1..] && t == [t[0]] + t[1..];
    } else if t != [] {
      HasMember(t);
    }
  }

  lemma TailOfDistinct<T>(s: seq<T>)
    requires Distinct(s) && s != []
    ensures Distinct(s[1..]) && forall x :: x in s[1..] <==> x in s && x != s[0]
  {
    DistinctSplit(s, 1);
    assert s == s[..1] + s[1..] && s[0] in s[..1];
  }

  lemma ArrangedTail<V(!new)>(adj: map<V, seq<V>>, starts: seq<V>, s: seq<V>)
    requires Arranged(adj, starts, s) && s != []
    ensures Arranged(adj, starts, s[1..])
  {
    hide Precedes;
  }

  // ---------- one cycle ----------

  // A path of choices whose vertices are distinct until it returns to one of them.
  ghost predicate Closing<V(!new)>(adj: map<V, seq<V>>, starts: seq<V>, path: seq<nat>, stack: seq<V>) {
    ClosingAfter(adj, [], starts, path, stack)
  }

  // The same as the continuation of the vertices pre.
  ghost predicate ClosingAfter<V(!new)>(adj: map<V, seq<V>>, pre: seq<V>, starts: seq<V>, path: seq<nat>,
                                        stack: seq<V>)
  {
    && stack != [] && LeadsTo(adj, starts, path, stack)
    && var inner := stack[..|stack| - 1];
    Distinct(pre + inner) && stack[|stack| - 1] in pre + inner
  }

  // The lexicographically first of them.
  ghost predicate FirstClosing<V(!new)>(adj: map<V, seq<V>>, starts: seq<V>, path: seq<nat>, stack: seq<V>) {
    Closing(adj, starts, path, stack)
    && forall path', stack' :: Closing(adj, starts, path', stack') ==> path == path' || LexBefore(path, path')
  }

  ghost predicate Closes<V(!new)>(stack: seq<V>, cycle: seq<V>) {
    exists c :: 0 <= c < |stack| - 1 && stack[c] == stack[|stack| - 1] && cycle == stack[c..]
  }

  ghost predicate FirstCycle<V(!new)>(adj: map<V, seq<V>>, starts: seq<V>, cycle: seq<V>) {
    exists path, stack :: FirstClosing(adj, starts, path, stack) && Closes(stack, cycle)
  }

  lemma {:induction false} PathLeadsToOne<V(!new)>(adj: map<V, seq<V>>, starts: seq<V>, path: seq<nat>, s: seq<V>,
                                                   t: seq<V>)
    requires LeadsTo(adj, starts, path, s) && LeadsTo(adj, starts, path, t)
    ensures s == t
    decreases |path|
  {
    if path != [] {
      PathLeadsToOne(adj, Succ(adj, s[0]), path[1..], s[1..], t[1..]);
      assert s == [s[0]] + s[1..] && t == [t[0]] + t[1..];
    }
  }

  // The cycle a search reports is determined by the graph.
  lemma FirstCycleIsUnique<V(!new)>(adj: map<V, seq<V>>, starts: seq<V>, a: seq<V>, b: seq<V>)
    requires FirstCycle(adj, starts, a) && FirstCycle(adj, starts, b)
    ensures a == b
  {
    hide LeadsTo, LexBefore, Distinct, Closes;
    var p, s :| FirstClosing(adj, starts, p, s) && Closes(s, a);
    var q, t :| FirstClosing(adj, starts, q, t) && Closes(t, b);
    LexBeforeIsStrict(p, q);
    PathLeadsToOne(adj, starts, p, s, t);
    OneCycleCloses(s, a, b);
  }

  lemma OneCycleCloses<V(!new)>(stack: seq<V>, a: seq<V>, b: seq<V>)
    requires Closes(stack, a) && Closes(stack, b) && Distinct([] + stack[..|stack| - 1])
    ensures a == b
  {
    hide Distinct;
    var inner := stack[..|stack| - 1];
    assert [] + inner == inner;
    var c :| 0 <= c < |stack| - 1 && stack[c] == stack[|stack| - 1] && a == stack[c..];
    var d :| 0 <= d < |stack| - 1 && stack[d] == stack[|stack| - 1] && b == stack[d..];
    assert inner[c] == inner[d];
    if c < d { DistinctAt(inner, c, d); } else if d < c { DistinctAt(inner, d, c); }
  }

  // No walk leaves a finished list or returns to a vertex of it.
  lemma FinishedIsOpen<V(!new)>(adj: map<V, seq<V>>, starts: seq<V>, path: seq<nat>, stack: seq<V>, done: seq<V>)
    requires LeadsTo(adj, starts, path, stack) && stack != [] && stack[0] in done
    requires TargetsFirst(adj, done) && Distinct(done)
    ensures var last := stack[|stack| - 1]; last in done && last !in stack[..|stack| - 1]
  {
    hide TargetsFirst, LeadsTo, Distinct;
    var last := stack[|stack| - 1];
    StackIsAWalk(adj, starts, path, stack);
    assert Reaches(adj, stack[0], last);
    ClosedUnderReaching(adj, done, stack[0], last);
    if last in stack[..|stack| - 1] {
      var j :| 0 <= j < |stack| - 1 && stack[j] == last;
      var loop := stack[j..];
      assert IsWalk(adj, loop) by {
        forall i | 0 <= i < |loop| - 1 ensures loop[i + 1] in Succ(adj, loop[i]) {
          assert stack[j + i + 1] in Succ(adj, stack[j + i]);
        }
      }
      var k :| 0 <= k < |done| && done[k] == last;
      WalkDescends(adj, done, loop, k);
      var m :| 0 <= m < k && done[m] == last;
      DistinctAt(done, m, k);
    }
  }

  // With everything to the left finished, no closing path comes earlier.
  lemma {:induction false} NoneClosesEarlier<V(!new)>(
    adj: map<V, seq<V>>, pre: seq<V>, starts: seq<V>, path: seq<nat>, stack: seq<V>, done: seq<V>,
    path': seq<nat>, stack': seq<V>)
    requires ClosingAfter(adj, pre, starts, path, stack) && ClosingAfter(adj, pre, starts, path', stack')
    requires LeftDone(adj, starts, path, done) && TargetsFirst(adj, done) && Distinct(done)
    requires forall v :: v in pre ==> v !in done
    requires forall v :: v in stack ==> v !in done
    ensures path == path' || LexBefore(path, path')
    decreases |path|
  {
    hide TargetsFirst;
    if path'[0] < path[0] {
      assert stack'[0] in done;
      FinishedIsOpen(adj, starts, path', stack', done);
    } else if path'[0] == path[0] {
      var v := stack[0];
      var inner, inner' := stack[..|stack| - 1], stack'[..|stack'| - 1];
      NotBefore(pre, inner);
      NotBefore(pre, inner');
      assert inner != [] ==> inner[0] == v;
      assert inner' != [] ==> inner'[0] == v;
      if |stack| == 1 || |stack'| == 1 {
        assert pre + [] == pre;
        assert |stack| == |stack'|;
        assert path == [path[0]] && path' == [path'[0]];
      } else {
        ClosingTail(adj, pre, starts, path, stack);
        ClosingTail(adj, pre, starts, path', stack');
        NoneClosesEarlier(adj, pre + [v], Succ(adj, v), path[1..], stack[1..], done, path'[1..], stack'[1..]);
        assert path == [path[0]] + path[1..] && path' == [path'[0]] + path'[1..];
      }
    }
  }

  lemma NotBefore<T>(pre: seq<T>, inner: seq<T>)
    requires Distinct(pre + inner)
    ensures inner != [] ==> inner[0] !in pre
  {
    if inner != [] {
      DistinctSplit(pre + inner, |pre|);
      assert (pre + inner)[..|pre|] == pre && (pre + inner)[|pre|..] == inner;
    }
  }

  lemma ClosingTail<V(!new)>(adj: map<V, seq<V>>, pre: seq<V>, starts: seq<V>, path: seq<nat>, stack: seq<V>)
    requires ClosingAfter(adj, pre, starts, path, stack) && |stack| > 1
    ensures ClosingAfter(adj, pre + [stack[0]], Succ(adj, stack[0]), path[1..], stack[1..])
  {
    hide Distinct;
    var inner := stack[..|stack| - 1];
    assert stack[1..][..|stack[1..]| - 1] == inner[1..];
    assert (pre + [stack[0]]) + inner[1..] == pre + inner;
  }

  // When the search finds a choice on its stack, that closes the first cycle.
  lemma ChartCloses<V(!new)>(adj: map<V, seq<V>>, starts: seq<V>, path: seq<nat>, stack: seq<V>, done: seq<V>, i: nat)
    requires Chart(adj, starts, path, stack, done, i) && i < |Choices(adj, starts, stack)|
    requires Choices(adj, starts, stack)[i] in stack && Distinct(stack)
    requires TargetsFirst(adj, done) && Distinct(done) && forall v :: v in stack ==> v !in done
    ensures FirstClosing(adj, starts, path + [i], stack + [Choices(adj, starts, stack)[i]])
  {
    hide TargetsFirst, LeadsTo, LeftDone, Distinct, LexBefore;
    var p, s := path + [i], stack + [Choices(adj, starts, stack)[i]];
    ExtendPath(adj, starts, path, stack, i);
    assert s[..|s| - 1] == stack && [] + stack == stack;
    forall p', s' | Closing(adj, starts, p', s')
      ensures p == p' || LexBefore(p, p')
    {
      NoneClosesEarlier(adj, [], starts, p, s, done, p', s');
    }
  }
}
