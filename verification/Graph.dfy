// internal/structure/graph.go: a directed graph with deterministic adjacency
// lists, and a depth-first search that yields either an order or a cycle.
module Graphs {
  import opened Seqs
  import opened Walks
  import opened FirstPaths
  import opened FirstCycles

  datatype Colour = Unvisited | Visiting | Visited

  function ColourOf<V(==)>(state: map<V, Colour>, v: V): Colour {
    if v in state then state[v] else Unvisited
  }

  // Grey vertices are exactly the call stack, which is one parent chain.
  ghost predicate GreyChain<V(!new)>(adj: map<V, seq<V>>, state: map<V, Colour>, parent: map<V, V>, stack: seq<V>) {
    && Distinct(stack)
    && (forall v :: ColourOf(state, v) == Visiting <==> v in stack)
    && forall i, j :: 0 <= i < j < |stack| && j == i + 1 ==> Linked(adj, parent, stack[i], stack[j])
  }

  ghost predicate Linked<V(!new)>(adj: map<V, seq<V>>, parent: map<V, V>, u: V, v: V) {
    v in Succ(adj, u) && v in parent && parent[v] == u
  }

  // Black vertices are exactly the post-order list, targets first.
  ghost predicate BlackList<V(!new)>(adj: map<V, seq<V>>, state: map<V, Colour>, order: seq<V>) {
    && Distinct(order)
    && (forall v :: ColourOf(state, v) == Visited <==> v in order)
    && TargetsFirst(adj, order)
  }

  lemma UnvisitedIsNew<V(!new)>(adj: map<V, seq<V>>, state: map<V, Colour>, parent: map<V, V>, stack: seq<V>,
                                order: seq<V>, v: V)
    requires GreyChain(adj, state, parent, stack) && BlackList(adj, state, order)
    requires ColourOf(state, v) == Unvisited
    ensures v !in stack && v !in order
  {
  }

  lemma EnterKeepsChain<V(!new)>(adj: map<V, seq<V>>, state: map<V, Colour>, parent: map<V, V>, stack: seq<V>,
                                 order: seq<V>, v: V)
    requires GreyChain(adj, state, parent, stack) && BlackList(adj, state, order)
    requires ColourOf(state, v) == Unvisited
    requires stack != [] ==> Linked(adj, parent, stack[|stack| - 1], v)
    ensures GreyChain(adj, state[v := Visiting], parent, stack + [v])
    ensures BlackList(adj, state[v := Visiting], order)
  {
    var state' := state[v := Visiting];
    assert forall u :: u != v ==> ColourOf(state', u) == ColourOf(state, u);
    assert ColourOf(state', v) == Visiting;
    DistinctAppend(stack, v);
  }

  lemma LeaveKeepsLists<V(!new)>(adj: map<V, seq<V>>, state: map<V, Colour>, parent: map<V, V>, stack: seq<V>,
                                 order: seq<V>, v: V)
    requires GreyChain(adj, state, parent, stack + [v]) && BlackList(adj, state, order)
    requires forall c :: c in Succ(adj, v) ==> c in order
    ensures GreyChain(adj, state[v := Visited], parent, stack)
    ensures BlackList(adj, state[v := Visited], order + [v])
  {
    var state', grey, order' := state[v := Visited], stack + [v], order + [v];
    assert forall u :: u != v ==> ColourOf(state', u) == ColourOf(state, u);
    assert grey[|stack|] == v && v in grey;
    DistinctAppend(stack, v);
    DistinctAppend(order, v);
    assert forall i :: 0 <= i < |stack| ==> grey[i] == stack[i];
    forall i, c | 0 <= i < |order'| && c in Succ(adj, order'[i])
      ensures c in order'[..i]
    {
      assert order'[..i] == order[..i];
      assert order[..|order|] == order;
    }
  }

  // Re-parenting an undiscovered child does not touch the chain.
  lemma LinkKeepsChain<V(!new)>(adj: map<V, seq<V>>, state: map<V, Colour>, parent: map<V, V>, stack: seq<V>, u: V,
                                child: V)
    requires GreyChain(adj, state, parent, stack)
    requires ColourOf(state, child) == Unvisited && child in Succ(adj, u)
    ensures GreyChain(adj, state, parent[child := u], stack)
    ensures Linked(adj, parent[child := u], u, child)
  {
    assert child !in stack;
  }

  // Vertices that can ever be discovered.
  ghost function Universe<V>(adj: map<V, seq<V>>, roots: seq<V>): set<V> {
    ToSet(roots) + set u, c | u in adj && c in adj[u] :: c
  }

  ghost predicate Discoverable<V(!new)>(adj: map<V, seq<V>>, roots: seq<V>, v: V) {
    v in Universe(adj, roots) && ReachableFrom(adj, roots, v)
  }

  lemma ChildIsDiscoverable<V(!new)>(adj: map<V, seq<V>>, roots: seq<V>, v: V, child: V)
    requires Discoverable(adj, roots, v) && child in Succ(adj, v)
    ensures Discoverable(adj, roots, child)
  {
    var r :| r in roots && Reaches(adj, r, v);
    WalkExtends(adj, r, v, child);
  }

  lemma DiscoveryShrinks<V(!new)>(adj: map<V, seq<V>>, roots: seq<V>, stack: seq<V>, order: seq<V>, order': seq<V>,
                                  v: V)
    requires Discoverable(adj, roots, v) && v !in stack && v !in order && order <= order'
    ensures Universe(adj, roots) - ToSet(stack + [v]) - ToSet(order')
            < Universe(adj, roots) - ToSet(stack) - ToSet(order)
  {
    hide Universe;
    var all := Universe(adj, roots);
    assert v in stack + [v];
    assert forall x :: x in stack ==> x in stack + [v];
    assert forall x :: x in order ==> x in order';
    assert v in all - ToSet(stack) - ToSet(order);
  }

  lemma DiscoveryKeepsShrinking<V(!new)>(adj: map<V, seq<V>>, roots: seq<V>, stack: seq<V>, order: seq<V>,
                                         order': seq<V>)
    requires order <= order'
    ensures Universe(adj, roots) - ToSet(stack) - ToSet(order') <= Universe(adj, roots) - ToSet(stack) - ToSet(order)
  {
    hide Universe;
    assert forall x :: x in order ==> x in order';
  }

  // Walks the parent map from the end of the closing edge back to its start.
  // The stack shows that the walk cannot miss the start.
  method CyclePath<V(==, !new)>(parent: map<V, V>, cycleStart: V, cycleEnd: V, ghost adj: map<V, seq<V>>,
                                ghost stack: seq<V>)
    returns (cycle: seq<V>)
    requires forall i, j :: 0 <= i < j < |stack| && j == i + 1 ==> Linked(adj, parent, stack[i], stack[j])
    requires Distinct(stack) && cycleStart in stack && cycleEnd == stack[|stack| - 1]
    requires cycleStart in Succ(adj, cycleEnd)
    ensures IsCycle(adj, cycle) && Distinct(cycle[1..]) && cycle[0] in stack
    ensures Closes(stack + [cycleStart], cycle)
  {
    ghost var c :| 0 <= c < |stack| && stack[c] == cycleStart;
    ghost var k := |stack| - 1;
    var path: seq<V> := [];
    var curr := cycleEnd;
    while curr != cycleStart
      invariant c <= k < |stack| && curr == stack[k]
      invariant |path| == |stack| - 1 - k
      invariant forall i :: 0 <= i < |path| ==> path[i] == stack[|stack| - 1 - i]
      decreases k
    {
      assert Linked(adj, parent, stack[k - 1], stack[k]);
      path := path + [curr];
      curr := parent[curr];
      k := k - 1;
    }
    if k != c { DistinctAt(stack, k, c); }
    path := path + [cycleStart];
    ghost var back := path;
    path := ReverseSlice(path);
    forall i | 0 <= i < |path|
      ensures path[i] == stack[c..][i]
    {
      assert path[i] == back[|back| - 1 - i];
    }
    assert path == stack[c..];
    cycle := path + [cycleStart];
    assert cycle == (stack + [cycleStart])[c..];
    ClosedChainIsCycle(adj, parent, stack, c, cycle);
  }

  lemma ClosedChainIsCycle<V(!new)>(adj: map<V, seq<V>>, parent: map<V, V>, stack: seq<V>, c: nat, cycle: seq<V>)
    requires forall i, j :: 0 <= i < j < |stack| && j == i + 1 ==> Linked(adj, parent, stack[i], stack[j])
    requires Distinct(stack) && c < |stack| && stack[c] in Succ(adj, stack[|stack| - 1])
    requires cycle == stack[c..] + [stack[c]]
    ensures IsCycle(adj, cycle) && Distinct(cycle[1..]) && cycle[0] == stack[c]
  {
    forall i | 0 <= i < |cycle| - 1
      ensures cycle[i + 1] in Succ(adj, cycle[i])
    {
      if i + 1 < |cycle| - 1 {
        assert Linked(adj, parent, stack[c + i], stack[c + i + 1]);
      }
    }
    DistinctSplit(stack, c);
    var loop := stack[c..];
    DistinctSplit(loop, 1);
    assert cycle[1..] == loop[1..] + [loop[0]] && loop[0] == loop[..1][0];
    DistinctAppend(loop[1..], loop[0]);
  }

  // The variables captured by the closure dfs, with the call stack of the
  // recursion kept as ghost state.
  class Search<V(0, ==, !new)> {
    const adj: map<V, seq<V>>
    ghost const roots: seq<V>
    var state: map<V, Colour>
    var parent: map<V, V>
    var order: seq<V>
    var cycleStart: V
    var cycleEnd: V
    var hasCycle: bool
    ghost var stack: seq<V>
    ghost var path: seq<nat>      // the choices that led to the stack

    constructor (adj: map<V, seq<V>>, ghost roots: seq<V>)
      ensures Valid() && this.adj == adj && this.roots == roots
      ensures !hasCycle && stack == [] && path == [] && order == [] && Charted(0)
    {
      this.adj, this.roots := adj, roots;
      state, parent, order, hasCycle := map[], map[], [], false;
      stack, path := [], [];
      ChartStart(adj, roots);
    }

    // Choice i at the top of the stack is next, and all that is finished lies to
    // the left of it.
    ghost predicate Charted(i: nat)
      reads this
    {
      Chart(adj, roots, path, stack, order, i)
    }

    lemma ChartNow(i: nat)
      requires Charted(i)
      ensures Chart(adj, roots, path, stack, order, i)
    {
    }

    ghost predicate Valid()
      reads this
    {
      && GreyChain(adj, state, parent, stack)
      && BlackList(adj, state, order)
      && (forall v :: v in stack || v in order ==> Discoverable(adj, roots, v))
      && (hasCycle ==>
            stack != [] && cycleEnd == stack[|stack| - 1] && cycleStart in stack
            && cycleStart in Succ(adj, cycleEnd) && ClosesFirst())
    }

    // The path to the stack and one more choice close the first cycle.
    ghost predicate ClosesFirst()
      reads this
    {
      exists i :: FirstClosing(adj, roots, path + [i], stack + [cycleStart])
    }

    // Outside every call, what has been found is finished.
    lemma FoundIsFinished(v: V)
      requires Valid() && stack == [] && ColourOf(state, v) != Unvisited
      ensures v in order
    {
    }

    method Dfs(current: V, ghost i: nat)
      requires Valid() && ColourOf(state, current) == Unvisited
      requires Discoverable(adj, roots, current)
      requires !hasCycle ==> Charted(i) && i < |Choices(adj, roots, stack)| && Choices(adj, roots, stack)[i] == current
      requires !hasCycle && stack != [] ==> Linked(adj, parent, stack[|stack| - 1], current)
      modifies this
      ensures Valid()
      ensures old(hasCycle) ==>
                hasCycle && stack == old(stack) && path == old(path) && order == old(order)
                && state == old(state) && parent == old(parent)
      ensures !hasCycle ==> stack == old(stack) && old(order) <= order && current in order
      ensures !hasCycle ==> path == old(path) && Charted(i + 1) && FoundBelow(old(order), current)
      ensures hasCycle && !old(hasCycle) ==> old(stack) + [current] <= stack
      ensures Succ(adj, current) == [] && !old(hasCycle) ==> !hasCycle && order == old(order) + [current]
      decreases Universe(adj, roots) - ToSet(stack) - ToSet(order), 1
    {
      if hasCycle {
        return;
      }
      hide *;
      Discover(current, i);
    }

    // The body of dfs while no cycle has been found.
    method Discover(current: V, ghost i: nat)
      requires Valid() && !hasCycle && ColourOf(state, current) == Unvisited
      requires Discoverable(adj, roots, current)
      requires Charted(i) && i < |Choices(adj, roots, stack)| && Choices(adj, roots, stack)[i] == current
      requires stack != [] ==> Linked(adj, parent, stack[|stack| - 1], current)
      modifies this
      ensures Valid()
      ensures !hasCycle ==> stack == old(stack) && old(order) <= order && current in order
      ensures !hasCycle ==> path == old(path) && Charted(i + 1) && FoundBelow(old(order), current)
      ensures hasCycle ==> old(stack) + [current] <= stack
      ensures Succ(adj, current) == [] ==> !hasCycle && order == old(order) + [current]
      decreases Universe(adj, roots) - ToSet(stack) - ToSet(order), 0
    {
      hide *;
      ghost var path0, stack0, done := path, stack, order;
      ChartNow(i);
      Enter(current, i);
      VisitChildren(current);
      if hasCycle {
        return;
      }
      Leave(current, path0, stack0, done, i);
    }

    // Everything finished since before can be reached from v.
    ghost predicate FoundBelow(before: seq<V>, v: V)
      reads this
    {
      forall u :: u in order ==> u in before || Reaches(adj, v, u)
    }

    lemma UnfinishedIsMetLater(current: V, i: nat)
      requires Valid() && Charted(i) && ColourOf(state, current) == Unvisited
      requires i < |Choices(adj, roots, stack)| && Choices(adj, roots, stack)[i] == current
      ensures HasFirstPath(adj, roots, current) && forall u :: u in order ==> Precedes(adj, roots, current, u)
    {
      UnvisitedIsNew(adj, state, parent, stack, order, current);
      DistinctAppend(stack, current);
      hide Chart, FirstPath, Precedes, HasFirstPath, Distinct, TargetsFirst;
      Discovered(adj, roots, path, stack, order, i, current);
    }

    // The loop over the children of the current vertex.
    method VisitChildren(current: V)
      requires Valid() && !hasCycle && stack != [] && stack[|stack| - 1] == current && Charted(0)
      modifies this
      ensures Valid()
      ensures !hasCycle ==> Charted(|Succ(adj, current)|) && FoundBelow(old(order), current) && path == old(path)
      ensures !hasCycle ==>
                stack == old(stack) && old(order) <= order && forall c :: c in Succ(adj, current) ==> c in order
      ensures hasCycle ==> old(stack) <= stack
      ensures Succ(adj, current) == [] ==> !hasCycle && order == old(order)
      decreases Universe(adj, roots) - ToSet(stack) - ToSet(order), 3
    {
      hide GreyChain, BlackList, Universe, Discoverable, ToSet, Chart, Reaches;
      var children := Succ(adj, current);
      for i := 0 to |children|
        invariant Valid() && !hasCycle && stack == old(stack) && path == old(path) && old(order) <= order
        invariant Charted(i) && FoundBelow(old(order), current)
        invariant children == [] ==> order == old(order)
        invariant forall k :: 0 <= k < i ==> children[k] in order
      {
        DiscoveryKeepsShrinking(adj, roots, stack, old(order), order);
        Visit(current, children[i], i);
        if hasCycle {
          return;
        }
      }
    }

    method Enter(current: V, ghost i: nat)
      requires Valid() && !hasCycle && ColourOf(state, current) == Unvisited
      requires Charted(i) && i < |Choices(adj, roots, stack)| && Choices(adj, roots, stack)[i] == current
      requires Discoverable(adj, roots, current)
      requires stack != [] ==> Linked(adj, parent, stack[|stack| - 1], current)
      modifies this`state, this`stack, this`path
      ensures Valid() && stack == old(stack) + [current] && path == old(path) + [i] && Charted(0)
      ensures HasFirstPath(adj, roots, current) && forall u :: u in order ==> Precedes(adj, roots, current, u)
      ensures Universe(adj, roots) - ToSet(stack) - ToSet(order)
              < Universe(adj, roots) - ToSet(old(stack)) - ToSet(order)
    {
      hide Chart, HasFirstPath, Precedes, Universe, ToSet;
      UnvisitedIsNew(adj, state, parent, stack, order, current);
      DiscoveryShrinks(adj, roots, stack, order, order, current);
      UnfinishedIsMetLater(current, i);
      ChartEnter(adj, roots, path, stack, order, i);
      EnterKeepsChain(adj, state, parent, stack, order, current);
      state := state[current := Visiting];
      stack, path := stack + [current], path + [i];
    }

    // path0, stack0 and done describe the moment before current was entered.
    method Leave(current: V, ghost path0: seq<nat>, ghost stack0: seq<V>, ghost done: seq<V>, ghost i: nat)
      requires Valid() && !hasCycle && stack == stack0 + [current] && path == path0 + [i]
      requires forall c :: c in Succ(adj, current) ==> c in order
      requires Chart(adj, roots, path0, stack0, done, i) && Charted(|Succ(adj, current)|)
      requires i < |Choices(adj, roots, stack0)| && Choices(adj, roots, stack0)[i] == current
      requires HasFirstPath(adj, roots, current) && forall u :: u in done ==> Precedes(adj, roots, current, u)
      requires done <= order && FoundBelow(done, current)
      modifies this`state, this`stack, this`path, this`order
      ensures Valid() && stack == stack0 && path == path0 && order == old(order) + [current]
      ensures Charted(i + 1) && FoundBelow(done, current)
    {
      hide Chart, HasFirstPath, Precedes, Reaches, Choices;
      ChartLeave(adj, roots, path0, stack0, done, order, i, |Succ(adj, current)|, current);
      LeaveKeepsLists(adj, state, parent, stack0, order, current);
      ReachesItself(adj, current);
      state := state[current := Visited];
      order := order + [current];
      stack, path := stack0, path0;
    }

    // One iteration of the loop over the children of the current vertex.
    method Visit(current: V, child: V, ghost i: nat)
      requires Valid() && !hasCycle
      requires stack != [] && stack[|stack| - 1] == current
      requires Charted(i) && i < |Succ(adj, current)| && Succ(adj, current)[i] == child
      modifies this
      ensures Valid()
      ensures !hasCycle ==> stack == old(stack) && old(order) <= order && child in order
      ensures !hasCycle ==> path == old(path) && Charted(i + 1) && FoundBelow(old(order), current)
      ensures hasCycle ==> old(stack) <= stack
      decreases Universe(adj, roots) - ToSet(stack) - ToSet(order), 2
    {
      hide Chart, FirstClosing;
      if ColourOf(state, child) == Visiting {
        ChartCloses(adj, roots, path, stack, order, i);
        hasCycle, cycleStart, cycleEnd := true, child, current;
        return;
      }
      if ColourOf(state, child) == Unvisited {
        LinkKeepsChain(adj, state, parent, stack, current, child);
        ChildIsDiscoverable(adj, roots, current, child);
        parent := parent[child := current];
        Dfs(child, i);
        ReachesFurther(adj, current, child);
      } else {
        ChartSkip(adj, roots, path, stack, order, i);
      }
    }
  }

  // What a child reaches, its parent reaches.
  lemma ReachesFurther<V(!new)>(adj: map<V, seq<V>>, v: V, child: V)
    requires child in Succ(adj, v)
    ensures forall u :: Reaches(adj, child, u) ==> Reaches(adj, v, u)
  {
    hide Reaches;
    ReachesItself(adj, v);
    WalkExtends(adj, v, v, child);
    forall u | Reaches(adj, child, u)
      ensures Reaches(adj, v, u)
    {
      ReachesThrough(adj, v, child, u);
    }
  }

  class Graph<V(0, ==, !new)> {
    var vertices: map<V, seq<V>>
    var order: seq<V>

    constructor ()
      ensures vertices == map[] && order == []
    {
      vertices, order := map[], [];
    }

    // Holds as long as AddVertex(v) precedes every AddEdge(v, _).
    ghost predicate VerticesListed()
      reads this
    {
      Distinct(order) && vertices.Keys == ToSet(order)
    }

    method AddVertex(v: V) returns (added: bool)
      modifies this
      ensures added == (v !in old(vertices))
      ensures vertices == if added then old(vertices)[v := []] else old(vertices)
      ensures order == if added then old(order) + [v] else old(order)
      ensures old(VerticesListed()) ==> VerticesListed()
    {
      added := v !in vertices;
      DistinctAppend(order, v);
      if added {
        vertices := vertices[v := []];
        order := order + [v];
      }
    }

    method AddEdge(v: V, e: V)
      modifies this`vertices
      ensures vertices ==
              if e in Succ(old(vertices), v) then old(vertices)
              else old(vertices)[v := Succ(old(vertices), v) + [e]]
      ensures forall c :: c in Succ(vertices, v) <==> c in Succ(old(vertices), v) || c == e
      ensures Distinct(Succ(old(vertices), v)) ==> Distinct(Succ(vertices, v))
      ensures old(VerticesListed()) ==> (VerticesListed() <==> v in old(vertices))
    {
      DistinctAppend(Succ(vertices, v), e);
      if e !in Succ(vertices, v) {
        vertices := vertices[v := Succ(vertices, v) + [e]];
      }
    }

    // An empty cycle stands for Go's nil cycle path.
    method GetTopologicalOrCycle() returns (sorted: seq<V>, cycle: seq<V>)
      ensures cycle != [] <==> HasReachableCycle(vertices, order)
      ensures cycle != [] ==>
                sorted == [] && IsCycle(vertices, cycle) && Distinct(cycle[1..])
                && ReachableFrom(vertices, order, cycle[0]) && FirstCycle(vertices, order, cycle)
      ensures cycle == [] ==>
                Distinct(sorted) && SourcesFirst(vertices, sorted)
                && forall v :: v in sorted <==> ReachableFrom(vertices, order, v)
      ensures cycle == [] ==>
                Arranged(vertices, order, sorted)
                && forall v :: v in sorted ==> HasFirstPath(vertices, order, v)
      ensures Distinct(order) && (forall v :: v in vertices ==> vertices[v] == []) ==>
                sorted == Reversed(order)
    {
      var s := Explore();
      hide Arranged, HasFirstPath, Reaches, Chart, SourcesFirst, FirstClosing, Closes;
      if s.hasCycle {
        cycle := CyclePath(s.parent, s.cycleStart, s.cycleEnd, vertices, s.stack);
        assert IsCycle(vertices, cycle) && ReachableFrom(vertices, order, cycle[0]);
        return [], cycle;
      }
      TargetsFirstIsAcyclic(vertices, order, s.order);
      ReversedTargetsFirst(vertices, s.order);
      ReversedMembers(s.order);
      sorted := ReverseSlice(s.order);
      return sorted, [];
    }

    // The outer loop: start a search at every vertex not yet discovered.
    method Explore() returns (s: Search<V>)
      ensures fresh(s) && s.Valid() && s.adj == vertices && s.roots == order
      ensures !s.hasCycle ==>
                Arranged(vertices, order, Reversed(s.order)) && forall r :: r in order ==> r in s.order
      ensures !s.hasCycle ==> forall v :: v in s.order ==> HasFirstPath(vertices, order, v)
      ensures Distinct(order) && (forall v :: v in vertices ==> vertices[v] == []) ==>
                !s.hasCycle && s.order == order
    {
      s := new Search(vertices, order);
      hide Reaches, TargetsFirst, Chart, FinishOrder, Arranged, HasFirstPath, GreyChain, FirstClosing;
      ghost var edgeless := Distinct(order) && forall v :: v in vertices ==> vertices[v] == [];
      for i := 0 to |order|
        invariant s.Valid() && s.adj == vertices && s.roots == order && fresh(s)
        invariant !s.hasCycle ==> s.stack == [] && s.path == [] && s.Charted(i)
        invariant !s.hasCycle ==> forall k :: 0 <= k < i ==> order[k] in s.order
        invariant edgeless ==> !s.hasCycle && s.order == order[..i]
      {
        ReachesItself(vertices, order[i]);
        if edgeless {
          DistinctSplit(order, i);
          assert order[i] == order[i..][0] && order[..i + 1] == order[..i] + [order[i]];
        }
        if ColourOf(s.state, order[i]) == Unvisited {
          s.Dfs(order[i], i);
        } else if !s.hasCycle {
          s.FoundIsFinished(order[i]);
          ChartSkip(vertices, order, [], [], s.order, i);
        }
      }
      if !s.hasCycle { ChartEnd(vertices, order, s.order, |order|); }
    }

    method GetReverseTopologicalOrCycle() returns (sorted: seq<V>, cycle: seq<V>)
      ensures cycle != [] <==> HasReachableCycle(vertices, order)
      ensures cycle != [] ==>
                sorted == [] && IsCycle(vertices, cycle) && Distinct(cycle[1..])
                && ReachableFrom(vertices, order, cycle[0]) && FirstCycle(vertices, order, cycle)
      ensures cycle == [] ==>
                Distinct(sorted) && TargetsFirst(vertices, sorted)
                && forall v :: v in sorted <==> ReachableFrom(vertices, order, v)
      ensures cycle == [] ==>
                Arranged(vertices, order, Reversed(sorted))
                && forall v :: v in sorted ==> HasFirstPath(vertices, order, v)
    {
      hide Arranged, HasFirstPath, FirstCycle;
      sorted, cycle := GetTopologicalOrCycle();
      if cycle != [] {
        return [], cycle;
      }
      ReversedTargetsFirst(vertices, sorted);
      ReversedMembers(sorted);
      ghost var back := sorted;
      sorted := ReverseSlice(sorted);
      assert Reversed(sorted) == back;
    }
  }
}
