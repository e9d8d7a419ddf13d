// app/plugin.go: dependency checks and dependency-first ordering, as values.
module Plugins {
  import opened Seqs
  import Walks

  datatype DependencyDesc = DependencyDesc(id: string, version: string)

  datatype Plugin = Plugin(name: string, version: string, dependencies: seq<DependencyDesc>)

  // The operations of golang.org/x/mod/semver the code relies on.
  datatype Semver = Semver(isValid: string -> bool, major: string -> string, compare: (string, string) -> int)

  datatype ProblemKind = NotAdded | InvalidRequirement | InvalidVersion | Incompatible

  datatype Problem = Problem(plugin: string, dependency: string, kind: ProblemKind)

  function Names(plugins: seq<Plugin>): (r: seq<string>)
    ensures |r| == |plugins| && forall i :: 0 <= i < |r| ==> r[i] == plugins[i].name
  {
    seq(|plugins|, i requires 0 <= i < |plugins| => plugins[i].name)
  }

  // Later plugins override earlier ones of the same name.
  function ByName(plugins: seq<Plugin>): map<string, Plugin> {
    if plugins == [] then map[] else
    ByName(plugins[..|plugins| - 1])[plugins[|plugins| - 1].name := plugins[|plugins| - 1]]
  }

  // The dependency ids of a plugin without repetitions.
  function EdgeList(deps: seq<DependencyDesc>): seq<string> {
    if deps == [] then [] else
    var front, id := EdgeList(deps[..|deps| - 1]), deps[|deps| - 1].id;
    if id in front then front else front + [id]
  }

  // The dependency graph: plugin -> the plugins it depends on.
  function Dependencies(plugins: seq<Plugin>): map<string, seq<string>> {
    if plugins == [] then map[] else
    Dependencies(plugins[..|plugins| - 1])[plugins[|plugins| - 1].name := EdgeList(plugins[|plugins| - 1].dependencies)]
  }

  function FindDependencyDesc(p: Plugin, id: string): (r: DependencyDesc)
    ensures (exists d :: d in p.dependencies && d.id == id) ==> r in p.dependencies && r.id == id
  {
    FirstDesc(p.dependencies, id)
  }

  function FirstDesc(deps: seq<DependencyDesc>, id: string): (r: DependencyDesc)
    ensures (exists d :: d in deps && d.id == id) ==> r in deps && r.id == id
  {
    if deps == [] then DependencyDesc("", "")
    else if deps[0].id == id then deps[0]
    else
      assert forall d :: d in deps ==> d == deps[0] || d in deps[1..];
      FirstDesc(deps[1..], id)
  }

  predicate IsVersionCompatible(ops: Semver, actual: string, required: string) {
    ops.major(actual) == ops.major(required) && ops.compare(actual, required) >= 0
  }

  // What is wrong with one dependency edge, if anything.
  function EdgeProblem(ops: Semver, byName: map<string, Plugin>, name: string, dep: string): Option<ProblemKind>
    requires name in byName
  {
    if dep !in byName then Some(NotAdded) else
    var required, actual := FindDependencyDesc(byName[name], dep).version, byName[dep].version;
    if required == "" then None
    else if !ops.isValid(required) then Some(InvalidRequirement)
    else if !ops.isValid(actual) then Some(InvalidVersion)
    else if !IsVersionCompatible(ops, actual, required) then Some(Incompatible)
    else None
  }

  ghost predicate IsProblem(ops: Semver, plugins: seq<Plugin>, p: Problem) {
    && p.plugin in Dependencies(plugins) && p.plugin in ByName(plugins)
    && p.dependency in Dependencies(plugins)[p.plugin]
    && EdgeProblem(ops, ByName(plugins), p.plugin, p.dependency) == Some(p.kind)
  }

  lemma {:induction false} EdgeListMeaning(deps: seq<DependencyDesc>)
    ensures forall d :: d in deps ==> d.id in EdgeList(deps)
    ensures forall c :: c in EdgeList(deps) ==> exists d :: d in deps && d.id == c
  {
    if deps != [] {
      var front, last := deps[..|deps| - 1], deps[|deps| - 1];
      EdgeListMeaning(front);
      assert deps == front + [last];
      forall c | c in EdgeList(deps)
        ensures exists d :: d in deps && d.id == c
      {
        if c in EdgeList(front) {
          var d :| d in front && d.id == c;
          assert d in deps;
        } else {
          assert last in deps && last.id == c;
        }
      }
    }
  }

  lemma NamesConcat(a: seq<Plugin>, b: seq<Plugin>)
    ensures Names(a + b) == Names(a) + Names(b)
  {
  }

  lemma NameListed(plugins: seq<Plugin>, p: Plugin)
    requires p in plugins
    ensures p.name in Names(plugins)
  {
    var i :| 0 <= i < |plugins| && plugins[i] == p;
    assert Names(plugins)[i] == p.name;
  }

  lemma {:induction false} ByNameKeys(plugins: seq<Plugin>)
    ensures ByName(plugins).Keys == Dependencies(plugins).Keys == ToSet(Names(plugins))
    ensures forall n :: n in ByName(plugins) ==> ByName(plugins)[n] in plugins && ByName(plugins)[n].name == n
  {
    if plugins != [] {
      var front, last := plugins[..|plugins| - 1], plugins[|plugins| - 1];
      ByNameKeys(front);
      assert plugins == front + [last];
      NamesConcat(front, [last]);
      assert Names([last]) == [last.name];
    }
  }

  // Under distinct names both maps can be read off the plugins.
  lemma {:induction false} LookupFinds(plugins: seq<Plugin>, p: Plugin)
    requires Distinct(Names(plugins)) && p in plugins
    ensures p.name in ByName(plugins) && ByName(plugins)[p.name] == p
    ensures p.name in Dependencies(plugins) && Dependencies(plugins)[p.name] == EdgeList(p.dependencies)
  {
    var front, last := plugins[..|plugins| - 1], plugins[|plugins| - 1];
    assert plugins == front + [last];
    NamesConcat(front, [last]);
    assert Names([last]) == [last.name];
    DistinctAppend(Names(front), last.name);
    if p != last {
      NameListed(front, p);
      LookupFinds(front, p);
    }
  }

  lemma DistinctNamesDistinct(plugins: seq<Plugin>)
    requires Distinct(Names(plugins))
    ensures Distinct(plugins)
  {
    forall i, j | 0 <= i < j < |plugins|
      ensures Differ(plugins, i, j)
    {
      assert Differ(Names(plugins), i, j);
    }
  }

  lemma EdgesCarryOver(plugins: seq<Plugin>, sorted: seq<Plugin>, n: string)
    requires Distinct(Names(sorted)) && Distinct(Names(plugins))
    requires forall p :: p in plugins ==> p in sorted
    requires n in Dependencies(plugins)
    ensures n in Dependencies(sorted) && Dependencies(sorted)[n] == Dependencies(plugins)[n]
  {
    ByNameKeys(plugins);
    var p := ByName(plugins)[n];
    LookupFinds(plugins, p);
    LookupFinds(sorted, p);
  }

  // The graph of a permutation of the plugins is the same graph.
  lemma DependenciesOfPermutation(plugins: seq<Plugin>, sorted: seq<Plugin>)
    requires Distinct(Names(plugins)) && Distinct(Names(sorted))
    requires forall p :: p in sorted <==> p in plugins
    ensures Dependencies(sorted) == Dependencies(plugins)
    ensures ToSet(Names(sorted)) == ToSet(Names(plugins))
    ensures multiset(sorted) == multiset(plugins)
  {
    var a, b := Dependencies(plugins), Dependencies(sorted);
    forall n | n in a
      ensures n in b && b[n] == a[n]
    {
      EdgesCarryOver(plugins, sorted, n);
    }
    forall n | n in b
      ensures n in a
    {
      EdgesCarryOver(sorted, plugins, n);
    }
    assert a.Keys == b.Keys;
    ByNameKeys(plugins);
    ByNameKeys(sorted);
    DistinctNamesDistinct(plugins);
    DistinctNamesDistinct(sorted);
    DistinctSameMembers(sorted, plugins);
  }

  // If every edge stays inside the roots, nothing else is reachable.
  lemma {:induction false} WalkStaysInside(deps: map<string, seq<string>>, inside: set<string>, w: seq<string>)
    requires Walks.IsWalk(deps, w) && w[0] in inside
    requires forall v, c :: v in inside && c in Walks.Succ(deps, v) ==> c in inside
    ensures w[|w| - 1] in inside
    decreases |w|
  {
    if |w| >= 2 {
      var t := w[1..];
      assert w[0 + 1] in Walks.Succ(deps, w[0]);
      assert forall i :: 0 <= i < |t| ==> t[i] == w[i + 1];
      WalkStaysInside(deps, inside, t);
    }
  }

  lemma ReachableStaysInside(deps: map<string, seq<string>>, roots: seq<string>)
    requires forall v, c :: v in roots && c in Walks.Succ(deps, v) ==> c in roots
    ensures forall v :: Walks.ReachableFrom(deps, roots, v) <==> v in roots
  {
    forall v
      ensures Walks.ReachableFrom(deps, roots, v) <==> v in roots
    {
      if Walks.ReachableFrom(deps, roots, v) {
        var r :| r in roots && Walks.Reaches(deps, r, v);
        var w :| Walks.IsWalk(deps, w) && w[0] == r && w[|w| - 1] == v;
        WalkStaysInside(deps, ToSet(roots), w);
      }
      if v in roots { Walks.ReachesItself(deps, v); }
    }
  }

  // The first descriptor a plugin gives for a dependency.
  ghost predicate FirstFor(p: Plugin, d: DependencyDesc) {
    exists i :: 0 <= i < |p.dependencies| && p.dependencies[i] == d
                && forall j :: 0 <= j < i ==> p.dependencies[j].id != d.id
  }

  // q is registered and meets the requirement d.
  ghost predicate Meets(ops: Semver, plugins: seq<Plugin>, d: DependencyDesc) {
    exists q :: q in plugins && q.name == d.id
                && (d.version != "" ==> ops.isValid(d.version) && ops.isValid(q.version)
                                        && ops.major(q.version) == ops.major(d.version)
                                        && ops.compare(q.version, d.version) >= 0)
  }

  lemma {:induction false} FirstDescFinds(deps: seq<DependencyDesc>, i: nat)
    requires i < |deps| && forall j :: 0 <= j < i ==> deps[j].id != deps[i].id
    ensures FirstDesc(deps, deps[i].id) == deps[i]
  {
    if i > 0 { FirstDescFinds(deps[1..], i - 1); }
  }

  // No problem is reported exactly when, of every plugin, the first descriptor
  // for each dependency is met; later descriptors for it are not looked at.
  lemma NoProblemsMeansMet(ops: Semver, plugins: seq<Plugin>)
    requires Distinct(Names(plugins))
    ensures (forall x :: !IsProblem(ops, plugins, x))
            <==> forall p, d :: p in plugins && FirstFor(p, d) ==> Meets(ops, plugins, d)
  {
    hide EdgeProblem, ByName, Dependencies, Distinct, Meets;
    ByNameKeys(plugins);
    if forall x :: !IsProblem(ops, plugins, x) {
      forall p, d | p in plugins && FirstFor(p, d)
        ensures Meets(ops, plugins, d)
      {
        EdgeIsMet(ops, plugins, p, d);
        UnmetIsProblem(ops, plugins, p, d);
      }
    }
    if forall p, d :: p in plugins && FirstFor(p, d) ==> Meets(ops, plugins, d) {
      forall x
        ensures !IsProblem(ops, plugins, x)
      {
        if IsProblem(ops, plugins, x) { ProblemIsUnmet(ops, plugins, x); }
      }
    }
  }

  lemma EdgeIsMet(ops: Semver, plugins: seq<Plugin>, p: Plugin, d: DependencyDesc)
    requires Distinct(Names(plugins)) && p in plugins && FirstFor(p, d)
    ensures p.name in ByName(plugins)
    ensures EdgeProblem(ops, ByName(plugins), p.name, d.id).None? <==> Meets(ops, plugins, d)
  {
    hide ByName, Distinct, FirstDesc;
    ByNameKeys(plugins);
    LookupFinds(plugins, p);
    var i :| 0 <= i < |p.dependencies| && p.dependencies[i] == d
             && forall j :: 0 <= j < i ==> p.dependencies[j].id != d.id;
    FirstDescFinds(p.dependencies, i);
    forall q | q in plugins && q.name == d.id
      ensures d.id in ByName(plugins) && ByName(plugins)[d.id] == q
    {
      LookupFinds(plugins, q);
    }
  }

  lemma UnmetIsProblem(ops: Semver, plugins: seq<Plugin>, p: Plugin, d: DependencyDesc)
    requires Distinct(Names(plugins)) && p in plugins && FirstFor(p, d) && p.name in ByName(plugins)
    ensures match EdgeProblem(ops, ByName(plugins), p.name, d.id)
            case None => true
            case Some(kind) => IsProblem(ops, plugins, Problem(p.name, d.id, kind))
  {
    hide EdgeProblem, ByName, Dependencies, Distinct;
    LookupFinds(plugins, p);
    EdgeListMeaning(p.dependencies);
  }

  lemma ProblemIsUnmet(ops: Semver, plugins: seq<Plugin>, x: Problem)
    requires Distinct(Names(plugins)) && IsProblem(ops, plugins, x)
    ensures exists p, d :: p in plugins && FirstFor(p, d) && !Meets(ops, plugins, d)
  {
    hide EdgeProblem, ByName, Dependencies, Distinct, Meets;
    ByNameKeys(plugins);
    var p := ByName(plugins)[x.plugin];
    LookupFinds(plugins, p);
    EdgeListMeaning(p.dependencies);
    var d :| d in p.dependencies && d.id == x.dependency;
    var first := FirstWithId(p.dependencies, x.dependency);
    assert FirstFor(p, first);
    EdgeIsMet(ops, plugins, p, first);
  }

  lemma FirstWithId(deps: seq<DependencyDesc>, id: string) returns (d: DependencyDesc)
    requires exists x :: x in deps && x.id == id
    ensures d.id == id
    ensures exists i :: 0 <= i < |deps| && deps[i] == d && forall j :: 0 <= j < i ==> deps[j].id != id
  {
    var i := 0;
    while deps[i].id != id
      invariant 0 <= i < |deps| && forall j :: 0 <= j < i ==> deps[j].id != id
      decreases |deps| - i
    {
      var x :| x in deps && x.id == id;
      var k :| 0 <= k < |deps| && deps[k] == x;
      i := i + 1;
    }
    d := deps[i];
  }

  ghost predicate NoRepeats(p: Plugin) {
    forall i, j :: 0 <= i < j < |p.dependencies| ==> p.dependencies[i].id != p.dependencies[j].id
  }

  // If no plugin names a dependency twice, every descriptor is enforced.
  lemma NoProblemsWithoutRepeats(ops: Semver, plugins: seq<Plugin>)
    requires Distinct(Names(plugins)) && forall p :: p in plugins ==> NoRepeats(p)
    ensures (forall x :: !IsProblem(ops, plugins, x))
            <==> forall p, d :: p in plugins && d in p.dependencies ==> Meets(ops, plugins, d)
  {
    hide IsProblem, Distinct, Meets;
    NoProblemsMeansMet(ops, plugins);
    forall p, d | p in plugins
      ensures d in p.dependencies <==> FirstFor(p, d)
    {
      if d in p.dependencies {
        var i :| 0 <= i < |p.dependencies| && p.dependencies[i] == d;
        assert forall j :: 0 <= j < i ==> p.dependencies[j].id != d.id;
      }
    }
  }

  // If one does, a requirement nothing meets may go unnoticed.
  lemma SecondDescriptorIsNotEnforced(ops: Semver)
    requires ops.major("v1.0.0") != ops.major("v2.0.0")
    ensures var stricter := DependencyDesc("a", "v2.0.0");
            var plugins := [Plugin("a", "v1.0.0", []), Plugin("b", "v1.0.0", [DependencyDesc("a", ""), stricter])];
            (forall x :: !IsProblem(ops, plugins, x)) && !Meets(ops, plugins, stricter)
  {
    var lax, stricter := DependencyDesc("a", ""), DependencyDesc("a", "v2.0.0");
    var a := Plugin("a", "v1.0.0", []);
    var b := Plugin("b", "v1.0.0", [lax, stricter]);
    var plugins := [a, b];
    assert Names(plugins) == ["a", "b"];
    assert Differ(["a", "b"], 0, 1) by { assert "a"[0] != "b"[0]; }
    assert a in plugins && Meets(ops, plugins, lax);
    forall p, d | p in plugins && FirstFor(p, d)
      ensures d == lax
    {
      assert p == b && b.dependencies[0].id == "a";
    }
    hide IsProblem, Meets;
    NoProblemsMeansMet(ops, plugins);
  }

  // The dependency ids in the order of their first mention.
  lemma {:induction false} EdgeListInOrder(deps: seq<DependencyDesc>, more: seq<DependencyDesc>)
    ensures Distinct(EdgeList(deps))
    ensures EdgeList(deps) <= EdgeList(deps + more)
    decreases |more|, |deps|
  {
    if more == [] {
      assert deps + more == deps;
      if deps != [] {
        EdgeListInOrder(deps[..|deps| - 1], []);
        DistinctAppend(EdgeList(deps[..|deps| - 1]), deps[|deps| - 1].id);
      }
    } else {
      EdgeListInOrder(deps, more[..|more| - 1]);
      assert (deps + more)[..|deps + more| - 1] == deps + more[..|more| - 1];
    }
  }

  // What each kind of problem with the first descriptor d for a dependency says.
  lemma ProblemKinds(ops: Semver, plugins: seq<Plugin>, p: Plugin, d: DependencyDesc)
    requires Distinct(Names(plugins)) && p in plugins && FirstFor(p, d)
    ensures p.name in ByName(plugins)
    ensures var problem := EdgeProblem(ops, ByName(plugins), p.name, d.id);
            && (problem == Some(NotAdded) <==> forall q :: q in plugins ==> q.name != d.id)
            && forall q :: q in plugins && q.name == d.id ==>
                 && (problem == Some(InvalidRequirement) <==> d.version != "" && !ops.isValid(d.version))
                 && (problem == Some(InvalidVersion) <==>
                       d.version != "" && ops.isValid(d.version) && !ops.isValid(q.version))
                 && (problem == Some(Incompatible) <==>
                       d.version != "" && ops.isValid(d.version) && ops.isValid(q.version)
                       && (ops.major(q.version) != ops.major(d.version) || ops.compare(q.version, d.version) < 0))
  {
    hide ByName, Distinct, FirstDesc, Names;
    ByNameKeys(plugins);
    LookupFinds(plugins, p);
    var i :| 0 <= i < |p.dependencies| && p.dependencies[i] == d
             && forall j :: 0 <= j < i ==> p.dependencies[j].id != d.id;
    FirstDescFinds(p.dependencies, i);
    forall q | q in plugins && q.name == d.id
      ensures d.id in ByName(plugins) && ByName(plugins)[d.id] == q
    {
      LookupFinds(plugins, q);
    }
  }
}
