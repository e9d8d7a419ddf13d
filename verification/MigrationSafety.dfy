// Whole-run results about MigrateAllUp and MigrateAllDown.
module MigrationSafety {
  import opened Seqs
  import opened Lex
  import opened Namespaces
  import opened MigrationPlan
  import Walks

  // p depends on d, directly or through other plugins.
  ghost predicate DependsOn(deps: map<string, seq<string>>, p: string, d: string) {
    exists w :: Walks.IsWalk(deps, w) && |w| >= 2 && w[0] == p && w[|w| - 1] == d
  }

  lemma DependencyComesEarlier(deps: map<string, seq<string>>, plugins: seq<string>, at: nat, d: string)
    requires Distinct(plugins) && Walks.TargetsFirst(deps, plugins)
    requires at < |plugins| && DependsOn(deps, plugins[at], d)
    ensures d in plugins[..at]
  {
    var w :| Walks.IsWalk(deps, w) && |w| >= 2 && w[0] == plugins[at] && w[|w| - 1] == d;
    Walks.WalkDescends(deps, plugins, w, at);
  }

  // However a MigrateAllUp run is cut short and whatever was recorded before
  // it: when a migration of plugin p commits, every registered migration of
  // every transitive dependency of p is already recorded.
  lemma UpRespectsDependencies(deps: map<string, seq<string>>, plugins: seq<string>, reg: Registry,
                               recorded: set<Key>, plan: seq<Key>, done: nat, broken: bool, i: nat, key: Key)
    requires Distinct(plugins) && Walks.TargetsFirst(deps, plugins) && UniqueKeys(reg)
    requires plan == Plan(Up, reg, UpOrder(plugins, reg), recorded)
    requires done <= |plan| && (broken ==> done < |plan|)
    requires i < |Run(AsMap(reg), Up, plan, done, broken)|
    requires plan[i].namespace in plugins && DependsOn(deps, plan[i].namespace, key.namespace) && key in AsMap(reg)
    ensures var log := Run(AsMap(reg), Up, plan, done, broken);
            log[i].key == plan[i] && key in Replay(recorded, log[..i])
  {
    hide Todo, FlatMap, Visitor, Run, Replay, UniqueKeys, AsMap, Distinct, DependsOn, OtherNamespaces, Enumerates,
      Walks.TargetsFirst;
    var order := UpOrder(plugins, reg);
    var at :| 0 <= at < |plugins| && plugins[at] == plan[i].namespace;
    DependencyComesEarlier(deps, plugins, at, key.namespace);
    assert order[..at] == plugins[..at];
    OrdersDistinct(plugins, reg);
    VisitorEnumerates(Up, reg);
    EarlierNamespacesAreDone(Up, Visitor(Up, reg), AsMap(reg).Keys, order, recorded, plan, i, at, key);
    ReplayBeforeCommit(AsMap(reg), Up, plan, done, broken, recorded, i);
  }

  // Dually, MigrateAllDown never reverts a migration of d while a registered
  // migration of a transitive dependent of d is recorded.
  lemma DownRespectsDependents(deps: map<string, seq<string>>, plugins: seq<string>, reg: Registry,
                               recorded: set<Key>, plan: seq<Key>, done: nat, broken: bool, i: nat, key: Key)
    requires Distinct(plugins) && Walks.TargetsFirst(deps, plugins) && UniqueKeys(reg)
    requires plan == Plan(Down, reg, DownOrder(plugins, reg), recorded)
    requires done <= |plan| && (broken ==> done < |plan|)
    requires i < |Run(AsMap(reg), Down, plan, done, broken)|
    requires key.namespace in plugins && DependsOn(deps, key.namespace, plan[i].namespace) && key in AsMap(reg)
    ensures var log := Run(AsMap(reg), Down, plan, done, broken);
            log[i].key == plan[i] && key !in Replay(recorded, log[..i])
  {
    hide Todo, FlatMap, Visitor, Run, Replay, UniqueKeys, AsMap, Distinct, DependsOn, OtherNamespaces, Enumerates,
      Walks.TargetsFirst;
    var order := DownOrder(plugins, reg);
    var a :| 0 <= a < |plugins| && plugins[a] == key.namespace;
    DependencyComesEarlier(deps, plugins, a, plan[i].namespace);
    var b :| 0 <= b < a && plugins[b] == plan[i].namespace;
    var others := |OtherNamespaces(plugins, reg)|;
    var at := others + |plugins| - 1 - b;
    assert order[at] == plugins[b];
    assert order[..at][others + |plugins| - 1 - a] == plugins[a];
    OrdersDistinct(plugins, reg);
    VisitorEnumerates(Down, reg);
    EarlierNamespacesAreDone(Down, Visitor(Down, reg), AsMap(reg).Keys, order, recorded, plan, i, at, key);
    ReplayBeforeCommit(AsMap(reg), Down, plan, done, broken, recorded, i);
  }

  // ---------- undoing ----------

  lemma DownOrderReversesUpOrder(plugins: seq<string>, reg: Registry)
    requires |OtherNamespaces(plugins, reg)| <= 1
    ensures DownOrder(plugins, reg) == Reversed(UpOrder(plugins, reg))
  {
    var others := OtherNamespaces(plugins, reg);
    ReversedConcat(plugins, others);
    assert Reversed(others) == others;
  }

  // From an empty table, a full teardown reverts exactly what a full migration
  // applied, in exactly the opposite order, if and only if at most one
  // namespace belongs to no plugin.
  lemma TeardownMirrorsMigration(plugins: seq<string>, reg: Registry)
    requires Distinct(plugins) && UniqueKeys(reg)
    ensures var up := Plan(Up, reg, UpOrder(plugins, reg), {});
            Plan(Down, reg, DownOrder(plugins, reg), ToSet(up)) == Reversed(up)
            <==> |OtherNamespaces(plugins, reg)| <= 1
  {
    var up := Plan(Up, reg, UpOrder(plugins, reg), {});
    var visits := Visits(Up, reg, UpOrder(plugins, reg));
    WithoutNone(visits, {});
    if |OtherNamespaces(plugins, reg)| <= 1 {
      DownOrderReversesUpOrder(plugins, reg);
      FlatMapReversed(UpOrder(plugins, reg), Visitor(Up, reg), Visitor(Down, reg));
      ReversedMembers(up);
      WithinAll(Reversed(up), ToSet(up));
    } else {
      EndsDiffer(plugins, reg);
    }
  }

  // With two namespaces outside the plugins both runs visit those in ascending
  // order, so the teardown does not start where the migration ended.
  lemma EndsDiffer(plugins: seq<string>, reg: Registry)
    requires Distinct(plugins) && UniqueKeys(reg) && |OtherNamespaces(plugins, reg)| >= 2
    ensures var up := Plan(Up, reg, UpOrder(plugins, reg), {});
            Plan(Down, reg, DownOrder(plugins, reg), ToSet(up)) != Reversed(up)
  {
    hide *;
    var others := OtherNamespaces(plugins, reg);
    var up := Plan(Up, reg, UpOrder(plugins, reg), {});
    UpEndsInOthers(plugins, reg);
    DownBeginsInOthers(plugins, reg);
    OthersDistinct(plugins, reg);
    DistinctAt(others, 0, |others| - 1);
    assert Reversed(up)[0] == up[|up| - 1] by { ReversedFirst(up); }
  }

  lemma ReversedFirst<T>(s: seq<T>)
    requires s != []
    ensures |Reversed(s)| == |s| && Reversed(s)[0] == s[|s| - 1]
  {
  }

  lemma OthersDistinct<T>(plugins: seq<string>, reg: seq<Entry<T>>)
    ensures Distinct(OtherNamespaces(plugins, reg))
  {
    hide Distinct, NamespaceList, Without;
    NamespaceListIsSorted(reg);
    StrictlySortedDistinct(NamespaceList(reg), Itself);
    WithoutDistinct(NamespaceList(reg), ToSet(plugins));
  }

  lemma UpEndsInOthers(plugins: seq<string>, reg: Registry)
    requires Distinct(plugins) && UniqueKeys(reg) && OtherNamespaces(plugins, reg) != []
    ensures var others, up := OtherNamespaces(plugins, reg), Plan(Up, reg, UpOrder(plugins, reg), {});
            up != [] && up[|up| - 1].namespace == others[|others| - 1]
  {
    hide Todo, FlatMap, Visitor, UniqueKeys, AsMap, Distinct, OtherNamespaces, Enumerates;
    var others := OtherNamespaces(plugins, reg);
    assert others[|others| - 1] in others;
    OthersAreUsed(plugins, reg);
    NamespaceHasWork(reg, others[|others| - 1]);
    VisitorEnumerates(Up, reg);
    VisitorVisits(Up, reg, others[|others| - 1]);
    PlanEndsIn(Visitor(Up, reg), AsMap(reg).Keys, UpOrder(plugins, reg));
  }

  lemma VisitorVisits(dir: Direction, reg: Registry, namespace: string)
    ensures Visitor(dir, reg)(namespace) == VisitKeys(dir, reg, namespace)
  {
  }

  lemma DownBeginsInOthers(plugins: seq<string>, reg: Registry)
    requires Distinct(plugins) && UniqueKeys(reg) && OtherNamespaces(plugins, reg) != []
    ensures var others, up := OtherNamespaces(plugins, reg), Plan(Up, reg, UpOrder(plugins, reg), {});
            var down := Plan(Down, reg, DownOrder(plugins, reg), ToSet(up));
            down != [] && down[0].namespace == others[0]
  {
    hide Todo, FlatMap, Visitor, UniqueKeys, AsMap, Distinct, OtherNamespaces, Enumerates, NamespaceList;
    var others := OtherNamespaces(plugins, reg);
    var up := Plan(Up, reg, UpOrder(plugins, reg), {});
    assert others[0] in others;
    OthersAreUsed(plugins, reg);
    NamespaceHasWork(reg, others[0]);
    var k :| k in AsMap(reg) && k.namespace == others[0];
    PlanMeaning(Up, reg, UpOrder(plugins, reg), {});
    assert k.namespace in UpOrder(plugins, reg);
    VisitorEnumerates(Down, reg);
    PlanBeginsIn(Visitor(Down, reg), AsMap(reg).Keys, DownOrder(plugins, reg), ToSet(up), k);
  }

  lemma PlanEndsIn(visit: string -> seq<Key>, all: set<Key>, namespaces: seq<string>)
    requires Enumerates(visit, all) && namespaces != [] && visit(namespaces[|namespaces| - 1]) != []
    ensures var up := Todo(Up, FlatMap(namespaces, visit), {});
            up != [] && up[|up| - 1].namespace == namespaces[|namespaces| - 1]
  {
    hide Without, Within;
    var last := visit(namespaces[|namespaces| - 1]);
    WithoutNone(FlatMap(namespaces, visit), {});
    assert last[|last| - 1] in last;
  }

  lemma PlanBeginsIn(visit: string -> seq<Key>, all: set<Key>, namespaces: seq<string>, recorded: set<Key>, k: Key)
    requires Enumerates(visit, all) && namespaces != []
    requires k in all && k in recorded && k.namespace == namespaces[0]
    ensures var down := Todo(Down, FlatMap(namespaces, visit), recorded);
            down != [] && down[0].namespace == namespaces[0]
  {
    var begin := Todo(Down, FlatMap(namespaces[..1], visit), recorded);
    TodoPrefix(Down, visit, namespaces, recorded, 1);
    TodoMeaning(Down, visit, all, namespaces[..1], recorded);
    assert k in begin && begin[0] in begin;
  }

  lemma OthersAreUsed(plugins: seq<string>, reg: Registry)
    ensures forall n :: n in OtherNamespaces(plugins, reg) ==> exists e :: e in reg && e.namespace == n
  {
    NamespaceListIsSorted(reg);
  }

  lemma NamespaceHasWork(reg: Registry, namespace: string)
    requires UniqueKeys(reg) && exists e :: e in reg && e.namespace == namespace
    ensures exists k :: k in AsMap(reg) && k.namespace == namespace
    ensures VisitKeys(Up, reg, namespace) != []
  {
    var e :| e in reg && e.namespace == namespace;
    AsMapHolds(reg);
    VisitKeysMeaning(Up, reg, namespace);
    assert e.Id() in VisitKeys(Up, reg, namespace);
  }

  // ---------- schema ----------

  // The schema after executing statements one by one.
  function Exec<S>(run: (S, string) -> S, schema: S, statements: seq<string>): S {
    if statements == [] then schema else
    run(Exec(run, schema, statements[..|statements| - 1]), statements[|statements| - 1])
  }

  function SchemaAfter<S>(run: (S, string) -> S, schema: S, log: seq<Event>): S {
    if log == [] then schema else
    Exec(run, SchemaAfter(run, schema, log[..|log| - 1]), log[|log| - 1].statements)
  }

  ghost predicate DownInvertsUp<S(!new)>(run: (S, string) -> S, scripts: map<Key, Script>) {
    forall k, s :: k in scripts ==> Exec(run, Exec(run, s, scripts[k].up), scripts[k].down) == s
  }

  lemma {:induction false} SchemaConcat<S>(run: (S, string) -> S, schema: S, a: seq<Event>, b: seq<Event>)
    ensures SchemaAfter(run, schema, a + b) == SchemaAfter(run, SchemaAfter(run, schema, a), b)
    decreases |b|
  {
    if b == [] {
      assert a + b == a;
    } else {
      SchemaConcat(run, schema, a, b[..|b| - 1]);
      assert (a + b)[..|a + b| - 1] == a + b[..|b| - 1];
    }
  }

  lemma {:induction false} RevertingInReverseRestores<S(!new)>(
      run: (S, string) -> S, scripts: map<Key, Script>, plan: seq<Key>, schema: S)
    requires DownInvertsUp(run, scripts) && forall k :: k in plan ==> k in scripts
    ensures SchemaAfter(run, SchemaAfter(run, schema, Run(scripts, Up, plan, |plan|, false)),
                        Run(scripts, Down, Reversed(plan), |plan|, false)) == schema
  {
    if plan != [] {
      var front, last := plan[..|plan| - 1], plan[|plan| - 1];
      var up, down := Run(scripts, Up, plan, |plan|, false), Run(scripts, Down, Reversed(plan), |plan|, false);
      assert up[..|up| - 1] == Run(scripts, Up, front, |front|, false);
      var first := Run(scripts, Down, [last], 1, false);
      var rest := Run(scripts, Down, Reversed(front), |front|, false);
      assert down == first + rest;
      SchemaConcat(run, SchemaAfter(run, schema, up), first, rest);
      assert first[..0] == [];
      RevertingInReverseRestores(run, scripts, front, schema);
    }
  }

  // MigrateAllUp from an empty table and then MigrateAllDown, both finishing,
  // bring the schema back to what it was.
  lemma MigrateUpThenDownRestoresSchema<S(!new)>(run: (S, string) -> S, plugins: seq<string>, reg: Registry, schema: S)
    requires Distinct(plugins) && UniqueKeys(reg) && |OtherNamespaces(plugins, reg)| <= 1
    requires DownInvertsUp(run, AsMap(reg))
    ensures var up := Plan(Up, reg, UpOrder(plugins, reg), {});
            var down := Plan(Down, reg, DownOrder(plugins, reg), ToSet(up));
            SchemaAfter(run, schema,
              Run(AsMap(reg), Up, up, |up|, false) + Run(AsMap(reg), Down, down, |down|, false)) == schema
  {
    var up := Plan(Up, reg, UpOrder(plugins, reg), {});
    TeardownMirrorsMigration(plugins, reg);
    PlanMeaning(Up, reg, UpOrder(plugins, reg), {});
    SchemaConcat(run, schema, Run(AsMap(reg), Up, up, |up|, false), Run(AsMap(reg), Down, Reversed(up), |up|, false));
    RevertingInReverseRestores(run, AsMap(reg), up, schema);
  }

  // Executing statements one after the other, each on what the one before left.
  lemma {:induction false} ExecInOrder<S>(run: (S, string) -> S, schema: S, a: seq<string>, b: seq<string>)
    ensures Exec(run, schema, a + b) == Exec(run, Exec(run, schema, a), b)
    ensures forall statement :: Exec(run, schema, [statement]) == run(schema, statement)
    decreases |b|
  {
    forall statement
      ensures Exec(run, schema, [statement]) == run(schema, statement)
    {
      assert [statement][..0] == [];
    }
    if b == [] {
      assert a + b == a;
    } else {
      ExecInOrder(run, schema, a, b[..|b| - 1]);
      assert (a + b)[..|a + b| - 1] == a + b[..|b| - 1];
    }
  }

  lemma SchemaAfterOne<S>(run: (S, string) -> S, schema: S, e: Event)
    ensures SchemaAfter(run, schema, [e]) == Exec(run, schema, e.statements)
  {
    assert [e][..0] == [];
  }
}
