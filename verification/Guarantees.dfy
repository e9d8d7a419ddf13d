// What the application's calls add up to, in every state its methods reach.
module Guarantees {
  import opened Seqs
  import opened Lex
  import opened Namespaces
  import opened MigrationPlan
  import opened MigrationRecord
  import opened MigrationOutcome
  import opened MigrationSafety
  import opened SeederRecord
  import opened RetryPolicies
  import opened AppState
  import opened Plugins
  import opened Apps
  import opened Workers
  import Walks

  // The registries only ever know the plugins and the host, so at most one
  // namespace is visited outside the plugin order.
  lemma OnlyTheHostIsOutside<T>(names: seq<string>, reg: seq<Entry<T>>)
    requires WellKept(names, reg)
    ensures OtherNamespaces(names, reg) == [] || OtherNamespaces(names, reg) == [HOST_NAMESPACE]
  {
    hide *;
    OthersDistinct(names, reg);
    OthersAreTheHost(names, reg);
    AtMostOne(OtherNamespaces(names, reg), HOST_NAMESPACE);
  }

  lemma OthersAreTheHost<T>(names: seq<string>, reg: seq<Entry<T>>)
    requires WellKept(names, reg)
    ensures forall n :: n in OtherNamespaces(names, reg) ==> n == HOST_NAMESPACE
  {
    hide Distinct, UniqueKeys;
    NamespaceListIsSorted(reg);
  }

  lemma AtMostOne<T>(s: seq<T>, x: T)
    requires Distinct(s) && forall y :: y in s ==> y == x
    ensures s == [] || s == [x]
  {
    assert forall i :: 0 <= i < |s| ==> s[i] in s;
    if |s| > 1 { DistinctAt(s, 0, 1); }
  }

  // What two complete runs leave behind.
  lemma CompleteRuns(scripts: map<Key, Script>, plan: seq<Key>, log0: seq<Event>, up: nat, down: nat, rows1: seq<Key>,
                     log1: seq<Event>, rows2: seq<Key>, log2: seq<Event>)
    requires Outcome(Up, scripts, plan, up, false, true, [], log0, rows1, log1)
    requires Outcome(Down, scripts, Reversed(plan), down, false, true, rows1, log1, rows2, log2)
    ensures rows2 == []
    ensures log2 == log0 + Run(scripts, Up, plan, |plan|, false) + Run(scripts, Down, Reversed(plan), |plan|, false)
  {
    hide Run, Without;
    CompleteUp(plan);
    NothingLeft(plan);
  }

  lemma CompleteUp(plan: seq<Key>)
    ensures RowsAfter(Up, [], plan[..|plan|]) == plan
  {
    assert [] + plan == plan && plan[..|plan|] == plan;
  }

  lemma CompleteUpRows(scripts: map<Key, Script>, plan: seq<Key>, log0: seq<Event>, up: nat, rows1: seq<Key>,
                       log1: seq<Event>)
    requires Outcome(Up, scripts, plan, up, false, true, [], log0, rows1, log1)
    ensures rows1 == plan
  {
    hide Run;
    CompleteUp(plan);
  }

  lemma SchemaRestored<S(!new)>(scripts: map<Key, Script>, plan: seq<Key>, log0: seq<Event>, run: (S, string) -> S,
                                schema: S)
    requires DownInvertsUp(run, scripts) && forall k :: k in plan ==> k in scripts
    ensures SchemaAfter(run, schema,
                        log0 + Run(scripts, Up, plan, |plan|, false)
                        + Run(scripts, Down, Reversed(plan), |plan|, false))
            == SchemaAfter(run, schema, log0)
  {
    hide SchemaAfter, DownInvertsUp, Run;
    var ups, downs := Run(scripts, Up, plan, |plan|, false), Run(scripts, Down, Reversed(plan), |plan|, false);
    SchemaConcat(run, schema, log0, ups);
    SchemaConcat(run, schema, log0 + ups, downs);
    RevertingInReverseRestores(run, scripts, plan, SchemaAfter(run, schema, log0));
  }

  // In every state of the application, from an empty table: MigrateAllUp and
  // MigrateAllDown, both without an error, leave nothing recorded, have run
  // each other's scripts in opposite order, and restore the schema if every
  // Down inverts its own Up.
  lemma TeardownUndoesMigration<S(!new)>(
    app: App, run: (S, string) -> S, schema: S, log0: seq<Event>,
    up: nat, down: nat, rows1: seq<Key>, log1: seq<Event>, rows2: seq<Key>, log2: seq<Event>)
    requires app.Valid()
    requires Outcome(Up, AsMap(app.migrations),
                     Plan(Up, app.migrations, UpOrder(Names(app.plugins), app.migrations), {}),
                     up, false, true, [], log0, rows1, log1)
    requires Outcome(Down, AsMap(app.migrations),
                     Plan(Down, app.migrations, DownOrder(Names(app.plugins), app.migrations), ToSet(rows1)),
                     down, false, true, rows1, log1, rows2, log2)
    ensures var scripts := AsMap(app.migrations);
            var plan := Plan(Up, app.migrations, UpOrder(Names(app.plugins), app.migrations), {});
            && rows1 == plan && rows2 == []
            && log2 == log0 + Run(scripts, Up, plan, |plan|, false) + Run(scripts, Down, Reversed(plan), |plan|, false)
    ensures DownInvertsUp(run, AsMap(app.migrations)) ==>
              SchemaAfter(run, schema, log2) == SchemaAfter(run, schema, log0)
  {
    var names, reg := Names(app.plugins), app.migrations;
    var plan := Plan(Up, reg, UpOrder(names, reg), {});
    assert WellKept(names, reg) && UniqueKeys(reg) && Distinct(names);
    hide *;
    OnlyTheHostIsOutside(names, reg);
    TeardownMirrorsMigration(names, reg);
    CompleteUpRows(AsMap(reg), plan, log0, up, rows1, log1);
    CompleteRuns(AsMap(reg), plan, log0, up, down, rows1, log1, rows2, log2);
    PlanMeaning(Up, reg, UpOrder(names, reg), {});
    if DownInvertsUp(run, AsMap(reg)) {
      SchemaRestored(AsMap(reg), plan, log0, run, schema);
    }
  }

  lemma NothingLeft(plan: seq<Key>)
    ensures Without(plan, ToSet(Reversed(plan)[..|plan|])) == []
  {
    ReversedMembers(plan);
    assert Reversed(plan)[..|plan|] == Reversed(plan);
    var left := Without(plan, ToSet(Reversed(plan)));
    if left != [] { HasMember(left); }
  }

  // A seeder of a plugin runs only when every registered seeder of every
  // transitive dependency of that plugin is recorded, or has run in this call.
  lemma SeedingRespectsDependencies<T>(
    deps: map<string, seq<string>>, plugins: seq<string>, reg: seq<Entry<T>>, force: bool, seeds: set<Key>,
    done: nat, broken: bool, i: nat, key: Key)
    requires Distinct(plugins) && Walks.TargetsFirst(deps, plugins) && UniqueKeys(reg)
    requires var plan := SeedPlan(force, Visits(Up, reg, UpOrder(plugins, reg)), seeds);
             && done <= |plan| && (broken ==> done < |plan|)
             && i < |SeedTrace(plan, done, broken, force)|
             && var p := SeedTrace(plan, done, broken, force)[i].key.namespace;
             p in plugins && DependsOn(deps, p, key.namespace)
    requires key in AsMap(reg)
    ensures var plan := SeedPlan(force, Visits(Up, reg, UpOrder(plugins, reg)), seeds);
            key in (if force then {} else seeds) + ToSet(plan[..i])
  {
    hide FlatMap, Visitor, UniqueKeys, AsMap, Distinct, DependsOn, OtherNamespaces, Enumerates, Walks.TargetsFirst,
      Without;
    var order := UpOrder(plugins, reg);
    var plan := SeedPlan(force, Visits(Up, reg, order), seeds);
    var at :| 0 <= at < |plugins| && plugins[at] == plan[i].namespace;
    DependencyComesEarlier(deps, plugins, at, key.namespace);
    assert order[..at] == plugins[..at];
    OrdersDistinct(plugins, reg);
    VisitorEnumerates(Up, reg);
    EarlierNamespacesAreDone(Up, Visitor(Up, reg), AsMap(reg).Keys, order, if force then {} else seeds, plan, i, at,
                             key);
  }

  // A job this app could dispatch stays registered, so its deliveries end with
  // an acknowledgement, a retry, or a handler failure on the last attempt.
  lemma DispatchedJobsStayRegistered(jobs: seq<Entry<Job>>, more: seq<Entry<Job>>, key: Key, attempt: nat, ok: bool)
    requires UniqueKeys(jobs) && key in AsMap(jobs)
    ensures UniqueKeys(UpsertAll(jobs, more)) && key in AsMap(UpsertAll(jobs, more))
    ensures var max := MaxAttemptsOf(UpsertAll(jobs, more), key);
            && max.Some?
            && (Judge(max, attempt, ok) == GiveUp <==> !ok && attempt >= max.value)
  {
    UpsertAllIsLastWriterWins(jobs, more);
    hide UpsertAll, UniqueKeys;
  }
}
