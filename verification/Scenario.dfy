// The safety results as an observer of the application sees them: on the
// database's history and on the reports, around the application's own calls.
module Scenarios {
  import opened Seqs
  import opened Lex
  import opened Namespaces
  import opened Plugins
  import opened MigrationPlan
  import opened MigrationRecord
  import opened MigrationOutcome
  import opened MigrationSafety
  import opened SeederRecord
  import opened Databases
  import opened AppState
  import opened Apps
  import opened Guarantees
  import opened Retries
  import opened Histories
  import Walks

  // Every commit of log from position start on found, for each transitive
  // dependency of its plugin, every registered migration recorded.
  ghost predicate DependenciesFirst(deps: map<string, seq<string>>, plugins: seq<string>, registered: set<Key>,
                                    log: seq<Event>, start: nat)
  {
    forall i: int, key: Key ::
      (start <= i < |log| && log[i].key.namespace in plugins && key in registered
       && DependsOn(deps, log[i].key.namespace, key.namespace)) ==>
        key in Replay({}, log[..i])
  }

  // Every revert found no registered migration of a transitive dependent
  // recorded.
  ghost predicate DependentsGone(deps: map<string, seq<string>>, plugins: seq<string>, registered: set<Key>,
                                 log: seq<Event>, start: nat)
  {
    forall i: int, key: Key ::
      (start <= i < |log| && key.namespace in plugins && key in registered
       && DependsOn(deps, key.namespace, log[i].key.namespace)) ==>
        key !in Replay({}, log[..i])
  }

  lemma ReplayAcross(log0: seq<Event>, run: seq<Event>, i: nat)
    requires |log0| <= i <= |log0 + run|
    ensures Replay({}, (log0 + run)[..i]) == Replay(Replay({}, log0), run[..i - |log0|])
  {
    ReplayConcat({}, log0, run[..i - |log0|]);
    assert (log0 + run)[..i] == log0 + run[..i - |log0|];
  }

  lemma UpKeepsDependenciesFirst(deps: map<string, seq<string>>, plugins: seq<string>, reg: Registry, done: nat,
                                 broken: bool, ok: bool, rows0: seq<Key>, log0: seq<Event>, rows1: seq<Key>,
                                 log1: seq<Event>)
    requires Distinct(plugins) && Walks.TargetsFirst(deps, plugins) && UniqueKeys(reg)
    requires ToSet(rows0) == Replay({}, log0)
    requires Outcome(Up, AsMap(reg), Plan(Up, reg, UpOrder(plugins, reg), ToSet(rows0)), done, broken, ok, rows0, log0,
                     rows1, log1)
    ensures log0 <= log1 && DependenciesFirst(deps, plugins, AsMap(reg).Keys, log1, |log0|)
  {
    hide Distinct, Walks.TargetsFirst, UniqueKeys, AsMap, Plan, UpOrder, Replay, DependsOn;
    var plan := Plan(Up, reg, UpOrder(plugins, reg), ToSet(rows0));
    var run := Run(AsMap(reg), Up, plan, done, broken);
    forall i: int, key: Key | |log0| <= i < |log1| && log1[i].key.namespace in plugins && key in AsMap(reg).Keys
                    && DependsOn(deps, log1[i].key.namespace, key.namespace)
      ensures key in Replay({}, log1[..i])
    {
      ReplayAcross(log0, run, i);
      UpRespectsDependencies(deps, plugins, reg, ToSet(rows0), plan, done, broken, i - |log0|, key);
    }
  }

  lemma {:induction false} DownKeepsDependentsGone(deps: map<string, seq<string>>, plugins: seq<string>,
                                                   reg: Registry, done: nat, broken: bool, ok: bool, rows0: seq<Key>,
                                                   log0: seq<Event>, rows1: seq<Key>, log1: seq<Event>)
    requires Distinct(plugins) && Walks.TargetsFirst(deps, plugins) && UniqueKeys(reg)
    requires ToSet(rows0) == Replay({}, log0)
    requires Outcome(Down, AsMap(reg), Plan(Down, reg, DownOrder(plugins, reg), ToSet(rows0)), done, broken, ok, rows0,
                     log0, rows1, log1)
    ensures log0 <= log1 && DependentsGone(deps, plugins, AsMap(reg).Keys, log1, |log0|)
  {
    hide Distinct, Walks.TargetsFirst, UniqueKeys, AsMap, Plan, DownOrder, Replay, DependsOn;
    var plan := Plan(Down, reg, DownOrder(plugins, reg), ToSet(rows0));
    var run := Run(AsMap(reg), Down, plan, done, broken);
    forall i: int, key: Key | |log0| <= i < |log1| && key.namespace in plugins && key in AsMap(reg).Keys
                    && DependsOn(deps, key.namespace, log1[i].key.namespace)
      ensures key !in Replay({}, log1[..i])
    {
      ReplayAcross(log0, run, i);
      DownRespectsDependents(deps, plugins, reg, ToSet(rows0), plan, done, broken, i - |log0|, key);
    }
  }

  method MigrateUp(app: App) returns (err: Option<AppError>)
    requires app.Valid() && app.didSetup
    modifies app.db`rows, app.db`log, app.db`failures
    ensures app.Valid() && old(app.db.log) <= app.db.log
    ensures DependenciesFirst(Dependencies(app.plugins), Names(app.plugins), AsMap(app.migrations).Keys,
                              app.db.log, |old(app.db.log)|)
    ensures UpHistory(Names(app.plugins), AsMap(app.migrations), old(app.db.rows), old(app.db.log),
                      app.db.rows, app.db.log, err.None?)
    ensures app.db.failures == old(app.db.failures) + (if err.None? then 0 else 1)
  {
    hide UpHistory, DependenciesFirst, Replay, Dependencies, Names, AsMap, Plan, Outcome, Legal, SeedsExplained;
    ghost var done, broken;
    err, done, broken := app.MigrateAllUp();
    UpOutcomeIsHistory(Names(app.plugins), app.migrations, done, broken, err.None?, old(app.db.rows), old(app.db.log),
                       app.db.rows, app.db.log);
    UpKeepsDependenciesFirst(Dependencies(app.plugins), Names(app.plugins), app.migrations, done, broken, err.None?,
                             old(app.db.rows), old(app.db.log), app.db.rows, app.db.log);
  }

  method MigrateDown(app: App) returns (err: Option<AppError>)
    requires app.Valid() && app.didSetup
    modifies app.db`rows, app.db`log, app.db`failures
    ensures app.Valid() && old(app.db.log) <= app.db.log
    ensures DependentsGone(Dependencies(app.plugins), Names(app.plugins), AsMap(app.migrations).Keys,
                           app.db.log, |old(app.db.log)|)
    ensures DownHistory(Names(app.plugins), AsMap(app.migrations), old(app.db.rows), old(app.db.log),
                        app.db.rows, app.db.log, err.None?)
    ensures app.db.failures == old(app.db.failures) + (if err.None? then 0 else 1)
  {
    hide DownHistory, DependentsGone, Replay, Dependencies, Names, AsMap, Plan, Outcome, Legal, SeedsExplained;
    ghost var done, broken;
    err, done, broken := app.MigrateAllDown();
    DownOutcomeIsHistory(Names(app.plugins), app.migrations, done, broken, err.None?, old(app.db.rows),
                         old(app.db.log), app.db.rows, app.db.log);
    DownKeepsDependentsGone(Dependencies(app.plugins), Names(app.plugins), app.migrations, done, broken, err.None?,
                            old(app.db.rows), old(app.db.log), app.db.rows, app.db.log);
  }

  lemma SuccessIsUnbroken(dir: Direction, scripts: map<Key, Script>, plan: seq<Key>, done: nat, broken: bool,
                          rows0: seq<Key>, log0: seq<Event>, rows1: seq<Key>, log1: seq<Event>)
    requires Outcome(dir, scripts, plan, done, broken, true, rows0, log0, rows1, log1)
    ensures !broken
  {
  }

  // From an empty table, up and then down again.
  method MigrateUpThenDown<S(!new)>(app: App, ghost run: (S, string) -> S, ghost schema: S)
    returns (up: Option<AppError>, down: Option<AppError>)
    requires app.Valid() && app.didSetup && app.db.rows == []
    modifies app.db`rows, app.db`log, app.db`failures
    ensures app.Valid()
    ensures up.None? && down.None? ==>
              var scripts := AsMap(app.migrations);
              var plan := Plan(Up, app.migrations, UpOrder(Names(app.plugins), app.migrations), {});
              && app.db.rows == []
              && app.db.log == old(app.db.log) + Run(scripts, Up, plan, |plan|, false)
                                               + Run(scripts, Down, Reversed(plan), |plan|, false)
              && (DownInvertsUp(run, scripts) ==>
                    SchemaAfter(run, schema, app.db.log) == SchemaAfter(run, schema, old(app.db.log)))
  {
    hide Plan, UpOrder, DownOrder, Outcome, Names, AsMap, Run, SchemaAfter, DownInvertsUp, WellKept, AcceptablePlugins,
      Database.Sound, Walks.TargetsFirst;
    ghost var done, broken, done2, broken2;
    down := None;
    up, done, broken := app.MigrateAllUp();
    if up.Some? {
      return;
    }
    assert ToSet(old(app.db.rows)) == {};
    ghost var rows, log := app.db.rows, app.db.log;
    down, done2, broken2 := app.MigrateAllDown();
    if down.None? {
      var reg, names := app.migrations, Names(app.plugins);
      SuccessIsUnbroken(Up, AsMap(reg), Plan(Up, reg, UpOrder(names, reg), {}), done, broken, [], old(app.db.log), rows,
                        log);
      SuccessIsUnbroken(Down, AsMap(reg), Plan(Down, reg, DownOrder(names, reg), ToSet(rows)), done2, broken2,
                        rows, log, app.db.rows, app.db.log);
      TeardownUndoesMigration(app, run, schema, old(app.db.log), done, done2, rows, log, app.db.rows, app.db.log);
    }
  }

  // A full migration that failed, repeated.
  method RetryMigrateUp(app: App) returns (first: Option<AppError>, second: Option<AppError>)
    requires app.Valid() && app.didSetup
    modifies app.db`rows, app.db`log, app.db`failures
    ensures app.Valid()
    ensures first.Some? && second.None? ==>
              var plan := Plan(Up, app.migrations, UpOrder(Names(app.plugins), app.migrations),
                               ToSet(old(app.db.rows)));
              && app.db.rows == old(app.db.rows) + plan
              && |old(app.db.log)| <= |app.db.log|
              && CommittedByBoth(app.db.log[|old(app.db.log)|..], plan)
  {
    hide Plan, Outcome, AsMap, UpOrder, CommittedByBoth, BothRuns, ToSet, Walks.TargetsFirst, Database.Sound;
    ghost var done, broken, done2, broken2;
    second := None;
    first, done, broken := app.MigrateAllUp();
    if first.None? {
      return;
    }
    ghost var rows, log := app.db.rows, app.db.log;
    second, done2, broken2 := app.MigrateAllUp();
    if second.None? {
      OrdersDistinct(Names(app.plugins), app.migrations);
      RetryCompletesThePlan(app.migrations, UpOrder(Names(app.plugins), app.migrations), done, broken, done2, broken2,
                            old(app.db.rows), old(app.db.log), rows, log, app.db.rows, app.db.log);
    }
  }

  // ---------- seeding ----------

  // Every seeder run from position start on found each registered seeder of each
  // transitive dependency known, or run since start.
  ghost predicate DependenciesSeeded(deps: map<string, seq<string>>, plugins: seq<string>, registered: set<Key>,
                                     known: set<Key>, runs: seq<SeedRun>, start: nat)
    requires start <= |runs|
  {
    forall i: int, key: Key ::
      (start <= i < |runs| && runs[i].key.namespace in plugins && key in registered
       && DependsOn(deps, runs[i].key.namespace, key.namespace)) ==>
        key in known + RanKeys(runs[start..i])
  }

  lemma SeedingKeepsDependenciesSeeded<T>(
    deps: map<string, seq<string>>, plugins: seq<string>, reg: seq<Entry<T>>, force: bool, done: nat, broken: bool,
      ok: bool,
    seeds0: set<Key>, runs0: seq<SeedRun>, seeds1: set<Key>, runs1: seq<SeedRun>)
    requires Distinct(plugins) && Walks.TargetsFirst(deps, plugins) && UniqueKeys(reg)
    requires SeedOutcome(force, SeedPlan(force, Visits(Up, reg, UpOrder(plugins, reg)), seeds0), done, broken, ok,
                         seeds0, runs0, seeds1, runs1)
    ensures runs0 <= runs1
    ensures DependenciesSeeded(deps, plugins, AsMap(reg).Keys, if force then {} else seeds0, runs1, |runs0|)
  {
    hide Distinct, Walks.TargetsFirst, UniqueKeys, AsMap, SeedPlan, Visits, UpOrder, DependsOn;
    var plan := SeedPlan(force, Visits(Up, reg, UpOrder(plugins, reg)), seeds0);
    var trace := SeedTrace(plan, done, broken, force);
    forall i: int, key: Key | |runs0| <= i < |runs1| && runs1[i].key.namespace in plugins && key in AsMap(reg).Keys
                              && DependsOn(deps, runs1[i].key.namespace, key.namespace)
      ensures key in (if force then {} else seeds0) + RanKeys(runs1[|runs0|..i])
    {
      var n := i - |runs0|;
      assert runs1[|runs0|..i] == trace[..n];
      SeedingRespectsDependencies(deps, plugins, reg, force, seeds0, done, broken, n, key);
      if key in ToSet(plan[..n]) {
        var j :| 0 <= j < n && plan[j] == key;
        assert trace[..n][j].key == key && trace[..n][j] in trace[..n];
      }
    }
  }

  method Seed(app: App, force: bool) returns (err: Option<AppError>)
    requires app.Valid() && app.didSetup
    modifies app.db`seeds, app.db`runs, app.db`failures
    ensures app.Valid() && old(app.db.runs) <= app.db.runs
    ensures DependenciesSeeded(Dependencies(app.plugins), Names(app.plugins), AsMap(app.seeders).Keys,
                               if force then {} else old(app.db.seeds), app.db.runs, |old(app.db.runs)|)
    ensures SeedRuns(Names(app.plugins), AsMap(app.seeders).Keys, force, old(app.db.seeds), old(app.db.runs),
                     app.db.runs)
    ensures SeedTable(force, old(app.db.seeds), old(app.db.runs), app.db.seeds, app.db.runs)
    ensures err.None? ==>
              AllSeeded(AsMap(app.seeders).Keys, force, old(app.db.runs), app.db.seeds, app.db.runs)
    ensures app.db.failures == old(app.db.failures) + (if err.None? then 0 else 1)
  {
    hide SeedRuns, SeedTable, AllSeeded, DependenciesSeeded, Dependencies, Names, AsMap, SeedPlan, SeedOutcome,
      Database.Sound;
    ghost var done, broken;
    err, done, broken := app.SeedAll(force);
    SeedOutcomeIsHistory(Names(app.plugins), app.seeders, force, done, broken, err.None?,
                         old(app.db.seeds), old(app.db.runs), app.db.seeds, app.db.runs);
    SeedingKeepsDependenciesSeeded(Dependencies(app.plugins), Names(app.plugins), app.seeders, force, done, broken,
                                   err.None?,
                                   old(app.db.seeds), old(app.db.runs), app.db.seeds, app.db.runs);
  }

  // ---------- reports ----------

  lemma FinishedRows(dir: Direction, scripts: map<Key, Script>, plan: seq<Key>, done: nat, broken: bool,
                     rows0: seq<Key>, log0: seq<Event>, rows1: seq<Key>, log1: seq<Event>)
    requires Outcome(dir, scripts, plan, done, broken, true, rows0, log0, rows1, log1)
    ensures ToSet(rows1) == After(dir, ToSet(rows0), plan)
  {
    assert plan[..|plan|] == plan;
    RowsAfterMembers(dir, rows0, plan);
  }

  // What a report says about a namespace, in terms of the table.
  lemma ReportReadsTheTable(s: NamespaceState, namespace: string, reg: Registry, rows: seq<Key>)
    requires UniqueKeys(reg) && namespace != ""
    requires Describes(s, namespace, NamespaceKeys(reg, namespace), SeenApplied(rows, namespace))
    ensures s.pending == |Without(NamespaceKeys(reg, namespace), ToSet(rows))|
    ensures s.current == LastName(Within(NamespaceKeys(reg, namespace), ToSet(rows)))
  {
    hide UniqueKeys, SeenApplied, NamespaceKeys, AsMap;
    var ks := NamespaceKeys(reg, namespace);
    SeenIsRecorded(rows, namespace);
    NamespaceKeysMeaning(reg, namespace);
    WithoutAgrees(ks, SeenApplied(rows, namespace), ToSet(rows));
    WithinAgrees(ks, SeenApplied(rows, namespace), ToSet(rows));
  }

  lemma RegisteredNamespacesHaveNames(names: seq<string>, reg: Registry)
    requires WellKept(names, reg) && "" !in names
    ensures forall n :: n in Within(UpOrder(names, reg), ToSet(NamespaceList(reg))) ==> n != ""
  {
    NamespaceListIsSorted(reg);
    hide UniqueKeys;
  }

  lemma PluginsHaveNames(ops: Semver, plugins: seq<Plugin>)
    requires AcceptablePlugins(ops, plugins)
    ensures "" !in Names(plugins)
  {
    forall i | 0 <= i < |plugins|
      ensures Names(plugins)[i] != ""
    {
      assert plugins[i] in plugins;
    }
  }

  lemma NothingPendingInReport(app: App, rows0: seq<Key>, states: seq<NamespaceState>)
    requires app.Valid()
    requires ToSet(app.db.rows)
               == After(Up, ToSet(rows0),
                        Plan(Up, app.migrations, UpOrder(Names(app.plugins), app.migrations), ToSet(rows0)))
    requires ReportsOn(app, states)
    ensures forall i :: 0 <= i < |states| ==> states[i].pending == 0
  {
    var names, reg := Names(app.plugins), app.migrations;
    var order := Within(UpOrder(names, reg), ToSet(NamespaceList(reg)));
    assert WellKept(names, reg) && UniqueKeys(reg) && Distinct(names);
    PluginsHaveNames(app.ops, app.plugins);
    RegisteredNamespacesHaveNames(names, reg);
    forall i | 0 <= i < |states|
      ensures states[i].pending == 0
    {
      assert order[i] in order;
      hide App.Valid, Describes, UniqueKeys, Distinct, NamespaceKeys, Plan, After, ToSet, Within, Names, SeenApplied,
        UpOrder;
      ReportReadsTheTable(states[i], order[i], reg, app.db.rows);
      NothingPendingAfterUp(names, reg, ToSet(rows0), order[i]);
    }
  }

  lemma NothingCurrentInReport(app: App, rows0: seq<Key>, states: seq<NamespaceState>)
    requires app.Valid()
    requires ToSet(app.db.rows)
               == After(Down, ToSet(rows0),
                        Plan(Down, app.migrations, DownOrder(Names(app.plugins), app.migrations), ToSet(rows0)))
    requires ReportsOn(app, states)
    ensures forall i :: 0 <= i < |states| ==> states[i].current == ""
  {
    var names, reg := Names(app.plugins), app.migrations;
    var order := Within(UpOrder(names, reg), ToSet(NamespaceList(reg)));
    assert WellKept(names, reg) && UniqueKeys(reg) && Distinct(names);
    PluginsHaveNames(app.ops, app.plugins);
    RegisteredNamespacesHaveNames(names, reg);
    forall i | 0 <= i < |states|
      ensures states[i].current == ""
    {
      assert order[i] in order;
      hide App.Valid, Describes, UniqueKeys, Distinct, NamespaceKeys, Plan, After, ToSet, Within, Names, SeenApplied,
        UpOrder, DownOrder;
      ReportReadsTheTable(states[i], order[i], reg, app.db.rows);
      NothingCurrentAfterDown(names, reg, ToSet(rows0), order[i]);
    }
  }

  // states is what MigrationState reports on the table as it is.
  ghost predicate ReportsOn(app: App, states: seq<NamespaceState>)
    reads app`plugins, app`migrations, app.db`rows
  {
    var order := Within(UpOrder(Names(app.plugins), app.migrations), ToSet(NamespaceList(app.migrations)));
    |states| == |order| && forall i :: 0 <= i < |order| ==>
      Describes(states[i], order[i], NamespaceKeys(app.migrations, order[i]), SeenApplied(app.db.rows, order[i]))
  }

  // After MigrateAllUp succeeds, MigrationState reports nothing pending.
  method MigrateUpAndReport(app: App) returns (err: Option<AppError>, states: seq<NamespaceState>)
    requires app.Valid() && app.didSetup
    modifies app.db`rows, app.db`log, app.db`failures
    ensures app.Valid()
    ensures err.None? ==> ReportsOn(app, states) && forall i :: 0 <= i < |states| ==> states[i].pending == 0
  {
    states := [];
    ghost var done, broken;
    err, done, broken := app.MigrateAllUp();
    if err.Some? {
      return;
    }
    ghost var plan := Plan(Up, app.migrations, UpOrder(Names(app.plugins), app.migrations), ToSet(old(app.db.rows)));
    hide Describes, Within, UpOrder, NamespaceList, Plan, Outcome, Names, After, ToSet, WellKept, AcceptablePlugins,
      Database.Sound, Walks.TargetsFirst;
    FinishedRows(Up, AsMap(app.migrations), plan, done, broken, old(app.db.rows), old(app.db.log), app.db.rows,
                 app.db.log);
    err, states := app.MigrationState();
    if err.None? {
      assert ReportsOn(app, states);
      NothingPendingInReport(app, old(app.db.rows), states);
    }
  }

  // After MigrateAllDown succeeds, it reports no current migration.
  method MigrateDownAndReport(app: App) returns (err: Option<AppError>, states: seq<NamespaceState>)
    requires app.Valid() && app.didSetup
    modifies app.db`rows, app.db`log, app.db`failures
    ensures app.Valid()
    ensures err.None? ==> ReportsOn(app, states) && forall i :: 0 <= i < |states| ==> states[i].current == ""
  {
    states := [];
    ghost var done, broken;
    err, done, broken := app.MigrateAllDown();
    if err.Some? {
      return;
    }
    ghost var plan := Plan(Down, app.migrations, DownOrder(Names(app.plugins), app.migrations),
                           ToSet(old(app.db.rows)));
    hide Describes, Within, UpOrder, DownOrder, NamespaceList, Plan, Outcome, Names, After, ToSet, WellKept,
      AcceptablePlugins, Database.Sound, Walks.TargetsFirst;
    FinishedRows(Down, AsMap(app.migrations), plan, done, broken, old(app.db.rows), old(app.db.log), app.db.rows,
                 app.db.log);
    err, states := app.MigrationState();
    if err.None? {
      assert ReportsOn(app, states);
      NothingCurrentInReport(app, old(app.db.rows), states);
    }
  }

  // After a first SeedAll without force succeeds, a second one runs nothing:
  // both together have done what the first did.
  method SeedTwice(app: App) returns (first: Option<AppError>, second: Option<AppError>)
    requires app.Valid() && app.didSetup
    modifies app.db`seeds, app.db`runs, app.db`failures
    ensures app.Valid()
    ensures first.None? ==>
              SeedFinished(false, Visits(Up, app.seeders, UpOrder(Names(app.plugins), app.seeders)),
                           old(app.db.seeds), old(app.db.runs), app.db.seeds, app.db.runs)
  {
    ghost var keys := Visits(Up, app.seeders, UpOrder(Names(app.plugins), app.seeders));
    ghost var done, broken;
    first, done, broken := app.SeedAll(false);
    second := first;
    if first.Some? {
      return;
    }
    ghost var seeds, runs := app.db.seeds, app.db.runs;
    SeededOnce(keys, done, broken, old(app.db.seeds), old(app.db.runs), seeds, runs);
    second, done, broken := app.SeedAll(false);
    NothingSeededAgain(keys, done, broken, second.None?, seeds, runs, app.db.seeds, app.db.runs);
  }

  lemma SeededOnce(keys: seq<Key>, done: nat, broken: bool, seeds0: set<Key>, runs0: seq<SeedRun>, seeds1: set<Key>,
                   runs1: seq<SeedRun>)
    requires SeedOutcome(false, SeedPlan(false, keys, seeds0), done, broken, true, seeds0, runs0, seeds1, runs1)
    ensures forall k :: k in keys ==> k in seeds1
  {
    var plan := SeedPlan(false, keys, seeds0);
    assert plan[..|plan|] == plan;
  }

  lemma NothingSeededAgain(keys: seq<Key>, done: nat, broken: bool, ok: bool, seeds0: set<Key>, runs0: seq<SeedRun>,
                           seeds1: set<Key>, runs1: seq<SeedRun>)
    requires SeedOutcome(false, SeedPlan(false, keys, seeds0), done, broken, ok, seeds0, runs0, seeds1, runs1)
    requires forall k :: k in keys ==> k in seeds0
    ensures seeds1 == seeds0 && runs1 == runs0
  {
    var plan := SeedPlan(false, keys, seeds0);
    if plan != [] { HasMember(plan); }
  }
}
