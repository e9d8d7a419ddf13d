// app/: the application object. Plugins and registries first, then the
// migration engine and the seeder that run over them.
module Apps {
  import opened Seqs
  import opened Lex
  import opened Namespaces
  import opened Plugins
  import opened MigrationPlan
  import opened MigrationRecord
  import opened MigrationOutcome
  import opened SeederRecord
  import opened Databases
  import opened MigrationEngine
  import opened AppState
  import opened Registrations
  import Graphs
  import Walks
  import FirstPaths
  import FirstCycles

  class App {
    const ops: Semver
    const db: Database
    var plugins: seq<Plugin>
    var migrations: Registry
    var seeders: seq<Entry<Seeder>>
    var jobs: seq<Entry<Job>>
    var didSetup: bool

    constructor (ops: Semver, db: Database)
      requires db.Sound()
      ensures Valid() && this.ops == ops && this.db == db && !didSetup
      ensures plugins == [] && migrations == [] && seeders == [] && jobs == []
    {
      this.ops, this.db := ops, db;
      plugins, migrations, seeders, jobs, didSetup := [], [], [], [], false;
    }

    // Holds between any two calls, in every order of calls.
    ghost predicate Valid()
      reads this, db`rows, db`log, db`seeds, db`runs
    {
      && AcceptablePlugins(ops, plugins)
      && WellKept(Names(plugins), migrations) && WellKept(Names(plugins), seeders) && WellKept(Names(plugins), jobs)
      && (didSetup ==> Walks.TargetsFirst(Dependencies(plugins), Names(plugins)))
      && db.Sound()
    }

    // ---------- app/plugin.go ----------

    method UsePlugin(added: seq<Plugin>) returns (err: Option<AppError>)
      requires Valid()
      modifies this`plugins
      ensures Valid()
      ensures err.None? <==> !didSetup && AcceptablePlugins(ops, old(plugins) + added)
      ensures err.None? ==>
                Distinct(Names(plugins))
                && forall p :: p in added ==>
                     p.name != "" && p.name != "owner" && (p.version == "" || ops.isValid(p.version))
      ensures err.Some? ==>
                if didSetup then err == Some(AlreadySetUp) else ErrorFits(ops, old(plugins), added, err.value)
    {
      if didSetup {
        return Some(AlreadySetUp);
      }
      var seen := ToSet(Names(plugins));
      assert plugins + added[..0] == plugins;
      for i := 0 to |added|
        invariant plugins == old(plugins)
        invariant seen == ToSet(Names(plugins + added[..i]))
        invariant AcceptablePlugins(ops, plugins + added[..i])
      {
        var p := added[i];
        ghost var soFar := plugins + added[..i];
        assert plugins + added[..i + 1] == soFar + [p];
        assert plugins + added == soFar + added[i..];
        PluginAccepted(ops, soFar, p);
        var objection := Objection(ops, p, seen);
        if objection.Some? {
          PluginRejected(ops, soFar, added[i..]);
          ObjectionFits(ops, plugins, added, i);
          return objection;
        }
        seen := seen + {p.name};
      }
      assert added[..|added|] == added;
      NamesConcat(plugins, added);
      assert forall p :: p in added ==> p in plugins + added;
      plugins := plugins + added;
      return None;
    }

    method InitPlugins() returns (err: Option<AppError>)
      requires AcceptablePlugins(ops, plugins)
      modifies this`plugins
      ensures AcceptablePlugins(ops, plugins)
      ensures err.None? <==>
              (forall p :: !IsProblem(ops, old(plugins), p))
              && !Walks.HasReachableCycle(Dependencies(old(plugins)), Names(old(plugins)))
      ensures err.None? ==>
                multiset(plugins) == multiset(old(plugins))
                && Dependencies(plugins) == Dependencies(old(plugins))
                && ToSet(Names(plugins)) == ToSet(Names(old(plugins)))
                && Walks.TargetsFirst(Dependencies(plugins), Names(plugins))
                && FirstPaths.Arranged(Dependencies(old(plugins)), Names(old(plugins)), Reversed(Names(plugins)))
      ensures err.Some? ==> plugins == old(plugins)
      ensures err.Some? ==>
                if err.value.DependencyProblems? then
                  forall p :: p in err.value.problems <==> IsProblem(ops, plugins, p)
                else
                  err.value.CircularDependency?
                  && Walks.IsCycle(Dependencies(plugins), err.value.cycle) && Distinct(err.value.cycle[1..])
                  && FirstCycles.FirstCycle(Dependencies(plugins), Names(plugins), err.value.cycle)
    {
      var g := BuildGraph(plugins);
      var problems := CheckPluginDependencies(ops, plugins, g.vertices);
      if problems != [] {
        assert IsProblem(ops, plugins, problems[0]) by { assert problems[0] in problems; }
        return Some(DependencyProblems(problems));
      }
      assert forall p :: !IsProblem(ops, plugins, p);
      var order, cycle := g.GetReverseTopologicalOrCycle();
      if cycle != [] {
        return Some(CircularDependency(cycle));
      }
      NoProblemsStayInside(ops, plugins);
      var sorted := SortPluginsByIdOrder(plugins, order);
      WithinAll(order, ToSet(Names(plugins)));
      assert forall p :: p in plugins ==> p.name in Names(plugins) by {
        forall p | p in plugins ensures p.name in Names(plugins) { NameListed(plugins, p); }
      }
      DependenciesOfPermutation(plugins, sorted);
      plugins := sorted;
      return None;
    }

    // ---------- registration ----------

    ghost function Known(): Registries
      reads this`migrations, this`seeders, this`jobs
    {
      Registries(migrations, seeders, jobs)
    }

    method RegisterMigrations(namespace: string, batch: seq<Named<Script>>) returns (err: Option<AppError>)
      requires Valid() && (namespace == HOST_NAMESPACE || namespace in Names(plugins))
      modifies this`migrations
      ensures Valid()
      ensures err.None? <==> CanInsert(old(migrations), Wrap(namespace, batch))
      ensures err.Some? ==> err.value.DuplicateMigration?
      ensures err.None? <==>
              (forall i, j :: 0 <= i < j < |batch| ==> batch[i].name != batch[j].name)
              && forall i :: 0 <= i < |batch| ==> Key(namespace, batch[i].name) !in AsMap(old(migrations))
      ensures migrations == if err.None? then old(migrations) + Wrap(namespace, batch) else old(migrations)
    {
      hide AsMap, Database.Sound;
      CanInsertMeans(migrations, namespace, batch);
      var seen: set<string> := {};
      var entries := Wrap(namespace, batch);
      for i := 0 to |batch|
        invariant migrations == old(migrations)
        invariant CanInsert(migrations, entries[..i])
        invariant forall n :: n in seen <==> exists k :: 0 <= k < i && batch[k].name == n
      {
        var existing := Get(migrations, Key(namespace, batch[i].name));
        CanInsertNext(migrations, entries, i);
        if existing.Some? {
          return Some(DuplicateMigration(batch[i].name));
        }
        if batch[i].name in seen {
          return Some(DuplicateMigration(batch[i].name));
        }
        seen := seen + {batch[i].name};
      }
      assert entries[..|batch|] == entries;
      AppendIsInsert(migrations, entries);
      migrations := migrations + entries;
      return None;
    }

    method RegisterSeeders(namespace: string, batch: seq<Named<Seeder>>)
      requires Valid() && (namespace == HOST_NAMESPACE || namespace in Names(plugins))
      modifies this`seeders
      ensures Valid()
      ensures seeders == UpsertAll(old(seeders), Wrap(namespace, batch))
    {
      UpsertAllWellKept(Names(plugins), seeders, namespace, batch);
      seeders := ReplaceAll(seeders, Wrap(namespace, batch));
    }

    method RegisterJobs(namespace: string, batch: seq<JobArg>) returns (err: Option<AppError>)
      requires Valid() && (namespace == HOST_NAMESPACE || namespace in Names(plugins))
      modifies this`jobs
      ensures Valid()
      ensures err.None? <==> ValidJobs(batch)
      ensures err.None? <==> forall i :: 0 <= i < |batch| ==> batch[i].GivenJob? && batch[i].job.name != ""
      ensures err.Some? ==> err == Some(InvalidJob) && jobs == old(jobs)
      ensures err.None? ==> jobs == UpsertAll(old(jobs), Wrap(namespace, GivenJobs(batch)))
    {
      for i := 0 to |batch|
        invariant jobs == old(jobs)
        invariant forall k :: 0 <= k < i ==> batch[k].GivenJob? && batch[k].job.name != ""
      {
        if batch[i].NilJob? || batch[i].job.name == "" {
          assert batch[i] in batch;
          return Some(InvalidJob);
        }
      }
      UpsertAllWellKept(Names(plugins), jobs, namespace, GivenJobs(batch));
      jobs := ReplaceAll(jobs, Wrap(namespace, GivenJobs(batch)));
      return None;
    }

    method RegisterAll(namespace: string, r: Registration) returns (err: Option<AppError>)
      requires Valid() && (namespace == HOST_NAMESPACE || namespace in Names(plugins))
      modifies this`migrations, this`seeders, this`jobs
      ensures Valid()
      ensures match WithRegistration(old(Known()), namespace, r)
              case None => err.Some? && Known() == AfterRefusal(old(Known()), namespace, r)
              case Some(known) => err.None? && Known() == known
      ensures err == Some(InvalidJob) ==>
                migrations == old(migrations) + Wrap(namespace, r.migrations)
                && seeders == UpsertAll(old(seeders), Wrap(namespace, r.seeders)) && jobs == old(jobs)
    {
      err := RegisterMigrations(namespace, r.migrations);
      if err.Some? {
        return;
      }
      RegisterSeeders(namespace, r.seeders);
      err := RegisterJobs(namespace, r.jobs);
    }

    // register stands for the plugins' own Register methods in this call.
    method Setup(register: Plugin -> Option<Registration>) returns (err: Option<AppError>)
      requires Valid()
      modifies this
      ensures Valid()
      ensures multiset(plugins) == multiset(old(plugins))
      ensures err.None? <==> didSetup
      ensures old(didSetup) ==>
                err.None? && plugins == old(plugins) && migrations == old(migrations)
                && seeders == old(seeders) && jobs == old(jobs)
      ensures err.None? ==> Walks.TargetsFirst(Dependencies(plugins), Names(plugins))
      ensures !old(didSetup) ==>
                (err.None? <==>
                   (forall p :: !IsProblem(ops, old(plugins), p))
                   && !Walks.HasReachableCycle(Dependencies(old(plugins)), Names(old(plugins)))
                   && forall p :: p in old(plugins) ==> Registers(old(Known()), register, p))
      ensures !old(didSetup) && err.None? ==>
                WithPlugins(old(Known()), plugins, register) == Some(Known())
                && Contributed(old(Known()), old(plugins), register, Known())
      ensures !old(didSetup) && err.Some? ==>
                (plugins == old(plugins) && Known() == old(Known()))
                || exists at :: 0 <= at < |plugins| && StoppedAt(old(Known()), plugins, register, at, Known())
    {
      hide WellKept, AcceptablePlugins, Database.Sound, Dependencies, Names, Walks.TargetsFirst,
        Walks.HasReachableCycle, IsProblem;
      if didSetup {
        return None;
      }
      err := InitPlugins();
      if err.Some? {
        return;
      }
      WellKeptUnderPermutation(Names(old(plugins)), Names(plugins), migrations);
      WellKeptUnderPermutation(Names(old(plugins)), Names(plugins), seeders);
      WellKeptUnderPermutation(Names(old(plugins)), Names(plugins), jobs);
      RegisterInAnyOrder(old(Known()), old(plugins), plugins, register);
      err := RegisterPlugins(register);
      if err.Some? {
        return;
      }
      didSetup := true;
      return None;
    }

    // Setup's loop over the plugins in their final order.
    method RegisterPlugins(register: Plugin -> Option<Registration>) returns (err: Option<AppError>)
      requires Valid()
      modifies this`migrations, this`seeders, this`jobs
      ensures Valid()
      ensures match WithPlugins(old(Known()), plugins, register)
              case None =>
                err.Some?
                && exists at :: 0 <= at < |plugins| && StoppedAt(old(Known()), plugins, register, at, Known())
              case Some(known) => err.None? && Known() == known
    {
      hide WellKept, AcceptablePlugins, Database.Sound, Dependencies, Walks.TargetsFirst, WithRegistration,
        AfterRefusal, StoppedAt, WithPlugins;
      NoPlugins(Known(), plugins, register);
      for i := 0 to |plugins|
        invariant Valid() && WithPlugins(old(Known()), plugins[..i], register) == Some(Known())
      {
        assert Names(plugins)[i] == plugins[i].name;
        var registration := register(plugins[i]);
        ghost var before := Known();
        WithNextPlugin(old(Known()), plugins, register, i, before);
        if registration.None? {
          StopsThere(old(Known()), plugins, register, i, before, Known());
          return Some(RegisterFailed);
        }
        err := RegisterAll(plugins[i].name, registration.value);
        if err.Some? {
          StopsThere(old(Known()), plugins, register, i, before, Known());
          return;
        }
      }
      assert plugins[..|plugins|] == plugins;
      return None;
    }

    // ---------- app/migration.go ----------

    // Sorted keys of a namespace and the scripts behind them.
    method NamespaceMigrations(namespace: string) returns (ordered: seq<Entry<Script>>)
      requires UniqueKeys(migrations)
      ensures ordered == Listing(migrations, namespace)
      ensures KeysOf(ordered) == NamespaceKeys(migrations, namespace)
      ensures Backed(ordered, AsMap(migrations))
    {
      ordered := GetNamespace(migrations, namespace);
      NamespaceKeysMeaning(migrations, namespace);
      ListingIsSorted(migrations, namespace);
    }

    // The ghost results say how far the call got.
    method RunMigrationsUpTo(namespace: string, target: string)
      returns (err: Option<AppError>, ghost done: nat, ghost broken: bool)
      requires UniqueKeys(migrations) && db.Sound()
      modifies db`rows, db`log, db`failures
      ensures db.Sound()
      ensures UpToKeys(migrations, namespace, target).None? ==>
                err.Some? && db.rows == old(db.rows) && db.log == old(db.log)
                && (err == Some(NotFound) || err == Some(DatabaseFailed))
      ensures UpToKeys(migrations, namespace, target).Some? ==>
                Outcome(Up, AsMap(migrations),
                        Todo(Up, UpToKeys(migrations, namespace, target).value, ToSet(old(db.rows))),
                        done, broken, err.None?, old(db.rows), old(db.log), db.rows, db.log)
                && (err.None? || err == Some(DatabaseFailed))
      ensures db.failures == old(db.failures) + (if err == Some(DatabaseFailed) then 1 else 0)
    {
      var ordered := NamespaceMigrations(namespace);
      err, done, broken := UpTo(db, ordered, target, AsMap(migrations));
    }

    method RunMigrationsDownTo(namespace: string, target: string)
      returns (err: Option<AppError>, ghost done: nat, ghost broken: bool)
      requires UniqueKeys(migrations) && db.Sound()
      modifies db`rows, db`log, db`failures
      ensures db.Sound()
      ensures DownToKeys(migrations, namespace, target).None? ==>
                err.Some? && db.rows == old(db.rows) && db.log == old(db.log)
                && (err == Some(NotFound) || err == Some(DatabaseFailed))
      ensures DownToKeys(migrations, namespace, target).Some? ==>
                Outcome(Down, AsMap(migrations),
                        Todo(Down, DownToKeys(migrations, namespace, target).value, ToSet(old(db.rows))),
                        done, broken, err.None?, old(db.rows), old(db.log), db.rows, db.log)
                && (err.None? || err == Some(DatabaseFailed))
      ensures db.failures == old(db.failures) + (if err == Some(DatabaseFailed) then 1 else 0)
    {
      var ordered := NamespaceMigrations(namespace);
      err, done, broken := DownTo(db, ordered, target, AsMap(migrations));
    }

    method MigrateNamespaceUpToLatest(namespace: string)
      returns (err: Option<AppError>, ghost done: nat, ghost broken: bool)
      requires UniqueKeys(migrations) && db.Sound()
      modifies db`rows, db`log, db`failures
      ensures db.Sound()
      ensures Outcome(Up, AsMap(migrations), Todo(Up, NamespaceKeys(migrations, namespace), ToSet(old(db.rows))),
                      done, broken, err.None?, old(db.rows), old(db.log), db.rows, db.log)
      ensures err.None? || err == Some(DatabaseFailed)
      ensures db.failures == old(db.failures) + (if err.None? then 0 else 1)
    {
      var ordered := NamespaceMigrations(namespace);
      if |ordered| == 0 {
        NoChange(Up, AsMap(migrations), [], db.rows, db.log);
        return None, 0, false;
      }
      LatestIsEverything(migrations, namespace);
      err, done, broken := RunMigrationsUpTo(namespace, ordered[|ordered| - 1].name);
    }

    // The first at namespaces of order have been visited without an error.
    ghost predicate Progress(dir: Direction, order: seq<string>, at: nat, rows0: seq<Key>, log0: seq<Event>)
      requires at <= |order|
      reads this`migrations, db`rows, db`log
    {
      Finished(dir, AsMap(migrations), Visits(dir, migrations, order[..at]), rows0, log0, db.rows, db.log)
    }

    ghost predicate EndsAs(dir: Direction, order: seq<string>, done: nat, broken: bool, ok: bool, rows0: seq<Key>,
                           log0: seq<Event>)
      reads this`migrations, db`rows, db`log
    {
      Outcome(dir, AsMap(migrations), Plan(dir, migrations, order, ToSet(rows0)), done, broken, ok, rows0, log0,
              db.rows, db.log)
    }

    // What both full runs do for the next namespace of their order.
    method VisitNext(dir: Direction, namespace: string, ghost order: seq<string>, ghost at: nat,
                     ghost rows0: seq<Key>, ghost log0: seq<Event>)
      returns (err: Option<AppError>, ghost done: nat, ghost broken: bool)
      requires UniqueKeys(migrations) && db.Sound() && Distinct(order)
      requires at < |order| && order[at] == namespace && Progress(dir, order, at, rows0, log0)
      modifies db`rows, db`log, db`failures
      ensures db.Sound()
      ensures err.None? ==> Progress(dir, order, at + 1, rows0, log0)
      ensures err.Some? ==> EndsAs(dir, order, done, broken, false, rows0, log0)
      ensures err.None? || err == Some(DatabaseFailed)
      ensures db.failures == old(db.failures) + (if err.None? then 0 else 1)
    {
      hide UniqueKeys, Database.Sound, Distinct, Finished, Outcome, Visits, VisitKeys, Plan, DownToKeys, Todo, AsMap,
        ToSet;
      VisitKeysDown(migrations, namespace);
      DownToEverything(migrations, namespace);
      if dir == Up {
        err, done, broken := MigrateNamespaceUpToLatest(namespace);
      } else {
        err, done, broken := RunMigrationsDownTo(namespace, "");
      }
      NextNamespace(dir, migrations, order, at, done, broken, err.None?,
                    rows0, log0, old(db.rows), old(db.log), db.rows, db.log);
      done := |Plan(dir, migrations, order[..at], ToSet(rows0))| + done;
    }

    // The loop over the registered namespaces that belong to no plugin; before
    // counts the namespaces of order visited already.
    method VisitOthers(dir: Direction, skip: set<string>, ghost order: seq<string>, ghost before: nat,
                       ghost rows0: seq<Key>, ghost log0: seq<Event>)
      returns (err: Option<AppError>, ghost done: nat, ghost broken: bool)
      requires UniqueKeys(migrations) && db.Sound() && Distinct(order) && before <= |order|
      requires Without(NamespaceList(migrations), skip) <= order[before..]
      requires Progress(dir, order, before, rows0, log0)
      modifies db`rows, db`log, db`failures
      ensures db.Sound()
      ensures err.None? ==> Progress(dir, order, before + |Without(NamespaceList(migrations), skip)|, rows0, log0)
      ensures err.Some? ==> EndsAs(dir, order, done, broken, false, rows0, log0)
      ensures err.None? || err == Some(DatabaseFailed)
      ensures db.failures == old(db.failures) + (if err.None? then 0 else 1)
    {
      hide *;
      var namespaces := GetNamespaces(migrations);
      ghost var others := Without(namespaces, skip);
      ghost var n := 0;
      err, done, broken := None, 0, false;
      NothingDropped(namespaces, skip);
      for j := 0 to |namespaces|
        invariant db.Sound() && n == |Without(namespaces[..j], skip)| && n <= |others|
        invariant Progress(dir, order, before + n, rows0, log0) && db.failures == old(db.failures)
      {
        WithoutStep(namespaces, skip, j);
        if namespaces[j] in skip {
          continue;
        }
        assert others[n] == namespaces[j] && order[before..][n] == others[n];
        err, done, broken := VisitNext(dir, namespaces[j], order, before + n, rows0, log0);
        if err.Some? {
          return;
        }
        n := n + 1;
      }
      assert namespaces[..|namespaces|] == namespaces;
      err := None;
    }

    method MigrateAllUp() returns (err: Option<AppError>, ghost done: nat, ghost broken: bool)
      requires Valid()
      modifies db`rows, db`log, db`failures
      ensures Valid()
      ensures !didSetup ==> err == Some(NotSetUp) && db.rows == old(db.rows) && db.log == old(db.log)
      ensures didSetup ==>
                EndsAs(Up, UpOrder(Names(plugins), migrations), done, broken, err.None?, old(db.rows), old(db.log))
      ensures didSetup ==> err.None? || err == Some(DatabaseFailed)
      ensures db.failures == old(db.failures) + (if didSetup && err.Some? then 1 else 0)
    {
      hide Finished, Outcome, Visits, Todo, Database.Sound, NamespaceList, Without, Distinct, UniqueKeys, AsMap, Names;
      if !didSetup {
        return Some(NotSetUp), 0, false;
      }
      ghost var order := UpOrder(Names(plugins), migrations);
      OrdersDistinct(Names(plugins), migrations);
      NothingFinished(Up, AsMap(migrations), db.rows, db.log);
      NothingVisited(Up, migrations, order);
      var migrated: set<string> := {};
      for i := 0 to |plugins|
        invariant db.Sound() && migrated == ToSet(Names(plugins)[..i])
        invariant Progress(Up, order, i, old(db.rows), old(db.log)) && db.failures == old(db.failures)
      {
        assert Names(plugins)[..i + 1] == Names(plugins)[..i] + [plugins[i].name];
        err, done, broken := VisitNext(Up, plugins[i].name, order, i, old(db.rows), old(db.log));
        if err.Some? {
          return;
        }
        migrated := migrated + {plugins[i].name};
      }
      assert Names(plugins)[..|plugins|] == Names(plugins);
      err, done, broken := VisitOthers(Up, migrated, order, |plugins|, old(db.rows), old(db.log));
      if err.None? {
        assert order[..|order|] == order;
        FinishedOutcome(Up, AsMap(migrations), Visits(Up, migrations, order), old(db.rows), old(db.log), db.rows,
                        db.log);
        done, broken := |Plan(Up, migrations, order, ToSet(old(db.rows)))|, false;
      }
    }

    method MigrateAllDown() returns (err: Option<AppError>, ghost done: nat, ghost broken: bool)
      requires Valid()
      modifies db`rows, db`log, db`failures
      ensures Valid()
      ensures !didSetup ==> err == Some(NotSetUp) && db.rows == old(db.rows) && db.log == old(db.log)
      ensures didSetup ==>
                EndsAs(Down, DownOrder(Names(plugins), migrations), done, broken, err.None?, old(db.rows), old(db.log))
      ensures didSetup ==> err.None? || err == Some(DatabaseFailed)
      ensures db.failures == old(db.failures) + (if didSetup && err.Some? then 1 else 0)
    {
      hide Finished, Outcome, Visits, Todo, Database.Sound, NamespaceList, Without, Distinct, UniqueKeys, AsMap, Names;
      if !didSetup {
        return Some(NotSetUp), 0, false;
      }
      ghost var order := DownOrder(Names(plugins), migrations);
      OrdersDistinct(Names(plugins), migrations);
      NothingFinished(Down, AsMap(migrations), db.rows, db.log);
      NothingVisited(Down, migrations, order);
      var pluginNamespaces := ToSet(Names(plugins));
      err, done, broken := VisitOthers(Down, pluginNamespaces, order, 0, old(db.rows), old(db.log));
      if err.Some? {
        return;
      }
      ghost var at := |OtherNamespaces(Names(plugins), migrations)|;
      var i := |plugins| - 1;
      while i >= 0
        invariant db.Sound() && -1 <= i < |plugins| && at == |order| - 1 - i
        invariant Progress(Down, order, at, old(db.rows), old(db.log)) && db.failures == old(db.failures)
      {
        assert order[at] == Names(plugins)[i];
        err, done, broken := VisitNext(Down, plugins[i].name, order, at, old(db.rows), old(db.log));
        if err.Some? {
          return;
        }
        i, at := i - 1, at + 1;
      }
      assert order[..at] == order;
      FinishedOutcome(Down, AsMap(migrations), Visits(Down, migrations, order), old(db.rows), old(db.log), db.rows,
                      db.log);
      return None, |Plan(Down, migrations, order, ToSet(old(db.rows)))|, false;
    }

    method RollbackSteps(namespace: string, steps: int)
      returns (err: Option<AppError>, ghost done: nat, ghost broken: bool)
      requires Valid()
      modifies db`rows, db`log, db`failures
      ensures Valid()
      ensures steps <= 0 ==> err.None? && db.rows == old(db.rows) && db.log == old(db.log)
      ensures steps > 0 ==>
                match RollbackPlan(migrations, namespace, old(db.rows), AppliedEntries(old(db.rows), namespace), steps)
                case None =>
                  (err == Some(NotFound) || err == Some(DatabaseFailed))
                  && db.rows == old(db.rows) && db.log == old(db.log)
                case Some(plan) =>
                  Outcome(Down, AsMap(migrations), plan, done, broken, err.None?, old(db.rows), old(db.log), db.rows,
                          db.log)
                  && (err.None? || err == Some(DatabaseFailed))
      ensures db.failures == old(db.failures) + (if err == Some(DatabaseFailed) then 1 else 0)
    {
      hide Outcome, Database.Sound, AcceptablePlugins, Distinct, AsMap, Names, AppliedEntries, ToSet, DownToKeys,
        Within, Without,
        Walks.TargetsFirst, Dependencies;
      if steps <= 0 {
        return None, 0, false;
      }
      done, broken := 0, false;
      ghost var plan := RollbackPlan(migrations, namespace, db.rows, AppliedEntries(db.rows, namespace), steps);
      if plan.Some? { NoChange(Down, AsMap(migrations), plan.value, db.rows, db.log); }
      var ensured := db.EnsureTable();
      if !ensured {
        return Some(DatabaseFailed), 0, false;
      }
      var entries := db.AppliedMigrations(namespace);
      if entries.None? {
        return Some(DatabaseFailed), 0, false;
      }
      if |entries.value| == 0 {
        NothingApplied(migrations, namespace, db.rows, steps);
        return None, 0, false;
      }
      var target := if steps >= |entries.value| then "" else entries.value[|entries.value| - steps - 1].name;
      err, done, broken := RunMigrationsDownTo(namespace, target);
    }

    // ---------- migration status ----------

    method NamespaceMigrationState(namespace: string) returns (r: Option<NamespaceState>)
      requires UniqueKeys(migrations)
      modifies db`failures
      ensures db.failures == old(db.failures) + (if r.None? then 1 else 0)
      ensures r.Some? ==>
                Describes(r.value, namespace, NamespaceKeys(migrations, namespace), SeenApplied(db.rows, namespace))
    {
      var ordered := NamespaceMigrations(namespace);
      var entries := db.AppliedMigrations(namespace);
      if entries.None? {
        return None;
      }
      ghost var ks, seen := KeysOf(ordered), SeenApplied(db.rows, namespace);
      var current, pending, statuses := "", 0, [];
      NothingDescribed(namespace, ks, seen);
      for i := 0 to |ordered|
        invariant Describes(NamespaceState(namespace, current, pending, statuses), namespace, ks[..i], seen)
        invariant db.failures == old(db.failures)
      {
        var applied := ContainsName(entries.value, ordered[i].name);
        SeenByName(db.rows, namespace, ordered[i].name);
        ListingNamespace(migrations, namespace, i);
        DescribesNext(NamespaceState(namespace, current, pending, statuses), namespace, ks, i, seen);
        if applied {
          current := ordered[i].name;
        } else {
          pending := pending + 1;
        }
        statuses := statuses + [MigrationStatus(namespace, ordered[i].name, applied)];
      }
      assert ks[..|ordered|] == ks;
      return Some(NamespaceState(namespace, current, pending, statuses));
    }

    method ContainsName(entries: seq<Key>, name: string) returns (r: bool)
      ensures r <==> exists k :: k in entries && k.name == name
    {
      for i := 0 to |entries|
        invariant forall j :: 0 <= j < i ==> entries[j].name != name
      {
        if entries[i].name == name {
          assert entries[i] in entries;
          return true;
        }
      }
      return false;
    }

    // The namespaces that have migrations, in the order MigrateAllUp visits them.
    method OrderedMigrationNamespaces() returns (ordered: seq<string>)
      requires Distinct(Names(plugins))
      ensures ordered == Within(UpOrder(Names(plugins), migrations), ToSet(NamespaceList(migrations)))
    {
      hide Within, Without, NamespaceList, Distinct;
      var namespaces := GetNamespaces(migrations);
      var registered := ToSet(namespaces);
      NothingKept(Names(plugins), registered);
      var seen: set<string> := {};
      ordered := [];
      for i := 0 to |plugins|
        invariant ordered == Within(Names(plugins)[..i], registered) && seen == ToSet(ordered)
      {
        assert Names(plugins)[..i + 1] == Names(plugins)[..i] + [plugins[i].name];
        WithinAppend(Names(plugins)[..i], plugins[i].name, registered);
        if plugins[i].name in registered {
          ordered := ordered + [plugins[i].name];
          seen := seen + {plugins[i].name};
        }
      }
      ghost var first := ordered;
      assert Names(plugins)[..|plugins|] == Names(plugins);
      NothingDropped(namespaces, seen);
      for j := 0 to |namespaces|
        invariant ordered == first + Without(namespaces[..j], seen)
      {
        WithoutStep(namespaces, seen, j);
        if namespaces[j] !in seen {
          ordered := ordered + [namespaces[j]];
        }
      }
      assert namespaces[..|namespaces|] == namespaces;
      VisitedNamespaces(Names(plugins), namespaces, seen);
    }

    method MigrationState() returns (err: Option<AppError>, states: seq<NamespaceState>)
      requires Valid()
      modifies db`failures
      ensures Valid()
      ensures didSetup ==> err.None? || err == Some(DatabaseFailed)
      ensures db.failures == old(db.failures) + (if didSetup && err.Some? then 1 else 0)
      ensures !didSetup ==> err == Some(NotSetUp)
      ensures err.None? ==>
                var order := Within(UpOrder(Names(plugins), migrations), ToSet(NamespaceList(migrations)));
                |states| == |order| && forall i :: 0 <= i < |order| ==>
                  Describes(states[i], order[i], NamespaceKeys(migrations, order[i]), SeenApplied(db.rows, order[i]))
    {
      states := [];
      if !didSetup {
        return Some(NotSetUp), [];
      }
      hide Database.Sound, Walks.TargetsFirst, Dependencies, Describes, Distinct, SeenApplied, NamespaceKeys, UpOrder,
        Within, NamespaceList, UniqueKeys;
      var ensured := db.EnsureTable();
      if !ensured {
        return Some(DatabaseFailed), [];
      }
      var order := OrderedMigrationNamespaces();
      for i := 0 to |order|
        invariant |states| == i && db.failures == old(db.failures)
        invariant forall j :: 0 <= j < i ==>
          Describes(states[j], order[j], NamespaceKeys(migrations, order[j]), SeenApplied(db.rows, order[j]))
      {
        var state := NamespaceMigrationState(order[i]);
        if state.None? {
          return Some(DatabaseFailed), [];
        }
        states := states + [state.value];
      }
      return None, states;
    }

    // ---------- app/seeder.go ----------

    method RunSeeder(namespace: string, name: string, force: bool)
      returns (err: Option<AppError>, ghost done: nat, ghost broken: bool)
      requires UniqueKeys(seeders) && db.Sound()
      modifies db`seeds, db`runs, db`failures
      ensures db.Sound()
      ensures Key(namespace, name) !in AsMap(seeders) ==>
                (err == Some(NotFound) || err == Some(DatabaseFailed))
                && db.seeds == old(db.seeds) && db.runs == old(db.runs)
      ensures Key(namespace, name) in AsMap(seeders) ==>
                SeedOutcome(force, SeedPlan(force, [Key(namespace, name)], old(db.seeds)), done, broken, err.None?,
                            old(db.seeds), old(db.runs), db.seeds, db.runs)
                && (err.None? || IsFailure(err))
                && db.failures == old(db.failures) + (if err.None? then 0 else 1)
      ensures err == Some(NotFound) ==> db.failures == old(db.failures)
      ensures !force && Key(namespace, name) in old(db.seeds) ==> db.seeds == old(db.seeds) && db.runs == old(db.runs)
      ensures err.None? && (force || Key(namespace, name) !in old(db.seeds)) ==>
                db.seeds == old(db.seeds) + {Key(namespace, name)}
                && db.runs == old(db.runs) + [SeedRun(Key(namespace, name), force, true)]
    {
      hide UniqueKeys, Distinct, Legal, Replay, ToSet, AsMap, SeedOutcome, SeedPlan, SeedsExplained;
      var key := Key(namespace, name);
      SeedPlanOfOne(force, key, db.seeds);
      SeedNoChange(force, SeedPlan(force, [key], db.seeds), db.seeds, db.runs);
      done, broken := 0, false;
      var ensured := db.EnsureTable();
      if !ensured {
        return Some(DatabaseFailed), 0, false;
      }
      var seeder := Get(seeders, key);
      if seeder.None? {
        return Some(NotFound), 0, false;
      }
      if !force {
        var ran := db.HasRun(key);
        if ran.None? {
          return Some(DatabaseFailed), 0, false;
        }
        if ran.value {
          return None, 0, false;
        }
      }
      var succeeded := db.RunSeeder(key, force);
      if !succeeded {
        return Some(SeederFailed), 0, false;
      }
      OneSeed(force, key, db.seeds, old(db.runs));
      RunExplained(old(db.seeds), old(db.runs), key, force, old(db.seeds), false);
      RunExplained(old(db.seeds), old(db.runs), key, force, old(db.seeds) - {key}, false);
      RunExplained(old(db.seeds), old(db.runs), key, force, old(db.seeds) + {key}, true);
      if force {
        var cleared := db.ClearRun(key);
        if !cleared {
          return Some(DatabaseFailed), 0, true;
        }
      }
      assert db.seeds + {key} == old(db.seeds) + {key};
      var marked := db.MarkRun(key);
      if !marked {
        return Some(DatabaseFailed), 0, true;
      }
      return None, 1, false;
    }

    method RunSeedersForNamespace(namespace: string, force: bool)
      returns (err: Option<AppError>, ghost done: nat, ghost broken: bool)
      requires UniqueKeys(seeders) && db.Sound()
      modifies db`seeds, db`runs, db`failures
      ensures db.Sound()
      ensures SeedOutcome(force, SeedPlan(force, NamespaceKeys(seeders, namespace), old(db.seeds)), done, broken,
                          err.None?,
                          old(db.seeds), old(db.runs), db.seeds, db.runs)
      ensures err.None? || IsFailure(err)
      ensures db.failures == old(db.failures) + (if err.None? then 0 else 1)
    {
      hide *;
      var ordered := GetNamespace(seeders, namespace);
      ghost var ks := NamespaceKeys(seeders, namespace);
      SeederListing(seeders, namespace);
      NothingSeeded(force, db.seeds, db.runs);
      err, done, broken := None, 0, false;
      for i := 0 to |ordered|
        invariant db.Sound()
        invariant SeedFinished(force, ks[..i], old(db.seeds), old(db.runs), db.seeds, db.runs)
        invariant db.failures == old(db.failures)
      {
        ghost var seeds, runs := db.seeds, db.runs;
        assert ks[i] == Key(namespace, ordered[i].name);
        err, done, broken := RunSeeder(namespace, ordered[i].name, force);
        NextSeed(force, ks, i, done, broken, err.None?, old(db.seeds), old(db.runs), seeds, runs, db.seeds, db.runs);
        done := |SeedPlan(force, ks[..i], old(db.seeds))| + done;
        if err.Some? {
          return;
        }
      }
      assert ks[..|ordered|] == ks;
      SeedFinishedOutcome(force, ks, old(db.seeds), old(db.runs), db.seeds, db.runs);
      return None, |SeedPlan(force, ks, old(db.seeds))|, false;
    }

    ghost predicate Seeded(force: bool, order: seq<string>, at: nat, seeds0: set<Key>, runs0: seq<SeedRun>)
      requires at <= |order|
      reads this`seeders, db`seeds, db`runs
    {
      SeedFinished(force, Visits(Up, seeders, order[..at]), seeds0, runs0, db.seeds, db.runs)
    }

    ghost predicate SeedingEndsAs(force: bool, order: seq<string>, done: nat, broken: bool, ok: bool,
                                  seeds0: set<Key>, runs0: seq<SeedRun>)
      reads this`seeders, db`seeds, db`runs
    {
      SeedOutcome(force, SeedPlan(force, Visits(Up, seeders, order), seeds0), done, broken, ok, seeds0, runs0, db.seeds,
                  db.runs)
    }

    method SeedNextNamespace(force: bool, namespace: string, ghost order: seq<string>, ghost at: nat,
                             ghost seeds0: set<Key>, ghost runs0: seq<SeedRun>)
      returns (err: Option<AppError>, ghost done: nat, ghost broken: bool)
      requires UniqueKeys(seeders) && db.Sound() && Distinct(order)
      requires at < |order| && order[at] == namespace && Seeded(force, order, at, seeds0, runs0)
      modifies db`seeds, db`runs, db`failures
      ensures db.Sound()
      ensures err.None? ==> Seeded(force, order, at + 1, seeds0, runs0)
      ensures err.Some? ==> SeedingEndsAs(force, order, done, broken, false, seeds0, runs0)
      ensures err.None? || IsFailure(err)
      ensures db.failures == old(db.failures) + (if err.None? then 0 else 1)
    {
      hide UniqueKeys, Database.Sound, Distinct, SeedFinished, SeedOutcome, Visits, VisitKeys, SeedPlan, AsMap, ToSet;
      VisitKeysDown(seeders, namespace);
      VisitsStep(Up, seeders, order, at);
      err, done, broken := RunSeedersForNamespace(namespace, force);
      SeedNext(force, Visits(Up, seeders, order[..at]), VisitKeys(Up, seeders, namespace), Visits(Up, seeders, order),
               done, broken, err.None?, seeds0, runs0, old(db.seeds), old(db.runs), db.seeds, db.runs);
      done := |SeedPlan(force, Visits(Up, seeders, order[..at]), seeds0)| + done;
    }

    method SeedAll(force: bool) returns (err: Option<AppError>, ghost done: nat, ghost broken: bool)
      requires Valid()
      modifies db`seeds, db`runs, db`failures
      ensures Valid()
      ensures !didSetup ==> err == Some(NotSetUp) && db.seeds == old(db.seeds) && db.runs == old(db.runs)
      ensures didSetup ==>
                SeedingEndsAs(force, UpOrder(Names(plugins), seeders), done, broken, err.None?, old(db.seeds),
                              old(db.runs))
      ensures didSetup ==> err.None? || IsFailure(err)
      ensures db.failures == old(db.failures) + (if didSetup && err.Some? then 1 else 0)
    {
      hide SeedFinished, SeedOutcome, Visits, SeedPlan, Database.Sound, NamespaceList, Without, Distinct, UniqueKeys,
        AsMap, Names;
      if !didSetup {
        return Some(NotSetUp), 0, false;
      }
      ghost var order := UpOrder(Names(plugins), seeders);
      OrdersDistinct(Names(plugins), seeders);
      NothingSeeded(force, db.seeds, db.runs);
      NothingVisited(Up, seeders, order);
      var seeded: set<string> := {};
      for i := 0 to |plugins|
        invariant db.Sound() && seeded == ToSet(Names(plugins)[..i])
        invariant Seeded(force, order, i, old(db.seeds), old(db.runs)) && db.failures == old(db.failures)
      {
        assert Names(plugins)[..i + 1] == Names(plugins)[..i] + [plugins[i].name];
        err, done, broken := SeedNextNamespace(force, plugins[i].name, order, i, old(db.seeds), old(db.runs));
        if err.Some? {
          return;
        }
        seeded := seeded + {plugins[i].name};
      }
      assert Names(plugins)[..|plugins|] == Names(plugins);
      err, done, broken := SeedOthers(force, seeded, order, |plugins|, old(db.seeds), old(db.runs));
      if err.None? {
        assert order[..|order|] == order;
        SeedFinishedOutcome(force, Visits(Up, seeders, order), old(db.seeds), old(db.runs), db.seeds, db.runs);
        done, broken := |SeedPlan(force, Visits(Up, seeders, order), old(db.seeds))|, false;
      }
    }

    method SeedOthers(force: bool, skip: set<string>, ghost order: seq<string>, ghost before: nat,
                      ghost seeds0: set<Key>, ghost runs0: seq<SeedRun>)
      returns (err: Option<AppError>, ghost done: nat, ghost broken: bool)
      requires UniqueKeys(seeders) && db.Sound() && Distinct(order) && before <= |order|
      requires Without(NamespaceList(seeders), skip) <= order[before..]
      requires Seeded(force, order, before, seeds0, runs0)
      modifies db`seeds, db`runs, db`failures
      ensures db.Sound()
      ensures err.None? ==> Seeded(force, order, before + |Without(NamespaceList(seeders), skip)|, seeds0, runs0)
      ensures err.Some? ==> SeedingEndsAs(force, order, done, broken, false, seeds0, runs0)
      ensures err.None? || IsFailure(err)
      ensures db.failures == old(db.failures) + (if err.None? then 0 else 1)
    {
      hide *;
      var namespaces := GetNamespaces(seeders);
      ghost var others := Without(namespaces, skip);
      ghost var n := 0;
      err, done, broken := None, 0, false;
      NothingDropped(namespaces, skip);
      for j := 0 to |namespaces|
        invariant db.Sound() && n == |Without(namespaces[..j], skip)| && n <= |others|
        invariant Seeded(force, order, before + n, seeds0, runs0) && db.failures == old(db.failures)
      {
        WithoutStep(namespaces, skip, j);
        if namespaces[j] in skip {
          continue;
        }
        assert others[n] == namespaces[j] && order[before..][n] == others[n];
        err, done, broken := SeedNextNamespace(force, namespaces[j], order, before + n, seeds0, runs0);
        if err.Some? {
          return;
        }
        n := n + 1;
      }
      assert namespaces[..|namespaces|] == namespaces;
      err := None;
    }
  }

  lemma NoPlugins(r: Registries, plugins: seq<Plugin>, register: Plugin -> Option<Registration>)
    ensures WithPlugins(r, plugins[..0], register) == Some(r)
  {
  }

  // The plugins may be listed in any order.
  lemma RegisterInAnyOrder(r: Registries, plugins: seq<Plugin>, sorted: seq<Plugin>,
                           register: Plugin -> Option<Registration>)
    requires Unique(r) && Distinct(Names(sorted)) && multiset(sorted) == multiset(plugins)
    ensures WithPlugins(r, sorted, register).Some? <==> forall p :: p in plugins ==> Registers(r, register, p)
    ensures match WithPlugins(r, sorted, register)
            case None => true
            case Some(k) => Contributed(r, plugins, register, k)
  {
    RegistrationIgnoresOrder(r, sorted, register);
    assert forall p :: p in plugins <==> p in sorted by {
      assert forall p :: p in plugins <==> p in multiset(plugins);
      assert forall p :: p in sorted <==> p in multiset(sorted);
    }
  }

  method BuildGraph(plugins: seq<Plugin>) returns (g: Graphs.Graph<string>)
    requires Distinct(Names(plugins))
    ensures fresh(g) && g.vertices == Dependencies(plugins) && g.order == Names(plugins)
  {
    hide Dependencies, EdgeList, Distinct;
    g := new Graphs.Graph();
    DependenciesOfNone(plugins);
    for i := 0 to |plugins|
      invariant fresh(g)
      invariant g.vertices == Dependencies(plugins[..i]) && g.order == Names(plugins[..i])
    {
      NextPlugin(plugins, i);
      var name := plugins[i].name;
      ghost var before := g.vertices;
      var added := g.AddVertex(name);
      assert added && g.vertices == before[name := []];
      AddEdges(g, plugins[i]);
      assert g.vertices == before[name := EdgeList(plugins[i].dependencies)];
    }
    assert plugins[..|plugins|] == plugins;
  }

  method AddEdges(g: Graphs.Graph<string>, p: Plugin)
    requires p.name in g.vertices && g.vertices[p.name] == []
    modifies g`vertices
    ensures g.vertices == old(g.vertices)[p.name := EdgeList(p.dependencies)]
  {
    for j := 0 to |p.dependencies|
      invariant g.vertices == old(g.vertices)[p.name := EdgeList(p.dependencies[..j])]
    {
      assert p.dependencies[..j + 1][..j] == p.dependencies[..j];
      g.AddEdge(p.name, p.dependencies[j].id);
    }
    assert p.dependencies[..|p.dependencies|] == p.dependencies;
  }

  lemma DependenciesOfNone(plugins: seq<Plugin>)
    ensures Dependencies(plugins[..0]) == map[]
  {
  }

  lemma NextPlugin(plugins: seq<Plugin>, i: nat)
    requires Distinct(Names(plugins)) && i < |plugins|
    ensures Names(plugins[..i + 1]) == Names(plugins[..i]) + [plugins[i].name]
    ensures plugins[i].name !in Dependencies(plugins[..i])
    ensures Dependencies(plugins[..i + 1])
            == Dependencies(plugins[..i])[plugins[i].name := EdgeList(plugins[i].dependencies)]
  {
    assert plugins[..i + 1] == plugins[..i] + [plugins[i]];
    assert plugins[..i + 1][..i] == plugins[..i];
    NamesConcat(plugins[..i], [plugins[i]]);
    assert Names(plugins[..i]) == Names(plugins)[..i] && Names(plugins)[i..][0] == plugins[i].name;
    DistinctSplit(Names(plugins), i);
    ByNameKeys(plugins[..i]);
  }

  // Collects every problem; the vertices come in any order, as a Go map does.
  method CheckPluginDependencies(ops: Semver, plugins: seq<Plugin>, vertices: map<string, seq<string>>)
    returns (problems: seq<Problem>)
    requires Distinct(Names(plugins)) && vertices == Dependencies(plugins)
    ensures forall p :: p in problems <==> IsProblem(ops, plugins, p)
    ensures Distinct(problems)
  {
    hide ByName, Dependencies, Names, Distinct, EdgeProblem;
    DependenciesAreDistinct(plugins);
    NothingTwice();
    var byName := ByName(plugins);
    ByNameKeys(plugins);
    problems := [];
    var rest := vertices.Keys;
    while rest != {}
      invariant rest <= vertices.Keys && Distinct(problems)
      invariant forall p :: p in problems <==> IsProblem(ops, plugins, p) && p.plugin !in rest
      decreases rest
    {
      var name :| name in rest;
      var deps := vertices[name];
      for j := 0 to |deps|
        invariant Distinct(problems)
        invariant forall p :: p in problems <==>
                    IsProblem(ops, plugins, p) && (p.plugin !in rest || (p.plugin == name && p.dependency in deps[..j]))
      {
        assert deps[..j + 1] == deps[..j] + [deps[j]];
        NotAmongEarlier(deps, j);
        var problem := EdgeProblem(ops, byName, name, deps[j]);
        if problem.Some? {
          DistinctAppend(problems, Problem(name, deps[j], problem.value));
          problems := problems + [Problem(name, deps[j], problem.value)];
        }
      }
      assert deps[..|deps|] == deps;
      rest := rest - {name};
    }
  }

  lemma NotAmongEarlier(s: seq<string>, j: nat)
    requires Distinct(s) && j < |s|
    ensures s[j] !in s[..j]
  {
    DistinctSplit(s, j);
    assert s[j] == s[j..][0];
  }

  lemma NothingTwice()
    ensures Distinct<Problem>([])
  {
  }

  lemma {:induction false} DependenciesAreDistinct(plugins: seq<Plugin>)
    ensures forall n :: n in Dependencies(plugins) ==> Distinct(Dependencies(plugins)[n])
  {
    if plugins != [] {
      DependenciesAreDistinct(plugins[..|plugins| - 1]);
      EdgeListInOrder(plugins[|plugins| - 1].dependencies, []);
    }
  }

  lemma NoProblemsStayInside(ops: Semver, plugins: seq<Plugin>)
    requires forall p :: !IsProblem(ops, plugins, p)
    ensures forall v :: Walks.ReachableFrom(Dependencies(plugins), Names(plugins), v) <==> v in Names(plugins)
  {
    ByNameKeys(plugins);
    var deps := Dependencies(plugins);
    forall v, c | v in Names(plugins) && c in Walks.Succ(deps, v)
      ensures c in Names(plugins)
    {
      if c !in ByName(plugins) {
        assert IsProblem(ops, plugins, Problem(v, c, NotAdded));
      }
    }
    ReachableStaysInside(deps, Names(plugins));
  }

  // Ids of no plugin are skipped, and plugins no id names are left out.
  method SortPluginsByIdOrder(plugins: seq<Plugin>, ids: seq<string>) returns (sorted: seq<Plugin>)
    ensures Names(sorted) == Within(ids, ToSet(Names(plugins)))
    ensures forall p :: p in sorted ==> p in plugins
    ensures Distinct(Names(plugins)) ==> forall p :: p in sorted <==> p in plugins && p.name in ids
  {
    hide ByName, Dependencies, Within, Distinct;
    var lookup := ByName(plugins);
    ByNameKeys(plugins);
    sorted := [];
    NothingKept(ids, ToSet(Names(plugins)));
    for i := 0 to |ids|
      invariant Names(sorted) == Within(ids[..i], ToSet(Names(plugins)))
      invariant forall p :: p in sorted ==> p in plugins
    {
      assert ids[..i + 1] == ids[..i] + [ids[i]];
      WithinAppend(ids[..i], ids[i], ToSet(Names(plugins)));
      if ids[i] in lookup {
        NamesConcat(sorted, [lookup[ids[i]]]);
        sorted := sorted + [lookup[ids[i]]];
      }
    }
    assert ids[..|ids|] == ids;
    if Distinct(Names(plugins)) { SortedHoldsNamed(plugins, ids, sorted); }
  }

  lemma SortedHoldsNamed(plugins: seq<Plugin>, ids: seq<string>, sorted: seq<Plugin>)
    requires Distinct(Names(plugins)) && Names(sorted) == Within(ids, ToSet(Names(plugins)))
    requires forall p :: p in sorted ==> p in plugins
    ensures forall p :: p in sorted <==> p in plugins && p.name in ids
  {
    forall p | p in sorted
      ensures p.name in ids
    {
      NameListed(sorted, p);
    }
    forall p | p in plugins && p.name in ids
      ensures p in sorted
    {
      NameListed(plugins, p);
      assert p.name in Names(sorted);
      var k :| 0 <= k < |sorted| && Names(sorted)[k] == p.name;
      assert sorted[k] in sorted;
      LookupFinds(plugins, p);
      LookupFinds(plugins, sorted[k]);
    }
  }

  // ---------- steps of the namespace loops ----------

  lemma LatestIsEverything(reg: Registry, namespace: string)
    requires UniqueKeys(reg) && NamespaceKeys(reg, namespace) != []
    ensures var ks := NamespaceKeys(reg, namespace);
            UpToKeys(reg, namespace, ks[|ks| - 1].name) == Some(ks)
  {
    var ks := NamespaceKeys(reg, namespace);
    assert InNameOrder(ks) && Distinct(ks) by { NamespaceKeysMeaning(reg, namespace); }
    PositionFinds(ks, ks[|ks| - 1]);
    var i := Position(ks, ks[|ks| - 1].name).value;
    if i != |ks| - 1 { DistinctAt(ks, i, |ks| - 1); }
    assert ks[..|ks|] == ks;
  }

  lemma VisitsStep<T>(dir: Direction, reg: seq<Entry<T>>, order: seq<string>, at: nat)
    requires UniqueKeys(reg) && Distinct(order) && at < |order|
    ensures var before, next := Visits(dir, reg, order[..at]), VisitKeys(dir, reg, order[at]);
            && Visits(dir, reg, order[..at + 1]) == before + next <= Visits(dir, reg, order)
            && forall k :: k in before ==> k !in next
  {
    VisitorEnumerates(dir, reg);
    FlatMapStep(order, at, Visitor(dir, reg));
    EnumerationsDisjoint(Visitor(dir, reg), AsMap(reg).Keys, order, at);
  }

  lemma EnumerationsDisjoint(visit: string -> seq<Key>, all: set<Key>, order: seq<string>, at: nat)
    requires Enumerates(visit, all) && Distinct(order) && at < |order|
    ensures forall k :: k in FlatMap(order[..at], visit) ==> k !in visit(order[at])
  {
    FlatMapMembers(order[..at], visit);
    DistinctSplit(order, at);
    assert order[at] == order[at..][0];
    forall k | k in FlatMap(order[..at], visit)
      ensures k !in visit(order[at])
    {
      var n :| n in order[..at] && k in visit(n);
      assert k.namespace == n;
    }
  }

  lemma NextNamespace(dir: Direction, reg: Registry, order: seq<string>, at: nat, done: nat, broken: bool, ok: bool,
                      rows0: seq<Key>, log0: seq<Event>, rows: seq<Key>, log: seq<Event>, rows1: seq<Key>,
                      log1: seq<Event>)
    requires UniqueKeys(reg) && Distinct(order) && at < |order|
    requires Finished(dir, AsMap(reg), Visits(dir, reg, order[..at]), rows0, log0, rows, log)
    requires Outcome(dir, AsMap(reg), Todo(dir, VisitKeys(dir, reg, order[at]), ToSet(rows)), done, broken, ok, rows,
                     log, rows1, log1)
    ensures ok ==> Finished(dir, AsMap(reg), Visits(dir, reg, order[..at + 1]), rows0, log0, rows1, log1)
    ensures Outcome(dir, AsMap(reg), Plan(dir, reg, order, ToSet(rows0)),
                    |Plan(dir, reg, order[..at], ToSet(rows0))| + done, broken, false, rows0, log0, rows1, log1)
  {
    hide UniqueKeys, Distinct, Finished, Outcome, Visits, VisitKeys, AsMap, Todo, ToSet;
    VisitsStep(dir, reg, order, at);
    NextKeys(dir, AsMap(reg), Visits(dir, reg, order[..at]), VisitKeys(dir, reg, order[at]), Visits(dir, reg, order),
             done, broken, ok, rows0, log0, rows, log, rows1, log1);
  }

  lemma VisitKeysDown<T>(reg: seq<Entry<T>>, namespace: string)
    ensures VisitKeys(Down, reg, namespace) == Reversed(NamespaceKeys(reg, namespace))
    ensures VisitKeys(Up, reg, namespace) == NamespaceKeys(reg, namespace)
  {
  }

  lemma DownToEverything(reg: Registry, namespace: string)
    ensures DownToKeys(reg, namespace, "") == Some(Reversed(NamespaceKeys(reg, namespace)))
  {
  }

  lemma NothingVisited<T>(dir: Direction, reg: seq<Entry<T>>, order: seq<string>)
    ensures Visits(dir, reg, order[..0]) == []
  {
  }

  lemma NothingKept(s: seq<string>, keep: set<string>)
    ensures Within(s[..0], keep) == []
  {
  }

  lemma NothingDropped(s: seq<string>, drop: set<string>)
    ensures Without(s[..0], drop) == []
  {
  }

  lemma WithoutStep(s: seq<string>, drop: set<string>, j: nat)
    requires j < |s|
    ensures Without(s[..j + 1], drop) == Without(s[..j], drop) + if s[j] in drop then [] else [s[j]]
    ensures Without(s[..j + 1], drop) <= Without(s, drop)
  {
    assert s[..j + 1][..j] == s[..j];
    assert s == s[..j + 1] + s[j + 1..];
    WithoutConcat(s[..j + 1], s[j + 1..], drop);
  }

  lemma NothingApplied(reg: Registry, namespace: string, rows: seq<Key>, steps: nat)
    requires UniqueKeys(reg) && AppliedEntries(rows, namespace) == []
    ensures RollbackPlan(reg, namespace, rows, AppliedEntries(rows, namespace), steps) == Some([])
  {
    NamespaceKeysMeaning(reg, namespace);
    var plan := Within(Reversed(NamespaceKeys(reg, namespace)), ToSet(rows));
    ReversedMembers(NamespaceKeys(reg, namespace));
    assert forall k :: k in plan ==> k in if namespace == "" then rows else OfNamespace(rows, namespace);
    if plan != [] {
      HasMember(plan);
    }
  }

  // ---------- steps of the status and seeding loops ----------

  lemma SeenByName(rows: seq<Key>, namespace: string, name: string)
    ensures Key(namespace, name) in SeenApplied(rows, namespace)
            <==> exists k :: k in AppliedEntries(rows, namespace) && k.name == name
  {
  }

  lemma ListingNamespace<T>(reg: seq<Entry<T>>, namespace: string, i: nat)
    requires UniqueKeys(reg) && i < |Listing(reg, namespace)|
    ensures NamespaceKeys(reg, namespace)[i] == Key(namespace, Listing(reg, namespace)[i].name)
  {
    hide Listing, AsMap, UniqueKeys, StrictlySorted;
    var e := Listing(reg, namespace)[i];
    ListingIsSorted(reg, namespace);
    assert e in Listing(reg, namespace) && e.Id() == Key(namespace, e.name);
  }

  lemma VisitedNamespaces(names: seq<string>, namespaces: seq<string>, seen: set<string>)
    requires seen == ToSet(Within(names, ToSet(namespaces)))
    ensures Within(names, ToSet(namespaces)) + Without(namespaces, seen)
            == Within(names + Without(namespaces, ToSet(names)), ToSet(namespaces))
  {
    var others := Without(namespaces, ToSet(names));
    WithoutAgrees(namespaces, seen, ToSet(names));
    WithinConcat(names, others, ToSet(namespaces));
    WithinAll(others, ToSet(namespaces));
  }

  lemma SeedPlanOfOne(force: bool, key: Key, seeds: set<Key>)
    ensures SeedPlan(force, [key], seeds) == if !force && key in seeds then [] else [key]
  {
    var none: seq<Key> := [];
    assert [key][..|[key]| - 1] == none;
    assert Without(none, seeds) == none && Without(none, {}) == none;
  }

  // A seeder run and the three ways its bookkeeping can end.
  lemma OneSeed(force: bool, key: Key, seeds: set<Key>, runs: seq<SeedRun>)
    ensures var ran := runs + [SeedRun(key, force, false)];
            && SeedOutcome(force, [key], 0, true, false, seeds, runs, seeds, ran)
            && (force ==> SeedOutcome(force, [key], 0, true, false, seeds, runs, seeds - {key}, ran))
            && LastRunBooked(ran) == runs + [SeedRun(key, force, true)]
            && SeedOutcome(force, [key], 1, false, true, seeds, runs, seeds + {key}, LastRunBooked(ran))
  {
    var ran := runs + [SeedRun(key, force, false)];
    assert ran[..|ran| - 1] == runs;
    assert seeds + ToSet([key][..0]) == seeds;
    assert [key][..1] == [key] && seeds + ToSet([key]) == seeds + {key};
    assert SeedTrace([key], 0, true, force) == [SeedRun(key, force, false)];
    assert SeedTrace([key], 1, false, force) == [SeedRun(key, force, true)];
  }

  lemma SeederListing<T>(reg: seq<Entry<T>>, namespace: string)
    requires UniqueKeys(reg)
    ensures |NamespaceKeys(reg, namespace)| == |Listing(reg, namespace)|
    ensures forall i :: 0 <= i < |Listing(reg, namespace)| ==>
              NamespaceKeys(reg, namespace)[i] == Key(namespace, Listing(reg, namespace)[i].name)
    ensures forall k :: k in NamespaceKeys(reg, namespace) ==> k in AsMap(reg)
    ensures Distinct(NamespaceKeys(reg, namespace))
  {
    hide Listing, AsMap, UniqueKeys, Distinct;
    NamespaceKeysMeaning(reg, namespace);
    forall i | 0 <= i < |Listing(reg, namespace)|
      ensures NamespaceKeys(reg, namespace)[i] == Key(namespace, Listing(reg, namespace)[i].name)
    {
      ListingNamespace(reg, namespace, i);
    }
  }

  lemma NextSeed(force: bool, keys: seq<Key>, i: nat, done: nat, broken: bool, ok: bool, seeds0: set<Key>,
                 runs0: seq<SeedRun>, seeds: set<Key>, runs: seq<SeedRun>, seeds1: set<Key>, runs1: seq<SeedRun>)
    requires Distinct(keys) && i < |keys|
    requires SeedFinished(force, keys[..i], seeds0, runs0, seeds, runs)
    requires SeedOutcome(force, SeedPlan(force, [keys[i]], seeds), done, broken, ok, seeds, runs, seeds1, runs1)
    ensures ok ==> SeedFinished(force, keys[..i + 1], seeds0, runs0, seeds1, runs1)
    ensures SeedOutcome(force, SeedPlan(force, keys, seeds0), |SeedPlan(force, keys[..i], seeds0)| + done, broken,
                        false,
                        seeds0, runs0, seeds1, runs1)
  {
    hide *;
    assert keys[..i + 1] == keys[..i] + [keys[i]];
    DistinctSplit(keys, i);
    assert keys[i] == keys[i..][0];
    SeedNext(force, keys[..i], [keys[i]], keys, done, broken, ok, seeds0, runs0, seeds, runs, seeds1, runs1);
  }

  lemma SeedFinishedOutcome(force: bool, keys: seq<Key>, seeds0: set<Key>, runs0: seq<SeedRun>, seeds1: set<Key>,
                            runs1: seq<SeedRun>)
    requires SeedFinished(force, keys, seeds0, runs0, seeds1, runs1)
    ensures var plan := SeedPlan(force, keys, seeds0);
            SeedOutcome(force, plan, |plan|, false, true, seeds0, runs0, seeds1, runs1)
  {
    hide SeedOutcome;
  }
}
