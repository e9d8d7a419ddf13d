// What the plugins' Register calls add up to, without reference to the order in
// which they are made.
module Registrations {
  import opened Seqs
  import opened Namespaces
  import opened Plugins
  import opened MigrationPlan
  import opened AppState

  // What one plugin contributes, read as maps.
  function MigrationsBy(register: Plugin -> Option<Registration>): Plugin -> map<Key, Script> {
    p => if register(p).Some? then AsMap(Wrap(p.name, register(p).value.migrations)) else map[]
  }

  function SeedersBy(register: Plugin -> Option<Registration>): Plugin -> map<Key, Seeder> {
    p => if register(p).Some? then AsMap(Wrap(p.name, register(p).value.seeders)) else map[]
  }

  ghost function JobsBy(register: Plugin -> Option<Registration>): Plugin -> map<Key, Job> {
    p => if register(p).Some? && ValidJobs(register(p).value.jobs)
         then AsMap(Wrap(p.name, GivenJobs(register(p).value.jobs))) else map[]
  }

  // The plugin's registration is acceptable to the registries as they are.
  ghost predicate Registers(r: Registries, register: Plugin -> Option<Registration>, p: Plugin) {
    register(p).Some? && ValidJobs(register(p).value.jobs)
    && CanInsert(r.migrations, Wrap(p.name, register(p).value.migrations))
  }

  // after is before together with every plugin's own entries, which win.
  ghost predicate Merged<T(!new)>(before: map<Key, T>, plugins: seq<Plugin>, own: Plugin -> map<Key, T>,
                                  after: map<Key, T>)
  {
    && (forall k :: k in after <==> k in before || exists p :: p in plugins && k in own(p))
    && (forall p, k :: p in plugins && k in own(p) ==> k in after && after[k] == own(p)[k])
    && (forall k :: k in before && (forall p :: p in plugins ==> k !in own(p)) ==> k in after && after[k] == before[k])
  }

  ghost predicate KeepsToItsNamespace<T(!new)>(own: Plugin -> map<Key, T>) {
    forall p, k :: k in own(p) ==> k.namespace == p.name
  }

  lemma {:induction false} WrappedNamespace<T>(namespace: string, batch: seq<Named<T>>)
    ensures forall k :: k in AsMap(Wrap(namespace, batch)) ==> k.namespace == namespace
  {
    if batch != [] {
      var front := batch[..|batch| - 1];
      WrappedNamespace(namespace, front);
      assert Wrap(namespace, batch)[..|batch| - 1] == Wrap(namespace, front);
    }
  }

  lemma ContributionsKeepToTheirNamespaces(register: Plugin -> Option<Registration>)
    ensures KeepsToItsNamespace(MigrationsBy(register))
    ensures KeepsToItsNamespace(SeedersBy(register))
    ensures KeepsToItsNamespace(JobsBy(register))
  {
    hide AsMap;
    forall p: Plugin | register(p).Some?
      ensures forall k :: k in MigrationsBy(register)(p) ==> k.namespace == p.name
      ensures forall k :: k in SeedersBy(register)(p) ==> k.namespace == p.name
      ensures forall k :: k in JobsBy(register)(p) ==> k.namespace == p.name
    {
      WrappedNamespace(p.name, register(p).value.migrations);
      WrappedNamespace(p.name, register(p).value.seeders);
      if ValidJobs(register(p).value.jobs) { WrappedNamespace(p.name, GivenJobs(register(p).value.jobs)); }
    }
  }

  lemma MergedNext<T(!new)>(before: map<Key, T>, front: seq<Plugin>, last: Plugin, own: Plugin -> map<Key, T>,
                            m: map<Key, T>)
    requires Merged(before, front, own, m) && KeepsToItsNamespace(own)
    requires last.name !in Names(front)
    ensures Merged(before, front + [last], own, m + own(last))
  {
    var all, after := front + [last], m + own(last);
    forall p, k | p in front && k in own(p)
      ensures k !in own(last)
    {
      NameListed(front, p);
      assert k.namespace == p.name;
    }
    assert forall p :: p in all <==> p in front || p == last;
    forall p, k | p in all && k in own(p)
      ensures k in after && after[k] == own(p)[k]
    {
      if p in front { assert k in m && m[k] == own(p)[k]; }
    }
    forall k
      ensures k in after <==> k in before || exists p :: p in all && k in own(p)
    {
      if k in own(last) { assert last in all; }
    }
    forall k | k in before && forall p :: p in all ==> k !in own(p)
      ensures k in after && after[k] == before[k]
    {
      assert last in all && k !in own(last);
    }
  }

  // Whether a plugin registers does not depend on the other plugins.
  lemma RegistersRegardless(r: Registries, k: Registries, front: seq<Plugin>, last: Plugin,
                            register: Plugin -> Option<Registration>)
    requires Merged(AsMap(r.migrations), front, MigrationsBy(register), AsMap(k.migrations))
    requires KeepsToItsNamespace(MigrationsBy(register)) && last.name !in Names(front)
    ensures Registers(k, register, last) <==> Registers(r, register, last)
  {
    forall p | p in front
      ensures p.name != last.name
    {
      NameListed(front, p);
    }
    if register(last).Some? {
      var batch := Wrap(last.name, register(last).value.migrations);
      forall e | e in batch
        ensures e.Id() in AsMap(k.migrations) <==> e.Id() in AsMap(r.migrations)
      {
        assert e.Id().namespace == last.name;
      }
    }
  }

  ghost predicate Unique(r: Registries) {
    UniqueKeys(r.migrations) && UniqueKeys(r.seeders) && UniqueKeys(r.jobs)
  }

  ghost predicate Contributed(r: Registries, plugins: seq<Plugin>, register: Plugin -> Option<Registration>,
                              k: Registries)
  {
    && Merged(AsMap(r.migrations), plugins, MigrationsBy(register), AsMap(k.migrations))
    && Merged(AsMap(r.seeders), plugins, SeedersBy(register), AsMap(k.seeders))
    && Merged(AsMap(r.jobs), plugins, JobsBy(register), AsMap(k.jobs))
  }

  lemma WithRegistrationAsMaps(r: Registries, register: Plugin -> Option<Registration>, p: Plugin)
    requires Unique(r) && Registers(r, register, p)
    ensures var k := WithRegistration(r, p.name, register(p).value);
            && k.Some? && Unique(k.value)
            && AsMap(k.value.migrations) == AsMap(r.migrations) + MigrationsBy(register)(p)
            && AsMap(k.value.seeders) == AsMap(r.seeders) + SeedersBy(register)(p)
            && AsMap(k.value.jobs) == AsMap(r.jobs) + JobsBy(register)(p)
            && AsMap(r.migrations).Keys !! MigrationsBy(register)(p).Keys
  {
    hide UniqueKeys, AsMap, UpsertAll;
    var g := register(p).value;
    AppendIsInsert(r.migrations, Wrap(p.name, g.migrations));
    UpsertAllIsLastWriterWins(r.seeders, Wrap(p.name, g.seeders));
    UpsertAllIsLastWriterWins(r.jobs, Wrap(p.name, GivenJobs(g.jobs)));
  }

  // All plugins register if and only if each of them would on its own; then the
  // registries are, as maps, what they were and what each plugin contributed.
  lemma {:induction false} RegistrationIgnoresOrder(r: Registries, plugins: seq<Plugin>,
                                                    register: Plugin -> Option<Registration>)
    requires Unique(r) && Distinct(Names(plugins))
    ensures WithPlugins(r, plugins, register).Some? <==> forall p :: p in plugins ==> Registers(r, register, p)
    ensures match WithPlugins(r, plugins, register)
            case None => true
            case Some(k) => Unique(k) && Contributed(r, plugins, register, k)
  {
    if plugins != [] {
      var front, last := plugins[..|plugins| - 1], plugins[|plugins| - 1];
      assert plugins == front + [last];
      NamesConcat(front, [last]);
      assert Names([last]) == [last.name];
      DistinctAppend(Names(front), last.name);
      RegistrationIgnoresOrder(r, front, register);
      ContributionsKeepToTheirNamespaces(register);
      if WithPlugins(r, front, register).Some? {
        LastRegisters(r, WithPlugins(r, front, register).value, front, last, register);
      }
      hide Registers, Merged, WithRegistration, KeepsToItsNamespace, Unique, Distinct;
    } else {
      assert WithPlugins(r, plugins, register) == Some(r);
    }
  }

  lemma LastRegisters(r: Registries, k: Registries, front: seq<Plugin>, last: Plugin,
                      register: Plugin -> Option<Registration>)
    requires Unique(k) && Contributed(r, front, register, k) && last.name !in Names(front)
    ensures register(last).None? ==> !Registers(r, register, last)
    ensures register(last).Some? ==>
              match WithRegistration(k, last.name, register(last).value)
              case None => !Registers(r, register, last)
              case Some(k') =>
                Registers(r, register, last) && Unique(k') && Contributed(r, front + [last], register, k')
  {
    ContributionsKeepToTheirNamespaces(register);
    RegistersRegardless(r, k, front, last, register);
    if Registers(r, register, last) {
      WithRegistrationAsMaps(k, register, last);
      hide Merged, Unique, WithRegistration, KeepsToItsNamespace, AsMap, MigrationsBy, SeedersBy, JobsBy;
      MergedNext(AsMap(r.migrations), front, last, MigrationsBy(register), AsMap(k.migrations));
      MergedNext(AsMap(r.seeders), front, last, SeedersBy(register), AsMap(k.seeders));
      MergedNext(AsMap(r.jobs), front, last, JobsBy(register), AsMap(k.jobs));
    }
  }

  // The registries after a setup that stopped at plugins[at].
  ghost predicate StoppedAt(r: Registries, plugins: seq<Plugin>, register: Plugin -> Option<Registration>, at: nat,
                            k: Registries)
    requires at < |plugins|
  {
    match WithPlugins(r, plugins[..at], register)
    case None => false
    case Some(before) =>
      var p := plugins[at];
      && !Registers(before, register, p)
      && k == if register(p).None? then before else AfterRefusal(before, p.name, register(p).value)
  }

  // One more plugin.
  lemma WithNextPlugin(r: Registries, plugins: seq<Plugin>, register: Plugin -> Option<Registration>, at: nat,
                       before: Registries)
    requires at < |plugins| && WithPlugins(r, plugins[..at], register) == Some(before)
    ensures WithPlugins(r, plugins[..at + 1], register) ==
            if register(plugins[at]).None? then None
            else WithRegistration(before, plugins[at].name, register(plugins[at]).value)
  {
    hide WithRegistration;
    assert plugins[..at + 1][..at] == plugins[..at];
  }

  lemma StopsThere(r: Registries, plugins: seq<Plugin>, register: Plugin -> Option<Registration>, at: nat,
                   before: Registries, k: Registries)
    requires at < |plugins| && WithPlugins(r, plugins[..at], register) == Some(before)
    requires WithPlugins(r, plugins[..at + 1], register).None?
    requires k == if register(plugins[at]).None? then before
                  else AfterRefusal(before, plugins[at].name, register(plugins[at]).value)
    ensures StoppedAt(r, plugins, register, at, k) && WithPlugins(r, plugins, register).None?
  {
    WithNextPlugin(r, plugins, register, at, before);
    StoppedByPlugin(r, plugins, register, at);
    hide WithPlugins, CanInsert, AfterRefusal;
  }

  // The plugin's migrations would be accepted, whatever its jobs are like.
  ghost predicate Insertable(r: Registries, register: Plugin -> Option<Registration>, p: Plugin) {
    register(p).Some? && CanInsert(r.migrations, Wrap(p.name, register(p).value.migrations))
  }

  // The migrations a setup that stopped at plugins[at] has left registered.
  ghost predicate Left(r: Registries, plugins: seq<Plugin>, register: Plugin -> Option<Registration>, at: nat, key: Key)
    requires at < |plugins|
  {
    || (exists p :: p in plugins[..at] && key in MigrationsBy(register)(p))
    || (Insertable(r, register, plugins[at]) && key in MigrationsBy(register)(plugins[at]))
  }

  // Whether migrations are insertable does not depend on the other plugins.
  lemma InsertableRegardless(r: Registries, k: Registries, front: seq<Plugin>, last: Plugin,
                             register: Plugin -> Option<Registration>)
    requires Merged(AsMap(r.migrations), front, MigrationsBy(register), AsMap(k.migrations))
    requires KeepsToItsNamespace(MigrationsBy(register)) && last.name !in Names(front)
    ensures Insertable(k, register, last) <==> Insertable(r, register, last)
  {
    forall p | p in front
      ensures p.name != last.name
    {
      NameListed(front, p);
    }
    if register(last).Some? {
      var batch := Wrap(last.name, register(last).value.migrations);
      forall e | e in batch
        ensures e.Id() in AsMap(k.migrations) <==> e.Id() in AsMap(r.migrations)
      {
        assert e.Id().namespace == last.name;
      }
    }
  }

  // A refusal leaves the plugin's own migrations if they were insertable.
  lemma RefusalAsMaps(before: Registries, register: Plugin -> Option<Registration>, p: Plugin)
    requires Unique(before) && register(p).Some?
    ensures var k := AfterRefusal(before, p.name, register(p).value);
            && Unique(k)
            && AsMap(k.migrations).Keys == AsMap(before.migrations).Keys
               + (if Insertable(before, register, p) then MigrationsBy(register)(p).Keys else {})
  {
    hide UniqueKeys, AsMap, UpsertAll;
    var g := register(p).value;
    if Insertable(before, register, p) {
      AppendIsInsert(before.migrations, Wrap(p.name, g.migrations));
      UpsertAllIsLastWriterWins(before.seeders, Wrap(p.name, g.seeders));
    }
  }

  lemma WhatIsLeft(r: Registries, plugins: seq<Plugin>, register: Plugin -> Option<Registration>, at: nat,
                   k: Registries)
    requires Unique(r) && Distinct(Names(plugins)) && at < |plugins| && StoppedAt(r, plugins, register, at, k)
    ensures Unique(k)
    ensures forall key :: key in AsMap(k.migrations) <==>
              key in AsMap(r.migrations) || Left(r, plugins, register, at, key)
  {
    var front, p := plugins[..at], plugins[at];
    var before := WithPlugins(r, front, register).value;
    DistinctSplit(Names(plugins), at + 1);
    assert Names(plugins[..at + 1]) == Names(plugins)[..at + 1];
    assert plugins[..at + 1] == front + [p];
    NamesConcat(front, [p]);
    assert Names([p]) == [p.name];
    DistinctAppend(Names(front), p.name);
    RegistrationIgnoresOrder(r, front, register);
    ContributionsKeepToTheirNamespaces(register);
    hide Distinct, WithPlugins, Unique, Registers, Insertable, AfterRefusal, MigrationsBy, AsMap, KeepsToItsNamespace;
    InsertableRegardless(r, before, front, p, register);
    if register(p).Some? {
      RefusalAsMaps(before, register, p);
    } else {
      NothingInsertable(r, register, p);
    }
  }

  lemma NothingInsertable(r: Registries, register: Plugin -> Option<Registration>, p: Plugin)
    requires register(p).None?
    ensures !Insertable(r, register, p)
  {
  }

  // A setup that stopped at plugins[at] can be repeated successfully, with what
  // the plugins register the second time, if and only if every plugin's second
  // registration would have been accepted to begin with and repeats none of the
  // migrations left over.
  lemma RepeatedSetup(r: Registries, plugins: seq<Plugin>, register: Plugin -> Option<Registration>, at: nat,
                      k: Registries, again: seq<Plugin>, second: Plugin -> Option<Registration>)
    requires Unique(r) && Distinct(Names(plugins)) && at < |plugins| && StoppedAt(r, plugins, register, at, k)
    requires Distinct(Names(again))
    ensures WithPlugins(k, again, second).Some?
            <==> forall q :: q in again ==> Registers(r, second, q) && NoneLeft(r, plugins, register, at, second, q)
  {
    hide Distinct, WithPlugins, StoppedAt, Unique, Left, AsMap;
    WhatIsLeft(r, plugins, register, at, k);
    RegistrationIgnoresOrder(k, again, second);
    forall q | q in again
      ensures Registers(k, second, q) <==>
              Registers(r, second, q) && NoneLeft(r, plugins, register, at, second, q)
    {
    }
  }

  // What q registers the second time repeats none of the migrations left over.
  ghost predicate NoneLeft(r: Registries, plugins: seq<Plugin>, register: Plugin -> Option<Registration>, at: nat,
                           second: Plugin -> Option<Registration>, q: Plugin)
    requires at < |plugins|
  {
    second(q).Some? ==>
      forall e :: e in Wrap(q.name, second(q).value.migrations) ==> !Left(r, plugins, register, at, e.Id())
  }

  // So one repeated migration refuses the second setup.
  lemma RepeatedMigrationIsRefused(r: Registries, plugins: seq<Plugin>, register: Plugin -> Option<Registration>,
                                   at: nat, k: Registries, again: seq<Plugin>, second: Plugin -> Option<Registration>,
                                   q: Plugin, m: Named<Script>)
    requires Unique(r) && Distinct(Names(plugins)) && at < |plugins| && StoppedAt(r, plugins, register, at, k)
    requires Distinct(Names(again)) && q in again && second(q).Some? && m in second(q).value.migrations
    requires Left(r, plugins, register, at, Key(q.name, m.name))
    ensures WithPlugins(k, again, second).None?
  {
    hide Distinct, WithPlugins, StoppedAt, Unique, Left, Registers;
    RepeatedSetup(r, plugins, register, at, k, again, second);
    var ms := second(q).value.migrations;
    var i :| 0 <= i < |ms| && ms[i] == m;
    assert Wrap(q.name, ms)[i].Id() == Key(q.name, m.name) && Wrap(q.name, ms)[i] in Wrap(q.name, ms);
  }

  // And plugins that register no migration the second time are not held back.
  lemma SetupWithoutMigrationsSucceeds(r: Registries, plugins: seq<Plugin>, register: Plugin -> Option<Registration>,
                                       at: nat, k: Registries, again: seq<Plugin>,
                                       second: Plugin -> Option<Registration>)
    requires Unique(r) && Distinct(Names(plugins)) && at < |plugins| && StoppedAt(r, plugins, register, at, k)
    requires Distinct(Names(again))
    requires forall q :: q in again ==>
               second(q).Some? && second(q).value.migrations == [] && ValidJobs(second(q).value.jobs)
    ensures WithPlugins(k, again, second).Some?
  {
    hide Distinct, WithPlugins, StoppedAt, Unique, Left, AsMap;
    RepeatedSetup(r, plugins, register, at, k, again, second);
  }
}
