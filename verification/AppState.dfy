// The values the application object holds and the invariants they keep.
module AppState {
  import opened Seqs
  import opened Lex
  import opened Namespaces
  import opened Plugins
  import opened MigrationPlan
  import opened RetryPolicies

  const HOST_NAMESPACE := "owner"

  datatype Seeder = Seeder(code: string)

  // visibility is zero for a job that declares none.
  datatype Job = Job(queueName: string, policy: Option<RetryPolicy>, visibility: int)

  // An argument of registerJobForNamespace; nil jobs are rejected.
  datatype JobArg = NilJob | GivenJob(job: Named<Job>)

  datatype Registration = Registration(migrations: seq<Named<Script>>, seeders: seq<Named<Seeder>>, jobs: seq<JobArg>)

  datatype AppError =
    | AlreadySetUp
    | NotSetUp
    | EmptyPluginName
    | ReservedPluginName
    | DuplicatePluginName(name: string)
    | InvalidPluginVersion(name: string)
    | DependencyProblems(problems: seq<Problem>)
    | CircularDependency(cycle: seq<string>)
    | RegisterFailed
    | DuplicateMigration(name: string)
    | InvalidJob
    | NotFound
    | SeederFailed
    | QueueFailed
    | DatabaseFailed

  // An error that stands for one failed database operation or seeder.
  predicate IsFailure(err: Option<AppError>) {
    err == Some(DatabaseFailed) || err == Some(SeederFailed)
  }

  function GivenJobs(args: seq<JobArg>): (r: seq<Named<Job>>)
    requires forall a :: a in args ==> a.GivenJob?
    ensures |r| == |args| && forall i :: 0 <= i < |r| ==> args[i] == GivenJob(r[i])
  {
    assert forall i :: 0 <= i < |args| ==> args[i] in args;
    seq(|args|, i requires 0 <= i < |args| => args[i].job)
  }

  ghost predicate AcceptablePlugin(ops: Semver, p: Plugin) {
    p.name != "" && p.name != HOST_NAMESPACE && (p.version == "" || ops.isValid(p.version))
  }

  ghost predicate AcceptablePlugins(ops: Semver, plugins: seq<Plugin>) {
    Distinct(Names(plugins)) && forall p :: p in plugins ==> AcceptablePlugin(ops, p)
  }

  // Keys are unique and every namespace is the host's or a plugin's.
  ghost predicate WellKept<T>(names: seq<string>, reg: seq<Entry<T>>) {
    && UniqueKeys(reg)
    && forall e :: e in reg ==> e.namespace == HOST_NAMESPACE || e.namespace in names
  }

  lemma WellKeptUnderPermutation<T>(names: seq<string>, names': seq<string>, reg: seq<Entry<T>>)
    requires WellKept(names, reg) && ToSet(names') == ToSet(names)
    ensures WellKept(names', reg)
  {
    assert forall n :: n in names ==> n in ToSet(names');
  }

  lemma UpsertAllWellKept<T>(names: seq<string>, reg: seq<Entry<T>>, namespace: string, batch: seq<Named<T>>)
    requires WellKept(names, reg) && (namespace == HOST_NAMESPACE || namespace in names)
    ensures WellKept(names, UpsertAll(reg, Wrap(namespace, batch)))
  {
    UpsertAllIsLastWriterWins(reg, Wrap(namespace, batch));
    UpsertAllMembers(reg, Wrap(namespace, batch));
  }

  lemma {:induction false} UpsertAllMembers<T>(reg: seq<Entry<T>>, batch: seq<Entry<T>>)
    ensures forall e :: e in UpsertAll(reg, batch) ==> e in reg || e in batch
  {
    if batch != [] {
      UpsertAllMembers(reg, batch[..|batch| - 1]);
    }
  }

  // A batch of migrations clashes neither with the registry nor with itself.
  ghost predicate CanInsert<T>(reg: seq<Entry<T>>, batch: seq<Entry<T>>) {
    UniqueKeys(batch) && forall e :: e in batch ==> e.Id() !in AsMap(reg)
  }

  // No name occurs twice in the batch and none is registered.
  lemma CanInsertMeans<T>(reg: seq<Entry<T>>, namespace: string, batch: seq<Named<T>>)
    ensures CanInsert(reg, Wrap(namespace, batch)) <==>
            (forall i, j :: 0 <= i < j < |batch| ==> batch[i].name != batch[j].name)
            && forall i :: 0 <= i < |batch| ==> Key(namespace, batch[i].name) !in AsMap(reg)
  {
    hide AsMap;
    var entries := Wrap(namespace, batch);
    assert forall i :: 0 <= i < |batch| ==>
      entries[i] in entries && entries[i].Id() == Key(namespace, batch[i].name);
  }

  // What UsePlugin's errors say about the plugins it was given.
  ghost predicate ErrorFits(ops: Semver, before: seq<Plugin>, added: seq<Plugin>, err: AppError) {
    match err
    case EmptyPluginName => exists p :: p in added && p.name == ""
    case ReservedPluginName => exists p :: p in added && p.name == "owner"
    case DuplicatePluginName(name) => name in Names(added) && !Distinct(Names(before + added))
    case InvalidPluginVersion(name) =>
      exists p :: p in added && p.name == name && p.version != "" && !ops.isValid(p.version)
    case _ => false
  }

  // The checks UsePlugin makes for one plugin; seen holds the names before it.
  function Objection(ops: Semver, p: Plugin, seen: set<string>): Option<AppError> {
    if p.name == "" then Some(EmptyPluginName)
    else if p.name == HOST_NAMESPACE then Some(ReservedPluginName)
    else if p.name in seen then Some(DuplicatePluginName(p.name))
    else if p.version != "" && !ops.isValid(p.version) then Some(InvalidPluginVersion(p.name))
    else None
  }

  lemma ObjectionFits(ops: Semver, before: seq<Plugin>, added: seq<Plugin>, i: nat)
    requires i < |added| && Objection(ops, added[i], ToSet(Names(before + added[..i]))).Some?
    ensures ErrorFits(ops, before, added, Objection(ops, added[i], ToSet(Names(before + added[..i]))).value)
  {
    hide Distinct;
    var p := added[i];
    assert p in added && Names(added)[i] == p.name && p.name in Names(added);
    if p.name in Names(before + added[..i]) { NameSeenBefore(before, added, i); }
  }

  lemma NameSeenBefore(before: seq<Plugin>, added: seq<Plugin>, i: nat)
    requires i < |added| && added[i].name in Names(before + added[..i])
    ensures !Distinct(Names(before + added))
  {
    hide Distinct;
    var all := Names(before + added);
    var k :| 0 <= k < |before| + i && Names(before + added[..i])[k] == added[i].name;
    assert (before + added[..i])[k] == (before + added)[k];
    assert all[k] == all[|before| + i];
    if Distinct(all) { DistinctAt(all, k, |before| + i); }
  }

  lemma CanInsertNext<T>(reg: seq<Entry<T>>, batch: seq<Entry<T>>, i: nat)
    requires i < |batch| && CanInsert(reg, batch[..i])
    ensures CanInsert(reg, batch[..i + 1]) <==>
            batch[i].Id() !in AsMap(reg) && forall k :: 0 <= k < i ==> batch[k].Id() != batch[i].Id()
    ensures CanInsert(reg, batch) ==> CanInsert(reg, batch[..i + 1])
  {
    var next := batch[..i + 1];
    assert next == batch[..i] + [batch[i]];
    assert next[i] in next;
    assert forall k :: 0 <= k < i ==> next[k] == batch[k];
  }

  datatype Registries = Registries(migrations: Registry, seeders: seq<Entry<Seeder>>, jobs: seq<Entry<Job>>)

  ghost predicate ValidJobs(args: seq<JobArg>) {
    forall a :: a in args ==> a.GivenJob? && a.job.name != ""
  }

  // What one Register call makes of the registries: migrations are all or
  // nothing and never replaced, seeders and jobs are replaced.
  ghost function WithRegistration(r: Registries, namespace: string, g: Registration): Option<Registries> {
    if CanInsert(r.migrations, Wrap(namespace, g.migrations)) && ValidJobs(g.jobs) then
      Some(Registries(r.migrations + Wrap(namespace, g.migrations),
                      UpsertAll(r.seeders, Wrap(namespace, g.seeders)),
                      UpsertAll(r.jobs, Wrap(namespace, GivenJobs(g.jobs)))))
    else None
  }

  // What a refused one leaves behind: nothing if its migrations clash, and its
  // migrations and seeders if only its jobs are at fault.
  ghost function AfterRefusal(r: Registries, namespace: string, g: Registration): Registries {
    if !CanInsert(r.migrations, Wrap(namespace, g.migrations)) then r else
    Registries(r.migrations + Wrap(namespace, g.migrations), UpsertAll(r.seeders, Wrap(namespace, g.seeders)), r.jobs)
  }

  // What the plugins' Register calls make of them, in plugin order.
  ghost function WithPlugins(r: Registries, plugins: seq<Plugin>,
                             register: Plugin -> Option<Registration>): Option<Registries>
  {
    if plugins == [] then Some(r) else
    var before, last := WithPlugins(r, plugins[..|plugins| - 1], register), plugins[|plugins| - 1];
    if before.None? || register(last).None? then None else
    WithRegistration(before.value, last.name, register(last).value)
  }

  // A plugin that cannot register stops the whole setup.
  lemma {:induction false} StoppedByPlugin(r: Registries, plugins: seq<Plugin>,
                                           register: Plugin -> Option<Registration>, at: nat)
    requires at < |plugins| && WithPlugins(r, plugins[..at + 1], register).None?
    ensures WithPlugins(r, plugins, register).None?
  {
    if at + 1 < |plugins| {
      var front := plugins[..|plugins| - 1];
      assert front[..at + 1] == plugins[..at + 1];
      StoppedByPlugin(r, front, register, at);
    } else {
      assert plugins[..at + 1] == plugins;
    }
  }

  method ReplaceAll<T>(reg: seq<Entry<T>>, batch: seq<Entry<T>>) returns (r: seq<Entry<T>>)
    ensures r == UpsertAll(reg, batch)
  {
    r := reg;
    for i := 0 to |batch|
      invariant r == UpsertAll(reg, batch[..i])
    {
      assert batch[..i + 1][..i] == batch[..i];
      r := Replace(r, batch[i]);
    }
    assert batch[..|batch|] == batch;
  }

  lemma PluginAccepted(ops: Semver, soFar: seq<Plugin>, p: Plugin)
    requires AcceptablePlugins(ops, soFar)
    ensures AcceptablePlugins(ops, soFar + [p]) <==> AcceptablePlugin(ops, p) && p.name !in Names(soFar)
    ensures ToSet(Names(soFar + [p])) == ToSet(Names(soFar)) + {p.name}
  {
    NamesConcat(soFar, [p]);
    assert Names([p]) == [p.name];
    assert p in soFar + [p];
    DistinctAppend(Names(soFar), p.name);
  }

  // A list with an unacceptable prefix is unacceptable.
  lemma PluginRejected(ops: Semver, soFar: seq<Plugin>, rest: seq<Plugin>)
    requires rest != [] && !AcceptablePlugins(ops, soFar + [rest[0]])
    ensures !AcceptablePlugins(ops, soFar + rest)
  {
    var all, prefix := soFar + rest, soFar + [rest[0]];
    assert all == prefix + rest[1..];
    NamesConcat(prefix, rest[1..]);
    assert Names(prefix) == Names(all)[..|prefix|];
    if Distinct(Names(all)) { DistinctSplit(Names(all), |prefix|); }
    assert forall p :: p in prefix ==> p in all;
  }
}
