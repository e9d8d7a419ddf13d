// The bookkeeping table against what really committed, and the operations that
// read it: RollbackSteps and the status report.
module MigrationRecord {
  import opened Seqs
  import opened Lex
  import opened Namespaces
  import opened MigrationPlan

  // ---------- record versus schema ----------

  // Every Up started from an unrecorded migration and every Down from a
  // recorded one.
  ghost predicate Legal(recorded: set<Key>, log: seq<Event>) {
    log != [] ==>
      var front, e := log[..|log| - 1], log[|log| - 1];
      Legal(recorded, front) && (e.key in Replay(recorded, front) <==> e.dir == Down)
  }

  function Drift(a: set<Key>, b: set<Key>): set<Key> {
    (a - b) + (b - a)
  }

  lemma SubsetSize<T>(a: set<T>, b: set<T>)
    requires a <= b
    ensures |a| <= |b|
  {
    assert b == a + (b - a);
  }

  lemma OneMoreAtMost<T>(a: set<T>, b: set<T>, x: T)
    requires a <= b + {x}
    ensures |a| <= |b| + 1
  {
    SubsetSize(a, b + {x});
  }

  // Changing both sets alike adds no drift.
  lemma BookedStep(a: set<Key>, b: set<Key>, k: Key)
    ensures |Drift(a + {k}, b + {k})| <= |Drift(a, b)| && |Drift(a - {k}, b - {k})| <= |Drift(a, b)|
  {
    assert Drift(a + {k}, b + {k}) <= Drift(a, b);
    SubsetSize(Drift(a + {k}, b + {k}), Drift(a, b));
    assert Drift(a - {k}, b - {k}) <= Drift(a, b);
    SubsetSize(Drift(a - {k}, b - {k}), Drift(a, b));
  }

  // Changing one of them adds at most one key.
  lemma UnbookedStep(a: set<Key>, b: set<Key>, k: Key)
    ensures |Drift(a, b + {k})| <= |Drift(a, b)| + 1 && |Drift(a, b - {k})| <= |Drift(a, b)| + 1
  {
    OneMoreAtMost(Drift(a, b + {k}), Drift(a, b), k);
    OneMoreAtMost(Drift(a, b - {k}), Drift(a, b), k);
  }

  // Over any history, the table and the set of live migrations drift apart by
  // at most one migration per failed bookkeeping write.
  lemma {:induction false} DriftBoundedByFailures(recorded: set<Key>, live: set<Key>, log: seq<Event>)
    requires Legal(recorded, log)
    ensures |Drift(Replay(recorded, log), Live(live, log))| <= |Drift(recorded, live)| + Failures(log)
  {
    if log != [] {
      var front, e := log[..|log| - 1], log[|log| - 1];
      hide Drift, Legal;
      DriftBoundedByFailures(recorded, live, front);
      BookedStep(Replay(recorded, front), Live(live, front), e.key);
      UnbookedStep(Replay(recorded, front), Live(live, front), e.key);
    }
  }

  // Without bookkeeping failures the table is exact.
  lemma {:induction false} RecordIsExact(log: seq<Event>)
    requires Legal({}, log) && Failures(log) == 0
    ensures Replay({}, log) == Live({}, log)
  {
    DriftBoundedByFailures({}, {}, log);
    var d := Drift(Replay({}, log), Live({}, log));
    assert |d| == 0 && d == {};
  }

  lemma {:induction false} LegalConcat(recorded: set<Key>, a: seq<Event>, b: seq<Event>)
    requires Legal(recorded, a) && Legal(Replay(recorded, a), b)
    ensures Legal(recorded, a + b)
    decreases |b|
  {
    if b == [] {
      assert a + b == a;
    } else {
      var front, e := b[..|b| - 1], b[|b| - 1];
      LegalConcat(recorded, a, front);
      ReplayConcat(recorded, a, front);
      assert (a + b)[..|a + b| - 1] == a + front;
    }
  }

  // Every run of a plan extends a history legally.
  lemma {:induction false} RunIsLegal(scripts: map<Key, Script>, dir: Direction, plan: seq<Key>, done: nat,
                                      broken: bool, recorded: set<Key>)
    requires done <= |plan| && (broken ==> done < |plan|) && Distinct(plan)
    requires forall k :: k in plan ==> (k in recorded <==> dir == Down)
    ensures Legal(recorded, Run(scripts, dir, plan, done, broken))
    decreases done, broken
  {
    var run := Run(scripts, dir, plan, done, broken);
    if run != [] {
      var n := |run| - 1;
      assert run[..n] == Run(scripts, dir, plan, n, false);
      RunIsLegal(scripts, dir, plan, n, false, recorded);
      ReplayRun(scripts, dir, plan, n, false, recorded);
      DistinctSplit(plan, n);
      assert plan[n] == plan[n..][0];
    }
  }

  // ---------- targets ----------

  // indexOfMigration.
  function Position(ks: seq<Key>, name: string): (r: Option<nat>)
    ensures r.Some? ==> r.value < |ks| && ks[r.value].name == name
    ensures r.None? ==> forall i :: 0 <= i < |ks| ==> ks[i].name != name
    ensures r.Some? ==> forall i :: 0 <= i < r.value ==> ks[i].name != name
  {
    if ks == [] then None else
    var r := Position(ks[..|ks| - 1], name);
    if r.Some? then r else if ks[|ks| - 1].name == name then Some(|ks| - 1) else None
  }

  // The migrations RunMigrationsUpTo looks at, if the target exists.
  function UpToList(ks: seq<Key>, target: string): Option<seq<Key>> {
    match Position(ks, target)
    case None => None
    case Some(i) => Some(ks[..i + 1])
  }

  function UpToKeys(reg: Registry, namespace: string, target: string): Option<seq<Key>> {
    UpToList(NamespaceKeys(reg, namespace), target)
  }

  // The migrations RunMigrationsDownTo looks at, newest name first.
  function DownToList(ks: seq<Key>, target: string): Option<seq<Key>> {
    if target == "" then Some(Reversed(ks)) else
    match Position(ks, target)
    case None => None
    case Some(i) => Some(Reversed(ks[i + 1..]))
  }

  function DownToKeys(reg: Registry, namespace: string, target: string): Option<seq<Key>> {
    DownToList(NamespaceKeys(reg, namespace), target)
  }

  // The registered migrations of the namespace whose name is not above the
  // target, in name order; an unknown target is refused.
  lemma UpToMeaning(reg: Registry, namespace: string, target: string)
    requires UniqueKeys(reg)
    ensures match UpToKeys(reg, namespace, target)
            case None => Key(namespace, target) !in AsMap(reg)
            case Some(keys) =>
              && Key(namespace, target) in AsMap(reg) && InNameOrder(keys)
              && forall k :: k in keys <==> k in AsMap(reg) && k.namespace == namespace && !Less(target, k.name)
  {
    hide UniqueKeys, NamespaceKeys, AsMap, Position;
    var ks := NamespaceKeys(reg, namespace);
    NamespaceKeysMeaning(reg, namespace);
    var at := Position(ks, target);
    if at.Some? {
      assert ks[at.value] in ks && ks[at.value] == Key(namespace, target);
      UpToPosition(ks, at.value);
    } else if Key(namespace, target) in ks {
      PositionFinds(ks, Key(namespace, target));
    }
  }

  lemma UpToPosition(ks: seq<Key>, i: nat)
    requires InNameOrder(ks) && i < |ks|
    ensures InNameOrder(ks[..i + 1])
    ensures forall k :: k in ks[..i + 1] <==> k in ks && !Less(ks[i].name, k.name)
  {
    hide Less;
    FollowsInOrder(ks, i);
    assert ks == ks[..i + 1] + ks[i + 1..];
    forall k | k in ks[..i + 1]
      ensures !Less(ks[i].name, k.name)
    {
      var j :| 0 <= j <= i && ks[j] == k;
      LessIsStrictTotal(ks[i].name, k.name);
    }
  }

  // ---------- rollback ----------

  function OfNamespace(rows: seq<Key>, namespace: string): (r: seq<Key>)
    ensures forall k :: k in r <==> k in rows && k.namespace == namespace
  {
    if rows == [] then [] else
    OfNamespace(rows[..|rows| - 1], namespace)
      + if rows[|rows| - 1].namespace == namespace then [rows[|rows| - 1]] else []
  }

  // appliedMigrations over a table in application order: newest first, and
  // every namespace when none is named.
  function AppliedEntries(rows: seq<Key>, namespace: string): seq<Key> {
    Reversed(if namespace == "" then rows else OfNamespace(rows, namespace))
  }

  // The migration booked last comes first, and booking it does not disturb the
  // others.
  lemma AppliedEntriesGrow(rows: seq<Key>, k: Key, namespace: string)
    ensures AppliedEntries(rows + [k], namespace)
            == (if namespace == "" || k.namespace == namespace then [k] else []) + AppliedEntries(rows, namespace)
  {
    assert (rows + [k])[..|rows|] == rows;
  }

  // The target RollbackSteps computes from its list of entries.
  function RollbackTarget(entries: seq<Key>, steps: nat): string {
    if steps >= |entries| then "" else entries[|entries| - steps - 1].name
  }

  // What RollbackSteps reverts, as written (the list is newest first) and as
  // its index arithmetic intends (the list is oldest first).
  function RollbackPlan(reg: Registry, namespace: string, rows: seq<Key>, entries: seq<Key>,
                        steps: nat): Option<seq<Key>>
  {
    match DownToKeys(reg, namespace, RollbackTarget(entries, steps))
    case None => None
    case Some(keys) => Some(Within(keys, ToSet(rows)))
  }

  ghost predicate InNameOrder(applied: seq<Key>) {
    forall i, j :: 0 <= i < j < |applied| ==> Less(applied[i].name, applied[j].name)
  }

  // Reverting down to the n-th applied migration reverts the later ones.
  lemma RevertsAfterTarget(reg: Registry, namespace: string, rows: seq<Key>, applied: seq<Key>, n: nat)
    requires UniqueKeys(reg) && namespace != "" && applied == OfNamespace(rows, namespace) && InNameOrder(applied)
    requires forall k :: k in applied ==> k in AsMap(reg)
    requires n < |applied| && applied[n].name != ""
    ensures match DownToKeys(reg, namespace, applied[n].name)
            case None => false
            case Some(keys) => Within(keys, ToSet(rows)) == Reversed(applied[n + 1..])
  {
    hide UniqueKeys, NamespaceKeys, AsMap, OfNamespace, Within, ToSet, Position, InNameOrder;
    var ks := NamespaceKeys(reg, namespace);
    AppliedAmongRegistered(reg, namespace, rows, applied);
    assert applied[n] in applied;
    PositionFinds(ks, applied[n]);
    var i := Position(ks, applied[n].name).value;
    WithinReversed(ks[i + 1..], ToSet(rows));
    LaterAmongSorted(ks, applied, ToSet(rows), i, n);
  }

  lemma AppliedAmongRegistered(reg: Registry, namespace: string, rows: seq<Key>, applied: seq<Key>)
    requires UniqueKeys(reg) && applied == OfNamespace(rows, namespace)
    requires forall k :: k in applied ==> k in AsMap(reg)
    ensures InNameOrder(NamespaceKeys(reg, namespace))
    ensures forall k :: k in applied <==> k in NamespaceKeys(reg, namespace) && k in ToSet(rows)
  {
    hide UniqueKeys, NamespaceKeys, AsMap, OfNamespace;
    NamespaceKeysMeaning(reg, namespace);
  }

  lemma PositionFinds(ks: seq<Key>, k: Key)
    requires InNameOrder(ks) && k in ks
    ensures Position(ks, k.name).Some? && ks[Position(ks, k.name).value] == k
  {
    var at :| 0 <= at < |ks| && ks[at] == k;
    var i := Position(ks, k.name).value;
    LessIsStrictTotal(k.name, k.name);
  }

  // In two name-ordered lists, one within the other, what follows a common
  // element in the larger restricts to what follows it in the smaller.
  lemma LaterAmongSorted(ks: seq<Key>, applied: seq<Key>, recorded: set<Key>, i: nat, n: nat)
    requires InNameOrder(ks) && InNameOrder(applied)
    requires forall k :: k in applied <==> k in ks && k in recorded
    requires i < |ks| && n < |applied| && ks[i] == applied[n]
    ensures Within(ks[i + 1..], recorded) == applied[n + 1..]
  {
    var later := Within(ks[i + 1..], recorded);
    FollowsInOrder(ks, i);
    FollowsInOrder(applied, n);
    assert forall k :: k in later <==> k in applied[n + 1..];
    WithinSorted(ks[i + 1..], recorded);
    NameOrderUnique(later, applied[n + 1..]);
  }

  lemma FollowsInOrder(ks: seq<Key>, i: nat)
    requires InNameOrder(ks) && i < |ks|
    ensures forall k :: k in ks[i + 1..] <==> k in ks && Less(ks[i].name, k.name)
  {
    forall k
      ensures k in ks[i + 1..] <==> k in ks && Less(ks[i].name, k.name)
    {
      if k in ks {
        var j :| 0 <= j < |ks| && ks[j] == k;
        LessIsStrictTotal(ks[i].name, k.name);
        if j > i { assert ks[i + 1..][j - i - 1] == k; }
        if k in ks[i + 1..] {
          var m :| i + 1 <= m < |ks| && ks[m] == k;
          assert Less(ks[i].name, ks[m].name);
        }
      }
    }
  }

  lemma {:induction false} WithinSorted(ks: seq<Key>, keep: set<Key>)
    requires InNameOrder(ks)
    ensures InNameOrder(Within(ks, keep))
  {
    if ks != [] {
      WithinSorted(ks[..|ks| - 1], keep);
      forall k | k in ks[..|ks| - 1]
        ensures Less(k.name, ks[|ks| - 1].name)
      {
      }
    }
  }

  function KeyName(k: Key): string { k.name }

  lemma NameOrderUnique(a: seq<Key>, b: seq<Key>)
    requires InNameOrder(a) && InNameOrder(b) && forall k :: k in a <==> k in b
    ensures a == b
  {
    assert forall i :: 0 <= i < |a| ==> KeyName(a[i]) == a[i].name;
    assert forall i :: 0 <= i < |b| ==> KeyName(b[i]) == b[i].name;
    StrictlySortedUnique(a, b, KeyName);
  }

  // As written, 0 < steps < n reverts the n - steps - 1 newest migrations, so
  // it reverts the steps newest exactly when n == 2 * steps + 1.
  lemma {:induction false} RollbackAsWritten(reg: Registry, namespace: string, rows: seq<Key>, applied: seq<Key>,
                                             steps: nat)
    requires UniqueKeys(reg) && namespace != "" && applied == OfNamespace(rows, namespace) && InNameOrder(applied)
    requires forall k :: k in applied ==> k in AsMap(reg)
    requires 0 < steps < |applied|
    ensures RollbackPlan(reg, namespace, rows, AppliedEntries(rows, namespace), steps)
            == Some(Reversed(applied[steps + 1..]))
    ensures RollbackPlan(reg, namespace, rows, AppliedEntries(rows, namespace), steps)
            == Some(Reversed(applied[|applied| - steps..]))
            <==> |applied| == 2 * steps + 1
  {
    hide UniqueKeys, NamespaceKeys, AsMap, OfNamespace, Within, ToSet, Position, DownToKeys;
    assert AppliedEntries(rows, namespace)[|applied| - steps - 1] == applied[steps];
    assert Less(applied[0].name, applied[steps].name);
    RevertsAfterTarget(reg, namespace, rows, applied, steps);
  }

  // Read oldest first, the same arithmetic reverts the steps newest.
  lemma RollbackAsIntended(reg: Registry, namespace: string, rows: seq<Key>, applied: seq<Key>, steps: nat)
    requires UniqueKeys(reg) && namespace != "" && applied == OfNamespace(rows, namespace) && InNameOrder(applied)
    requires forall k :: k in applied ==> k in AsMap(reg) && k.name != ""
    requires 0 < steps < |applied|
    ensures RollbackPlan(reg, namespace, rows, applied, steps) == Some(Reversed(applied[|applied| - steps..]))
  {
    hide UniqueKeys, NamespaceKeys, AsMap, OfNamespace, Within, ToSet, Position, InNameOrder, DownToKeys;
    assert applied[|applied| - steps - 1] in applied;
    RevertsAfterTarget(reg, namespace, rows, applied, |applied| - steps - 1);
  }

  // Asked for at least as many steps as were applied, it reverts everything
  // registered, whatever the order of application.
  lemma RollbackEverything(reg: Registry, namespace: string, rows: seq<Key>, steps: nat)
    requires UniqueKeys(reg) && steps >= |AppliedEntries(rows, namespace)|
    ensures RollbackPlan(reg, namespace, rows, AppliedEntries(rows, namespace), steps)
            == Some(Reversed(Within(NamespaceKeys(reg, namespace), ToSet(rows))))
  {
    WithinReversed(NamespaceKeys(reg, namespace), ToSet(rows));
  }

  // ---------- status ----------

  function LastName(ks: seq<Key>): string {
    if ks == [] then "" else ks[|ks| - 1].name
  }

  datatype MigrationStatus = MigrationStatus(namespace: string, name: string, applied: bool)

  datatype NamespaceState = NamespaceState(namespace: string, current: string, pending: nat,
                                           statuses: seq<MigrationStatus>)

  // The report for a namespace: every migration with its status, how many are
  // missing, and the applied one that is last in name order.
  ghost predicate Describes(s: NamespaceState, namespace: string, ks: seq<Key>, applied: set<Key>) {
    && s.namespace == namespace
    && s.pending == |Without(ks, applied)| && s.current == LastName(Within(ks, applied))
    && |s.statuses| == |ks|
    && forall i :: 0 <= i < |ks| ==> s.statuses[i] == MigrationStatus(namespace, ks[i].name, ks[i] in applied)
  }

  lemma NothingDescribed(namespace: string, ks: seq<Key>, applied: set<Key>)
    ensures Describes(NamespaceState(namespace, "", 0, []), namespace, ks[..0], applied)
  {
  }

  lemma DescribesNext(s: NamespaceState, namespace: string, ks: seq<Key>, i: nat, applied: set<Key>)
    requires i < |ks| && Describes(s, namespace, ks[..i], applied)
    ensures var statuses := s.statuses + [MigrationStatus(namespace, ks[i].name, ks[i] in applied)];
            var next := if ks[i] in applied then s.(current := ks[i].name, statuses := statuses)
                        else s.(pending := s.pending + 1, statuses := statuses);
            Describes(next, namespace, ks[..i + 1], applied)
  {
    hide Without, Within;
    assert ks[..i + 1] == ks[..i] + [ks[i]];
    WithoutAppend(ks[..i], ks[i], applied);
    WithinAppend(ks[..i], ks[i], applied);
  }

  // The reported current migration is the greatest applied registered one.
  lemma CurrentIsGreatest(s: NamespaceState, namespace: string, ks: seq<Key>, applied: set<Key>)
    requires Describes(s, namespace, ks, applied) && InNameOrder(ks)
    ensures (forall k :: k in ks ==> k !in applied) ==> s.current == ""
    ensures (exists k :: k in ks && k in applied) ==> exists k :: k in ks && k in applied && k.name == s.current
    ensures forall k :: k in ks && k in applied ==> k.name == s.current || Less(k.name, s.current)
  {
    var own := Within(ks, applied);
    WithinSorted(ks, applied);
    if own != [] {
      assert own[|own| - 1] in own;
    }
  }

  // The migrations of a namespace that namespaceMigrationState sees as applied.
  function SeenApplied(rows: seq<Key>, namespace: string): set<Key> {
    set k | k in AppliedEntries(rows, namespace) :: Key(namespace, k.name)
  }

  lemma SeenIsRecorded(rows: seq<Key>, namespace: string)
    requires namespace != ""
    ensures SeenApplied(rows, namespace) == set k | k in rows && k.namespace == namespace
  {
    var own := OfNamespace(rows, namespace);
    ReversedMembers(own);
    forall k
      ensures k in SeenApplied(rows, namespace) <==> k in rows && k.namespace == namespace
    {
      if k in rows && k.namespace == namespace {
        assert k in AppliedEntries(rows, namespace) && k == Key(namespace, k.name);
      }
    }
  }

  // It is the one applied last if and only if none with a greater name was
  // applied before.
  lemma CurrentIsNewestExactlyWhen(s: NamespaceState, reg: Registry, namespace: string, rows: seq<Key>,
                                   applied: seq<Key>)
    requires UniqueKeys(reg) && namespace != "" && applied == OfNamespace(rows, namespace) && applied != []
    requires forall k :: k in applied ==> k in AsMap(reg)
    requires Describes(s, namespace, NamespaceKeys(reg, namespace), SeenApplied(rows, namespace))
    ensures var newest := applied[|applied| - 1];
            s.current == newest.name
            <==> forall k :: k in applied ==> k.name == newest.name || Less(k.name, newest.name)
  {
    hide UniqueKeys, AsMap, NamespaceKeys, OfNamespace, SeenApplied, Describes, Less, InNameOrder;
    var newest := applied[|applied| - 1];
    AppliedAmongRegistered(reg, namespace, rows, applied);
    SeenIsRecorded(rows, namespace);
    CurrentIsGreatest(s, namespace, NamespaceKeys(reg, namespace), SeenApplied(rows, namespace));
    assert newest in applied;
    LessIsStrictTotal(newest.name, s.current);
  }

  // A finished MigrateAllUp leaves nothing pending in any namespace.
  lemma NothingPendingAfterUp(plugins: seq<string>, reg: Registry, recorded: set<Key>, namespace: string)
    requires Distinct(plugins) && UniqueKeys(reg)
    ensures var plan := Plan(Up, reg, UpOrder(plugins, reg), recorded);
            Without(NamespaceKeys(reg, namespace), After(Up, recorded, plan)) == []
  {
    var plan := Plan(Up, reg, UpOrder(plugins, reg), recorded);
    var left := Without(NamespaceKeys(reg, namespace), After(Up, recorded, plan));
    PlanCoversNamespace(Up, plugins, reg, UpOrder(plugins, reg), recorded, namespace);
    if left != [] { HasMember(left); }
  }

  // A finished MigrateAllDown leaves no namespace with a current migration.
  lemma NothingCurrentAfterDown(plugins: seq<string>, reg: Registry, recorded: set<Key>, namespace: string)
    requires Distinct(plugins) && UniqueKeys(reg)
    ensures var plan := Plan(Down, reg, DownOrder(plugins, reg), recorded);
            Within(NamespaceKeys(reg, namespace), After(Down, recorded, plan)) == []
  {
    var plan := Plan(Down, reg, DownOrder(plugins, reg), recorded);
    var left := Within(NamespaceKeys(reg, namespace), After(Down, recorded, plan));
    PlanCoversNamespace(Down, plugins, reg, DownOrder(plugins, reg), recorded, namespace);
    if left != [] { HasMember(left); }
  }

  lemma PlanCoversNamespace(dir: Direction, plugins: seq<string>, reg: Registry, order: seq<string>,
                            recorded: set<Key>, namespace: string)
    requires Distinct(plugins) && UniqueKeys(reg)
    requires order == if dir == Up then UpOrder(plugins, reg) else DownOrder(plugins, reg)
    ensures forall k :: k in NamespaceKeys(reg, namespace) && (k in recorded <==> dir == Down) ==>
              k in Plan(dir, reg, order, recorded)
  {
    NamespaceKeysMeaning(reg, namespace);
    OrdersDistinct(plugins, reg);
    PlanMeaning(dir, reg, order, recorded);
    AsMapHolds(reg);
    NamespaceListIsSorted(reg);
    forall k | k in AsMap(reg)
      ensures k.namespace in NamespaceList(reg)
    {
      assert Entry(k.namespace, k.name, AsMap(reg)[k]) in reg;
    }
  }
}
