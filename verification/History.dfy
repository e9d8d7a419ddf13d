// What full migrations and teardowns leave in the database, entry by entry.
module Histories {
  import opened Seqs
  import opened Lex
  import opened Namespaces
  import opened MigrationPlan
  import opened MigrationOutcome
  import opened SeederRecord

  // Visited before: plugins in their order, then other namespaces ascending;
  // within a namespace by ascending name.
  ghost predicate UpBefore(plugins: seq<string>, a: Key, b: Key) {
    if a.namespace == b.namespace then Less(a.name, b.name)
    else if b.namespace in plugins then
      exists x, y :: 0 <= x < y < |plugins| && plugins[x] == a.namespace && plugins[y] == b.namespace
    else a.namespace in plugins || Less(a.namespace, b.namespace)
  }

  // Torn down before: other namespaces ascending, then plugins backwards; within
  // a namespace by descending name.
  ghost predicate DownBefore(plugins: seq<string>, a: Key, b: Key) {
    if a.namespace == b.namespace then Less(b.name, a.name)
    else if a.namespace in plugins then
      exists x, y :: 0 <= x < y < |plugins| && plugins[x] == b.namespace && plugins[y] == a.namespace
    else b.namespace in plugins || Less(a.namespace, b.namespace)
  }

  // Every new entry ran the Up script of a registered, unrecorded migration, in
  // visiting order and without leaving one out; all of them are recorded, but
  // perhaps the last; and success means that everything registered is recorded.
  ghost predicate UpHistory(plugins: seq<string>, scripts: map<Key, Script>, rows0: seq<Key>, log0: seq<Event>,
                            rows1: seq<Key>, log1: seq<Event>, ok: bool)
  {
    && log0 <= log1 && rows0 <= rows1
    && var n, added := |log0|, |rows1| - |rows0|;
    && n + added <= |log1| <= n + added + 1
    && (forall i :: n <= i < |log1| ==>
          log1[i].dir == Up && log1[i].key in scripts && log1[i].statements == scripts[log1[i].key].up
          && log1[i].key !in rows0)
    && (forall i :: n <= i < n + added ==> log1[i].booked && rows1[|rows0| + i - n] == log1[i].key)
    && (forall i :: n + added <= i < |log1| ==> !log1[i].booked)
    && (forall i, j :: n <= i < j < |log1| ==> UpBefore(plugins, log1[i].key, log1[j].key))
    && (forall i, k :: n <= i < |log1| && k in scripts && UpBefore(plugins, k, log1[i].key) ==> k in rows1)
    && (ok ==> |log1| == n + added && forall k :: k in scripts ==> k in rows1)
  }

  // Dually for Down scripts of registered, recorded migrations.
  ghost predicate DownHistory(plugins: seq<string>, scripts: map<Key, Script>, rows0: seq<Key>, log0: seq<Event>,
                              rows1: seq<Key>, log1: seq<Event>, ok: bool)
  {
    && log0 <= log1
    && var n := |log0|;
    && (forall i :: n <= i < |log1| ==>
          log1[i].dir == Down && log1[i].key in scripts && log1[i].statements == scripts[log1[i].key].down
          && log1[i].key in rows0)
    && (forall i :: n <= i < |log1| - 1 ==> log1[i].booked)
    && rows1 == Without(rows0, set i | n <= i < |log1| && log1[i].booked :: log1[i].key)
    && (forall i, j :: n <= i < j < |log1| ==> DownBefore(plugins, log1[i].key, log1[j].key))
    && (forall i, k :: n <= i < |log1| && k in scripts && DownBefore(plugins, k, log1[i].key) ==> k !in rows1)
    && (ok ==> (forall i :: n <= i < |log1| ==> log1[i].booked) && forall k :: k in scripts ==> k !in rows1)
  }

  // Every new run was of a registered seeder, unless forced of an unrecorded one,
  // in visiting order, and was recorded, but perhaps the last.
  ghost predicate SeedRuns(plugins: seq<string>, registered: set<Key>, force: bool, seeds0: set<Key>,
                           runs0: seq<SeedRun>, runs1: seq<SeedRun>)
  {
    && runs0 <= runs1
    && var n := |runs0|;
    && (forall i :: n <= i < |runs1| ==>
          runs1[i].forced == force && runs1[i].key in registered && (force || runs1[i].key !in seeds0))
    && (forall i :: n <= i < |runs1| - 1 ==> runs1[i].booked)
    && (forall i, j :: n <= i < j < |runs1| ==> UpBefore(plugins, runs1[i].key, runs1[j].key))
  }

  // The table has gained what was recorded; a forced run that was not recorded
  // at the end may have lost its old record.
  ghost predicate SeedTable(force: bool, seeds0: set<Key>, runs0: seq<SeedRun>, seeds1: set<Key>, runs1: seq<SeedRun>)
  {
    var booked := set i | |runs0| <= i < |runs1| && runs1[i].booked :: runs1[i].key;
    || seeds1 == seeds0 + booked
    || (force && |runs0| < |runs1| && !runs1[|runs1| - 1].booked
        && seeds1 == seeds0 + booked - {runs1[|runs1| - 1].key})
  }

  // Everything registered is recorded, and has run if forced.
  ghost predicate AllSeeded(registered: set<Key>, force: bool, runs0: seq<SeedRun>, seeds1: set<Key>,
                            runs1: seq<SeedRun>)
  {
    && (forall i :: |runs0| <= i < |runs1| ==> runs1[i].booked)
    && forall k :: k in registered ==>
         k in seeds1 && (force ==> exists i :: |runs0| <= i < |runs1| && runs1[i].key == k)
  }

  // ---------- the order of a plan ----------

  ghost predicate VisitedBefore(dir: Direction, order: seq<string>, a: Key, b: Key) {
    if a.namespace == b.namespace then if dir == Up then Less(a.name, b.name) else Less(b.name, a.name)
    else exists x, y :: 0 <= x < y < |order| && order[x] == a.namespace && order[y] == b.namespace
  }

  ghost predicate InOrder(dir: Direction, order: seq<string>, keys: seq<Key>) {
    forall i, j :: 0 <= i < j < |keys| ==> VisitedBefore(dir, order, keys[i], keys[j])
  }

  lemma {:induction false} WithoutInOrder(dir: Direction, order: seq<string>, keys: seq<Key>, drop: set<Key>)
    requires InOrder(dir, order, keys)
    ensures InOrder(dir, order, Without(keys, drop))
  {
    hide VisitedBefore;
    if keys != [] {
      var front, last := keys[..|keys| - 1], keys[|keys| - 1];
      WithoutInOrder(dir, order, front, drop);
      assert forall x :: x in front ==> VisitedBefore(dir, order, x, last);
    }
  }

  lemma {:induction false} WithinInOrder(dir: Direction, order: seq<string>, keys: seq<Key>, keep: set<Key>)
    requires InOrder(dir, order, keys)
    ensures InOrder(dir, order, Within(keys, keep))
  {
    hide VisitedBefore;
    if keys != [] {
      var front, last := keys[..|keys| - 1], keys[|keys| - 1];
      WithinInOrder(dir, order, front, keep);
      assert forall x :: x in front ==> VisitedBefore(dir, order, x, last);
    }
  }

  lemma {:induction false} VisitsInOrder<T>(dir: Direction, reg: seq<Entry<T>>, order: seq<string>, n: nat)
    requires UniqueKeys(reg) && Distinct(order) && n <= |order|
    ensures InOrder(dir, order, Visits(dir, reg, order[..n]))
  {
    hide *;
    if n > 0 {
      var before, own := Visits(dir, reg, order[..n - 1]), VisitKeys(dir, reg, order[n - 1]);
      VisitsInOrder(dir, reg, order, n - 1);
      OwnInOrder(dir, reg, order, n - 1);
      LastVisit(dir, reg, order, n);
      ConcatInOrder(dir, order, before, own);
    } else {
      assert order[..0] == [];
      NothingInOrder(dir, reg, order);
    }
  }

  lemma NothingInOrder<T>(dir: Direction, reg: seq<Entry<T>>, order: seq<string>)
    ensures InOrder(dir, order, Visits(dir, reg, []))
  {
    hide VisitedBefore;
  }

  lemma ConcatInOrder(dir: Direction, order: seq<string>, a: seq<Key>, b: seq<Key>)
    requires InOrder(dir, order, a) && InOrder(dir, order, b)
    requires forall x, y :: x in a && y in b ==> VisitedBefore(dir, order, x, y)
    ensures InOrder(dir, order, a + b)
  {
    hide VisitedBefore;
  }

  // The keys of namespace n are in order, and after those of earlier ones.
  lemma OwnInOrder<T>(dir: Direction, reg: seq<Entry<T>>, order: seq<string>, n: nat)
    requires UniqueKeys(reg) && Distinct(order) && n < |order|
    ensures var before, own := Visits(dir, reg, order[..n]), VisitKeys(dir, reg, order[n]);
            && InOrder(dir, order, own)
            && forall x, y :: x in before && y in own ==> VisitedBefore(dir, order, x, y)
  {
    hide UniqueKeys, Distinct, VisitKeys, Visits, Less;
    var before, own := Visits(dir, reg, order[..n]), VisitKeys(dir, reg, order[n]);
    OwnKeys(dir, reg, order[n]);
    SortedIsInOrder(dir, order, order[n], own);
    forall x, y | x in before && y in own
      ensures VisitedBefore(dir, order, x, y)
    {
      EarlierNamespace(dir, reg, order, n, x);
      var i :| 0 <= i < n && order[i] == x.namespace;
      DistinctAt(order, i, n);
    }
  }

  lemma SortedIsInOrder(dir: Direction, order: seq<string>, namespace: string, own: seq<Key>)
    requires forall k :: k in own ==> k.namespace == namespace
    requires forall i, j :: 0 <= i < j < |own| ==>
               if dir == Up then Less(own[i].name, own[j].name) else Less(own[j].name, own[i].name)
    ensures InOrder(dir, order, own)
  {
    hide Less;
    assert forall i :: 0 <= i < |own| ==> own[i] in own;
  }

  lemma LastVisit<T>(dir: Direction, reg: seq<Entry<T>>, order: seq<string>, n: nat)
    requires 0 < n <= |order|
    ensures Visits(dir, reg, order[..n]) == Visits(dir, reg, order[..n - 1]) + VisitKeys(dir, reg, order[n - 1])
  {
    assert order[..n][..n - 1] == order[..n - 1];
  }

  lemma EarlierNamespace<T>(dir: Direction, reg: seq<Entry<T>>, order: seq<string>, n: nat, k: Key)
    requires UniqueKeys(reg) && n <= |order| && k in Visits(dir, reg, order[..n])
    ensures exists x :: 0 <= x < n && order[x] == k.namespace
  {
    FlatMapMembers(order[..n], Visitor(dir, reg));
    var ns :| ns in order[..n] && k in Visitor(dir, reg)(ns);
    VisitKeysMeaning(dir, reg, ns);
  }

  lemma OwnKeys<T>(dir: Direction, reg: seq<Entry<T>>, namespace: string)
    requires UniqueKeys(reg)
    ensures var own := VisitKeys(dir, reg, namespace);
            && (forall k :: k in own ==> k.namespace == namespace)
            && forall i, j :: 0 <= i < j < |own| ==>
                 if dir == Up then Less(own[i].name, own[j].name) else Less(own[j].name, own[i].name)
  {
    NamespaceKeysMeaning(reg, namespace);
    VisitKeysMeaning(dir, reg, namespace);
    hide UniqueKeys, NamespaceKeys;
  }

  lemma PlanInOrder<T>(dir: Direction, reg: seq<Entry<T>>, order: seq<string>, recorded: set<Key>)
    requires UniqueKeys(reg) && Distinct(order)
    ensures InOrder(dir, order, Plan(dir, reg, order, recorded))
  {
    hide UniqueKeys, Distinct, Visits, InOrder;
    VisitsInOrder(dir, reg, order, |order|);
    assert order[..|order|] == order;
    WithoutInOrder(dir, order, Visits(dir, reg, order), recorded);
    WithinInOrder(dir, order, Visits(dir, reg, order), recorded);
  }

  // ---------- the order of namespaces ----------

  // Plugins come first, the others after them in ascending order.
  lemma UpOrderMeaning<T>(plugins: seq<string>, reg: seq<Entry<T>>, x: nat, y: nat)
    requires Distinct(plugins) && x < y < |UpOrder(plugins, reg)|
    ensures var a, b := UpOrder(plugins, reg)[x], UpOrder(plugins, reg)[y];
            && a != b
            && if b in plugins then exists u, v :: 0 <= u < v < |plugins| && plugins[u] == a && plugins[v] == b
               else a in plugins || Less(a, b)
  {
    var others := OtherNamespaces(plugins, reg);
    OrdersDistinct(plugins, reg);
    DistinctAt(UpOrder(plugins, reg), x, y);
    OthersAscend(plugins, reg);
    if |plugins| <= y { assert others[y - |plugins|] in others; }
  }

  // The others come first in ascending order, then the plugins backwards.
  lemma DownOrderMeaning<T>(plugins: seq<string>, reg: seq<Entry<T>>, x: nat, y: nat)
    requires Distinct(plugins) && x < y < |DownOrder(plugins, reg)|
    ensures var a, b := DownOrder(plugins, reg)[x], DownOrder(plugins, reg)[y];
            && a != b
            && if a in plugins then exists u, v :: 0 <= u < v < |plugins| && plugins[u] == b && plugins[v] == a
               else b in plugins || Less(a, b)
  {
    var others := OtherNamespaces(plugins, reg);
    OrdersDistinct(plugins, reg);
    DistinctAt(DownOrder(plugins, reg), x, y);
    OthersAscend(plugins, reg);
    if x < |others| {
      assert others[x] in others;
    } else {
      var v, u := |plugins| - 1 - (x - |others|), |plugins| - 1 - (y - |others|);
      assert plugins[u] == DownOrder(plugins, reg)[y] && plugins[v] == DownOrder(plugins, reg)[x];
    }
  }

  lemma OthersAscend<T>(plugins: seq<string>, reg: seq<Entry<T>>)
    ensures var others := OtherNamespaces(plugins, reg);
            && (forall n :: n in others ==> n !in plugins)
            && forall i, j :: 0 <= i < j < |others| ==> Less(others[i], others[j])
  {
    NamespaceListIsSorted(reg);
    AscendingWithout(NamespaceList(reg), ToSet(plugins));
  }

  lemma {:induction false} AscendingWithout(s: seq<string>, drop: set<string>)
    requires forall i, j :: 0 <= i < j < |s| ==> Less(s[i], s[j])
    ensures forall i, j :: 0 <= i < j < |Without(s, drop)| ==> Less(Without(s, drop)[i], Without(s, drop)[j])
  {
    hide Less;
    if s != [] {
      var front, last := s[..|s| - 1], s[|s| - 1];
      AscendingWithout(front, drop);
      assert forall x :: x in front ==> Less(x, last);
    }
  }

  // ---------- from outcomes to histories ----------

  lemma VisitedUp<T>(plugins: seq<string>, reg: seq<Entry<T>>, a: Key, b: Key)
    requires Distinct(plugins) && VisitedBefore(Up, UpOrder(plugins, reg), a, b)
    ensures UpBefore(plugins, a, b)
  {
    hide UpOrder, Distinct;
    if a.namespace != b.namespace {
      var order := UpOrder(plugins, reg);
      var x, y :| 0 <= x < y < |order| && order[x] == a.namespace && order[y] == b.namespace;
      UpOrderMeaning(plugins, reg, x, y);
    }
  }

  lemma VisitedDown<T>(plugins: seq<string>, reg: seq<Entry<T>>, a: Key, b: Key)
    requires Distinct(plugins) && VisitedBefore(Down, DownOrder(plugins, reg), a, b)
    ensures DownBefore(plugins, a, b)
  {
    hide DownOrder, Distinct;
    if a.namespace != b.namespace {
      var order := DownOrder(plugins, reg);
      var x, y :| 0 <= x < y < |order| && order[x] == a.namespace && order[y] == b.namespace;
      DownOrderMeaning(plugins, reg, x, y);
    }
  }

  lemma UpBeforeOneWay(plugins: seq<string>, a: Key, b: Key)
    requires Distinct(plugins) && UpBefore(plugins, a, b)
    ensures !UpBefore(plugins, b, a)
  {
    hide Less, Distinct;
    LessIsStrictTotal(a.name, b.name);
    LessIsStrictTotal(a.namespace, b.namespace);
    if a.namespace != b.namespace && UpBefore(plugins, b, a) { OnePlace(plugins, a.namespace, b.namespace); }
  }

  lemma DownBeforeOneWay(plugins: seq<string>, a: Key, b: Key)
    requires Distinct(plugins) && DownBefore(plugins, a, b)
    ensures !DownBefore(plugins, b, a)
  {
    hide Less, Distinct;
    LessIsStrictTotal(a.name, b.name);
    LessIsStrictTotal(a.namespace, b.namespace);
    if a.namespace != b.namespace && DownBefore(plugins, b, a) { OnePlace(plugins, a.namespace, b.namespace); }
  }

  lemma OnePlace(s: seq<string>, a: string, b: string)
    requires Distinct(s)
    ensures !((exists x, y :: 0 <= x < y < |s| && s[x] == a && s[y] == b)
              && (exists x, y :: 0 <= x < y < |s| && s[x] == b && s[y] == a))
  {
    hide Distinct;
    if (exists x, y :: 0 <= x < y < |s| && s[x] == a && s[y] == b)
       && (exists x, y :: 0 <= x < y < |s| && s[x] == b && s[y] == a) {
      var x, y :| 0 <= x < y < |s| && s[x] == a && s[y] == b;
      var u, v :| 0 <= u < v < |s| && s[u] == b && s[v] == a;
      if x < v { DistinctAt(s, x, v); } else if v < x { DistinctAt(s, v, x); } else { DistinctAt(s, u, y); }
    }
  }

  // An ordered plan holds what comes before one of its keys before it.
  lemma UpPlanIsGapless(plugins: seq<string>, plan: seq<Key>, i: nat, k: Key)
    requires Distinct(plugins) && i < |plan| && k in plan && UpBefore(plugins, k, plan[i])
    requires forall a, b :: 0 <= a < b < |plan| ==> UpBefore(plugins, plan[a], plan[b])
    ensures k in plan[..i]
  {
    hide Distinct, UpBefore;
    var a :| 0 <= a < |plan| && plan[a] == k;
    UpBeforeOneWay(plugins, k, plan[i]);
    assert a < i;
    assert plan[..i][a] == k;
  }

  lemma DownPlanIsGapless(plugins: seq<string>, plan: seq<Key>, i: nat, k: Key)
    requires Distinct(plugins) && i < |plan| && k in plan && DownBefore(plugins, k, plan[i])
    requires forall a, b :: 0 <= a < b < |plan| ==> DownBefore(plugins, plan[a], plan[b])
    ensures k in plan[..i]
  {
    hide Distinct, DownBefore;
    var a :| 0 <= a < |plan| && plan[a] == k;
    DownBeforeOneWay(plugins, k, plan[i]);
    assert a < i;
    assert plan[..i][a] == k;
  }

  lemma PlanIsComplete<T>(dir: Direction, plugins: seq<string>, reg: seq<Entry<T>>, order: seq<string>,
                          recorded: set<Key>, k: Key)
    requires UniqueKeys(reg) && Distinct(plugins)
    requires order == if dir == Up then UpOrder(plugins, reg) else DownOrder(plugins, reg)
    requires k in AsMap(reg) && (k in recorded <==> dir == Down)
    ensures k in Plan(dir, reg, order, recorded)
  {
    hide UniqueKeys, Distinct, Plan, UpOrder, DownOrder, AsMap, NamespaceList;
    OrdersDistinct(plugins, reg);
    PlanMeaning(dir, reg, order, recorded);
    AsMapHolds(reg);
    NamespaceListIsSorted(reg);
    assert Entry(k.namespace, k.name, AsMap(reg)[k]) in reg;
  }

  lemma PlanIsOrderedUp<T>(plugins: seq<string>, reg: seq<Entry<T>>, recorded: set<Key>)
    requires UniqueKeys(reg) && Distinct(plugins)
    ensures var plan := Plan(Up, reg, UpOrder(plugins, reg), recorded);
            forall i, j :: 0 <= i < j < |plan| ==> UpBefore(plugins, plan[i], plan[j])
  {
    hide UniqueKeys, Distinct, Plan, UpOrder, UpBefore, VisitedBefore;
    var order := UpOrder(plugins, reg);
    var plan := Plan(Up, reg, order, recorded);
    OrdersDistinct(plugins, reg);
    PlanInOrder(Up, reg, order, recorded);
    forall i, j | 0 <= i < j < |plan|
      ensures UpBefore(plugins, plan[i], plan[j])
    {
      VisitedUp(plugins, reg, plan[i], plan[j]);
    }
  }

  lemma PlanIsOrderedDown(plugins: seq<string>, reg: Registry, recorded: set<Key>)
    requires UniqueKeys(reg) && Distinct(plugins)
    ensures var plan := Plan(Down, reg, DownOrder(plugins, reg), recorded);
            forall i, j :: 0 <= i < j < |plan| ==> DownBefore(plugins, plan[i], plan[j])
  {
    hide UniqueKeys, Distinct, Plan, DownOrder, DownBefore, VisitedBefore;
    var order := DownOrder(plugins, reg);
    var plan := Plan(Down, reg, order, recorded);
    OrdersDistinct(plugins, reg);
    PlanInOrder(Down, reg, order, recorded);
    forall i, j | 0 <= i < j < |plan|
      ensures DownBefore(plugins, plan[i], plan[j])
    {
      VisitedDown(plugins, reg, plan[i], plan[j]);
    }
  }

  lemma UpOutcomeIsHistory(plugins: seq<string>, reg: Registry, done: nat, broken: bool, ok: bool, rows0: seq<Key>,
                           log0: seq<Event>, rows1: seq<Key>, log1: seq<Event>)
    requires UniqueKeys(reg) && Distinct(plugins)
    requires Outcome(Up, AsMap(reg), Plan(Up, reg, UpOrder(plugins, reg), ToSet(rows0)), done, broken, ok, rows0, log0,
                     rows1, log1)
    ensures UpHistory(plugins, AsMap(reg), rows0, log0, rows1, log1, ok)
  {
    var order := UpOrder(plugins, reg);
    var plan := Plan(Up, reg, order, ToSet(rows0));
    var n := |log0|;
    hide UniqueKeys, Distinct, Plan, UpOrder, UpBefore, AsMap;
    PlanMeaning(Up, reg, order, ToSet(rows0));
    PlanIsOrderedUp(plugins, reg, ToSet(rows0));
    assert forall i :: 0 <= i < |plan| ==> plan[i] in plan;
    forall i, k | n <= i < |log1| && k in AsMap(reg) && UpBefore(plugins, k, log1[i].key)
      ensures k in rows1
    {
      if k !in rows0 {
        PlanIsComplete(Up, plugins, reg, order, ToSet(rows0), k);
        UpPlanIsGapless(plugins, plan, i - n, k);
        assert plan[..i - n] <= plan[..done];
      }
    }
    if ok {
      forall k | k in AsMap(reg)
        ensures k in rows1
      {
        if k !in rows0 {
          PlanIsComplete(Up, plugins, reg, order, ToSet(rows0), k);
          assert plan[..done] == plan;
        }
      }
    }
  }

  lemma DownOutcomeIsHistory(plugins: seq<string>, reg: Registry, done: nat, broken: bool, ok: bool, rows0: seq<Key>,
                             log0: seq<Event>, rows1: seq<Key>, log1: seq<Event>)
    requires UniqueKeys(reg) && Distinct(plugins)
    requires Outcome(Down, AsMap(reg), Plan(Down, reg, DownOrder(plugins, reg), ToSet(rows0)), done, broken, ok, rows0,
                     log0, rows1, log1)
    ensures DownHistory(plugins, AsMap(reg), rows0, log0, rows1, log1, ok)
  {
    var order := DownOrder(plugins, reg);
    var plan := Plan(Down, reg, order, ToSet(rows0));
    var n := |log0|;
    hide UniqueKeys, Distinct, Plan, DownOrder, DownBefore, AsMap, Without;
    PlanMeaning(Down, reg, order, ToSet(rows0));
    PlanIsOrderedDown(plugins, reg, ToSet(rows0));
    assert forall i :: 0 <= i < |plan| ==> plan[i] in plan;
    BookedKeys(AsMap(reg), plan, done, broken, log0);
    forall k | k in AsMap(reg) && k in rows0
      ensures k in plan
    {
      PlanIsComplete(Down, plugins, reg, order, ToSet(rows0), k);
    }
    DownIsGapless(plugins, AsMap(reg).Keys, rows0, plan, done);
    if ok { assert plan[..done] == plan; }
  }

  lemma BookedKeys(scripts: map<Key, Script>, plan: seq<Key>, done: nat, broken: bool, log0: seq<Event>)
    requires done <= |plan| && (broken ==> done < |plan|)
    ensures var log1 := log0 + Run(scripts, Down, plan, done, broken);
            ToSet(plan[..done]) == set i | |log0| <= i < |log1| && log1[i].booked :: log1[i].key
  {
    var log1 := log0 + Run(scripts, Down, plan, done, broken);
    forall k | k in plan[..done]
      ensures exists i :: |log0| <= i < |log1| && log1[i].booked && log1[i].key == k
    {
      var i :| 0 <= i < done && plan[i] == k;
      assert log1[|log0| + i].booked && log1[|log0| + i].key == k;
    }
  }

  lemma DownIsGapless(plugins: seq<string>, registered: set<Key>, rows0: seq<Key>, plan: seq<Key>, done: nat)
    requires Distinct(plugins) && done <= |plan| && forall k :: k in registered && k in rows0 ==> k in plan
    requires forall a, b :: 0 <= a < b < |plan| ==> DownBefore(plugins, plan[a], plan[b])
    ensures forall i, k :: 0 <= i <= done && i < |plan| && k in registered && DownBefore(plugins, k, plan[i]) ==>
              k !in Without(rows0, ToSet(plan[..done]))
    ensures done == |plan| ==> forall k :: k in registered ==> k !in Without(rows0, ToSet(plan[..done]))
  {
    hide Distinct, DownBefore;
    forall i, k | 0 <= i <= done && i < |plan| && k in registered && DownBefore(plugins, k, plan[i])
      ensures k !in Without(rows0, ToSet(plan[..done]))
    {
      if k in rows0 {
        DownPlanIsGapless(plugins, plan, i, k);
        assert plan[..i] <= plan[..done];
      }
    }
    if done == |plan| { assert plan[..done] == plan; }
  }

  lemma SeedOutcomeIsHistory<T>(plugins: seq<string>, reg: seq<Entry<T>>, force: bool, done: nat, broken: bool,
                                ok: bool,
                                seeds0: set<Key>, runs0: seq<SeedRun>, seeds1: set<Key>, runs1: seq<SeedRun>)
    requires UniqueKeys(reg) && Distinct(plugins)
    requires SeedOutcome(force, SeedPlan(force, Visits(Up, reg, UpOrder(plugins, reg)), seeds0), done, broken, ok,
                         seeds0, runs0, seeds1, runs1)
    ensures SeedRuns(plugins, AsMap(reg).Keys, force, seeds0, runs0, runs1)
    ensures SeedTable(force, seeds0, runs0, seeds1, runs1)
    ensures ok ==> AllSeeded(AsMap(reg).Keys, force, runs0, seeds1, runs1)
  {
    var order, recorded := UpOrder(plugins, reg), if force then {} else seeds0;
    var plan := SeedPlan(force, Visits(Up, reg, order), seeds0);
    SeedPlanIsPlan(force, reg, order, seeds0);
    hide UniqueKeys, SeedPlan, Plan, UpOrder, UpBefore, AsMap, Visits, Distinct, SeedRuns, SeedTable, AllSeeded;
    PlanMeaning(Up, reg, order, recorded);
    PlanIsOrderedUp(plugins, reg, recorded);
    RunsFollowPlan(plugins, AsMap(reg).Keys, force, plan, done, broken, seeds0, runs0);
    TableFollowsPlan(force, plan, done, broken, seeds0, runs0, seeds1);
    if ok {
      forall k | k in AsMap(reg).Keys && k !in recorded
        ensures k in plan
      {
        PlanIsComplete(Up, plugins, reg, order, recorded, k);
      }
      AllFollowsPlan(AsMap(reg).Keys, force, plan, seeds0, runs0);
    }
  }

  lemma RunsFollowPlan(plugins: seq<string>, registered: set<Key>, force: bool, plan: seq<Key>, done: nat, broken: bool,
                       seeds0: set<Key>, runs0: seq<SeedRun>)
    requires done <= |plan| && (broken ==> done < |plan|)
    requires forall k :: k in plan ==> k in registered && (force || k !in seeds0)
    requires forall i, j :: 0 <= i < j < |plan| ==> UpBefore(plugins, plan[i], plan[j])
    ensures SeedRuns(plugins, registered, force, seeds0, runs0, runs0 + SeedTrace(plan, done, broken, force))
  {
    hide UpBefore;
    assert forall i :: 0 <= i < |plan| ==> plan[i] in plan;
  }

  lemma TableFollowsPlan(force: bool, plan: seq<Key>, done: nat, broken: bool, seeds0: set<Key>, runs0: seq<SeedRun>,
                         seeds1: set<Key>)
    requires done <= |plan| && (broken ==> done < |plan|)
    requires var booked := seeds0 + ToSet(plan[..done]);
             seeds1 == booked || (broken && force && seeds1 == booked - {plan[done]})
    ensures SeedTable(force, seeds0, runs0, seeds1, runs0 + SeedTrace(plan, done, broken, force))
  {
    SeedsByRuns(plan, done, broken, force, runs0);
  }

  lemma AllFollowsPlan(registered: set<Key>, force: bool, plan: seq<Key>, seeds0: set<Key>, runs0: seq<SeedRun>)
    requires forall k :: k in registered && k !in (if force then {} else seeds0) ==> k in plan
    ensures AllSeeded(registered, force, runs0, seeds0 + ToSet(plan[..|plan|]),
                      runs0 + SeedTrace(plan, |plan|, false, force))
  {
    assert plan[..|plan|] == plan;
    var runs1 := runs0 + SeedTrace(plan, |plan|, false, force);
    forall k | k in plan
      ensures exists i :: |runs0| <= i < |runs1| && runs1[i].key == k
    {
      var i :| 0 <= i < |plan| && plan[i] == k;
      assert runs1[|runs0| + i].key == k;
    }
  }

  lemma SeedPlanIsPlan<T>(force: bool, reg: seq<Entry<T>>, order: seq<string>, seeds0: set<Key>)
    ensures SeedPlan(force, Visits(Up, reg, order), seeds0) == Plan(Up, reg, order, if force then {} else seeds0)
  {
  }

  lemma SeedsByRuns(plan: seq<Key>, done: nat, broken: bool, force: bool, runs0: seq<SeedRun>)
    requires done <= |plan| && (broken ==> done < |plan|)
    ensures var runs1 := runs0 + SeedTrace(plan, done, broken, force);
            ToSet(plan[..done]) == set i | |runs0| <= i < |runs1| && runs1[i].booked :: runs1[i].key
  {
    var runs1 := runs0 + SeedTrace(plan, done, broken, force);
    forall k | k in plan[..done]
      ensures exists i :: |runs0| <= i < |runs1| && runs1[i].booked && runs1[i].key == k
    {
      var i :| 0 <= i < done && plan[i] == k;
      assert runs1[|runs0| + i].booked && runs1[|runs0| + i].key == k;
    }
  }
}
