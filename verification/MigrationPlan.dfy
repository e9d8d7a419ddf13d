// What the migration engine of app/migration.go does, as values: the order in
// which it visits migrations, and the trace a run leaves in the database.
module MigrationPlan {
  import opened Seqs
  import opened Lex
  import opened Namespaces

  datatype Script = Script(up: seq<string>, down: seq<string>)

  type Registry = seq<Entry<Script>>

  datatype Direction = Up | Down

  // One entry of the database's history: a script that committed, and whether
  // the bookkeeping write that follows the commit succeeded as well.
  datatype Event = Event(dir: Direction, key: Key, statements: seq<string>, booked: bool)

  // ---------- visit orders ----------

  function KeysOf<T>(l: seq<Entry<T>>): (r: seq<Key>)
    ensures |r| == |l| && forall i :: 0 <= i < |l| ==> r[i] == l[i].Id()
  {
    seq(|l|, i requires 0 <= i < |l| => l[i].Id())
  }

  // The registered migrations of a namespace in ascending name order.
  function NamespaceKeys<T>(reg: seq<Entry<T>>, namespace: string): seq<Key> {
    KeysOf(Listing(reg, namespace))
  }

  function VisitKeys<T>(dir: Direction, reg: seq<Entry<T>>, namespace: string): seq<Key> {
    if dir == Up then NamespaceKeys(reg, namespace) else Reversed(NamespaceKeys(reg, namespace))
  }

  function Visitor<T>(dir: Direction, reg: seq<Entry<T>>): string -> seq<Key> {
    namespace => VisitKeys(dir, reg, namespace)
  }

  // The migrations met when namespaces are visited one after the other.
  function Visits<T>(dir: Direction, reg: seq<Entry<T>>, namespaces: seq<string>): seq<Key> {
    FlatMap(namespaces, Visitor(dir, reg))
  }

  // Those of them that have work to do.
  function Todo(dir: Direction, keys: seq<Key>, recorded: set<Key>): seq<Key> {
    if dir == Up then Without(keys, recorded) else Within(keys, recorded)
  }

  function Plan<T>(dir: Direction, reg: seq<Entry<T>>, namespaces: seq<string>, recorded: set<Key>): seq<Key> {
    Todo(dir, Visits(dir, reg, namespaces), recorded)
  }

  // Registered namespaces that belong to no plugin, ascending.
  function OtherNamespaces<T>(plugins: seq<string>, reg: seq<Entry<T>>): seq<string> {
    Without(NamespaceList(reg), ToSet(plugins))
  }

  function UpOrder<T>(plugins: seq<string>, reg: seq<Entry<T>>): seq<string> {
    plugins + OtherNamespaces(plugins, reg)
  }

  function DownOrder<T>(plugins: seq<string>, reg: seq<Entry<T>>): seq<string> {
    OtherNamespaces(plugins, reg) + Reversed(plugins)
  }

  // ---------- traces ----------

  function StatementsOf(scripts: map<Key, Script>, dir: Direction, key: Key): seq<string> {
    if key !in scripts then [] else if dir == Up then scripts[key].up else scripts[key].down
  }

  // A run that completes done keys of its plan; broken means the next one
  // committed but its bookkeeping write failed.
  function Run(scripts: map<Key, Script>, dir: Direction, plan: seq<Key>, done: nat, broken: bool): (log: seq<Event>)
    requires done <= |plan| && (broken ==> done < |plan|)
    ensures |log| == done + if broken then 1 else 0
    ensures forall i :: 0 <= i < |log| ==>
              log[i] == Event(dir, plan[i], StatementsOf(scripts, dir, plan[i]), i < done)
  {
    seq(done + if broken then 1 else 0, i requires 0 <= i < done + if broken then 1 else 0 =>
      Event(dir, plan[i], StatementsOf(scripts, dir, plan[i]), i < done))
  }

  // The bookkeeping table after a trace.
  function Replay(recorded: set<Key>, log: seq<Event>): set<Key> {
    if log == [] then recorded else
    var before, e := Replay(recorded, log[..|log| - 1]), log[|log| - 1];
    if !e.booked then before else if e.dir == Up then before + {e.key} else before - {e.key}
  }

  // The migrations whose Up committed and was not reverted since.
  function Live(live: set<Key>, log: seq<Event>): set<Key> {
    if log == [] then live else
    var before, e := Live(live, log[..|log| - 1]), log[|log| - 1];
    if e.dir == Up then before + {e.key} else before - {e.key}
  }

  function Failures(log: seq<Event>): nat {
    if log == [] then 0 else
    Failures(log[..|log| - 1]) + if log[|log| - 1].booked then 0 else 1
  }

  // ---------- facts about visits ----------

  lemma NamespaceKeysMeaning<T>(reg: seq<Entry<T>>, namespace: string)
    requires UniqueKeys(reg)
    ensures Distinct(NamespaceKeys(reg, namespace))
    ensures forall i, j :: 0 <= i < j < |NamespaceKeys(reg, namespace)| ==>
              Less(NamespaceKeys(reg, namespace)[i].name, NamespaceKeys(reg, namespace)[j].name)
    ensures forall k :: k in NamespaceKeys(reg, namespace) <==> k.namespace == namespace && k in AsMap(reg)
  {
    var l := Listing(reg, namespace);
    ListingIsSorted(reg, namespace);
    KeysInOrder(l);
    KeysOfListing(l, AsMap(reg), namespace);
  }

  lemma KeysInOrder<T>(l: seq<Entry<T>>)
    requires StrictlySorted(l, NameOf<T>)
    ensures Distinct(KeysOf(l))
    ensures forall i, j :: 0 <= i < j < |KeysOf(l)| ==> Less(KeysOf(l)[i].name, KeysOf(l)[j].name)
  {
    var ks := KeysOf(l);
    forall i, j | 0 <= i < j < |ks|
      ensures Less(ks[i].name, ks[j].name) && ks[i] != ks[j]
    {
      assert Less(NameOf(l[i]), NameOf(l[j]));
      LessIsStrictTotal(ks[i].name, ks[j].name);
    }
  }

  lemma KeysOfListing<T>(l: seq<Entry<T>>, m: map<Key, T>, namespace: string)
    requires forall e :: e in l <==> e.namespace == namespace && e.Id() in m && m[e.Id()] == e.item
    ensures forall k :: k in KeysOf(l) <==> k.namespace == namespace && k in m
  {
    var ks := KeysOf(l);
    forall k
      ensures k in ks <==> k.namespace == namespace && k in m
    {
      if k in ks {
        var i :| 0 <= i < |ks| && ks[i] == k;
        assert l[i] in l;
      }
      if k.namespace == namespace && k in m {
        var e := Entry(k.namespace, k.name, m[k]);
        assert e.Id() == k;
        var i :| 0 <= i < |l| && l[i] == e;
        assert ks[i] == k;
      }
    }
  }

  lemma TodoConcat(dir: Direction, a: seq<Key>, b: seq<Key>, recorded: set<Key>)
    ensures Todo(dir, a + b, recorded) == Todo(dir, a, recorded) + Todo(dir, b, recorded)
  {
    if dir == Up { WithoutConcat(a, b, recorded); } else { WithinConcat(a, b, recorded); }
  }

  lemma VisitKeysMeaning<T>(dir: Direction, reg: seq<Entry<T>>, namespace: string)
    requires UniqueKeys(reg)
    ensures Distinct(VisitKeys(dir, reg, namespace))
    ensures forall k :: k in VisitKeys(dir, reg, namespace) <==> k.namespace == namespace && k in AsMap(reg)
  {
    NamespaceKeysMeaning(reg, namespace);
    ReversedMembers(NamespaceKeys(reg, namespace));
  }

  // visit(n) enumerates, without repetition, the keys of all in namespace n.
  ghost predicate Enumerates(visit: string -> seq<Key>, all: set<Key>) {
    && (forall n :: Distinct(visit(n)))
    && (forall n, k :: k in visit(n) <==> k.namespace == n && k in all)
  }

  lemma VisitorEnumerates<T>(dir: Direction, reg: seq<Entry<T>>)
    requires UniqueKeys(reg)
    ensures Enumerates(Visitor(dir, reg), AsMap(reg).Keys)
  {
    forall n
      ensures Distinct(Visitor(dir, reg)(n))
      ensures forall k :: k in Visitor(dir, reg)(n) <==> k.namespace == n && k in AsMap(reg).Keys
    {
      VisitKeysMeaning(dir, reg, n);
    }
  }

  lemma {:induction false} TodoMeaning(dir: Direction, visit: string -> seq<Key>, all: set<Key>,
                                       namespaces: seq<string>, recorded: set<Key>)
    requires Enumerates(visit, all)
    ensures forall k :: k in Todo(dir, FlatMap(namespaces, visit), recorded) <==>
              k.namespace in namespaces && k in all && (k in recorded <==> dir == Down)
    ensures Distinct(namespaces) ==> Distinct(Todo(dir, FlatMap(namespaces, visit), recorded))
  {
    var v := FlatMap(namespaces, visit);
    FlatMapMembers(namespaces, visit);
    if Distinct(namespaces) {
      forall a, b, x | x in visit(a) && x in visit(b)
        ensures a == b
      {
        assert x.namespace == a && x.namespace == b;
      }
      FlatMapDistinct(namespaces, visit);
      WithoutDistinct(v, recorded);
      WithinDistinct(v, recorded);
    }
  }

  // A plan meets each registered migration that has work to do exactly once.
  lemma {:induction false} PlanMeaning<T>(dir: Direction, reg: seq<Entry<T>>, namespaces: seq<string>,
                                          recorded: set<Key>)
    requires UniqueKeys(reg)
    ensures forall k :: k in Plan(dir, reg, namespaces, recorded) <==>
              k.namespace in namespaces && k in AsMap(reg) && (k in recorded <==> dir == Down)
    ensures Distinct(namespaces) ==> Distinct(Plan(dir, reg, namespaces, recorded))
  {
    VisitorEnumerates(dir, reg);
    TodoMeaning(dir, Visitor(dir, reg), AsMap(reg).Keys, namespaces, recorded);
  }

  lemma OrdersDistinct<T>(plugins: seq<string>, reg: seq<Entry<T>>)
    requires Distinct(plugins)
    ensures Distinct(UpOrder(plugins, reg)) && Distinct(DownOrder(plugins, reg))
    ensures forall n :: n in UpOrder(plugins, reg) <==> n in plugins || n in NamespaceList(reg)
    ensures forall n :: n in DownOrder(plugins, reg) <==> n in plugins || n in NamespaceList(reg)
  {
    var others := OtherNamespaces(plugins, reg);
    NamespaceListIsSorted(reg);
    StrictlySortedDistinct(NamespaceList(reg), Itself);
    WithoutDistinct(NamespaceList(reg), ToSet(plugins));
    ReversedMembers(plugins);
    ConcatDistinct(plugins, others);
    ConcatDistinct(others, Reversed(plugins));
  }

  // ---------- facts about traces ----------

  function After(dir: Direction, recorded: set<Key>, keys: seq<Key>): set<Key> {
    if dir == Up then recorded + ToSet(keys) else recorded - ToSet(keys)
  }

  lemma {:induction false} ReplayConcat(recorded: set<Key>, a: seq<Event>, b: seq<Event>)
    ensures Replay(recorded, a + b) == Replay(Replay(recorded, a), b)
    decreases |b|
  {
    if b == [] {
      assert a + b == a;
    } else {
      ReplayConcat(recorded, a, b[..|b| - 1]);
      assert (a + b)[..|a + b| - 1] == a + b[..|b| - 1];
      assert (a + b)[|a + b| - 1] == b[|b| - 1];
    }
  }

  // Bookkeeping after a run: exactly the completed keys changed.
  lemma {:induction false} ReplayRun(scripts: map<Key, Script>, dir: Direction, plan: seq<Key>, done: nat,
                                     broken: bool, recorded: set<Key>)
    requires done <= |plan| && (broken ==> done < |plan|)
    ensures Replay(recorded, Run(scripts, dir, plan, done, broken)) == After(dir, recorded, plan[..done])
    decreases done, broken
  {
    hide Run, After;
    var run := Run(scripts, dir, plan, done, broken);
    if broken {
      ReplayRun(scripts, dir, plan, done, false, recorded);
      assert run[..done] == Run(scripts, dir, plan, done, false);
    } else if done > 0 {
      ReplayRun(scripts, dir, plan, done - 1, false, recorded);
      assert run[..done - 1] == Run(scripts, dir, plan, done - 1, false);
      AfterOneMore(dir, recorded, plan, done);
    } else {
      AfterNone(dir, recorded, plan);
    }
  }

  lemma AfterNone(dir: Direction, recorded: set<Key>, plan: seq<Key>)
    ensures After(dir, recorded, plan[..0]) == recorded
  {
    assert ToSet(plan[..0]) == {};
  }

  lemma AfterOneMore(dir: Direction, recorded: set<Key>, plan: seq<Key>, done: nat)
    requires 0 < done <= |plan|
    ensures var before := After(dir, recorded, plan[..done - 1]);
            After(dir, recorded, plan[..done])
            == if dir == Up then before + {plan[done - 1]} else before - {plan[done - 1]}
  {
    assert plan[..done] == plan[..done - 1] + [plan[done - 1]];
    assert ToSet(plan[..done]) == ToSet(plan[..done - 1]) + {plan[done - 1]};
  }

  // A finished run followed by another is one run of the joined plan.
  lemma RunAfterRun(scripts: map<Key, Script>, dir: Direction, a: seq<Key>, b: seq<Key>, done: nat, broken: bool)
    requires done <= |b| && (broken ==> done < |b|)
    ensures Run(scripts, dir, a, |a|, false) + Run(scripts, dir, b, done, broken)
            == Run(scripts, dir, a + b, |a| + done, broken)
  {
  }

  // At its i-th commit a run has recorded exactly the i keys before it.
  lemma ReplayBeforeCommit(scripts: map<Key, Script>, dir: Direction, plan: seq<Key>, done: nat, broken: bool,
                           recorded: set<Key>, i: nat)
    requires done <= |plan| && (broken ==> done < |plan|)
    requires i < |Run(scripts, dir, plan, done, broken)|
    ensures Replay(recorded, Run(scripts, dir, plan, done, broken)[..i]) == After(dir, recorded, plan[..i])
  {
    assert Run(scripts, dir, plan, done, broken)[..i] == Run(scripts, dir, plan, i, false);
    ReplayRun(scripts, dir, plan, i, false, recorded);
  }

  // The heart of dependency safety. Whatever holds before a run: once it has
  // reached a key of one namespace, every key of every namespace visited
  // earlier is recorded (going up) or not recorded (going down).
  lemma {:induction false} EarlierNamespacesAreDone(dir: Direction, visit: string -> seq<Key>, all: set<Key>,
                                                    namespaces: seq<string>, recorded: set<Key>, plan: seq<Key>,
                                                    i: nat, at: nat, key: Key)
    requires Enumerates(visit, all) && Distinct(namespaces) && at < |namespaces|
    requires plan == Todo(dir, FlatMap(namespaces, visit), recorded)
    requires i < |plan| && plan[i].namespace == namespaces[at]
    requires key in all && key.namespace in namespaces[..at]
    ensures key in After(dir, recorded, plan[..i]) <==> dir == Up
  {
    hide Todo, FlatMap, Enumerates, Distinct;
    var first := Todo(dir, FlatMap(namespaces[..at], visit), recorded);
    TodoPrefix(dir, visit, namespaces, recorded, at);
    TodoMeaning(dir, visit, all, namespaces[..at], recorded);
    assert forall a :: 0 <= a < |first| ==> first[a] in first && plan[a] == first[a];
    DistinctSplit(namespaces, at);
    assert namespaces[at] == namespaces[at..][0];
    assert |first| <= i;
    if key in first {
      var a :| 0 <= a < |first| && first[a] == key;
      assert plan[..i][a] == key;
    }
    if dir == Down {
      TodoMeaning(dir, visit, all, namespaces, recorded);
    }
  }

  // The plan of the first namespaces is a prefix of the whole plan.
  lemma TodoPrefix(dir: Direction, visit: string -> seq<Key>, namespaces: seq<string>, recorded: set<Key>, at: nat)
    requires at <= |namespaces|
    ensures Todo(dir, FlatMap(namespaces[..at], visit), recorded) <= Todo(dir, FlatMap(namespaces, visit), recorded)
  {
    var first, rest := namespaces[..at], namespaces[at..];
    assert namespaces == first + rest;
    FlatMapConcat(first, rest, visit);
    TodoConcat(dir, FlatMap(first, visit), FlatMap(rest, visit), recorded);
  }

  // ---------- what the folds over a history mean ----------

  // The last entry of the key is at position i.
  ghost predicate LastOf(log: seq<Event>, key: Key, i: int) {
    0 <= i < |log| && log[i].key == key && forall j :: i < j < |log| ==> log[j].key != key
  }

  // A migration is live if and only if its last script to commit was its Up.
  lemma {:induction false} LiveMeaning(log: seq<Event>, key: Key)
    ensures key in Live({}, log) <==> exists i :: LastOf(log, key, i) && log[i].dir == Up
  {
    if log != [] {
      var front, n := log[..|log| - 1], |log| - 1;
      LiveMeaning(front, key);
      if log[n].key == key {
        assert LastOf(log, key, n);
      } else {
        assert forall i :: 0 <= i < n ==> (LastOf(log, key, i) <==> LastOf(front, key, i));
      }
    }
  }

  // The last booked entry of the key is at position i.
  ghost predicate LastBookedOf(log: seq<Event>, key: Key, i: int) {
    0 <= i < |log| && log[i].key == key && log[i].booked
    && forall j :: i < j < |log| && log[j].booked ==> log[j].key != key
  }

  // A migration is recorded if and only if its last script to be booked was its Up.
  lemma {:induction false} ReplayMeaning(log: seq<Event>, key: Key)
    ensures key in Replay({}, log) <==> exists i :: LastBookedOf(log, key, i) && log[i].dir == Up
  {
    if log != [] {
      var front, n := log[..|log| - 1], |log| - 1;
      ReplayMeaning(front, key);
      if log[n].key == key && log[n].booked {
        assert LastBookedOf(log, key, n);
      } else {
        assert forall i :: 0 <= i < n ==> (LastBookedOf(log, key, i) <==> LastBookedOf(front, key, i));
      }
    }
  }

  lemma {:induction false} FailuresMeaning(log: seq<Event>)
    ensures Failures(log) == |set i | 0 <= i < |log| && !log[i].booked|
  {
    if log != [] {
      var front, n := log[..|log| - 1], |log| - 1;
      FailuresMeaning(front);
      var before := set i | 0 <= i < |front| && !front[i].booked;
      assert (set i | 0 <= i < |log| && !log[i].booked) == if log[n].booked then before else before + {n};
    }
  }
}
