// The loops of RunMigrationsUpTo and RunMigrationsDownTo over a namespace's
// sorted migrations, against a database that may fail at any point.
module MigrationEngine {
  import opened Seqs
  import opened Namespaces
  import opened MigrationPlan
  import opened MigrationRecord
  import opened MigrationOutcome
  import opened Databases
  import opened AppState

  // A listing without repeated keys whose scripts are the registered ones.
  ghost predicate Backed(ordered: seq<Entry<Script>>, scripts: map<Key, Script>) {
    && Distinct(KeysOf(ordered))
    && forall e :: e in ordered ==> e.Id() in scripts && scripts[e.Id()] == e.item
  }

  // The body shared by the two loops: skip, or run the script in its own
  // transaction and then book it.
  method MigrateOne(db: Database, dir: Direction, e: Entry<Script>, ghost scripts: map<Key, Script>)
    returns (ok: bool, ghost done: nat, ghost broken: bool)
    requires e.Id() in scripts && scripts[e.Id()] == e.item
    modifies db`rows, db`log, db`failures
    ensures Outcome(dir, scripts, Todo(dir, [e.Id()], ToSet(old(db.rows))), done, broken, ok,
                    old(db.rows), old(db.log), db.rows, db.log)
    ensures db.failures == old(db.failures) + (if ok then 0 else 1)
  {
    hide Outcome, Todo, RowsAfter, Run;
    var key := e.Id();
    done, broken := 0, false;
    ghost var plan := Todo(dir, [key], ToSet(db.rows));
    TodoOfOne(dir, key, ToSet(db.rows));
    NoChange(dir, scripts, plan, db.rows, db.log);
    var applied := db.IsApplied(key);
    if applied.None? {
      return false, 0, false;
    }
    if applied.value == (dir == Up) {
      return true, 0, false;
    }
    var statements := if dir == Up then e.item.up else e.item.down;
    var committed := RunScript(db, statements, dir, key);
    if !committed {
      return false, 0, false;
    }
    OneStep(dir, scripts, key, old(db.rows), old(db.log), statements);
    if dir == Up {
      ok := db.MarkApplied(key);
    } else {
      ok := db.MarkReverted(key);
    }
    done, broken := if ok then 1 else 0, !ok;
  }

  // One script in a transaction of its own.
  method RunScript(db: Database, statements: seq<string>, ghost dir: Direction, ghost key: Key)
    returns (committed: bool)
    modifies db`log, db`failures
    ensures db.log == if committed then old(db.log) + [Event(dir, key, statements, false)] else old(db.log)
    ensures db.failures == old(db.failures) + (if committed then 0 else 1)
  {
    var tx := db.Begin();
    if tx.None? {
      return false;
    }
    var ran := RunStatements(tx.value, statements);
    if !ran {
      return false;
    }
    committed := db.Commit(tx.value, dir, key);
  }

  method RunStatements(tx: Tx, statements: seq<string>) returns (ok: bool)
    requires tx.statements == []
    modifies tx, tx.db`failures
    ensures ok ==> tx.statements == statements
    ensures tx.db.failures == old(tx.db.failures) + (if ok then 0 else 1)
  {
    for i := 0 to |statements|
      invariant tx.statements == statements[..i] && tx.db.failures == old(tx.db.failures)
    {
      var executed := tx.Exec(statements[i]);
      if !executed {
        return false;
      }
    }
    return true;
  }

  // RunMigrationsUpTo. The ghost results say how far the call got.
  method UpTo(db: Database, ordered: seq<Entry<Script>>, target: string, ghost scripts: map<Key, Script>)
    returns (err: Option<AppError>, ghost done: nat, ghost broken: bool)
    requires Backed(ordered, scripts) && db.Sound()
    modifies db`rows, db`log, db`failures
    ensures db.Sound()
    ensures UpToList(KeysOf(ordered), target).None? ==>
              err.Some? && db.rows == old(db.rows) && db.log == old(db.log)
              && (err == Some(NotFound) || err == Some(DatabaseFailed))
    ensures UpToList(KeysOf(ordered), target).Some? ==>
              Outcome(Up, scripts, Todo(Up, UpToList(KeysOf(ordered), target).value, ToSet(old(db.rows))),
                      done, broken, err.None?, old(db.rows), old(db.log), db.rows, db.log)
              && (err.None? || err == Some(DatabaseFailed))
    ensures db.failures == old(db.failures) + (if err == Some(DatabaseFailed) then 1 else 0)
  {
    hide Todo, Run, RowsAfter, Legal, Replay, Distinct, ToSet, KeysOf;
    var ensured := db.EnsureTable();
    var targetIdx := IndexOfMigration(ordered, target);
    if targetIdx.None? {
      return Some(if ensured then NotFound else DatabaseFailed), 0, false;
    }
    ghost var keys := KeysOf(ordered)[..targetIdx.value + 1];
    DistinctSplit(KeysOf(ordered), targetIdx.value + 1);
    if !ensured {
      NoChange(Up, scripts, Todo(Up, keys, ToSet(db.rows)), db.rows, db.log);
      return Some(DatabaseFailed), 0, false;
    }
    var ok;
    ok, done, broken := ApplyInOrder(db, ordered, targetIdx.value + 1, scripts);
    OutcomeIsSound(Up, scripts, keys, done, broken, ok, old(db.rows), old(db.log), db.rows, db.log);
    err := if ok then None else Some(DatabaseFailed);
  }

  // Applies the first count listed migrations in order, skipping applied ones.
  method ApplyInOrder(db: Database, ordered: seq<Entry<Script>>, count: nat, ghost scripts: map<Key, Script>)
    returns (ok: bool, ghost done: nat, ghost broken: bool)
    requires count <= |ordered| && Distinct(KeysOf(ordered))
    requires forall e :: e in ordered ==> e.Id() in scripts && scripts[e.Id()] == e.item
    modifies db`rows, db`log, db`failures
    ensures Outcome(Up, scripts, Todo(Up, KeysOf(ordered)[..count], ToSet(old(db.rows))), done, broken, ok,
                    old(db.rows), old(db.log), db.rows, db.log)
    ensures db.failures == old(db.failures) + (if ok then 0 else 1)
  {
    hide *;
    ghost var keys := KeysOf(ordered)[..count];
    DistinctSplit(KeysOf(ordered), count);
    NothingFinished(Up, scripts, db.rows, db.log);
    for i := 0 to count
      invariant Finished(Up, scripts, keys[..i], old(db.rows), old(db.log), db.rows, db.log)
      invariant db.failures == old(db.failures)
    {
      ghost var rows, log := db.rows, db.log;
      ok, done, broken := MigrateOne(db, Up, ordered[i], scripts);
      NextKey(Up, scripts, keys, i, done, broken, ok, old(db.rows), old(db.log), rows, log, db.rows, db.log);
      done := |Todo(Up, keys[..i], ToSet(old(db.rows)))| + done;
      if !ok {
        return;
      }
    }
    assert keys[..count] == keys;
    FinishedOutcome(Up, scripts, keys, old(db.rows), old(db.log), db.rows, db.log);
    return true, |Todo(Up, keys, ToSet(old(db.rows)))|, false;
  }

  // RunMigrationsDownTo.
  method DownTo(db: Database, ordered: seq<Entry<Script>>, target: string, ghost scripts: map<Key, Script>)
    returns (err: Option<AppError>, ghost done: nat, ghost broken: bool)
    requires Backed(ordered, scripts) && db.Sound()
    modifies db`rows, db`log, db`failures
    ensures db.Sound()
    ensures DownToList(KeysOf(ordered), target).None? ==>
              err.Some? && db.rows == old(db.rows) && db.log == old(db.log)
              && (err == Some(NotFound) || err == Some(DatabaseFailed))
    ensures DownToList(KeysOf(ordered), target).Some? ==>
              Outcome(Down, scripts, Todo(Down, DownToList(KeysOf(ordered), target).value, ToSet(old(db.rows))),
                      done, broken, err.None?, old(db.rows), old(db.log), db.rows, db.log)
              && (err.None? || err == Some(DatabaseFailed))
    ensures db.failures == old(db.failures) + (if err == Some(DatabaseFailed) then 1 else 0)
  {
    hide Todo, Run, RowsAfter, Legal, Replay, Distinct, ToSet, KeysOf;
    var ensured := db.EnsureTable();
    var startIdx := StartIndex(ordered, target);
    if startIdx.None? {
      return Some(if ensured then NotFound else DatabaseFailed), 0, false;
    }
    ghost var keys := Reversed(KeysOf(ordered)[startIdx.value..]);
    assert DownToList(KeysOf(ordered), target) == Some(keys) by {
      assert KeysOf(ordered)[0..] == KeysOf(ordered);
    }
    if !ensured {
      NoChange(Down, scripts, Todo(Down, keys, ToSet(db.rows)), db.rows, db.log);
      return Some(DatabaseFailed), 0, false;
    }
    NewestFirst(ordered, startIdx.value);
    var ok;
    ok, done, broken := RevertFromNewest(db, ordered, startIdx.value, scripts, keys);
    OutcomeIsSound(Down, scripts, keys, done, broken, ok, old(db.rows), old(db.log), db.rows, db.log);
    err := if ok then None else Some(DatabaseFailed);
  }

  // An empty target means revert everything.
  method StartIndex(ordered: seq<Entry<Script>>, target: string) returns (r: Option<nat>)
    ensures r.None? <==> target != "" && Position(KeysOf(ordered), target).None?
    ensures r.Some? ==>
              r.value == if target == "" then 0 else Position(KeysOf(ordered), target).value + 1
    ensures r.Some? ==> r.value <= |ordered|
  {
    if target == "" {
      return Some(0);
    }
    var targetIdx := IndexOfMigration(ordered, target);
    if targetIdx.None? {
      return None;
    }
    return Some(targetIdx.value + 1);
  }

  // Reverts the listed migrations from the last one down to startIdx, skipping
  // unapplied ones.
  method RevertFromNewest(db: Database, ordered: seq<Entry<Script>>, startIdx: nat, ghost scripts: map<Key, Script>,
                          ghost keys: seq<Key>)
    returns (ok: bool, ghost done: nat, ghost broken: bool)
    requires |keys| == |ordered| - startIdx && Distinct(keys)
    requires forall j :: startIdx <= j < |ordered| ==> ordered[j].Id() == keys[|ordered| - 1 - j]
    requires forall e :: e in ordered ==> e.Id() in scripts && scripts[e.Id()] == e.item
    modifies db`rows, db`log, db`failures
    ensures Outcome(Down, scripts, Todo(Down, keys, ToSet(old(db.rows))), done, broken, ok,
                    old(db.rows), old(db.log), db.rows, db.log)
    ensures db.failures == old(db.failures) + (if ok then 0 else 1)
  {
    hide *;
    NothingFinished(Down, scripts, db.rows, db.log);
    var i := |ordered| - 1;
    ghost var n := 0;
    while i >= startIdx
      invariant 0 <= n <= |keys| && n == |ordered| - 1 - i
      invariant Finished(Down, scripts, keys[..n], old(db.rows), old(db.log), db.rows, db.log)
      invariant db.failures == old(db.failures)
    {
      ghost var rows, log := db.rows, db.log;
      assert ordered[i].Id() == keys[n];
      ok, done, broken := MigrateOne(db, Down, ordered[i], scripts);
      NextKey(Down, scripts, keys, n, done, broken, ok, old(db.rows), old(db.log), rows, log, db.rows, db.log);
      done := |Todo(Down, keys[..n], ToSet(old(db.rows)))| + done;
      if !ok {
        return;
      }
      i, n := i - 1, n + 1;
    }
    assert keys[..n] == keys;
    FinishedOutcome(Down, scripts, keys, old(db.rows), old(db.log), db.rows, db.log);
    return true, |Todo(Down, keys, ToSet(old(db.rows)))|, false;
  }

  method IndexOfMigration(ordered: seq<Entry<Script>>, target: string) returns (r: Option<nat>)
    ensures r == Position(KeysOf(ordered), target)
  {
    for i := 0 to |ordered|
      invariant forall k :: 0 <= k < i ==> ordered[k].name != target
    {
      if ordered[i].name == target {
        PositionIs(KeysOf(ordered), target, i);
        return Some(i);
      }
    }
    return None;
  }

  // ---------- steps of the migration loops ----------

  lemma TodoOfOne(dir: Direction, key: Key, recorded: set<Key>)
    ensures Todo(dir, [key], recorded) == if key in recorded <==> dir == Down then [key] else []
  {
    var none: seq<Key> := [];
    assert [key][..|[key]| - 1] == none;
    assert Without(none, recorded) == none && Within(none, recorded) == none;
  }

  lemma NoChange(dir: Direction, scripts: map<Key, Script>, plan: seq<Key>, rows: seq<Key>, log: seq<Event>)
    ensures Outcome(dir, scripts, plan, 0, false, false, rows, log, rows, log)
    ensures plan == [] ==> Outcome(dir, scripts, plan, 0, false, true, rows, log, rows, log)
  {
    NothingFinished(dir, scripts, rows, log);
    var none: seq<Key> := [];
    assert plan[..0] == none && ToSet(none) == {};
    WithoutNone(rows, {});
  }

  // A commit followed by the outcome of its bookkeeping write.
  lemma OneStep(dir: Direction, scripts: map<Key, Script>, key: Key, rows: seq<Key>, log: seq<Event>,
                statements: seq<string>)
    requires key in scripts && statements == StatementsOf(scripts, dir, key)
    ensures var committed := log + [Event(dir, key, statements, false)];
            && Outcome(dir, scripts, [key], 0, true, false, rows, log, rows, committed)
            && Outcome(dir, scripts, [key], 1, false, true, rows, log, RowsAfter(dir, rows, [key]),
                       LastBooked(committed))
            && LastBooked(committed) == log + [Event(dir, key, statements, true)]
            && RowsAfter(dir, rows, [key]) == if dir == Up then rows + [key] else Without(rows, {key})
  {
    var committed := log + [Event(dir, key, statements, false)];
    assert committed[..|committed| - 1] == log;
    NoChange(dir, scripts, [key], rows, log);
    assert [key][..1] == [key] && [key][..0] == [];
    assert ToSet([key]) == {key};
  }

  // One more key of a longer list of keys.
  lemma NextKey(dir: Direction, scripts: map<Key, Script>, keys: seq<Key>, i: nat, done: nat, broken: bool, ok: bool,
                rows0: seq<Key>, log0: seq<Event>, rows: seq<Key>, log: seq<Event>, rows1: seq<Key>, log1: seq<Event>)
    requires Distinct(keys) && i < |keys|
    requires Finished(dir, scripts, keys[..i], rows0, log0, rows, log)
    requires Outcome(dir, scripts, Todo(dir, [keys[i]], ToSet(rows)), done, broken, ok, rows, log, rows1, log1)
    ensures ok ==> Finished(dir, scripts, keys[..i + 1], rows0, log0, rows1, log1)
    ensures Outcome(dir, scripts, Todo(dir, keys, ToSet(rows0)), |Todo(dir, keys[..i], ToSet(rows0))| + done, broken,
                    false,
                    rows0, log0, rows1, log1)
  {
    hide *;
    assert keys[..i + 1] == keys[..i] + [keys[i]];
    DistinctSplit(keys, i);
    assert keys[i] == keys[i..][0];
    NextKeys(dir, scripts, keys[..i], [keys[i]], keys, done, broken, ok, rows0, log0, rows, log, rows1, log1);
  }

  lemma NewestFirst(ordered: seq<Entry<Script>>, startIdx: nat)
    requires startIdx <= |ordered| && Distinct(KeysOf(ordered))
    ensures var keys := Reversed(KeysOf(ordered)[startIdx..]);
            && |keys| == |ordered| - startIdx && Distinct(keys)
            && forall j :: startIdx <= j < |ordered| ==> ordered[j].Id() == keys[|ordered| - 1 - j]
  {
    var later := KeysOf(ordered)[startIdx..];
    DistinctSplit(KeysOf(ordered), startIdx);
    forall j | startIdx <= j < |ordered|
      ensures ordered[j].Id() == Reversed(later)[|ordered| - 1 - j]
    {
      assert later[j - startIdx] == ordered[j].Id();
    }
    ReversedMembers(later);
  }

  lemma PositionIs(ks: seq<Key>, name: string, i: nat)
    requires i < |ks| && ks[i].name == name && forall k :: 0 <= k < i ==> ks[k].name != name
    ensures Position(ks, name) == Some(i)
  {
    assert Position(ks, name).Some?;
  }
}
