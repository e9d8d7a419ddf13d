// The database as the migration engine and the seeder see it. Every operation
// may fail; the schema is represented by the history of committed scripts.
module Databases {
  import opened Seqs
  import opened Namespaces
  import opened MigrationPlan
  import opened MigrationRecord
  import opened SeederRecord

  // A transaction collects statements until it is committed or dropped.
  class Tx {
    const db: Database
    var statements: seq<string>

    constructor (db: Database)
      ensures this.db == db && statements == []
    {
      this.db, statements := db, [];
    }

    method Exec(statement: string) returns (ok: bool)
      modifies this, db`failures
      ensures statements == if ok then old(statements) + [statement] else old(statements)
      ensures db.failures == old(db.failures) + (if ok then 0 else 1)
    {
      ok := db.Attempt();
      if ok {
        statements := statements + [statement];
      }
    }
  }

  class Database {
    var rows: seq<Key>            // hypercube_migrations, by applied_at ascending
    ghost var log: seq<Event>     // scripts committed so far
    var seeds: set<Key>           // hypercube_seeders
    ghost var runs: seq<SeedRun>  // seeder runs that succeeded so far
    ghost var failures: nat       // operations that failed so far

    constructor ()
      ensures Sound() && rows == [] && log == [] && seeds == {} && runs == []
    {
      rows, log, seeds, runs, failures := [], [], {}, [], 0;
    }

    // Whether the next operation succeeds is not for the caller to know.
    method Attempt() returns (ok: bool)
      modifies this`failures
      ensures failures == old(failures) + (if ok then 0 else 1)
    {
      ok := *;
      failures := failures + (if ok then 0 else 1);
    }

    ghost predicate Sound()
      reads this`rows, this`log, this`seeds, this`runs
    {
      && Distinct(rows) && Legal({}, log) && ToSet(rows) == Replay({}, log)
      && SeedsExplained(seeds, runs)
    }

    // CREATE TABLE IF NOT EXISTS.
    method EnsureTable() returns (ok: bool)
      modifies this`failures
      ensures failures == old(failures) + (if ok then 0 else 1)
    {
      ok := Attempt();
    }

    method IsApplied(key: Key) returns (r: Option<bool>)
      modifies this`failures
      ensures failures == old(failures) + (if r.Some? then 0 else 1)
      ensures r.Some? ==> r.value == (key in rows)
    {
      var ok := Attempt();
      r := if ok then Some(key in rows) else None;
    }

    method Begin() returns (r: Option<Tx>)
      modifies this`failures
      ensures failures == old(failures) + (if r.Some? then 0 else 1)
      ensures r.Some? ==> fresh(r.value) && r.value.db == this && r.value.statements == []
    {
      var ok := Attempt();
      if !ok {
        return None;
      }
      var tx := new Tx(this);
      return Some(tx);
    }

    // A failed commit leaves nothing behind. The direction and key only label
    // the history.
    method Commit(tx: Tx, ghost dir: Direction, ghost key: Key) returns (ok: bool)
      modifies this`log, this`failures
      ensures failures == old(failures) + (if ok then 0 else 1)
      ensures log == if ok then old(log) + [Event(dir, key, tx.statements, false)] else old(log)
    {
      ok := Attempt();
      if ok {
        log := log + [Event(dir, key, tx.statements, false)];
      }
    }

    // INSERT; the primary key admits no second row.
    method MarkApplied(key: Key) returns (ok: bool)
      requires key !in rows
      requires log != [] && log[|log| - 1].key == key && log[|log| - 1].dir == Up
      modifies this`rows, this`log, this`failures
      ensures failures == old(failures) + (if ok then 0 else 1)
      ensures rows == if ok then old(rows) + [key] else old(rows)
      ensures log == if ok then LastBooked(old(log)) else old(log)
    {
      ok := Attempt();
      if ok {
        rows := rows + [key];
        log := LastBooked(log);
      }
    }

    // DELETE.
    method MarkReverted(key: Key) returns (ok: bool)
      requires log != [] && log[|log| - 1].key == key && log[|log| - 1].dir == Down
      modifies this`rows, this`log, this`failures
      ensures failures == old(failures) + (if ok then 0 else 1)
      ensures rows == if ok then Without(old(rows), {key}) else old(rows)
      ensures log == if ok then LastBooked(old(log)) else old(log)
    {
      ok := Attempt();
      if ok {
        rows := Without(rows, {key});
        log := LastBooked(log);
      }
    }

    // SELECT ... ORDER BY applied_at DESC.
    method AppliedMigrations(namespace: string) returns (r: Option<seq<Key>>)
      modifies this`failures
      ensures failures == old(failures) + (if r.Some? then 0 else 1)
      ensures r.Some? ==> r.value == AppliedEntries(rows, namespace)
    {
      var ok := Attempt();
      r := if ok then Some(AppliedEntries(rows, namespace)) else None;
    }

    method HasRun(key: Key) returns (r: Option<bool>)
      modifies this`failures
      ensures failures == old(failures) + (if r.Some? then 0 else 1)
      ensures r.Some? ==> r.value == (key in seeds)
    {
      var ok := Attempt();
      r := if ok then Some(key in seeds) else None;
    }

    // The seeder's own code: it either fails or is recorded as having run.
    method RunSeeder(key: Key, force: bool) returns (ok: bool)
      modifies this`runs, this`failures
      ensures failures == old(failures) + (if ok then 0 else 1)
      ensures runs == if ok then old(runs) + [SeedRun(key, force, false)] else old(runs)
    {
      ok := Attempt();
      if ok {
        runs := runs + [SeedRun(key, force, false)];
      }
    }

    method ClearRun(key: Key) returns (ok: bool)
      modifies this`seeds, this`failures
      ensures failures == old(failures) + (if ok then 0 else 1)
      ensures seeds == if ok then old(seeds) - {key} else old(seeds)
    {
      ok := Attempt();
      if ok {
        seeds := seeds - {key};
      }
    }

    // INSERT; the primary key admits no second row.
    method MarkRun(key: Key) returns (ok: bool)
      requires key !in seeds
      requires runs != [] && runs[|runs| - 1].key == key
      modifies this`seeds, this`runs, this`failures
      ensures failures == old(failures) + (if ok then 0 else 1)
      ensures seeds == if ok then old(seeds) + {key} else old(seeds)
      ensures runs == if ok then LastRunBooked(old(runs)) else old(runs)
    {
      ok := Attempt();
      if ok {
        seeds := seeds + {key};
        runs := LastRunBooked(runs);
      }
    }
  }

  function LastBooked(log: seq<Event>): seq<Event>
    requires log != []
  {
    log[..|log| - 1] + [log[|log| - 1].(booked := true)]
  }
}
