// How far one call of the migration engine got, and how such outcomes compose.
module MigrationOutcome {
  import opened Seqs
  import opened Namespaces
  import opened MigrationPlan
  import opened MigrationRecord

  // The bookkeeping table in application order after keys were completed.
  function RowsAfter(dir: Direction, rows: seq<Key>, keys: seq<Key>): seq<Key> {
    if dir == Up then rows + keys else Without(rows, ToSet(keys))
  }

  // A call that planned plan completed done of it; a failed bookkeeping write
  // leaves one further commit unrecorded, and only a clean finish reports ok.
  ghost predicate Outcome(dir: Direction, scripts: map<Key, Script>, plan: seq<Key>, done: nat, broken: bool,
                          ok: bool, rows0: seq<Key>, log0: seq<Event>, rows1: seq<Key>, log1: seq<Event>)
  {
    && done <= |plan| && (broken ==> done < |plan|)
    && (ok ==> done == |plan| && !broken)
    && log1 == log0 + Run(scripts, dir, plan, done, broken)
    && rows1 == RowsAfter(dir, rows0, plan[..done])
  }

  // Everything in keys that had work to do is done.
  ghost predicate Finished(dir: Direction, scripts: map<Key, Script>, keys: seq<Key>, rows0: seq<Key>,
                           log0: seq<Event>, rows1: seq<Key>, log1: seq<Event>)
  {
    var plan := Todo(dir, keys, ToSet(rows0));
    Outcome(dir, scripts, plan, |plan|, false, true, rows0, log0, rows1, log1)
  }

  lemma FinishedOutcome(dir: Direction, scripts: map<Key, Script>, keys: seq<Key>, rows0: seq<Key>, log0: seq<Event>,
                        rows1: seq<Key>, log1: seq<Event>)
    requires Finished(dir, scripts, keys, rows0, log0, rows1, log1)
    ensures var plan := Todo(dir, keys, ToSet(rows0));
            Outcome(dir, scripts, plan, |plan|, false, true, rows0, log0, rows1, log1)
  {
    hide Outcome;
  }

  lemma NothingFinished(dir: Direction, scripts: map<Key, Script>, rows: seq<Key>, log: seq<Event>)
    ensures Finished(dir, scripts, [], rows, log, rows, log)
  {
    WithoutNone(rows, {});
    var none: seq<Key> := [];
    assert none[..0] == none && ToSet(none) == {};
  }

  lemma {:induction false} WithoutTwice<T>(s: seq<T>, a: set<T>, b: set<T>)
    ensures Without(Without(s, a), b) == Without(s, a + b)
  {
    if s != [] {
      var front, last := s[..|s| - 1], s[|s| - 1];
      WithoutTwice(front, a, b);
      WithoutConcat(Without(front, a), if last in a then [] else [last], b);
      if last !in a { assert [last][..0] == []; }
    }
  }

  lemma RowsAfterMembers(dir: Direction, rows: seq<Key>, keys: seq<Key>)
    ensures ToSet(RowsAfter(dir, rows, keys)) == After(dir, ToSet(rows), keys)
  {
  }

  lemma RowsAfterTwice(dir: Direction, rows: seq<Key>, a: seq<Key>, b: seq<Key>)
    ensures RowsAfter(dir, RowsAfter(dir, rows, a), b) == RowsAfter(dir, rows, a + b)
  {
    if dir == Up {
      ConcatAssociative(rows, a, b);
    } else {
      WithoutTwice(rows, ToSet(a), ToSet(b));
      assert ToSet(a + b) == ToSet(a) + ToSet(b);
    }
  }

  // What earlier keys did does not change what later, different keys have to do.
  lemma TodoUnaffected(dir: Direction, keysA: seq<Key>, keysB: seq<Key>, rows0: seq<Key>, rows: seq<Key>)
    requires forall k :: k in keysA ==> k !in keysB
    requires rows == RowsAfter(dir, rows0, Todo(dir, keysA, ToSet(rows0)))
    ensures Todo(dir, keysB, ToSet(rows)) == Todo(dir, keysB, ToSet(rows0))
  {
    hide RowsAfter;
    RowsAfterMembers(dir, rows0, Todo(dir, keysA, ToSet(rows0)));
    if dir == Up {
      WithoutAgrees(keysB, ToSet(rows), ToSet(rows0));
    } else {
      WithinAgrees(keysB, ToSet(rows), ToSet(rows0));
    }
  }

  lemma Compose(dir: Direction, scripts: map<Key, Script>, keysA: seq<Key>, keysB: seq<Key>, done: nat, broken: bool,
                ok: bool, rows0: seq<Key>, log0: seq<Event>, rows: seq<Key>, log: seq<Event>, rows1: seq<Key>,
                log1: seq<Event>)
    requires Finished(dir, scripts, keysA, rows0, log0, rows, log)
    requires Outcome(dir, scripts, Todo(dir, keysB, ToSet(rows)), done, broken, ok, rows, log, rows1, log1)
    requires forall k :: k in keysA ==> k !in keysB
    ensures Outcome(dir, scripts, Todo(dir, keysA + keysB, ToSet(rows0)),
                    |Todo(dir, keysA, ToSet(rows0))| + done, broken, ok, rows0, log0, rows1, log1)
    ensures ok ==> Finished(dir, scripts, keysA + keysB, rows0, log0, rows1, log1)
  {
    hide Todo, Run, RowsAfter, ToSet;
    var a := Todo(dir, keysA, ToSet(rows0));
    var b := Todo(dir, keysB, ToSet(rows0));
    assert a[..|a|] == a;
    TodoUnaffected(dir, keysA, keysB, rows0, rows);
    TodoConcat(dir, keysA, keysB, ToSet(rows0));
    RunAfterRun(scripts, dir, a, b, done, broken);
    ConcatAssociative(log0, Run(scripts, dir, a, |a|, false), Run(scripts, dir, b, done, broken));
    assert (a + b)[..|a| + done] == a + b[..done];
    RowsAfterTwice(dir, rows0, a, b[..done]);
  }

  // A call cut short is also a cut-short run of any longer plan.
  lemma CutShort(dir: Direction, scripts: map<Key, Script>, first: seq<Key>, plan: seq<Key>, done: nat, broken: bool,
                 ok: bool, rows0: seq<Key>, log0: seq<Event>, rows1: seq<Key>, log1: seq<Event>)
    requires Outcome(dir, scripts, first, done, broken, ok, rows0, log0, rows1, log1)
    requires first <= plan
    ensures Outcome(dir, scripts, plan, done, broken, false, rows0, log0, rows1, log1)
  {
    assert plan[..done] == first[..done];
    assert Run(scripts, dir, plan, done, broken) == Run(scripts, dir, first, done, broken);
  }

  lemma TodoOfPrefix(dir: Direction, keys: seq<Key>, n: nat, recorded: set<Key>)
    requires n <= |keys|
    ensures Todo(dir, keys[..n], recorded) <= Todo(dir, keys, recorded)
  {
    assert keys == keys[..n] + keys[n..];
    TodoConcat(dir, keys[..n], keys[n..], recorded);
  }

  // The next keys of a longer list of keys.
  lemma NextKeys(dir: Direction, scripts: map<Key, Script>, before: seq<Key>, next: seq<Key>, all: seq<Key>,
                 done: nat, broken: bool, ok: bool, rows0: seq<Key>, log0: seq<Event>, rows: seq<Key>,
                 log: seq<Event>, rows1: seq<Key>, log1: seq<Event>)
    requires before + next <= all && forall k :: k in before ==> k !in next
    requires Finished(dir, scripts, before, rows0, log0, rows, log)
    requires Outcome(dir, scripts, Todo(dir, next, ToSet(rows)), done, broken, ok, rows, log, rows1, log1)
    ensures ok ==> Finished(dir, scripts, before + next, rows0, log0, rows1, log1)
    ensures Outcome(dir, scripts, Todo(dir, all, ToSet(rows0)), |Todo(dir, before, ToSet(rows0))| + done, broken, false,
                    rows0, log0, rows1, log1)
  {
    hide *;
    var d := |Todo(dir, before, ToSet(rows0))| + done;
    var joined := Todo(dir, before + next, ToSet(rows0));
    Compose(dir, scripts, before, next, done, broken, ok, rows0, log0, rows, log, rows1, log1);
    assert all[..|before + next|] == before + next;
    TodoOfPrefix(dir, all, |before + next|, ToSet(rows0));
    CutShort(dir, scripts, joined, Todo(dir, all, ToSet(rows0)), d, broken, ok, rows0, log0, rows1, log1);
  }

  // Outcomes keep the bookkeeping table consistent with the history.
  lemma OutcomeIsSound(dir: Direction, scripts: map<Key, Script>, keys: seq<Key>, done: nat, broken: bool, ok: bool,
                       rows0: seq<Key>, log0: seq<Event>, rows1: seq<Key>, log1: seq<Event>)
    requires Distinct(rows0) && Legal({}, log0) && ToSet(rows0) == Replay({}, log0)
    requires Outcome(dir, scripts, Todo(dir, keys, ToSet(rows0)), done, broken, ok, rows0, log0, rows1, log1)
    requires Distinct(keys)
    ensures Distinct(rows1) && Legal({}, log1) && ToSet(rows1) == Replay({}, log1)
  {
    hide Run, Legal, Replay, Todo, RowsAfter, Distinct;
    var plan := Todo(dir, keys, ToSet(rows0));
    TodoIsReady(dir, keys, ToSet(rows0));
    RowsStayDistinct(dir, rows0, plan, done);
    RowsAfterMembers(dir, rows0, plan[..done]);
    RunExtendsLegally(scripts, dir, plan, done, broken, ToSet(rows0), log0);
  }

  lemma TodoIsReady(dir: Direction, keys: seq<Key>, recorded: set<Key>)
    requires Distinct(keys)
    ensures Distinct(Todo(dir, keys, recorded))
    ensures forall k :: k in Todo(dir, keys, recorded) ==> (k in recorded <==> dir == Down)
  {
    WithoutDistinct(keys, recorded);
    WithinDistinct(keys, recorded);
  }

  lemma RowsStayDistinct(dir: Direction, rows: seq<Key>, plan: seq<Key>, done: nat)
    requires Distinct(rows) && Distinct(plan) && done <= |plan|
    requires forall k :: k in plan ==> (k in ToSet(rows) <==> dir == Down)
    ensures Distinct(RowsAfter(dir, rows, plan[..done]))
  {
    if dir == Up {
      DistinctSplit(plan, done);
      assert forall k :: k in plan[..done] ==> k in plan;
      ConcatDistinct(rows, plan[..done]);
    } else {
      WithoutDistinct(rows, ToSet(plan[..done]));
    }
  }

  lemma RunExtendsLegally(scripts: map<Key, Script>, dir: Direction, plan: seq<Key>, done: nat, broken: bool,
                          recorded: set<Key>, log: seq<Event>)
    requires Legal({}, log) && recorded == Replay({}, log)
    requires Distinct(plan) && forall k :: k in plan ==> (k in recorded <==> dir == Down)
    requires done <= |plan| && (broken ==> done < |plan|)
    ensures Legal({}, log + Run(scripts, dir, plan, done, broken))
    ensures Replay({}, log + Run(scripts, dir, plan, done, broken)) == After(dir, recorded, plan[..done])
  {
    hide *;
    RunIsLegal(scripts, dir, plan, done, broken, recorded);
    LegalConcat({}, log, Run(scripts, dir, plan, done, broken));
    ReplayConcat({}, log, Run(scripts, dir, plan, done, broken));
    ReplayRun(scripts, dir, plan, done, broken, recorded);
  }
}
