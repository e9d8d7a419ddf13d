// A full migration that failed and the one that is run after it.
module Retries {
  import opened Seqs
  import opened Namespaces
  import opened MigrationPlan
  import opened MigrationOutcome

  // How often the migration's Up committed.
  function Commits(log: seq<Event>, key: Key): nat {
    if log == [] then 0 else
    var last := log[|log| - 1];
    Commits(log[..|log| - 1], key) + (if last.key == key && last.dir == Up then 1 else 0)
  }

  lemma {:induction false} CommitsConcat(a: seq<Event>, b: seq<Event>, key: Key)
    ensures Commits(a + b, key) == Commits(a, key) + Commits(b, key)
  {
    if b == [] {
      assert a + b == a;
    } else {
      CommitsConcat(a, b[..|b| - 1], key);
      assert (a + b)[..|a + b| - 1] == a + b[..|b| - 1];
    }
  }

  lemma {:induction false} FailuresConcat(a: seq<Event>, b: seq<Event>)
    ensures Failures(a + b) == Failures(a) + Failures(b)
  {
    if b == [] {
      assert a + b == a;
    } else {
      FailuresConcat(a, b[..|b| - 1]);
      assert (a + b)[..|a + b| - 1] == a + b[..|b| - 1];
    }
  }

  // A run commits every key it gets to once.
  lemma {:induction false} CommitsAlong(log: seq<Event>, plan: seq<Key>, key: Key)
    requires Distinct(plan) && |log| <= |plan|
    requires forall i :: 0 <= i < |log| ==> log[i].key == plan[i] && log[i].dir == Up
    ensures Commits(log, key) == if key in plan[..|log|] then 1 else 0
  {
    if log != [] {
      var n := |log| - 1;
      CommitsAlong(log[..n], plan, key);
      DistinctSplit(plan, n);
      assert plan[..n + 1] == plan[..n] + [plan[n]] && plan[n] == plan[n..][0];
    }
  }

  lemma {:induction false} FailuresAlong(log: seq<Event>, done: nat)
    requires |log| <= done + 1 && forall i :: 0 <= i < |log| ==> (log[i].booked <==> i < done)
    ensures Failures(log) == if |log| > done then 1 else 0
  {
    if log != [] {
      FailuresAlong(log[..|log| - 1], done);
    }
  }

  // What is left to do after done migrations of a plan were booked.
  lemma RestOfPlan(reg: Registry, order: seq<string>, rows: seq<Key>, done: nat)
    requires UniqueKeys(reg) && Distinct(order)
    requires done <= |Plan(Up, reg, order, ToSet(rows))|
    ensures var plan := Plan(Up, reg, order, ToSet(rows));
            Plan(Up, reg, order, ToSet(rows + plan[..done])) == plan[done..]
  {
    hide UniqueKeys, Visits, Without, Distinct, Visitor, FlatMap;
    var plan := Plan(Up, reg, order, ToSet(rows));
    var visits := Visits(Up, reg, order);
    PlanMeaning(Up, reg, order, ToSet(rows));
    assert ToSet(rows + plan[..done]) == ToSet(rows) + ToSet(plan[..done]);
    WithoutTwice(visits, ToSet(rows), ToSet(plan[..done]));
    AfterPrefix(plan, done);
  }

  lemma AfterPrefix(plan: seq<Key>, done: nat)
    requires Distinct(plan) && done <= |plan|
    ensures Without(plan, ToSet(plan[..done])) == plan[done..]
  {
    hide Without, Distinct;
    DistinctSplit(plan, done);
    assert plan == plan[..done] + plan[done..];
    WithoutConcat(plan[..done], plan[done..], ToSet(plan[..done]));
    WithoutNone(plan[done..], ToSet(plan[..done]));
    var gone := Without(plan[..done], ToSet(plan[..done]));
    if gone != [] { HasMember(gone); }
  }

  // The history a failed run of a plan and a run of the rest of it make.
  function BothRuns(scripts: map<Key, Script>, plan: seq<Key>, done: nat, broken: bool): seq<Event>
    requires done <= |plan| && (broken ==> done < |plan|)
  {
    Run(scripts, Up, plan, done, broken) + Run(scripts, Up, plan[done..], |plan| - done, false)
  }

  lemma MemberOfPart(plan: seq<Key>, i: nat, n: nat)
    requires Distinct(plan) && i < |plan| && n <= |plan|
    ensures plan[i] in plan[..n] <==> i < n
    ensures plan[i] in plan[n..] <==> i >= n
  {
    hide Distinct;
    DistinctSplit(plan, n);
    if i < n { assert plan[..n][i] == plan[i]; } else { assert plan[n..][i - n] == plan[i]; }
  }

  // Each migration of the plan commits once, but twice if its first commit was
  // not booked.
  lemma BothRunsCommit(scripts: map<Key, Script>, plan: seq<Key>, done: nat, broken: bool, i: nat)
    requires Distinct(plan) && done <= |plan| && (broken ==> done < |plan|) && i < |plan|
    ensures Commits(BothRuns(scripts, plan, done, broken), plan[i]) == if broken && i == done then 2 else 1
  {
    hide Commits, Distinct;
    var first, second := Run(scripts, Up, plan, done, broken), Run(scripts, Up, plan[done..], |plan| - done, false);
    DistinctSplit(plan, done);
    CommitsAlong(first, plan, plan[i]);
    CommitsAlong(second, plan[done..], plan[i]);
    CommitsConcat(first, second, plan[i]);
    assert plan[done..][..|plan| - done] == plan[done..];
    hide *;
    MemberOfPart(plan, i, |first|);
    MemberOfPart(plan, i, done);
  }

  lemma BothRunsFail(scripts: map<Key, Script>, plan: seq<Key>, done: nat, broken: bool)
    requires done <= |plan| && (broken ==> done < |plan|)
    ensures Failures(BothRuns(scripts, plan, done, broken)) == if broken then 1 else 0
  {
    hide Failures;
    var first, second := Run(scripts, Up, plan, done, broken), Run(scripts, Up, plan[done..], |plan| - done, false);
    FailuresAlong(first, done);
    FailuresAlong(second, |plan| - done);
    FailuresConcat(first, second);
  }

  // A failed MigrateAllUp and a successful one after it record the whole plan of
  // the first. They commit every migration of it exactly once if and only if no
  // bookkeeping write failed; after one did, that migration commits twice.
  lemma {:induction false} RetryCompletesThePlan(
    reg: Registry, order: seq<string>, done: nat, broken: bool, done2: nat, broken2: bool,
    rows0: seq<Key>, log0: seq<Event>, rows1: seq<Key>, log1: seq<Event>, rows2: seq<Key>, log2: seq<Event>)
    requires UniqueKeys(reg) && Distinct(order)
    requires Outcome(Up, AsMap(reg), Plan(Up, reg, order, ToSet(rows0)), done, broken, false, rows0, log0, rows1, log1)
    requires Outcome(Up, AsMap(reg), Plan(Up, reg, order, ToSet(rows1)), done2, broken2, true, rows1, log1, rows2, log2)
    ensures var plan := Plan(Up, reg, order, ToSet(rows0));
            && rows2 == rows0 + plan
            && log2 == log0 + BothRuns(AsMap(reg), plan, done, broken)
            && CommittedByBoth(log2[|log0|..], plan)
  {
    var plan, scripts := Plan(Up, reg, order, ToSet(rows0)), AsMap(reg);
    hide Plan, UniqueKeys, AsMap, Distinct, Run, BothRuns, CommittedByBoth;
    RestOfPlan(reg, order, rows0, done);
    assert plan[done..][..|plan| - done] == plan[done..];
    assert plan == plan[..done] + plan[done..];
    ConcatAssociative(rows0, plan[..done], plan[done..]);
    BothRunsAre(scripts, plan, done, broken);
    ConcatAssociative(log0, Run(scripts, Up, plan, done, broken), Run(scripts, Up, plan[done..], |plan| - done, false));
    PlanMeaning(Up, reg, order, ToSet(rows0));
    BothCommit(scripts, plan, done, broken);
    assert (log0 + BothRuns(scripts, plan, done, broken))[|log0|..] == BothRuns(scripts, plan, done, broken);
  }

  lemma BothRunsAre(scripts: map<Key, Script>, plan: seq<Key>, done: nat, broken: bool)
    requires done <= |plan| && (broken ==> done < |plan|)
    ensures BothRuns(scripts, plan, done, broken)
            == Run(scripts, Up, plan, done, broken) + Run(scripts, Up, plan[done..], |plan| - done, false)
  {
  }

  ghost predicate CommittedByBoth(log: seq<Event>, plan: seq<Key>) {
    && Failures(log) <= 1
    && (Failures(log) == 0 <==> forall k :: k in plan ==> Commits(log, k) == 1)
    && (Failures(log) == 1 ==> exists k :: k in plan && Commits(log, k) == 2
                                           && forall j :: j in plan && j != k ==> Commits(log, j) == 1)
  }

  lemma BothCommit(scripts: map<Key, Script>, plan: seq<Key>, done: nat, broken: bool)
    requires Distinct(plan) && done <= |plan| && (broken ==> done < |plan|)
    ensures CommittedByBoth(BothRuns(scripts, plan, done, broken), plan)
  {
    hide Commits, Failures, Distinct, BothRuns;
    BothRunsFail(scripts, plan, done, broken);
    forall i | 0 <= i < |plan|
      ensures Commits(BothRuns(scripts, plan, done, broken), plan[i]) == if broken && i == done then 2 else 1
    {
      BothRunsCommit(scripts, plan, done, broken, i);
    }
    if broken {
      assert plan[done] in plan;
      forall j | j in plan && j != plan[done]
        ensures Commits(BothRuns(scripts, plan, done, broken), j) == 1
      {
        var i :| 0 <= i < |plan| && plan[i] == j;
      }
    }
  }

  predicate IsCommit(e: Event, key: Key) {
    e.key == key && e.dir == Up
  }

  lemma {:induction false} CommitsMeaning(log: seq<Event>, key: Key)
    ensures Commits(log, key) == |set i | 0 <= i < |log| && IsCommit(log[i], key)|
  {
    if log != [] {
      var front, n := log[..|log| - 1], |log| - 1;
      CommitsMeaning(front, key);
      var before := set i | 0 <= i < |front| && IsCommit(front[i], key);
      assert (set i | 0 <= i < |log| && IsCommit(log[i], key))
             == if IsCommit(log[n], key) then before + {n} else before;
    }
  }
}
