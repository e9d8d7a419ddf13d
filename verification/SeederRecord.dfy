// app/seeder.go: what the seeder bookkeeping table says about the runs that
// really happened.
module SeederRecord {
  import opened Seqs
  import opened Namespaces

  // A seeder run that succeeded; booked means its run record was written.
  datatype SeedRun = SeedRun(key: Key, forced: bool, booked: bool)

  ghost predicate AllBooked(runs: seq<SeedRun>) {
    forall i :: 0 <= i < |runs| ==> runs[i].booked
  }

  function RanKeys(runs: seq<SeedRun>): set<Key> {
    set r | r in runs :: r.key
  }

  function LastRunBooked(runs: seq<SeedRun>): seq<SeedRun>
    requires runs != []
  {
    runs[..|runs| - 1] + [runs[|runs| - 1].(booked := true)]
  }

  // The invariant of every sequential history. While bookkeeping works, the
  // table holds exactly the seeders that have run, and an unforced run never
  // repeats an earlier one.
  ghost predicate SeedsExplained(seeds: set<Key>, runs: seq<SeedRun>) {
    && (AllBooked(runs) ==> seeds == RanKeys(runs))
    && forall i, j :: 0 <= i < j < |runs| && !runs[j].forced && AllBooked(runs[..j]) ==> runs[i].key != runs[j].key
  }

  // With working bookkeeping and no forcing, each seeder runs at most once.
  lemma UnforcedRunsAtMostOnce(seeds: set<Key>, runs: seq<SeedRun>)
    requires SeedsExplained(seeds, runs) && AllBooked(runs)
    requires forall i :: 0 <= i < |runs| ==> !runs[i].forced
    ensures forall i, j :: 0 <= i < j < |runs| ==> runs[i].key != runs[j].key
    ensures forall k :: k in seeds <==> exists i :: 0 <= i < |runs| && runs[i].key == k
  {
    forall i, j | 0 <= i < j < |runs|
      ensures runs[i].key != runs[j].key
    {
      assert AllBooked(runs[..j]);
    }
    assert forall i :: 0 <= i < |runs| ==> runs[i] in runs;
  }

  // One more successful run of a seeder, with both bookkeeping outcomes.
  lemma RunExplained(seeds: set<Key>, runs: seq<SeedRun>, key: Key, forced: bool, seeds': set<Key>, booked: bool)
    requires SeedsExplained(seeds, runs)
    requires !forced ==> key !in seeds
    requires booked ==> seeds' == seeds + {key}
    ensures SeedsExplained(seeds', runs + [SeedRun(key, forced, booked)])
  {
    var after := runs + [SeedRun(key, forced, booked)];
    assert after[..|runs|] == runs;
    if AllBooked(after) {
      assert forall i :: 0 <= i < |runs| ==> runs[i] == after[i];
      assert AllBooked(runs);
      assert RanKeys(after) == RanKeys(runs) + {key} by {
        assert SeedRun(key, forced, booked) in after;
      }
    }
    forall i, j | 0 <= i < j < |after| && !after[j].forced && AllBooked(after[..j])
      ensures after[i].key != after[j].key
    {
      if j < |runs| {
        assert after[..j] == runs[..j];
      } else {
        assert runs[i] in runs;
      }
    }
  }

  // The trace of a seeding run over a plan, cut short after done seeders.
  function SeedTrace(plan: seq<Key>, done: nat, broken: bool, forced: bool): (r: seq<SeedRun>)
    requires done <= |plan| && (broken ==> done < |plan|)
    ensures |r| == done + if broken then 1 else 0
    ensures forall i :: 0 <= i < |r| ==> r[i] == SeedRun(plan[i], forced, i < done)
  {
    seq(done + if broken then 1 else 0, i requires 0 <= i < done + if broken then 1 else 0 =>
      SeedRun(plan[i], forced, i < done))
  }

  // ---------- outcomes of seeding runs ----------

  // The seeders a call will run: all of them, or those not recorded.
  function SeedPlan(force: bool, keys: seq<Key>, seeds: set<Key>): seq<Key> {
    Without(keys, if force then {} else seeds)
  }

  // A call that planned plan completed done of it. A run whose bookkeeping
  // failed is not recorded; under force its old record may be gone as well.
  ghost predicate SeedOutcome(force: bool, plan: seq<Key>, done: nat, broken: bool, ok: bool, seeds0: set<Key>,
                              runs0: seq<SeedRun>, seeds1: set<Key>, runs1: seq<SeedRun>)
  {
    && done <= |plan| && (broken ==> done < |plan|)
    && (ok ==> done == |plan| && !broken)
    && runs1 == runs0 + SeedTrace(plan, done, broken, force)
    && var booked := seeds0 + ToSet(plan[..done]);
       seeds1 == booked || (broken && force && seeds1 == booked - {plan[done]})
  }

  ghost predicate SeedFinished(force: bool, keys: seq<Key>, seeds0: set<Key>, runs0: seq<SeedRun>, seeds1: set<Key>,
                               runs1: seq<SeedRun>)
  {
    var plan := SeedPlan(force, keys, seeds0);
    SeedOutcome(force, plan, |plan|, false, true, seeds0, runs0, seeds1, runs1)
  }

  lemma SeedNoChange(force: bool, plan: seq<Key>, seeds: set<Key>, runs: seq<SeedRun>)
    ensures SeedOutcome(force, plan, 0, false, false, seeds, runs, seeds, runs)
    ensures plan == [] ==> SeedOutcome(force, plan, 0, false, true, seeds, runs, seeds, runs)
  {
    assert ToSet(plan[..0]) == {};
  }

  lemma NothingSeeded(force: bool, seeds: set<Key>, runs: seq<SeedRun>)
    ensures SeedFinished(force, [], seeds, runs, seeds, runs)
  {
    SeedNoChange(force, [], seeds, runs);
  }

  lemma SeedPlanOfRest(force: bool, before: seq<Key>, next: seq<Key>, seeds0: set<Key>, seeds: set<Key>)
    requires forall k :: k in before ==> k !in next
    requires seeds == seeds0 + ToSet(SeedPlan(force, before, seeds0))
    ensures SeedPlan(force, next, seeds) == SeedPlan(force, next, seeds0)
  {
    if !force {
      WithoutAgrees(next, seeds, seeds0);
    }
  }

  lemma SeedTraceConcat(a: seq<Key>, b: seq<Key>, done: nat, broken: bool, forced: bool)
    requires done <= |b| && (broken ==> done < |b|)
    ensures SeedTrace(a, |a|, false, forced) + SeedTrace(b, done, broken, forced)
            == SeedTrace(a + b, |a| + done, broken, forced)
  {
  }

  // The next seeders of a longer list of seeders.
  lemma SeedNext(force: bool, before: seq<Key>, next: seq<Key>, all: seq<Key>, done: nat, broken: bool, ok: bool,
                 seeds0: set<Key>, runs0: seq<SeedRun>, seeds: set<Key>, runs: seq<SeedRun>, seeds1: set<Key>,
                 runs1: seq<SeedRun>)
    requires before + next <= all && forall k :: k in before ==> k !in next
    requires SeedFinished(force, before, seeds0, runs0, seeds, runs)
    requires SeedOutcome(force, SeedPlan(force, next, seeds), done, broken, ok, seeds, runs, seeds1, runs1)
    ensures ok ==> SeedFinished(force, before + next, seeds0, runs0, seeds1, runs1)
    ensures SeedOutcome(force, SeedPlan(force, all, seeds0), |SeedPlan(force, before, seeds0)| + done, broken, false,
                        seeds0, runs0, seeds1, runs1)
  {
    hide SeedPlan, SeedTrace;
    var a, b := SeedPlan(force, before, seeds0), SeedPlan(force, next, seeds0);
    assert a[..|a|] == a;
    SeedPlanOfRest(force, before, next, seeds0, seeds);
    SeedPlanConcat(force, before, next, all, seeds0);
    SeedTraceConcat(a, b, done, broken, force);
    ConcatAssociative(runs0, SeedTrace(a, |a|, false, force), SeedTrace(b, done, broken, force));
    assert (a + b)[..|a| + done] == a + b[..done];
    assert ToSet(a + b[..done]) == ToSet(a) + ToSet(b[..done]);
    SeedCutShort(force, a + b, SeedPlan(force, all, seeds0), |a| + done, broken, ok, seeds0, runs0, seeds1, runs1);
  }

  lemma SeedPlanConcat(force: bool, before: seq<Key>, next: seq<Key>, all: seq<Key>, seeds: set<Key>)
    requires before + next <= all
    ensures SeedPlan(force, before + next, seeds) == SeedPlan(force, before, seeds) + SeedPlan(force, next, seeds)
    ensures SeedPlan(force, before + next, seeds) <= SeedPlan(force, all, seeds)
  {
    var skip := if force then {} else seeds;
    WithoutConcat(before, next, skip);
    assert all == (before + next) + all[|before + next|..];
    WithoutConcat(before + next, all[|before + next|..], skip);
  }

  lemma SeedCutShort(force: bool, first: seq<Key>, plan: seq<Key>, done: nat, broken: bool, ok: bool,
                     seeds0: set<Key>, runs0: seq<SeedRun>, seeds1: set<Key>, runs1: seq<SeedRun>)
    requires SeedOutcome(force, first, done, broken, ok, seeds0, runs0, seeds1, runs1)
    requires first <= plan
    ensures SeedOutcome(force, plan, done, broken, false, seeds0, runs0, seeds1, runs1)
  {
    assert plan[..done] == first[..done];
    assert SeedTrace(plan, done, broken, force) == SeedTrace(first, done, broken, force);
  }

  // After an unforced run that finished, the same run has nothing left to do.
  lemma UnforcedSeedingIsIdempotent(keys: seq<Key>, seeds0: set<Key>, runs0: seq<SeedRun>, seeds1: set<Key>,
                                    runs1: seq<SeedRun>)
    requires SeedFinished(false, keys, seeds0, runs0, seeds1, runs1)
    ensures SeedPlan(false, keys, seeds1) == []
  {
    var plan := SeedPlan(false, keys, seeds0);
    assert plan[..|plan|] == plan;
    if SeedPlan(false, keys, seeds1) != [] {
      HasMember(SeedPlan(false, keys, seeds1));
    }
  }
}
