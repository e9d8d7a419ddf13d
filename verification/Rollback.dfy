// RollbackSteps over histories in which migrations were applied in any order.
module Rollbacks {
  import opened Seqs
  import opened Lex
  import opened Namespaces
  import opened MigrationPlan
  import opened MigrationRecord

  // plan is every recorded migration of ks with a name greater than target,
  // greatest name first.
  ghost predicate RevertsAbove(plan: seq<Key>, ks: seq<Key>, target: string, rows: seq<Key>) {
    && InNameOrder(Reversed(plan))
    && forall k :: k in plan <==> k in rows && k in ks && Above(k.name, target)
  }

  // The empty target stands for reverting everything.
  predicate Above(name: string, target: string) {
    target == "" || Less(target, name)
  }

  // Reverting down to a target, whatever is recorded.
  lemma DownToMeaning(reg: Registry, namespace: string, target: string, rows: seq<Key>)
    requires UniqueKeys(reg)
    ensures match DownToKeys(reg, namespace, target)
            case None => target != "" && Key(namespace, target) !in NamespaceKeys(reg, namespace)
            case Some(keys) =>
              && (target == "" || Key(namespace, target) in NamespaceKeys(reg, namespace))
              && RevertsAbove(Within(keys, ToSet(rows)), NamespaceKeys(reg, namespace), target, rows)
  {
    hide UniqueKeys, NamespaceKeys, Within, Less, Position, InNameOrder, RevertsAbove;
    KeysAreInNameOrder(reg, namespace);
    if target == "" {
      AllReverted(NamespaceKeys(reg, namespace), rows);
    } else {
      AfterTarget(NamespaceKeys(reg, namespace), namespace, target, rows);
    }
  }

  lemma KeysAreInNameOrder(reg: Registry, namespace: string)
    requires UniqueKeys(reg)
    ensures InNameOrder(NamespaceKeys(reg, namespace))
    ensures forall k :: k in NamespaceKeys(reg, namespace) ==> k.namespace == namespace
  {
    hide UniqueKeys, NamespaceKeys;
    NamespaceKeysMeaning(reg, namespace);
  }

  lemma AllReverted(ks: seq<Key>, rows: seq<Key>)
    requires InNameOrder(ks)
    ensures RevertsAbove(Within(Reversed(ks), ToSet(rows)), ks, "", rows)
  {
    hide InNameOrder;
    RevertedInOrder(ks, rows);
  }

  lemma AfterTarget(ks: seq<Key>, namespace: string, target: string, rows: seq<Key>)
    requires target != "" && InNameOrder(ks) && forall k :: k in ks ==> k.namespace == namespace
    ensures match Position(ks, target)
            case None => Key(namespace, target) !in ks
            case Some(i) =>
              && Key(namespace, target) in ks
              && RevertsAbove(Within(Reversed(ks[i + 1..]), ToSet(rows)), ks, target, rows)
  {
    hide Within, Less, Position;
    var at := Position(ks, target);
    if at.Some? {
      assert ks[at.value] in ks && ks[at.value] == Key(namespace, target);
      FollowsInOrder(ks, at.value);
      RevertedInOrder(ks[at.value + 1..], rows);
    } else if Key(namespace, target) in ks {
      PositionFinds(ks, Key(namespace, target));
    }
  }

  lemma RevertedInOrder(ks: seq<Key>, rows: seq<Key>)
    requires InNameOrder(ks)
    ensures InNameOrder(Reversed(Within(Reversed(ks), ToSet(rows))))
    ensures forall k :: k in Within(Reversed(ks), ToSet(rows)) <==> k in rows && k in ks
  {
    hide InNameOrder;
    WithinReversed(ks, ToSet(rows));
    WithinSorted(ks, ToSet(rows));
    ReversedMembers(ks);
    ReversedTwice(Within(ks, ToSet(rows)));
  }

  lemma ReversedTwice<T>(s: seq<T>)
    ensures Reversed(Reversed(s)) == s
  {
  }

  // As written, in any history: the entry at index steps, counted from the
  // oldest, decides. An unregistered one is an error; otherwise every recorded
  // registered migration with a greater name is reverted, greatest name first.
  lemma RollbackInAnyHistory(reg: Registry, namespace: string, rows: seq<Key>, steps: nat)
    requires UniqueKeys(reg)
    requires 0 < steps < |AppliedEntries(rows, namespace)|
    ensures var applied := if namespace == "" then rows else OfNamespace(rows, namespace);
            var ks := NamespaceKeys(reg, namespace);
            && |applied| == |AppliedEntries(rows, namespace)|
            && var pivot := applied[steps].name;
            match RollbackPlan(reg, namespace, rows, AppliedEntries(rows, namespace), steps)
            case None => pivot != "" && Key(namespace, pivot) !in ks
            case Some(plan) => (pivot == "" || Key(namespace, pivot) in ks) && RevertsAbove(plan, ks, pivot, rows)
  {
    hide UniqueKeys, NamespaceKeys, Within, Less, DownToKeys, RevertsAbove, OfNamespace;
    var entries := AppliedEntries(rows, namespace);
    DownToMeaning(reg, namespace, RollbackTarget(entries, steps), rows);
  }

  // As written, in any history: the steps newest are reverted, newest first, if
  // and only if the entry at index steps is registered, they were applied in the
  // order of their names, and they are exactly the registered ones with a
  // greater name than that entry. An empty name at that index acts as the empty
  // target does.
  lemma {:induction false} RollbackIsRightExactlyWhen(reg: Registry, namespace: string, rows: seq<Key>,
                                                      applied: seq<Key>, steps: nat)
    requires UniqueKeys(reg) && namespace != "" && applied == OfNamespace(rows, namespace) && Distinct(applied)
    requires 0 < steps < |applied|
    ensures RollbackPlan(reg, namespace, rows, AppliedEntries(rows, namespace), steps)
            == Some(Reversed(applied[|applied| - steps..]))
            <==> (applied[steps].name == "" || applied[steps] in AsMap(reg))
                 && InNameOrder(applied[|applied| - steps..])
                 && NewestAreAbove(AsMap(reg).Keys, applied, steps)
  {
    hide UniqueKeys, AsMap, NamespaceKeys, RollbackPlan, InNameOrder, Less, OfNamespace, Distinct, NewestAreAbove;
    var newest := applied[|applied| - steps..];
    var result := RollbackPlan(reg, namespace, rows, AppliedEntries(rows, namespace), steps);
    assert applied[steps] in applied && applied[steps] == Key(namespace, applied[steps].name);
    RollbackInAnyHistory(reg, namespace, rows, steps);
    NamespaceKeysMeaning(reg, namespace);
    if result.Some? {
      var plan := result.value;
      NewestByMembership(AsMap(reg).Keys, applied, steps);
      ReversedMembers(newest);
      ReversedMembers(plan);
      ReversedTwice(plan);
      ReversedTwice(newest);
      if InNameOrder(newest) && NewestAreAbove(AsMap(reg).Keys, applied, steps) {
        NameOrderUnique(Reversed(plan), newest);
      }
    }
  }

  ghost predicate NewestAreAbove(registered: set<Key>, applied: seq<Key>, steps: nat)
    requires steps < |applied|
  {
    forall i :: 0 <= i < |applied| ==>
      (i >= |applied| - steps <==> applied[i] in registered && Above(applied[i].name, applied[steps].name))
  }

  lemma NewestByMembership(registered: set<Key>, applied: seq<Key>, steps: nat)
    requires Distinct(applied) && 0 < steps < |applied|
    ensures NewestAreAbove(registered, applied, steps) <==>
            forall k :: k in applied[|applied| - steps..] <==>
              k in applied && k in registered && Above(k.name, applied[steps].name)
  {
    hide Above;
    var n := |applied| - steps;
    DistinctSplit(applied, n);
    forall i | 0 <= i < |applied|
      ensures i >= n <==> applied[i] in applied[n..]
    {
      if i < n { assert applied[..n][i] == applied[i]; } else { assert applied[n..][i - n] == applied[i]; }
    }
  }

  // So with no more than twice as many applied migrations as steps it is never
  // right, whatever was applied in whatever order.
  lemma RollbackOfHalfIsNeverRight(reg: Registry, namespace: string, rows: seq<Key>, applied: seq<Key>, steps: nat)
    requires UniqueKeys(reg) && namespace != "" && applied == OfNamespace(rows, namespace) && Distinct(applied)
    requires 0 < steps < |applied| <= 2 * steps && applied[steps].name != ""
    ensures RollbackPlan(reg, namespace, rows, AppliedEntries(rows, namespace), steps)
            != Some(Reversed(applied[|applied| - steps..]))
  {
    hide UniqueKeys, AsMap, AppliedEntries, RollbackPlan, InNameOrder, Less, OfNamespace, Distinct;
    RollbackIsRightExactlyWhen(reg, namespace, rows, applied, steps);
    LessIsStrictTotal(applied[steps].name, applied[steps].name);
  }

  // Two registered migrations applied in name order and one step: nothing is
  // reverted.
  lemma OneOfTwoIsNotReverted(reg: Registry, rows: seq<Key>)
    requires UniqueKeys(reg) && rows == [Key("shop", "1"), Key("shop", "2")]
    requires forall k :: k in rows ==> k in AsMap(reg)
    ensures RollbackPlan(reg, "shop", rows, AppliedEntries(rows, "shop"), 1) == Some([])
  {
    hide *;
    TwoInNameOrder(rows);
    RollbackAsWritten(reg, "shop", rows, rows, 1);
    assert Reversed(rows[2..]) == [] by { NothingReversed(rows[2..]); }
  }

  lemma TwoInNameOrder(rows: seq<Key>)
    requires rows == [Key("shop", "1"), Key("shop", "2")]
    ensures OfNamespace(rows, "shop") == rows && InNameOrder(rows)
  {
    var first: seq<Key> := [rows[0]];
    assert first[..0] == [] && OfNamespace(first, "shop") == [] + [rows[0]];
    assert rows[..1] == first && OfNamespace(rows, "shop") == first + [rows[1]] == rows;
    hide OfNamespace;
    assert Less("1", "2");
  }

  lemma NothingReversed<T>(s: seq<T>)
    requires s == []
    ensures Reversed(s) == []
  {
  }

  // Even read oldest first, the arithmetic reverts the steps newest for every
  // number of steps only if migrations were applied in the order of their names.
  lemma IntendedRollbackNeedsNameOrder(reg: Registry, namespace: string, rows: seq<Key>, applied: seq<Key>)
    requires UniqueKeys(reg) && namespace != "" && applied == OfNamespace(rows, namespace)
    requires forall k :: k in applied ==> k in AsMap(reg) && k.name != ""
    ensures (forall steps :: 0 < steps < |applied| ==>
               RollbackPlan(reg, namespace, rows, applied, steps) == Some(Reversed(applied[|applied| - steps..])))
            <==> InNameOrder(applied)
  {
    hide UniqueKeys, AsMap, NamespaceKeys, Within, Less, DownToKeys, OfNamespace;
    if InNameOrder(applied) {
      forall steps: nat | 0 < steps < |applied|
        ensures RollbackPlan(reg, namespace, rows, applied, steps) == Some(Reversed(applied[|applied| - steps..]))
      {
        hide InNameOrder;
        RollbackAsIntended(reg, namespace, rows, applied, steps);
      }
    }
    if forall steps :: 0 < steps < |applied| ==>
         RollbackPlan(reg, namespace, rows, applied, steps) == Some(Reversed(applied[|applied| - steps..])) {
      forall i, j | 0 <= i < j < |applied|
        ensures Less(applied[i].name, applied[j].name)
      {
        var steps := |applied| - 1 - i;
        assert RollbackPlan(reg, namespace, rows, applied, steps) == Some(Reversed(applied[i + 1..]));
        ReversedMembers(applied[i + 1..]);
        assert applied[i + 1..][j - i - 1] == applied[j];
        DownToMeaning(reg, namespace, RollbackTarget(applied, steps), rows);
        assert applied[i] in applied;
      }
    }
  }
}
