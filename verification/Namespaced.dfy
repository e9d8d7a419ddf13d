// namespaced/namespaced.go: registries of items grouped by namespace, and the
// two ways the app adds to them (replace in place, or insert all or nothing).
module Namespaces {
  import opened Seqs
  import opened Lex

  datatype Key = Key(namespace: string, name: string)

  // A Namespaced item; name is what Item.Name() returns.
  datatype Entry<+T> = Entry(namespace: string, name: string, item: T) {
    function Id(): Key { Key(namespace, name) }
  }

  // Anything with a Name() method, before NewNamespaced wraps it.
  datatype Named<+T> = Named(name: string, item: T)

  function Wrap<T>(namespace: string, batch: seq<Named<T>>): (r: seq<Entry<T>>)
    ensures |r| == |batch|
    ensures forall i :: 0 <= i < |r| ==> r[i] == Entry(namespace, batch[i].name, batch[i].item)
  {
    seq(|batch|, i requires 0 <= i < |batch| => Entry(namespace, batch[i].name, batch[i].item))
  }

  function NameOf<T>(e: Entry<T>): string { e.name }

  function Itself(s: string): string { s }

  ghost predicate UniqueKeys<T>(s: seq<Entry<T>>) {
    forall i, j :: 0 <= i < j < |s| ==> s[i].Id() != s[j].Id()
  }

  // The registry read as a map: a later entry overrides an earlier one.
  function AsMap<T>(s: seq<Entry<T>>): map<Key, T> {
    if s == [] then map[] else
    AsMap(s[..|s| - 1])[s[|s| - 1].Id() := s[|s| - 1].item]
  }

  function InNamespace<T>(s: seq<Entry<T>>, namespace: string): (r: seq<Entry<T>>)
    ensures forall e :: e in r ==> e in s && e.namespace == namespace
    ensures forall e :: e in s && e.namespace == namespace ==> e in r
  {
    if s == [] then [] else
    InNamespace(s[..|s| - 1], namespace)
      + if s[|s| - 1].namespace == namespace then [s[|s| - 1]] else []
  }

  // GetNamespace's result as a value.
  function Listing<T>(s: seq<Entry<T>>, namespace: string): (r: seq<Entry<T>>) {
    SortBy(InNamespace(s, namespace), NameOf)
  }

  // Namespaces' result as a value: first occurrences, then sorted.
  function FirstNamespaces<T>(s: seq<Entry<T>>): (r: seq<string>)
    ensures forall e :: e in s ==> e.namespace in r
  {
    if s == [] then [] else
    var front := FirstNamespaces(s[..|s| - 1]);
    if s[|s| - 1].namespace in front then front else front + [s[|s| - 1].namespace]
  }

  function NamespaceList<T>(s: seq<Entry<T>>): seq<string> {
    SortBy(FirstNamespaces(s), Itself)
  }

  lemma {:induction false} AsMapHolds<T>(s: seq<Entry<T>>)
    requires UniqueKeys(s)
    ensures forall e :: e in s ==> e.Id() in AsMap(s) && AsMap(s)[e.Id()] == e.item
    ensures forall k :: k in AsMap(s) ==> Entry(k.namespace, k.name, AsMap(s)[k]) in s
  {
    if s != [] {
      var t, last := s[..|s| - 1], s[|s| - 1];
      AsMapHolds(t);
      forall e | e in s
        ensures e.Id() in AsMap(s) && AsMap(s)[e.Id()] == e.item
      {
        if e != last {
          var i :| 0 <= i < |s| && s[i] == e;
          assert e == t[i];
        }
      }
    }
  }

  lemma {:induction false} InNamespaceUnique<T>(s: seq<Entry<T>>, namespace: string)
    requires UniqueKeys(s)
    ensures DistinctKeys(InNamespace(s, namespace), NameOf)
  {
    if s != [] {
      var t, last := s[..|s| - 1], s[|s| - 1];
      InNamespaceUnique(t, namespace);
      var r := InNamespace(t, namespace);
      if last.namespace == namespace {
        forall i | 0 <= i < |r|
          ensures r[i].name != last.name
        {
          assert r[i] in t;
          var k :| 0 <= k < |t| && t[k] == r[i];
          assert s[k].Id() != last.Id();
        }
      }
    }
  }

  // GetNamespace lists exactly the registered items of the namespace, in
  // strictly ascending name order.
  lemma ListingIsSorted<T>(s: seq<Entry<T>>, namespace: string)
    requires UniqueKeys(s)
    ensures StrictlySorted(Listing(s, namespace), NameOf)
    ensures forall e :: e in Listing(s, namespace) <==> e in s && e.namespace == namespace
    ensures forall e :: e in Listing(s, namespace) <==>
                        e.namespace == namespace && e.Id() in AsMap(s) && AsMap(s)[e.Id()] == e.item
  {
    InNamespaceUnique(s, namespace);
    SortOfDistinct(InNamespace(s, namespace), NameOf<T>);
    AsMapHolds(s);
    forall e
      ensures e in s <==> e.Id() in AsMap(s) && AsMap(s)[e.Id()] == e.item
    {
      if e.Id() in AsMap(s) && AsMap(s)[e.Id()] == e.item {
        assert e == Entry(e.Id().namespace, e.Id().name, AsMap(s)[e.Id()]);
      }
    }
  }

  // The listing depends on the map alone, not on the registration order.
  lemma {:induction false} ListingDependsOnMap<T(!new)>(s: seq<Entry<T>>, t: seq<Entry<T>>, namespace: string)
    requires UniqueKeys(s) && UniqueKeys(t) && AsMap(s) == AsMap(t)
    ensures Listing(s, namespace) == Listing(t, namespace)
  {
    ListingIsSorted(s, namespace);
    ListingIsSorted(t, namespace);
    StrictlySortedUnique(Listing(s, namespace), Listing(t, namespace), NameOf<T>);
  }

  lemma {:induction false} FirstNamespacesDistinct<T>(s: seq<Entry<T>>)
    ensures Distinct(FirstNamespaces(s))
    ensures forall n :: n in FirstNamespaces(s) ==> exists e :: e in s && e.namespace == n
  {
    if s != [] {
      var t, last := s[..|s| - 1], s[|s| - 1];
      FirstNamespacesDistinct(t);
      DistinctAppend(FirstNamespaces(t), last.namespace);
      forall n | n in FirstNamespaces(s)
        ensures exists e :: e in s && e.namespace == n
      {
        if n in FirstNamespaces(t) {
          var e :| e in t && e.namespace == n;
          assert e in s;
        } else {
          assert last in s && last.namespace == n;
        }
      }
    }
  }

  // Namespaces lists each namespace in use exactly once, ascending.
  lemma NamespaceListIsSorted<T>(s: seq<Entry<T>>)
    ensures StrictlySorted(NamespaceList(s), Itself)
    ensures forall n :: n in NamespaceList(s) <==> exists e :: e in s && e.namespace == n
  {
    FirstNamespacesDistinct(s);
    var r := FirstNamespaces(s);
    forall i, j | 0 <= i < j < |r|
      ensures Itself(r[i]) != Itself(r[j])
    {
      DistinctAt(r, i, j);
    }
    SortOfDistinct(r, Itself);
  }

  method GetNamespace<T>(s: seq<Entry<T>>, namespace: string) returns (r: seq<Entry<T>>)
    ensures r == Listing(s, namespace)
  {
    r := [];
    for i := 0 to |s|
      invariant r == InNamespace(s[..i], namespace)
    {
      assert s[..i + 1][..i] == s[..i];
      if s[i].namespace == namespace {
        r := r + [s[i]];
      }
    }
    assert s[..|s|] == s;
    r := SortBy(r, NameOf);
  }

  method GetNamespaces<T>(s: seq<Entry<T>>) returns (r: seq<string>)
    ensures r == NamespaceList(s)
  {
    var seen: set<string> := {};
    r := [];
    for i := 0 to |s|
      invariant r == FirstNamespaces(s[..i]) && seen == ToSet(r)
    {
      assert s[..i + 1][..i] == s[..i];
      if s[i].namespace !in seen {
        seen := seen + {s[i].namespace};
        r := r + [s[i].namespace];
      }
    }
    assert s[..|s|] == s;
    r := SortBy(r, Itself);
  }

  method Get<T>(s: seq<Entry<T>>, key: Key) returns (r: Option<T>)
    ensures r == None <==> forall e :: e in s ==> e.Id() != key
    ensures UniqueKeys(s) ==> r == if key in AsMap(s) then Some(AsMap(s)[key]) else None
  {
    if UniqueKeys(s) { AsMapHolds(s); }
    for i := 0 to |s|
      invariant forall k :: 0 <= k < i ==> s[k].Id() != key
    {
      if s[i].Id() == key {
        assert s[i] in s;
        return Some(s[i].item);
      }
    }
    return None;
  }

  // The first index holding key, or |s|.
  function IndexOf<T>(s: seq<Entry<T>>, key: Key): (i: nat)
    ensures i <= |s|
    ensures i < |s| ==> s[i].Id() == key
    ensures forall k :: 0 <= k < i ==> s[k].Id() != key
  {
    if s == [] then 0 else
    var i := IndexOf(s[..|s| - 1], key);
    if i < |s| - 1 || s[|s| - 1].Id() == key then i else |s|
  }

  // One item given to registerSeederForNamespace or registerJobForNamespace.
  function Upsert<T>(s: seq<Entry<T>>, e: Entry<T>): seq<Entry<T>> {
    var i := IndexOf(s, e.Id());
    if i < |s| then s[i := e] else s + [e]
  }

  function UpsertAll<T>(s: seq<Entry<T>>, batch: seq<Entry<T>>): seq<Entry<T>> {
    if batch == [] then s else
    Upsert(UpsertAll(s, batch[..|batch| - 1]), batch[|batch| - 1])
  }

  lemma MapExtensional<T>(s: seq<Entry<T>>, m: map<Key, T>)
    requires UniqueKeys(s)
    requires forall e :: e in s ==> e.Id() in m && m[e.Id()] == e.item
    requires forall k :: k in m ==> Entry(k.namespace, k.name, m[k]) in s
    ensures AsMap(s) == m
  {
    AsMapHolds(s);
    forall k
      ensures k in AsMap(s) <==> k in m
      ensures k in m ==> AsMap(s)[k] == m[k]
    {
      if k in m { assert Entry(k.namespace, k.name, m[k]).Id() == k; }
      if k in AsMap(s) { assert Entry(k.namespace, k.name, AsMap(s)[k]).Id() == k; }
    }
  }

  // Keys stay unique and the new item wins.
  lemma UpsertIsMapUpdate<T>(s: seq<Entry<T>>, e: Entry<T>)
    requires UniqueKeys(s)
    ensures UniqueKeys(Upsert(s, e))
    ensures AsMap(Upsert(s, e)) == AsMap(s)[e.Id() := e.item]
  {
    var i := IndexOf(s, e.Id());
    var t, m := Upsert(s, e), AsMap(s)[e.Id() := e.item];
    AsMapHolds(s);
    forall x | x in t
      ensures x.Id() in m && m[x.Id()] == x.item
    {
      if x != e {
        var k :| 0 <= k < |t| && t[k] == x;
        assert x == s[k] && x in s;
      }
    }
    forall k | k in m
      ensures Entry(k.namespace, k.name, m[k]) in t
    {
      var x := Entry(k.namespace, k.name, m[k]);
      if k == e.Id() {
        assert t[i] == e == x;
      } else {
        var j :| 0 <= j < |s| && s[j] == x;
        assert t[j] == x;
      }
    }
    MapExtensional(t, m);
  }

  // Any history of calls is a last-writer-wins map of everything registered.
  lemma {:induction false} UpsertAllIsLastWriterWins<T>(s: seq<Entry<T>>, batch: seq<Entry<T>>)
    requires UniqueKeys(s)
    ensures UniqueKeys(UpsertAll(s, batch))
    ensures AsMap(UpsertAll(s, batch)) == AsMap(s) + AsMap(batch)
  {
    if batch != [] {
      var front, last := batch[..|batch| - 1], batch[|batch| - 1];
      UpsertAllIsLastWriterWins(s, front);
      UpsertIsMapUpdate(UpsertAll(s, front), last);
    }
  }

  // Appending a batch of new, pairwise distinct keys is a disjoint insert.
  lemma {:induction false} AppendIsInsert<T>(s: seq<Entry<T>>, batch: seq<Entry<T>>)
    requires UniqueKeys(s) && UniqueKeys(batch)
    requires forall e :: e in batch ==> e.Id() !in AsMap(s)
    ensures UniqueKeys(s + batch)
    ensures AsMap(s + batch) == AsMap(s) + AsMap(batch)
    ensures AsMap(s).Keys !! AsMap(batch).Keys
  {
    var t, m := s + batch, AsMap(s) + AsMap(batch);
    AsMapHolds(s);
    AsMapHolds(batch);
    forall i, j | 0 <= i < j < |t|
      ensures t[i].Id() != t[j].Id()
    {
      if i < |s| <= j {
        assert s[i] in s && batch[j - |s|] in batch;
      }
    }
    forall k | k in AsMap(batch)
      ensures k !in AsMap(s)
    {
      assert Entry(k.namespace, k.name, AsMap(batch)[k]).Id() == k;
    }
    MapExtensional(t, m);
  }

  // The replace-or-append loop both registration methods run for each item.
  method Replace<T>(s: seq<Entry<T>>, e: Entry<T>) returns (r: seq<Entry<T>>)
    ensures r == Upsert(s, e)
  {
    for i := 0 to |s|
      invariant forall k :: 0 <= k < i ==> s[k].Id() != e.Id()
    {
      if s[i].Id() == e.Id() {
        return s[i := e];
      }
    }
    return s + [e];
  }

  // A replaced item keeps its place, and a new one comes last.
  lemma UpsertKeepsPlaces<T>(s: seq<Entry<T>>, e: Entry<T>, i: nat)
    requires UniqueKeys(s) && i < |Upsert(s, e)|
    ensures |Upsert(s, e)| == |s| + (if e.Id() in AsMap(s) then 0 else 1)
    ensures Upsert(s, e)[i] == if i < |s| && s[i].Id() != e.Id() then s[i] else e
  {
    AsMapHolds(s);
    var n := IndexOf(s, e.Id());
    if n < |s| { assert s[n] in s; }
    if e.Id() in AsMap(s) {
      var x := Entry(e.namespace, e.name, AsMap(s)[e.Id()]);
      var j :| 0 <= j < |s| && s[j] == x;
      assert s[j].Id() == e.Id();
    }
  }
}
