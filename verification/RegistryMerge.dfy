/** The merged list holds what it should, in order, and merging it again changes nothing. */
module RegistryMerge {
  import opened Common
  import opened RegistrySpec

  // ---------------------------------------------------------------- the index

  ghost predicate HasKey(item: Item, k: Value) {
    item.Service? && HasId(item.fields) && item.fields[ID] == k
  }

  // f is the last service of the list with identifier k.
  ghost predicate IsLast(items: seq<Item>, k: Value, f: Fields) {
    exists i :: 0 <= i < |items| && items[i] == Service(f) && HasKey(items[i], k) && AbsentAfter(items, k, i)
  }

  ghost predicate AbsentAfter(items: seq<Item>, k: Value, i: nat) {
    forall j :: i < j < |items| ==> !HasKey(items[j], k)
  }

  // The first position of identifier k; the length of the list if it has none.
  ghost function First(items: seq<Item>, k: Value): (i: nat)
    ensures i <= |items|
    ensures i < |items| ==> HasKey(items[i], k)
    ensures forall j :: 0 <= j < i ==> !HasKey(items[j], k)
  {
    if items == [] then 0
    else
      var n := |items| - 1;
      var i := First(items[..n], k);
      assert forall j :: 0 <= j < n ==> items[..n][j] == items[j];
      if i < n || HasKey(items[n], k) then i else n + 1
  }

  ghost predicate Occurs(items: seq<Item>, k: Value) {
    exists i :: 0 <= i < |items| && HasKey(items[i], k)
  }

  ghost predicate Distinct(keys: seq<Value>) {
    keys == [] || (Distinct(keys[..|keys| - 1]) && keys[|keys| - 1] !in keys[..|keys| - 1])
  }

  lemma {:induction false} DistinctJoin(a: seq<Value>, b: seq<Value>)
    requires Distinct(a) && Distinct(b) && forall k :: k in a ==> k !in b
    ensures Distinct(a + b)
  {
    if b == [] {
      assert a + b == a;
    } else {
      var n := |b| - 1;
      assert (a + b)[..|a + b| - 1] == a + b[..n];
      DistinctJoin(a, b[..n]);
    }
  }

  ghost predicate Consistent(x: Index) {
    Distinct(x.keys) &&
    (forall k :: k in x.keys <==> k in x.at) &&
    (forall k :: k in x.at ==> HasId(x.at[k]) && x.at[k][ID] == k)
  }

  // One more item at the end of a list.
  lemma {:induction false} OccursInLonger(items: seq<Item>, item: Item, k: Value)
    ensures Occurs(items + [item], k) <==> Occurs(items, k) || HasKey(item, k)
    ensures First(items + [item], k) ==
        if First(items, k) < |items| || HasKey(item, k) then First(items, k) else |items| + 1
  {
    var longer := items + [item];
    assert longer[..|items|] == items && longer[|items|] == item;
    if Occurs(items, k) {
      var i :| 0 <= i < |items| && HasKey(items[i], k);
      assert HasKey(longer[i], k);
    }
    if Occurs(longer, k) && !HasKey(item, k) {
      var i :| 0 <= i < |longer| && HasKey(longer[i], k);
      assert HasKey(items[i], k);
    }
  }

  lemma {:induction false} LastInLonger(items: seq<Item>, item: Item, k: Value, f: Fields)
    requires if HasKey(item, k) then item == Service(f) else IsLast(items, k, f)
    ensures IsLast(items + [item], k, f)
  {
    var longer := items + [item];
    assert longer[|items|] == item;
    if HasKey(item, k) {
      assert AbsentAfter(longer, k, |items|);
    } else {
      var i :| 0 <= i < |items| && items[i] == Service(f) && HasKey(items[i], k) && AbsentAfter(items, k, i);
      assert longer[i] == Service(f) && HasKey(longer[i], k);
      forall j | i < j < |longer| ensures !HasKey(longer[j], k) {
        if j < |items| { assert !HasKey(items[j], k); }
      }
    }
  }

  lemma {:induction false} InsertConsistent(x: Index, f: Fields)
    requires Consistent(x) && HasId(f)
    ensures Consistent(Insert(x, f))
  {
    var y := Insert(x, f);
    if f[ID] !in x.at { assert y.keys[..|x.keys|] == x.keys; }
  }

  lemma {:induction false} ByIdLonger(items: seq<Item>, item: Item)
    requires Keyed(items + [item])
    ensures Keyed(items)
    ensures ById(items + [item]) == if item.Service? then Insert(ById(items), item.fields) else ById(items)
  {
    var longer := items + [item];
    assert longer[..|items|] == items && longer[|items|] == item;
    forall i | 0 <= i < |items| && items[i].Service? ensures HasId(items[i].fields) {
      assert longer[i] == items[i];
    }
  }

  // The index lists each identifier once, with the last service that has it.
  lemma {:induction false} ByIdIndexes(items: seq<Item>)
    requires Keyed(items)
    ensures Consistent(ById(items))
    ensures forall k :: k in ById(items).at <==> Occurs(items, k)
    ensures forall k :: k in ById(items).at ==> IsLast(items, k, ById(items).at[k])
  {
    if items != [] {
      var n := |items| - 1;
      var front, item := items[..n], items[n];
      assert items == front + [item];
      ByIdLonger(front, item);
      ByIdIndexes(front);
      if item.Service? {
        assert HasId(item.fields) by { assert items[n].Service?; }
        InsertConsistent(ById(front), item.fields);
      }
      forall k ensures k in ById(items).at <==> Occurs(items, k) {
        OccursInLonger(front, item, k);
      }
      forall k | k in ById(items).at ensures IsLast(items, k, ById(items).at[k]) {
        LastInLonger(front, item, k, ById(items).at[k]);
      }
    }
  }

  // The identifiers are listed in order of first occurrence.
  ghost predicate InOrder(items: seq<Item>, keys: seq<Value>) {
    forall a, b :: 0 <= a < b < |keys| ==> First(items, keys[a]) < First(items, keys[b])
  }

  lemma {:induction false} KeysInOrder(items: seq<Item>)
    requires Keyed(items)
    ensures InOrder(items, ById(items).keys)
  {
    if items != [] {
      var n := |items| - 1;
      var front, item := items[..n], items[n];
      assert items == front + [item];
      ByIdLonger(front, item);
      KeysInOrder(front);
      ByIdIndexes(front);
      KeysStayInOrder(front, item, ById(front), ById(items).keys);
    }
  }

  lemma {:induction false} KeysStayInOrder(items: seq<Item>, item: Item, x: Index, keys: seq<Value>)
    requires InOrder(items, x.keys) && forall k :: k in x.keys <==> Occurs(items, k)
    requires keys == x.keys || exists k :: HasKey(item, k) && k !in x.keys && keys == x.keys + [k]
    ensures InOrder(items + [item], keys)
  {
    forall a, b | 0 <= a < b < |keys| ensures First(items + [item], keys[a]) < First(items + [item], keys[b]) {
      OccursInLonger(items, item, keys[a]);
      OccursInLonger(items, item, keys[b]);
      assert keys[a] == x.keys[a] && x.keys[a] in x.keys;
      if b < |x.keys| {
        assert First(items, x.keys[a]) < First(items, x.keys[b]);
      }
    }
  }

  // ---------------------------------------------------------------- the merged list

  ghost function IdOf(f: Fields): Value {
    if ID in f then f[ID] else Null
  }

  ghost function IdSeq(s: seq<Fields>): (r: seq<Value>)
    ensures |r| == |s|
    ensures forall i :: 0 <= i < |s| ==> r[i] == IdOf(s[i])
  {
    if s == [] then [] else IdSeq(s[..|s| - 1]) + [IdOf(s[|s| - 1])]
  }

  ghost predicate AllKeyed(s: seq<Fields>) {
    forall i :: 0 <= i < |s| ==> HasId(s[i])
  }

  ghost function Kept(keys: seq<Value>, ids: set<Value>): (r: seq<Value>)
    ensures forall k :: k in r <==> k in keys && k !in ids
  {
    if keys == [] then []
    else
      var n := |keys| - 1;
      assert forall k :: k in keys <==> k in keys[..n] || k == keys[n];
      Kept(keys[..n], ids) + if keys[n] in ids then [] else [keys[n]]
  }

  lemma {:induction false} KeptDistinct(keys: seq<Value>, ids: set<Value>)
    requires Distinct(keys)
    ensures Distinct(Kept(keys, ids))
  {
    if keys != [] {
      var n := |keys| - 1;
      KeptDistinct(keys[..n], ids);
      var front, r := Kept(keys[..n], ids), Kept(keys, ids);
      if keys[n] in ids {
        assert r == front;
      } else {
        assert r == front + [keys[n]] && r[..|r| - 1] == front;
      }
    }
  }

  lemma {:induction false} KeptInOrder(items: seq<Item>, keys: seq<Value>, ids: set<Value>)
    requires InOrder(items, keys)
    ensures InOrder(items, Kept(keys, ids))
  {
    if keys != [] {
      var n := |keys| - 1;
      var front := Kept(keys[..n], ids);
      KeptInOrder(items, keys[..n], ids);
      forall a | 0 <= a < |front| ensures First(items, front[a]) < First(items, keys[n]) {
        assert front[a] in front && front[a] in keys[..n];
      }
    }
  }

  // The foreign part lists the services whose identifiers are not in the catalog.
  lemma {:induction false} ForeignLists(keys: seq<Value>, at: map<Value, Fields>, ids: set<Value>)
    requires forall k :: k in keys ==> k in at && HasId(at[k]) && at[k][ID] == k
    ensures IdSeq(Foreign(keys, at, ids)) == Kept(keys, ids)
    ensures forall f :: f in Foreign(keys, at, ids) ==> HasId(f) && f[ID] in at && at[f[ID]] == f
  {
    if keys != [] {
      var n := |keys| - 1;
      ForeignLists(keys[..n], at, ids);
      var front, f := Foreign(keys[..n], at, ids), Foreign(keys, at, ids);
      if keys[n] !in ids {
        assert f == front + [at[keys[n]]] && f[..|f| - 1] == front;
      }
    }
  }

  lemma {:induction false} UpsertsAt(catalog: seq<Fields>, at: map<Value, Fields>, i: nat)
    requires AllKeyed(catalog) && i < |catalog|
    ensures |Upserts(catalog, at)| == |catalog|
    ensures Upserts(catalog, at)[i] == Upsert(catalog[i], Existing(at, IdOf(catalog[i])))
  {
    var n := |catalog| - 1;
    if i < n {
      UpsertsAt(catalog[..n], at, i);
    } else if n > 0 {
      UpsertsAt(catalog[..n], at, n - 1);
    }
  }

  // A merged service: all of the catalog's fields, the runtime fields only the existing service has, nothing else.
  ghost predicate Merges(m: Fields, d: Fields, e: Fields) {
    forall key ::
      (key in d ==> key in m && m[key] == d[key]) &&
      (key !in d && key in RUNTIME_KEYS && key in e ==> key in m && m[key] == e[key]) &&
      (key in m ==> key in d || (key in RUNTIME_KEYS && key in e))
  }

  // What the merged list holds of the foreign services: each once, as it last was, in order of first occurrence.
  ghost predicate KeepsForeign(f: seq<Fields>, items: seq<Item>, ids: set<Value>) {
    Distinct(IdSeq(f)) && InOrder(items, IdSeq(f)) &&
    (forall i :: 0 <= i < |f| ==> HasId(f[i]) && IsLast(items, IdOf(f[i]), f[i])) &&
    (forall k :: k in IdSeq(f) <==> Occurs(items, k) && k !in ids)
  }

  // And of the catalog: its services in order, each merged with the last existing one, if there is one.
  ghost predicate Refreshes(u: seq<Fields>, catalog: seq<Fields>, items: seq<Item>) {
    |u| == |catalog| && IdSeq(u) == IdSeq(catalog) &&
    forall i {:trigger catalog[i]} :: 0 <= i < |catalog| ==> Refreshed(u[i], catalog[i], items)
  }

  ghost predicate Refreshed(m: Fields, d: Fields, items: seq<Item>) {
    HasId(m) &&
    if Occurs(items, IdOf(d)) then exists e :: IsLast(items, IdOf(d), e) && Merges(m, d, e) else m == d
  }

  // No foreign service is lost, duplicated, changed or reordered, and each catalog service is merged with its last
  // existing form.
  lemma BuildReconciles(catalog: seq<Fields>, items: seq<Item>)
    requires WellFormed(catalog) && Keyed(items)
    ensures Build(catalog, items).Some?
    ensures var r := Build(catalog, items).value; var n := |r| - |catalog|;
      0 <= n && KeepsForeign(r[..n], items, IdsOf(catalog)) && Refreshes(r[n..], catalog, items)
  {
    var x, ids := ById(items), IdsOf(catalog);
    var f, u := Foreign(x.keys, x.at, ids), Upserts(catalog, x.at);
    ForeignReconciles(items, ids);
    UpsertsReconcile(catalog, items);
    var r := f + u;
    var n := |r| - |catalog|;
    assert n == |f| && r[..n] == f && r[n..] == u;
  }

  lemma ForeignReconciles(items: seq<Item>, ids: set<Value>)
    requires Keyed(items)
    ensures KeepsForeign(Foreign(ById(items).keys, ById(items).at, ids), items, ids)
  {
    var x := ById(items);
    var f := Foreign(x.keys, x.at, ids);
    ByIdIndexes(items);
    KeysInOrder(items);
    ForeignLists(x.keys, x.at, ids);
    KeptInOrder(items, x.keys, ids);
    KeptDistinct(x.keys, ids);
    forall i | 0 <= i < |f| ensures HasId(f[i]) && IsLast(items, IdOf(f[i]), f[i]) {
      assert f[i] in f;
    }
  }

  lemma UpsertsReconcile(catalog: seq<Fields>, items: seq<Item>)
    requires AllKeyed(catalog) && Keyed(items)
    ensures Refreshes(Upserts(catalog, ById(items).at), catalog, items)
  {
    var at := ById(items).at;
    UpsertsLast(catalog, at);
    forall i {:trigger catalog[i]} | 0 <= i < |catalog| ensures Refreshed(Upserts(catalog, at)[i], catalog[i], items) {
      UpsertsAt(catalog, at, i);
      UpsertRefreshes(catalog[i], items);
    }
  }

  lemma UpsertRefreshes(d: Fields, items: seq<Item>)
    requires HasId(d) && Keyed(items)
    ensures Refreshed(Upsert(d, Existing(ById(items).at, IdOf(d))), d, items)
  {
    var at, k := ById(items).at, IdOf(d);
    ByIdIndexes(items);
    if Occurs(items, k) {
      assert IsLast(items, k, at[k]) && Merges(Upsert(d, at[k]), d, at[k]);
    }
  }

  lemma {:induction false} UpsertsLast(catalog: seq<Fields>, at: map<Value, Fields>)
    requires AllKeyed(catalog)
    ensures |Upserts(catalog, at)| == |catalog| && AllKeyed(Upserts(catalog, at)) &&
        IdSeq(Upserts(catalog, at)) == IdSeq(catalog)
  {
    forall i | 0 <= i < |catalog|
      ensures |Upserts(catalog, at)| == |catalog| && HasId(Upserts(catalog, at)[i]) &&
          IdOf(Upserts(catalog, at)[i]) == IdOf(catalog[i])
    {
      UpsertsAt(catalog, at, i);
    }
    if catalog == [] { assert Upserts(catalog, at) == []; } else { UpsertsAt(catalog, at, 0); }
  }

  // ---------------------------------------------------------------- idempotence

  ghost function MapOf(s: seq<Fields>): (m: map<Value, Fields>)
    ensures forall k :: k in m <==> k in IdSeq(s)
  {
    if s == [] then map[] else MapOf(s[..|s| - 1])[IdOf(s[|s| - 1]) := s[|s| - 1]]
  }

  lemma {:induction false} MapOfAt(s: seq<Fields>, i: nat)
    requires Distinct(IdSeq(s)) && i < |s|
    ensures IdOf(s[i]) in MapOf(s) && MapOf(s)[IdOf(s[i])] == s[i]
  {
    var n := |s| - 1;
    assert IdSeq(s)[..n] == IdSeq(s[..n]);
    if i < n {
      MapOfAt(s[..n], i);
      assert IdSeq(s[..n])[i] != IdOf(s[n]);
    }
  }

  // A list of services with distinct identifiers is its own index.
  lemma {:induction false} OwnIndex(s: seq<Fields>)
    requires Distinct(IdSeq(s)) && Keyed(AsItems(s))
    ensures ById(AsItems(s)) == Index(IdSeq(s), MapOf(s))
  {
    if s != [] {
      var n := |s| - 1;
      assert AsItems(s)[..n] == AsItems(s[..n]);
      assert IdSeq(s)[..n] == IdSeq(s[..n]);
      OwnIndex(s[..n]);
      assert AsItems(s)[n] == Service(s[n]);
    }
  }

  lemma {:induction false} ForeignJoins(a: seq<Value>, b: seq<Value>, at: map<Value, Fields>, ids: set<Value>)
    ensures Foreign(a + b, at, ids) == Foreign(a, at, ids) + Foreign(b, at, ids)
  {
    if b == [] {
      assert a + b == a;
    } else {
      var n := |b| - 1;
      assert (a + b)[..|a + b| - 1] == a + b[..n];
      ForeignJoins(a, b[..n], at, ids);
    }
  }

  lemma {:induction false} AllForeign(s: seq<Fields>, at: map<Value, Fields>, ids: set<Value>)
    requires forall f :: f in s ==> IdOf(f) !in ids && IdOf(f) in at && at[IdOf(f)] == f
    ensures Foreign(IdSeq(s), at, ids) == s
  {
    if s != [] {
      var n := |s| - 1;
      assert IdSeq(s)[..n] == IdSeq(s[..n]);
      AllForeign(s[..n], at, ids);
      assert s[n] in s;
    }
  }

  lemma {:induction false} NoneForeign(keys: seq<Value>, at: map<Value, Fields>, ids: set<Value>)
    requires forall k :: k in keys ==> k in ids
    ensures Foreign(keys, at, ids) == []
  {
    if keys != [] { NoneForeign(keys[..|keys| - 1], at, ids); }
  }

  lemma {:induction false} UpsertsTwice(catalog: seq<Fields>, at: map<Value, Fields>, later: map<Value, Fields>)
    requires AllKeyed(catalog)
    requires forall d :: d in catalog ==> IdOf(d) in later && later[IdOf(d)] == Upsert(d, Existing(at, IdOf(d)))
    ensures Upserts(catalog, later) == Upserts(catalog, at)
  {
    if catalog != [] {
      var n := |catalog| - 1;
      UpsertsTwice(catalog[..n], at, later);
      var d := catalog[n];
      assert d in catalog;
      var e := Existing(at, IdOf(d));
      assert Upsert(d, Upsert(d, e)) == Upsert(d, e);
    }
  }

  lemma {:induction false} CatalogDistinct(catalog: seq<Fields>)
    requires WellFormed(catalog)
    ensures Distinct(IdSeq(catalog))
  {
    if catalog != [] {
      var n := |catalog| - 1;
      CatalogDistinct(catalog[..n]);
      assert IdSeq(catalog)[..n] == IdSeq(catalog[..n]);
      forall i | 0 <= i < n ensures IdSeq(catalog[..n])[i] != IdOf(catalog[n]) {
        assert catalog[i][ID] != catalog[n][ID];
      }
    }
  }

  lemma {:induction false} IdSeqJoin(a: seq<Fields>, b: seq<Fields>)
    ensures IdSeq(a + b) == IdSeq(a) + IdSeq(b)
  {
    forall i | 0 <= i < |a + b| ensures IdSeq(a + b)[i] == (IdSeq(a) + IdSeq(b))[i] {
    }
  }

  lemma {:induction false} CatalogIds(catalog: seq<Fields>)
    requires AllKeyed(catalog)
    ensures forall k :: k in IdSeq(catalog) <==> k in IdsOf(catalog)
  {
    forall k | k in IdsOf(catalog) ensures k in IdSeq(catalog) {
      var i :| 0 <= i < |catalog| && ID in catalog[i] && catalog[i][ID] == k;
      assert IdSeq(catalog)[i] == k;
    }
    forall k | k in IdSeq(catalog) ensures k in IdsOf(catalog) {
      var i :| 0 <= i < |catalog| && IdSeq(catalog)[i] == k;
      assert HasId(catalog[i]);
    }
  }

  // A built list has distinct identifiers: it is the foreign part followed by the catalog's part.
  lemma {:induction false} BuiltDistinct(catalog: seq<Fields>, f: seq<Fields>, u: seq<Fields>, items: seq<Item>)
    requires WellFormed(catalog)
    requires KeepsForeign(f, items, IdsOf(catalog)) && Refreshes(u, catalog, items)
    ensures Distinct(IdSeq(f + u)) && IdSeq(f + u) == IdSeq(f) + IdSeq(catalog)
  {
    IdSeqJoin(f, u);
    CatalogDistinct(catalog);
    CatalogIds(catalog);
    DistinctJoin(IdSeq(f), IdSeq(catalog));
  }

  lemma {:induction false} BuiltIndex(s: seq<Fields>)
    requires Distinct(IdSeq(s)) && forall f :: f in s ==> HasId(f)
    ensures Keyed(AsItems(s)) && ById(AsItems(s)) == Index(IdSeq(s), MapOf(s))
    ensures forall f :: f in s ==> IdOf(f) in MapOf(s) && MapOf(s)[IdOf(f)] == f
  {
    forall f | f in s ensures IdOf(f) in MapOf(s) && MapOf(s)[IdOf(f)] == f {
      var i :| 0 <= i < |s| && s[i] == f;
      MapOfAt(s, i);
    }
    assert Keyed(AsItems(s));
    OwnIndex(s);
  }

  // Rebuilding from a built registry gives the same services in the same order.
  lemma RebuildChangesNothing(catalog: seq<Fields>, items: seq<Item>)
    requires WellFormed(catalog) && Keyed(items)
    ensures Build(catalog, items).Some?
    ensures Build(catalog, AsItems(Build(catalog, items).value)) == Build(catalog, items)
  {
    var x, ids := ById(items), IdsOf(catalog);
    var f, u := Foreign(x.keys, x.at, ids), Upserts(catalog, x.at);
    ForeignReconciles(items, ids);
    UpsertsReconcile(catalog, items);
    BuiltDistinct(catalog, f, u, items);
    AllHaveIds(catalog, f, u, items);
    BuiltIndex(f + u);
    var at := MapOf(f + u);
    RebuiltForeign(catalog, f, at);
    RebuiltCatalog(catalog, x.at, at);
  }

  lemma {:induction false} AllHaveIds(catalog: seq<Fields>, f: seq<Fields>, u: seq<Fields>, items: seq<Item>)
    requires AllKeyed(catalog) && KeepsForeign(f, items, IdsOf(catalog)) && Refreshes(u, catalog, items)
    ensures forall g :: g in f + u ==> HasId(g)
  {
    forall i | 0 <= i < |u| ensures HasId(u[i]) {
      assert Refreshed(u[i], catalog[i], items);
    }
  }

  lemma RebuiltCatalog(catalog: seq<Fields>, at: map<Value, Fields>, later: map<Value, Fields>)
    requires AllKeyed(catalog)
    requires forall g :: g in Upserts(catalog, at) ==> IdOf(g) in later && later[IdOf(g)] == g
    ensures Upserts(catalog, later) == Upserts(catalog, at)
  {
    UpsertsLast(catalog, at);
    forall d | d in catalog ensures IdOf(d) in later && later[IdOf(d)] == Upsert(d, Existing(at, IdOf(d))) {
      var i :| 0 <= i < |catalog| && catalog[i] == d;
      UpsertsAt(catalog, at, i);
      assert Upserts(catalog, at)[i] in Upserts(catalog, at);
    }
    UpsertsTwice(catalog, at, later);
  }

  lemma RebuiltForeign(catalog: seq<Fields>, f: seq<Fields>, at: map<Value, Fields>)
    requires AllKeyed(catalog)
    requires forall g :: g in f ==> IdOf(g) in at && at[IdOf(g)] == g
    requires forall k :: k in IdSeq(f) ==> k !in IdsOf(catalog)
    ensures Foreign(IdSeq(f) + IdSeq(catalog), at, IdsOf(catalog)) == f
  {
    var ids := IdsOf(catalog);
    forall g | g in f ensures IdOf(g) !in ids {
      var i :| 0 <= i < |f| && f[i] == g;
      assert IdSeq(f)[i] in IdSeq(f);
    }
    AllForeign(f, at, ids);
    CatalogIds(catalog);
    NoneForeign(IdSeq(catalog), at, ids);
    ForeignJoins(IdSeq(f), IdSeq(catalog), at, ids);
  }
}
