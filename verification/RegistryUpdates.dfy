/** When an update is due, that one update settles it, and the drift that is never noticed. */
module RegistryUpdates {
  import opened Common
  import opened RegistrySpec
  import opened RegistryMerge

  // The registry has each catalog service, agreeing with the catalog in every field that is checked.
  ghost predicate UpToDate(catalog: seq<Fields>, items: seq<Item>) {
    forall i :: 0 <= i < |catalog| ==> Present(catalog[i], items)
  }

  ghost predicate Present(d: Fields, items: seq<Item>) {
    exists e :: IsLast(items, IdOf(d), e) && Agree(d, e)
  }

  lemma LastIsUnique(items: seq<Item>, k: Value, e: Fields, f: Fields)
    ensures IsLast(items, k, e) && IsLast(items, k, f) ==> e == f
  {
  }

  lemma {:induction false} LastInIndex(items: seq<Item>, k: Value, e: Fields)
    requires Keyed(items) && IsLast(items, k, e)
    ensures k in ById(items).at && ById(items).at[k] == e
  {
    ByIdIndexes(items);
    assert Occurs(items, k);
    LastIsUnique(items, k, e, ById(items).at[k]);
  }

  lemma CheckedAreNotRuntime(k: string)
    ensures k in CHECK_KEYS ==> k !in RUNTIME_KEYS
  {
  }

  lemma {:induction false} MergeAgrees(d: Fields, e: Fields, other: Fields)
    ensures Agree(Upsert(d, e), other) <==> Agree(d, other)
  {
    forall k | k in CHECK_KEYS ensures Get(Upsert(d, e), k) == Get(d, k) {
      CheckedAreNotRuntime(k);
    }
  }

  ghost predicate Passes(g: Fields, have: map<Value, Fields>) {
    IdOf(g) in have && Agree(g, have[IdOf(g)])
  }

  ghost predicate AllPass(s: seq<Fields>, have: map<Value, Fields>) {
    forall i :: 0 <= i < |s| ==> Passes(s[i], have)
  }

  lemma {:induction false} NeedsUpdateMeans(current: Registry, catalog: Catalog, desired: seq<Fields>)
    requires Keyed(current.services) && AllKeyed(desired)
    ensures NeedsUpdate(current, catalog, desired) <==>
      !(SameDefaults(current, DesiredRegistry(catalog, desired)) && AllPass(desired, ById(current.services).at))
  {
    var have := ById(current.services).at;
    if !AllPass(desired, have) {
      var i :| 0 <= i < |desired| && !Passes(desired[i], have);
      assert HasId(desired[i]);
    }
  }

  // A field that is missing on one side reads like null on the other.
  predicate SameField(d: Fields, e: Fields, key: string) {
    if key in d then (if key in e then d[key] == e[key] else d[key] == Null)
    else key in e ==> e[key] == Null
  }

  // One of the eight fields that are checked.
  predicate IsChecked(key: string) {
    key == "key_reference" || key == "algorithms" || key == "key_purposes" || key == "credential_formats" ||
    key == "service_type" || key == "endpoint" || key == "mount" || key == "auth_mode"
  }

  lemma {:induction false} CheckedOnly(key: string)
    ensures key in CHECK_KEYS ==> IsChecked(key)
  {
  }

  lemma {:induction false} CheckedAll(key: string)
    ensures IsChecked(key) ==> key in CHECK_KEYS
  {
    var keys := CHECK_KEYS;
    assert keys[0] in keys && keys[1] in keys && keys[2] in keys && keys[3] in keys;
    assert keys[4] in keys && keys[5] in keys && keys[6] in keys && keys[7] in keys;
  }

  // Two services agree exactly when they read the same in these eight fields.
  lemma {:induction false} AgreeIff(d: Fields, e: Fields)
    ensures Agree(d, e) <==> forall key :: IsChecked(key) ==> SameField(d, e, key)
  {
    forall key ensures key in CHECK_KEYS <==> IsChecked(key) {
      CheckedOnly(key);
      CheckedAll(key);
    }
    forall key ensures SameField(d, e, key) <==> Get(d, key) == Get(e, key) {
    }
  }

  // An update is due exactly when the defaults differ or a catalog service is missing or differs in a checked field.
  lemma NeedsUpdateIff(catalog: Catalog, current: Registry)
    requires WellFormed(catalog.services) && Keyed(current.services)
    ensures Build(catalog.services, current.services).Some?
    ensures var built := Build(catalog.services, current.services).value;
      AllKeyed(built) &&
      (NeedsUpdate(current, catalog, built) <==>
        !(UpToDate(catalog.services, current.services) &&
          current.defaultServiceId == Some(catalog.defaultServiceId) &&
          current.formatDefaults == Some(catalog.formatDefaults) &&
          current.typeDefaults == Some(catalog.typeDefaults)))
  {
    BuiltNeedsUpdateIff(catalog, current);
  }

  lemma BuiltNeedsUpdateIff(catalog: Catalog, current: Registry)
    requires WellFormed(catalog.services) && Keyed(current.services)
    ensures Build(catalog.services, current.services).Some?
    ensures var built := Build(catalog.services, current.services).value;
      AllKeyed(built) &&
      (NeedsUpdate(current, catalog, built) <==>
        !(UpToDate(catalog.services, current.services) && SameDefaults(current, DesiredRegistry(catalog, built))))
  {
    MergedPasses(catalog.services, current.services);
    NeedsUpdateMeans(current, catalog, Build(catalog.services, current.services).value);
  }

  // What a build gives passes as a whole exactly when the registry is up to date.
  lemma MergedPasses(catalog: seq<Fields>, items: seq<Item>)
    requires WellFormed(catalog) && Keyed(items)
    ensures Build(catalog, items).Some?
    ensures var built := Build(catalog, items).value;
      AllKeyed(built) && (AllPass(built, ById(items).at) <==> UpToDate(catalog, items))
  {
    var ids := IdsOf(catalog);
    var at := ById(items).at;
    var f, u := Foreign(ById(items).keys, at, ids), Upserts(catalog, at);
    ForeignReconciles(items, ids);
    UpsertsReconcile(catalog, items);
    AllHaveIds(catalog, f, u, items);
    ForeignPasses(f, items);
    CatalogPasses(catalog, items);
    PassJoin(f, u, at);
    assert AllKeyed(f + u) by {
      forall i | 0 <= i < |f + u| ensures HasId((f + u)[i]) {
        assert (f + u)[i] in f + u;
      }
    }
  }

  lemma PassJoin(f: seq<Fields>, u: seq<Fields>, have: map<Value, Fields>)
    ensures AllPass(f + u, have) <==> AllPass(f, have) && AllPass(u, have)
  {
    if AllPass(f + u, have) {
      assert forall i :: 0 <= i < |f| ==> f[i] == (f + u)[i];
      assert forall i :: 0 <= i < |u| ==> u[i] == (f + u)[|f| + i];
    }
  }

  lemma ForeignPasses(f: seq<Fields>, items: seq<Item>)
    requires Keyed(items) && forall i :: 0 <= i < |f| ==> IsLast(items, IdOf(f[i]), f[i])
    ensures AllPass(f, ById(items).at)
  {
    forall i | 0 <= i < |f| ensures Passes(f[i], ById(items).at) {
      LastInIndex(items, IdOf(f[i]), f[i]);
    }
  }

  lemma MergePasses(d: Fields, items: seq<Item>)
    requires HasId(d) && Keyed(items)
    ensures Passes(Upsert(d, Existing(ById(items).at, IdOf(d))), ById(items).at) <==> Present(d, items)
  {
    var at, k := ById(items).at, IdOf(d);
    var e := Existing(at, k);
    MergeAgrees(d, e, e);
    ByIdIndexes(items);
    if k in at {
      assert IsLast(items, k, e);
    }
    if Present(d, items) {
      var g :| IsLast(items, k, g) && Agree(d, g);
      LastInIndex(items, k, g);
    }
  }

  // The merged services all pass exactly when the registry is up to date.
  lemma CatalogPasses(catalog: seq<Fields>, items: seq<Item>)
    requires AllKeyed(catalog) && Keyed(items)
    ensures AllPass(Upserts(catalog, ById(items).at), ById(items).at) <==> UpToDate(catalog, items)
  {
    var at := ById(items).at;
    var u := Upserts(catalog, at);
    UpsertsLast(catalog, at);
    forall i | 0 <= i < |catalog| ensures Passes(u[i], at) <==> Present(catalog[i], items) {
      UpsertsAt(catalog, at, i);
      MergePasses(catalog[i], items);
    }
  }

  // ---------------------------------------------------------------- settling

  // The gateway still has each of these services, whatever it changed outside the checked fields, added or reordered.
  ghost predicate StillServes(items: seq<Item>, services: seq<Fields>) {
    forall f :: f in services ==> exists e :: IsLast(items, IdOf(f), e) && Agree(f, e)
  }

  // After one applied update the next run writes nothing.
  lemma SettlesAfterOneUpdate(catalog: Catalog, current: Registry, served: Registry)
    requires WellFormed(catalog.services) && Keyed(current.services) && Keyed(served.services)
    requires Build(catalog.services, current.services).Some?
    requires var written := Build(catalog.services, current.services).value;
      StillServes(served.services, written) && SameDefaults(served, DesiredRegistry(catalog, written))
    ensures var again := Build(catalog.services, served.services);
      again.Some? && AllKeyed(again.value) && !NeedsUpdate(served, catalog, again.value)
  {
    var at := ById(current.services).at;
    var u := Upserts(catalog.services, at);
    var written := Build(catalog.services, current.services).value;
    UpsertsLast(catalog.services, at);
    forall i | 0 <= i < |catalog.services| ensures Present(catalog.services[i], served.services) {
      var d := catalog.services[i];
      UpsertsAt(catalog.services, at, i);
      assert u[i] in u && u[i] in written;
      var e :| IsLast(served.services, IdOf(u[i]), e) && Agree(u[i], e);
      MergeAgrees(d, Existing(at, IdOf(d)), e);
    }
    NeedsUpdateIff(catalog, served);
  }

  // A gateway that stores what it is sent still serves it.
  lemma StoredIsServed(catalog: seq<Fields>, items: seq<Item>)
    requires WellFormed(catalog) && Keyed(items)
    ensures Build(catalog, items).Some?
    ensures var r := Build(catalog, items).value; Keyed(AsItems(r)) && StillServes(AsItems(r), r)
  {
    var x, ids := ById(items), IdsOf(catalog);
    var f, u := Foreign(x.keys, x.at, ids), Upserts(catalog, x.at);
    ForeignReconciles(items, ids);
    UpsertsReconcile(catalog, items);
    BuiltDistinct(catalog, f, u, items);
    AllHaveIds(catalog, f, u, items);
    BuiltIndex(f + u);
    ByIdIndexes(AsItems(f + u));
  }

  // ---------------------------------------------------------------- drift that goes unnoticed

  // An existing service that the merge would leave as it is.
  ghost predicate Unchanged(d: Fields, e: Fields) {
    (forall key :: key in d ==> key in e && e[key] == d[key]) &&
    (forall key :: key in e ==> key in d || key in RUNTIME_KEYS)
  }

  lemma {:induction false} UpsertFixedIff(d: Fields, e: Fields)
    ensures Upsert(d, e) == e <==> Unchanged(d, e)
  {
    if Unchanged(d, e) {
      assert forall key :: key in Upsert(d, e) <==> key in e;
    } else if Upsert(d, e) == e {
      assert forall key :: key in d ==> key in e && e[key] == d[key];
    }
  }

  // An existing catalog service survives an update as it is exactly when it has the catalog's fields and drops none.
  lemma SurvivesIff(catalog: seq<Fields>, items: seq<Item>, i: nat, e: Fields)
    requires WellFormed(catalog) && Keyed(items) && i < |catalog| && IsLast(items, IdOf(catalog[i]), e)
    ensures Build(catalog, items).Some?
    ensures e in Build(catalog, items).value <==> Unchanged(catalog[i], e)
  {
    var x, ids := ById(items), IdsOf(catalog);
    var f, u := Foreign(x.keys, x.at, ids), Upserts(catalog, x.at);
    var d := catalog[i];
    ForeignReconciles(items, ids);
    UpsertsReconcile(catalog, items);
    BuiltDistinct(catalog, f, u, items);
    AllHaveIds(catalog, f, u, items);
    BuiltIndex(f + u);
    LastInIndex(items, IdOf(d), e);
    UpsertsAt(catalog, x.at, i);
    assert u[i] in u && u[i] in f + u;
    assert IdOf(u[i]) == IdOf(d) == IdOf(e);
    UpsertFixedIff(d, e);
    if e in f + u {
      assert e == MapOf(f + u)[IdOf(e)] == u[i];
    }
  }

  // A change to a field that is neither checked nor the server's own is never written back: no update is found due.
  lemma DriftGoesUnnoticed(catalog: Catalog, i: nat, key: string, v: Value)
    requires WellFormed(catalog.services) && i < |catalog.services|
    requires key !in CHECK_KEYS && key != ID && !(key in catalog.services[i] && catalog.services[i][key] == v)
    ensures var services := Edited(catalog.services, i, key, v);
      var e, edited := services[i], DesiredRegistry(catalog, services);
      Keyed(edited.services) && Build(catalog.services, edited.services).Some? &&
      var built := Build(catalog.services, edited.services).value;
      AllKeyed(built) && !NeedsUpdate(edited, catalog, built) &&
          (key in catalog.services[i] || key !in RUNTIME_KEYS ==> e !in built)
  {
    var services := Edited(catalog.services, i, key, v);
    OwnServices(services);
    EditedIsUpToDate(catalog.services, i, key, v);
    NeedsUpdateIff(catalog, DesiredRegistry(catalog, services));
    var d, e := catalog.services[i], services[i];
    assert IdOf(e) == IdOf(d);
    SurvivesIff(catalog.services, AsItems(services), i, e);
    if key in d || key !in RUNTIME_KEYS {
      assert !Unchanged(d, e);
    }
  }

  lemma EditedIsUpToDate(catalog: seq<Fields>, i: nat, key: string, v: Value)
    requires WellFormed(catalog) && i < |catalog| && key !in CHECK_KEYS && key != ID
    ensures UpToDate(catalog, AsItems(Edited(catalog, i, key, v)))
  {
    var services := Edited(catalog, i, key, v);
    OwnServices(services);
    forall j | 0 <= j < |catalog| ensures Present(catalog[j], AsItems(services)) {
      EditAgrees(catalog[j], key, v);
      assert IsLast(AsItems(services), IdOf(services[j]), services[j]);
    }
  }

  lemma EditAgrees(d: Fields, key: string, v: Value)
    ensures key !in CHECK_KEYS ==> Agree(d, d[key := v])
  {
  }

  ghost function Edited(services: seq<Fields>, i: nat, key: string, v: Value): (r: seq<Fields>)
    requires WellFormed(services) && i < |services| && key != ID
    ensures WellFormed(r)
  {
    var r := services[i := services[i][key := v]];
    assert forall j :: 0 <= j < |r| ==> HasId(services[j]) && HasId(r[j]) && r[j][ID] == services[j][ID];
    r
  }

  lemma OwnServices(s: seq<Fields>)
    requires WellFormed(s)
    ensures Keyed(AsItems(s)) && forall i :: 0 <= i < |s| ==> IsLast(AsItems(s), IdOf(s[i]), s[i])
  {
    CatalogDistinct(s);
    BuiltIndex(s);
    ByIdIndexes(AsItems(s));
    forall i | 0 <= i < |s| ensures IsLast(AsItems(s), IdOf(s[i]), s[i]) {
      assert s[i] in s;
    }
  }
}
