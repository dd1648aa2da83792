/** Which registries a build leaves as they are, and so which are left alone although a build would change them. */
module RegistryDrift {
  import opened Common
  import opened RegistrySpec
  import opened RegistryMerge
  import opened RegistryUpdates

  // ---------------------------------------------------------------- fixed lists

  // The services of the catalog, in its order, each with all of its fields and no others but runtime ones.
  ghost predicate CatalogPart(catalog: seq<Fields>, u: seq<Fields>) {
    IdSeq(u) == IdSeq(catalog) && forall i {:trigger u[i]} :: 0 <= i < |u| == |catalog| ==> Unchanged(catalog[i], u[i])
  }

  // Distinct services: those that are not in the catalog first, then the catalog's.
  ghost predicate Reconciled(catalog: seq<Fields>, s: seq<Fields>)
    requires AllKeyed(catalog)
  {
    var n := |s| - |catalog|;
    Distinct(IdSeq(s)) && 0 <= n && (forall k :: k in IdSeq(s[..n]) ==> k !in IdsOf(catalog)) &&
    CatalogPart(catalog, s[n..])
  }

  // The list holds nothing but services, and these are reconciled.
  ghost predicate FixedList(catalog: seq<Fields>, items: seq<Item>)
    requires AllKeyed(catalog)
  {
    exists s :: items == AsItems(s) && Reconciled(catalog, s)
  }

  // A built list is reconciled.
  lemma {:induction false} BuiltIsReconciled(catalog: seq<Fields>, items: seq<Item>)
    requires WellFormed(catalog) && Keyed(items)
    ensures Build(catalog, items).Some? && Reconciled(catalog, Build(catalog, items).value)
  {
    var x, ids := ById(items), IdsOf(catalog);
    var f, u := Foreign(x.keys, x.at, ids), Upserts(catalog, x.at);
    ForeignReconciles(items, ids);
    UpsertsReconcile(catalog, items);
    BuiltDistinct(catalog, f, u, items);
    UpsertsLast(catalog, x.at);
    forall i {:trigger u[i]} | 0 <= i < |u| ensures Unchanged(catalog[i], u[i]) {
      UpsertsAt(catalog, x.at, i);
    }
    var s := f + u;
    var n := |s| - |catalog|;
    assert s[..n] == f && s[n..] == u;
  }

  // Building leaves reconciled services as they are.
  lemma {:induction false} ReconciledStays(catalog: seq<Fields>, s: seq<Fields>)
    requires WellFormed(catalog) && AllKeyed(s) && Reconciled(catalog, s)
    ensures Keyed(AsItems(s)) && Build(catalog, AsItems(s)) == Some(s)
  {
    var n := |s| - |catalog|;
    var f, u := s[..n], s[n..];
    assert s == f + u;
    IdSeqJoin(f, u);
    BuiltIndex(s);
    forall g | g in f ensures IdOf(g) in MapOf(s) && MapOf(s)[IdOf(g)] == g {
      assert g in s;
    }
    RebuiltForeign(catalog, f, MapOf(s));
    FixedUpserts(catalog, u, MapOf(s));
  }

  lemma {:induction false} FixedUpserts(catalog: seq<Fields>, u: seq<Fields>, at: map<Value, Fields>)
    requires AllKeyed(catalog) && CatalogPart(catalog, u)
    requires forall g :: g in u ==> IdOf(g) in at && at[IdOf(g)] == g
    ensures Upserts(catalog, at) == u
  {
    UpsertsLast(catalog, at);
    assert |IdSeq(u)| == |IdSeq(catalog)|;
    forall i | 0 <= i < |u| ensures Upserts(catalog, at)[i] == u[i] {
      UpsertsAt(catalog, at, i);
      assert u[i] in u && IdSeq(u)[i] == IdSeq(catalog)[i];
      UpsertFixedIff(catalog[i], u[i]);
    }
  }

  // Exactly the lists that a build leaves as they are.
  lemma {:induction false} BuildFixesIff(catalog: seq<Fields>, items: seq<Item>)
    requires WellFormed(catalog) && Keyed(items)
    ensures Build(catalog, items).Some?
    ensures AsItems(Build(catalog, items).value) == items <==> FixedList(catalog, items)
  {
    BuiltIsReconciled(catalog, items);
    if FixedList(catalog, items) {
      var s :| items == AsItems(s) && Reconciled(catalog, s);
      ServicesKeyed(s);
      ReconciledStays(catalog, s);
    }
  }

  lemma {:induction false} ServicesKeyed(s: seq<Fields>)
    requires Keyed(AsItems(s))
    ensures AllKeyed(s)
  {
    forall i | 0 <= i < |s| ensures HasId(s[i]) {
      assert AsItems(s)[i] == Service(s[i]);
    }
  }

  // ---------------------------------------------------------------- registries left alone

  // A run leaves a registry alone although a build would change its services exactly when the checked fields and the
  // defaults agree and the list is not fixed.
  lemma {:induction false} MissedUpdateIff(catalog: Catalog, current: Registry)
    requires WellFormed(catalog.services) && Keyed(current.services)
    ensures Build(catalog.services, current.services).Some?
    ensures var built := Build(catalog.services, current.services).value;
      AllKeyed(built) &&
      (!NeedsUpdate(current, catalog, built) && AsItems(built) != current.services <==>
        UpToDate(catalog.services, current.services) && SameDefaults(current, DesiredRegistry(catalog, built)) &&
        !FixedList(catalog.services, current.services))
  {
    NeedsUpdateIff(catalog, current);
    BuildFixesIff(catalog.services, current.services);
  }
}
