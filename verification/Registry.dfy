/** The merge as it is carried out: dictionaries filled and a list appended to, loop by loop. */
module Registry {
  import opened Common
  import opened RegistrySpec

  // The last service under each identifier; fails on a service without a usable one.
  method IndexServices(items: seq<Item>) returns (x: Option<Index>)
    ensures x == if Keyed(items) then Some(ById(items)) else None
  {
    var keys: seq<Value>, at: map<Value, Fields> := [], map[];
    for n := 0 to |items|
      invariant Keyed(items[..n]) && Index(keys, at) == ById(items[..n])
    {
      assert items[..n + 1][..n] == items[..n];
      match items[n]
      case NotAService =>
      case Service(f) =>
        if ID !in f || f[ID].Texts? {
          assert !HasId(items[n].fields);
          return None;
        }
        if f[ID] !in at {
          keys := keys + [f[ID]];
        }
        at := at[f[ID] := f];
    }
    assert items[..|items|] == items;
    x := Some(Index(keys, at));
  }

  // A desired service with the runtime fields only the existing one has.
  method MergeService(desired: Fields, existing: Fields) returns (merged: Fields)
    ensures merged == Upsert(desired, existing)
  {
    var runtimeKeys := ["created_at", "updated_at", "discovered_capabilities", "status", "x5c"];
    merged := desired;
    for n := 0 to |runtimeKeys|
      invariant forall k :: k in merged <==> k in desired || (k in runtimeKeys[..n] && k in existing)
      invariant forall k :: k in merged ==> merged[k] == if k in desired then desired[k] else existing[k]
    {
      var key := runtimeKeys[n];
      if key in existing && key !in merged {
        merged := merged[key := existing[key]];
      }
      assert runtimeKeys[..n + 1] == runtimeKeys[..n] + [key];
    }
    assert runtimeKeys[..|runtimeKeys|] == runtimeKeys == RUNTIME_KEYS;
  }

  // The existing services that are not in the catalog, in order.
  method KeepForeign(x: Index, ids: set<Value>) returns (merged: seq<Fields>)
    ensures merged == Foreign(x.keys, x.at, ids)
  {
    merged := [];
    for n := 0 to |x.keys|
      invariant merged == Foreign(x.keys[..n], x.at, ids)
    {
      assert x.keys[..n + 1][..n] == x.keys[..n];
      var k := x.keys[n];
      if k in x.at && k !in ids {
        merged := merged + [x.at[k]];
      }
    }
    assert x.keys[..|x.keys|] == x.keys;
  }

  // The catalog's services, merged, after those kept.
  method UpsertCatalog(catalog: seq<Fields>, at: map<Value, Fields>, kept: seq<Fields>) returns (merged: seq<Fields>)
    requires forall i :: 0 <= i < |catalog| ==> HasId(catalog[i])
    ensures merged == kept + Upserts(catalog, at)
  {
    merged := kept;
    for n := 0 to |catalog|
      invariant merged == kept + Upserts(catalog[..n], at)
    {
      assert catalog[..n + 1][..n] == catalog[..n];
      var desired := catalog[n];
      assert HasId(desired);
      var existing := if desired[ID] in at then at[desired[ID]] else map[];
      var service := MergeService(desired, existing);
      merged := merged + [service];
    }
    assert catalog[..|catalog|] == catalog;
  }

  method BuildDesiredRegistry(catalog: seq<Fields>, items: seq<Item>) returns (r: Option<seq<Fields>>)
    requires WellFormed(catalog)
    ensures r == Build(catalog, items)
  {
    var index := IndexServices(items);
    if index.None? {
      return None;
    }
    var x := index.value;
    var ids := set i | 0 <= i < |catalog| && ID in catalog[i] :: catalog[i][ID];
    var kept := KeepForeign(x, ids);
    var merged := UpsertCatalog(catalog, x.at, kept);
    r := Some(merged);
  }

  // Does this service read the same as its counterpart in every field that is checked?
  method ChecksOut(desired: Fields, current: Fields) returns (same: bool)
    ensures same <==> Agree(desired, current)
  {
    var checkKeys := ["key_reference", "algorithms", "key_purposes", "credential_formats", "service_type", "endpoint",
                      "mount", "auth_mode"];
    assert checkKeys == CHECK_KEYS;
    for n := 0 to |checkKeys|
      invariant forall i :: 0 <= i < n ==> Get(desired, checkKeys[i]) == Get(current, checkKeys[i])
    {
      var key := checkKeys[n];
      var a := if key in desired then desired[key] else Null;
      var b := if key in current then current[key] else Null;
      if a != b {
        assert key in CHECK_KEYS && Get(desired, key) != Get(current, key);
        return false;
      }
    }
    return true;
  }

  // The decision whether to update, in the order of its tests.
  method RegistryNeedsUpdate(current: Registry, catalog: Catalog, desired: seq<Fields>) returns (due: bool)
    requires Keyed(current.services)
    requires forall i :: 0 <= i < |desired| ==> HasId(desired[i])
    ensures due <==> NeedsUpdate(current, catalog, desired)
  {
    var index := IndexServices(current.services);
    var have := index.value.at;
    for n := 0 to |desired|
      invariant forall i :: 0 <= i < n ==> HasId(desired[i]) && desired[i][ID] in have
    {
      assert HasId(desired[n]);
      if desired[n][ID] !in have {
        return true;
      }
    }
    if current.formatDefaults != Some(catalog.formatDefaults) || current.typeDefaults != Some(catalog.typeDefaults) ||
       current.defaultServiceId != Some(catalog.defaultServiceId) {
      return true;
    }
    for n := 0 to |desired|
      invariant forall i :: 0 <= i < n ==> HasId(desired[i]) && Agree(desired[i], have[desired[i][ID]])
    {
      assert HasId(desired[n]);
      var same := ChecksOut(desired[n], have[desired[n][ID]]);
      if !same {
        return true;
      }
    }
    return false;
  }
}
