/**
 The signing-registry reconciler: merge a catalog of desired services into the services a gateway has, and decide
 whether the gateway needs an update.
 */
module RegistrySpec {
  import opened Common

  // Values of a service's fields; lists cannot serve as identifiers.
  datatype Value = Null | Text(text: string) | Texts(texts: seq<string>) | Number(n: int)

  type Fields = map<string, Value>

  datatype Item = Service(fields: Fields) | NotAService

  datatype Registry = Registry(
    services: seq<Item>,
    defaultServiceId: Option<string>,
    formatDefaults: Option<map<string, string>>,
    typeDefaults: Option<map<string, string>>)

  datatype Catalog = Catalog(
    services: seq<Fields>,
    defaultServiceId: string,
    formatDefaults: map<string, string>,
    typeDefaults: map<string, string>)

  const ID := "id"

  const RUNTIME_KEYS: seq<string> := ["created_at", "updated_at", "discovered_capabilities", "status", "x5c"]

  const CHECK_KEYS: seq<string> :=
    ["key_reference", "algorithms", "key_purposes", "credential_formats", "service_type", "endpoint", "mount",
        "auth_mode"]

  // A missing field reads like a null one.
  function Get(f: Fields, key: string): Value {
    if key in f then f[key] else Null
  }

  predicate HasId(f: Fields) {
    ID in f && !f[ID].Texts?
  }

  predicate Keyed(items: seq<Item>) {
    forall i :: 0 <= i < |items| && items[i].Service? ==> HasId(items[i].fields)
  }

  predicate WellFormed(catalog: seq<Fields>) {
    (forall i :: 0 <= i < |catalog| ==> HasId(catalog[i])) &&
    (forall i, j :: 0 <= i < j < |catalog| ==> catalog[i][ID] != catalog[j][ID])
  }

  // A dictionary by identifier: keys in order of first insertion, the last service inserted under each.
  datatype Index = Index(keys: seq<Value>, at: map<Value, Fields>)

  function Insert(x: Index, f: Fields): Index
    requires HasId(f)
  {
    Index(if f[ID] in x.at then x.keys else x.keys + [f[ID]], x.at[f[ID] := f])
  }

  function ById(items: seq<Item>): Index
    requires Keyed(items)
  {
    if items == [] then Index([], map[])
    else
      var rest := ById(items[..|items| - 1]);
      match items[|items| - 1]
      case NotAService => rest
      case Service(f) => Insert(rest, f)
  }

  function IdsOf(services: seq<Fields>): set<Value>
    requires forall i :: 0 <= i < |services| ==> HasId(services[i])
  {
    set i | 0 <= i < |services| && ID in services[i] :: services[i][ID]
  }

  // The services whose identifiers are not in the catalog, in order.
  function Foreign(keys: seq<Value>, at: map<Value, Fields>, ids: set<Value>): seq<Fields> {
    if keys == [] then []
    else
      var k := keys[|keys| - 1];
      Foreign(keys[..|keys| - 1], at, ids) + (if k in at && k !in ids then [at[k]] else [])
  }

  function Upsert(desired: Fields, existing: Fields): Fields {
    map k | k in desired.Keys + existing.Keys && (k in desired || k in RUNTIME_KEYS) ::
      if k in desired then desired[k] else existing[k]
  }

  function Existing(at: map<Value, Fields>, id: Value): Fields {
    if id in at then at[id] else map[]
  }

  function Upserts(catalog: seq<Fields>, at: map<Value, Fields>): seq<Fields>
    requires forall i :: 0 <= i < |catalog| ==> HasId(catalog[i])
  {
    if catalog == [] then []
    else
      var d := catalog[|catalog| - 1];
      assert HasId(d);
      Upserts(catalog[..|catalog| - 1], at) + [Upsert(d, Existing(at, d[ID]))]
  }

  // The merged services; None for the exception a service without a usable identifier raises.
  function Build(catalog: seq<Fields>, items: seq<Item>): Option<seq<Fields>>
    requires WellFormed(catalog)
  {
    if !Keyed(items) then None
    else
      var x := ById(items);
      Some(Foreign(x.keys, x.at, IdsOf(catalog)) + Upserts(catalog, x.at))
  }

  function AsItems(services: seq<Fields>): seq<Item> {
    seq(|services|, i requires 0 <= i < |services| => Service(services[i]))
  }

  function DesiredRegistry(catalog: Catalog, services: seq<Fields>): Registry {
    Registry(AsItems(services), Some(catalog.defaultServiceId), Some(catalog.formatDefaults),
        Some(catalog.typeDefaults))
  }

  predicate SameDefaults(a: Registry, b: Registry) {
    a.formatDefaults == b.formatDefaults && a.typeDefaults == b.typeDefaults && a.defaultServiceId == b.defaultServiceId
  }

  predicate Agree(desired: Fields, current: Fields) {
    forall k :: k in CHECK_KEYS ==> Get(desired, k) == Get(current, k)
  }

  // Some desired service is missing from the current registry.
  predicate Lacks(have: map<Value, Fields>, desired: seq<Fields>)
    requires forall i :: 0 <= i < |desired| ==> HasId(desired[i])
  {
    exists i :: 0 <= i < |desired| && (assert HasId(desired[i]); desired[i][ID] !in have)
  }

  // Some desired service differs from its current counterpart in a field that is checked.
  predicate Differs(have: map<Value, Fields>, desired: seq<Fields>)
    requires forall i :: 0 <= i < |desired| ==> HasId(desired[i])
  {
    exists i :: 0 <= i < |desired| &&
        (assert HasId(desired[i]); desired[i][ID] in have && !Agree(desired[i], have[desired[i][ID]]))
  }

  // Does a registry need the update to these desired services and the catalog's defaults?
  predicate NeedsUpdate(current: Registry, catalog: Catalog, desired: seq<Fields>)
    requires Keyed(current.services)
    requires forall i :: 0 <= i < |desired| ==> HasId(desired[i])
  {
    var have := ById(current.services).at;
    Lacks(have, desired) || !SameDefaults(current, DesiredRegistry(catalog, desired)) || Differs(have, desired)
  }
}
