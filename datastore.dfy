/** The Datastore of MolnsLib/molns_datastore: the Provider, Controller and
    WorkerGroup tables with their key/value side tables and the Instance table,
    held in memory as sequences of rows in rowid order, and the operations that
    list, create, hydrate, save and delete configuration objects. */
module MolnsDatastore {
  import opened Results
  import opened Rows
  import opened ProviderHandles
  import opened ExtensionRows
  import opened Instances

  /** A row of `providers`, `controllers` or `worker_groups`. The Provider table
      has no provider_id column and only WorkerGroup has controller_id; a column
      a table lacks is None here. */
  datatype EntityRow = EntityRow(id: int, name: string, ptype: string, providerId: Option<int>, controllerId: Option<int>)

  function EntityId(e: EntityRow): int
  {
    e.id
  }

  /** `filter_by(name=name)`. */
  function HasName(name: string): EntityRow -> bool
  {
    (e: EntityRow) => e.name == name
  }

  /** `filter_by(id=id)`. */
  function HasEntityId(id: int): EntityRow -> bool
  {
    (e: EntityRow) => e.id == id
  }

  predicate HasProviderColumn(k: Kind)
  {
    k != Provider
  }

  predicate HasControllerColumn(k: Kind)
  {
    k == WorkerGroup
  }

  /** A row of kind `k` carries nothing in the columns its table lacks. */
  predicate ColumnsFit(k: Kind, e: EntityRow)
  {
    (!HasProviderColumn(k) ==> e.providerId.None?) && (!HasControllerColumn(k) ==> e.controllerId.None?)
  }

  /** The entity table and the side table of one kind (HANDLE_MAPPING[kind]). */
  datatype KindTable = KindTable(rows: seq<EntityRow>, data: seq<DataRow>)

  /** An optional attribute of a configuration object: absent from its
      `__dict__`, or present with a (possibly None) value. */
  datatype Attr = Unset | Set(value: Option<int>)

  /** A configuration object as the datastore sees it: the handler class that
      built it, its name and provider type, the id it was loaded from, its
      extension mapping `config`, and the optional provider_id/controller_id. */
  datatype Config = Config(
    name: string,
    ptype: string,
    handle: Handle,
    id: Option<int>,
    config: map<string, string>,
    providerId: Attr,
    controllerId: Attr)

  /** The entity-table invariant: rowids increase, names are unique within the
      kind, and columns the table lacks stay empty. */
  ghost predicate RowsValid(k: Kind, rows: seq<EntityRow>)
  {
    && (forall i, j :: 0 <= i < j < |rows| ==> rows[i].id < rows[j].id)
    && (forall i, j :: 0 <= i < j < |rows| ==> rows[i].name != rows[j].name)
    && (forall e :: e in rows ==> ColumnsFit(k, e))
  }

  /** The invariant of one kind's tables: the entity-table invariant, and the
      side-table rows of every parent form a mapping (one row per key). */
  ghost predicate TableValid(k: Kind, t: KindTable)
  {
    RowsValid(k, t.rows) && forall pid :: NamesDistinct(RowsOf(t.data, pid))
  }

  /** Copying provider_id/controller_id from the configuration object onto the
      row, where the object has the attribute and the table has the column. */
  function WithRefs(k: Kind, row: EntityRow, cfg: Config): EntityRow
  {
    var r1 := if cfg.providerId.Set? && HasProviderColumn(k) then row.(providerId := cfg.providerId.value) else row;
    if cfg.controllerId.Set? && HasControllerColumn(k) then r1.(controllerId := cfg.controllerId.value) else r1
  }

  /** The row already carries the attributes `cfg` would copy onto it. */
  ghost predicate RefsApplied(k: Kind, row: EntityRow, cfg: Config)
  {
    && (cfg.providerId.Set? && HasProviderColumn(k) ==> row.providerId == cfg.providerId.value)
    && (cfg.controllerId.Set? && HasControllerColumn(k) ==> row.controllerId == cfg.controllerId.value)
  }

  /** The id of the row a save of `name` writes: the existing row's, or a fresh rowid. */
  function UpsertedId(rows: seq<EntityRow>, name: string): int
  {
    match FirstWhere(rows, HasName(name))
    case Some(i) => rows[i].id
    case None => FreshId(rows, EntityId)
  }

  /** The entity part of `__save_molns_object`: insert a row named `cfg.name`
      with `cfg.ptype` when there is none, then copy the reference attributes. */
  function UpsertRows(k: Kind, rows: seq<EntityRow>, cfg: Config): (r: seq<EntityRow>)
    ensures FirstWhere(rows, HasName(cfg.name)).Some? ==> |r| == |rows|
    ensures FirstWhere(rows, HasName(cfg.name)).None? ==>
      && |r| == |rows| + 1
      && r[|rows|].name == cfg.name && r[|rows|].ptype == cfg.ptype
      && (forall e :: e in rows ==> e.id < r[|rows|].id)
    ensures forall i :: 0 <= i < |rows| ==> r[i].id == rows[i].id && r[i].name == rows[i].name && r[i].ptype == rows[i].ptype
    ensures forall i :: 0 <= i < |rows| && rows[i].name != cfg.name ==> r[i] == rows[i]
    ensures forall i :: 0 <= i < |rows| && rows[i].name == cfg.name ==>
      && ((cfg.providerId.Unset? || !HasProviderColumn(k)) ==> r[i].providerId == rows[i].providerId)
      && ((cfg.controllerId.Unset? || !HasControllerColumn(k)) ==> r[i].controllerId == rows[i].controllerId)
    ensures FirstWhere(rows, HasName(cfg.name)).None? ==>
      && ((cfg.providerId.Unset? || !HasProviderColumn(k)) ==> r[|rows|].providerId.None?)
      && ((cfg.controllerId.Unset? || !HasControllerColumn(k)) ==> r[|rows|].controllerId.None?)
    ensures FirstWhere(r, HasName(cfg.name)).Some?
    ensures var i := FirstWhere(r, HasName(cfg.name)).value;
      r[i].id == UpsertedId(rows, cfg.name) && RefsApplied(k, r[i], cfg)
  {
    match FirstWhere(rows, HasName(cfg.name))
    case Some(i) => rows[i := WithRefs(k, rows[i], cfg)]
    case None => rows + [WithRefs(k, EntityRow(FreshId(rows, EntityId), cfg.name, cfg.ptype, None, None), cfg)]
  }

  /** Upserting keeps the entity-table invariant. */
  lemma UpsertKeepsRowsValid(k: Kind, rows: seq<EntityRow>, cfg: Config)
    requires RowsValid(k, rows)
    ensures RowsValid(k, UpsertRows(k, rows, cfg))
  {
    var r := UpsertRows(k, rows, cfg);
    match FirstWhere(rows, HasName(cfg.name))
    case Some(i) =>
      forall e | e in r ensures ColumnsFit(k, e) {
        var j :| 0 <= j < |r| && r[j] == e;
        assert rows[j] in rows;
      }
    case None =>
      forall a, b | 0 <= a < b < |r| ensures r[a].id < r[b].id && r[a].name != r[b].name {
        if b == |rows| {
          assert rows[a] in rows;
        }
      }
      forall e | e in r ensures ColumnsFit(k, e) {
        var j :| 0 <= j < |r| && r[j] == e;
        if j < |rows| { assert rows[j] in rows; }
      }
  }

  /** Deleting a row keeps the entity-table invariant. */
  lemma RemoveKeepsRowsValid(k: Kind, rows: seq<EntityRow>, x: nat)
    requires RowsValid(k, rows) && x < |rows|
    ensures RowsValid(k, RemoveAt(rows, x))
    ensures forall e :: e in RemoveAt(rows, x) ==> e.name != rows[x].name && e.id != rows[x].id
  {
    var r := RemoveAt(rows, x);
    forall a, b | 0 <= a < b < |r| ensures r[a].id < r[b].id && r[a].name != r[b].name {
      var a' := if a < x then a else a + 1;
      var b' := if b < x then b else b + 1;
      assert r[a] == rows[a'] && r[b] == rows[b'];
    }
    forall e | e in r ensures ColumnsFit(k, e) && e.name != rows[x].name && e.id != rows[x].id {
      var j :| 0 <= j < |r| && r[j] == e;
      var j' := if j < x then j else j + 1;
      assert e == rows[j'] && j' != x;
      assert rows[j'] in rows;
    }
  }

  /** `cfg` is what the tables hold for its name: a row of that name carries
      its reference attributes, and that row's side-table rows are exactly
      `cfg.config`, one per key. */
  ghost predicate Saved(k: Kind, t: KindTable, cfg: Config)
  {
    var f := FirstWhere(t.rows, HasName(cfg.name));
    f.Some? && RefsApplied(k, t.rows[f.value], cfg) && Represents(t.data, t.rows[f.value].id, cfg.config)
  }

  /** `_get_object_data` for the row `row` of kind `k`: the handler for the
      row's type, built with the row's name and the mapping of its side-table
      rows. Back-references are not part of this model. */
  function Hydration(registry: Registry, k: Kind, t: KindTable, row: EntityRow): Result<Config, DatastoreError>
  {
    match GetProviderHandle(registry, KindName(k), row.ptype)
    case Err(e) => Err(e)
    case Ok(h) => Ok(Config(row.name, row.ptype, h, Some(row.id), MappingOf(t.data, row.id), Unset, Unset))
  }

  /** A hydrated object is already saved: saving it back changes nothing. */
  lemma HydrationIsSaved(registry: Registry, k: Kind, t: KindTable, i: nat)
    requires TableValid(k, t) && i < |t.rows|
    requires Hydration(registry, k, t, t.rows[i]).Ok?
    ensures Saved(k, t, Hydration(registry, k, t, t.rows[i]).value)
  {
    var f := FirstWhere(t.rows, HasName(t.rows[i].name));
    assert HasName(t.rows[i].name)(t.rows[i]);
    assert f.Some? && f.value <= i;
    assert f == Some(i);
  }

  /** Round trip: hydrating the row of a saved object gives back its name and
      mapping, with the row's id. */
  lemma SavedHydratesBack(registry: Registry, k: Kind, t: KindTable, cfg: Config)
    requires Saved(k, t, cfg)
    ensures var row := t.rows[FirstWhere(t.rows, HasName(cfg.name)).value];
      var h := Hydration(registry, k, t, row);
      h.Ok? ==> h.value.name == cfg.name && h.value.config == cfg.config && h.value.id == Some(row.id)
  {
    var i := FirstWhere(t.rows, HasName(cfg.name)).value;
    assert HasName(cfg.name)(t.rows[i]);
  }

  /** Saving an object that is already saved leaves the entity rows as they are. */
  lemma UpsertOfSaved(k: Kind, t: KindTable, cfg: Config)
    requires Saved(k, t, cfg)
    ensures UpsertRows(k, t.rows, cfg) == t.rows
  {
    var i := FirstWhere(t.rows, HasName(cfg.name)).value;
    assert WithRefs(k, t.rows[i], cfg) == t.rows[i];
  }

  /** The loop of `_get_object_data`: `data[d.name] = d.value` over the rows
      of `pid`, in table order. */
  method CollectData(rows: seq<DataRow>, pid: int) returns (data: map<string, string>)
    ensures data == MappingOf(rows, pid)
  {
    var pData := RowsOf(rows, pid);
    data := map[];
    var i := 0;
    while i < |pData|
      invariant 0 <= i <= |pData|
      invariant data == ToMap(pData[..i])
    {
      ToMapPrefix(pData, i);
      data := data[pData[i].name := pData[i].value];
      i := i + 1;
    }
    assert pData[..i] == pData;
  }

  /** The first loop of `__save_molns_object`: rows of `pid` whose key the
      mapping keeps take its value, the other rows of `pid` are deleted, and
      what is left of the mapping is returned as pending. */
  method UpdateKeptRows(data: seq<DataRow>, pid: int, config: map<string, string>)
    returns (kept: seq<DataRow>, pending: map<string, string>)
    ensures (kept, pending) == Diff(data, pid, config)
  {
    kept := [];
    pending := config;
    var j := 0;
    while j < |data|
      invariant 0 <= j <= |data|
      invariant (kept, pending) == Diff(data[..j], pid, config)
    {
      var d := data[j];
      assert data[..j + 1] == data[..j] + [d];
      assert (data[..j] + [d])[..j] == data[..j];
      if d.parentId == pid {
        if d.name in pending {
          kept := kept + [d.(value := pending[d.name])];
          pending := pending - {d.name};
        }
      } else {
        kept := kept + [d];
      }
      j := j + 1;
    }
    assert data[..j] == data;
  }

  /** The second loop of `__save_molns_object`: a new row of `pid` for every
      pending key, each with a fresh rowid. */
  method InsertPending(kept: seq<DataRow>, pid: int, pending: map<string, string>, config: map<string, string>)
    returns (cur: seq<DataRow>)
    requires Accounts(kept, pid, pending, config)
    ensures Represents(cur, pid, config)
    ensures forall q :: q != pid ==> RowsOf(cur, q) == RowsOf(kept, q)
    ensures pending == map[] ==> cur == kept
  {
    cur := kept;
    var left := pending;
    while left != map[]
      invariant Accounts(cur, pid, left, config)
      invariant forall q :: q != pid ==> RowsOf(cur, q) == RowsOf(kept, q)
      invariant left.Keys <= pending.Keys
      invariant pending == map[] ==> cur == kept
      decreases left.Keys
    {
      var key :| key in left;
      var x := DataRow(FreshId(cur, DataRowId), pid, key, left[key]);
      InsertStep(kept, cur, pid, left, config, x);
      cur := cur + [x];
      left := left - {key};
    }
    NothingPending(cur, pid, left, config);
  }

  /** With nothing left pending, the rows of `pid` are the whole mapping. */
  lemma NothingPending(s: seq<DataRow>, pid: int, left: map<string, string>, config: map<string, string>)
    requires Accounts(s, pid, left, config) && left == map[]
    ensures Represents(s, pid, config)
  {
    assert MappingOf(s, pid) + left == MappingOf(s, pid);
  }

  /** One pass of the insert loop, relative to the rows the loop started from. */
  lemma InsertStep(kept: seq<DataRow>, cur: seq<DataRow>, pid: int, left: map<string, string>, config: map<string, string>, x: DataRow)
    requires Accounts(cur, pid, left, config)
    requires forall q :: q != pid ==> RowsOf(cur, q) == RowsOf(kept, q)
    requires x.parentId == pid && x.name in left && x.value == left[x.name]
    ensures Accounts(cur + [x], pid, left - {x.name}, config)
    ensures forall q :: q != pid ==> RowsOf(cur + [x], q) == RowsOf(kept, q)
  {
    AddRow(cur, pid, left, config, x);
  }

  /** The side-table part of `__save_molns_object` for the parent `pid`: the
      rows of `pid` become exactly `config`, rows of other parents are
      untouched, and a table that already holds `config` is left as it is. */
  method SyncData(data: seq<DataRow>, pid: int, config: map<string, string>) returns (cur: seq<DataRow>)
    ensures Represents(cur, pid, config)
    ensures forall q :: q != pid ==> RowsOf(cur, q) == RowsOf(data, q)
    ensures (forall q :: NamesDistinct(RowsOf(data, q))) ==> forall q :: NamesDistinct(RowsOf(cur, q))
    ensures Represents(data, pid, config) ==> cur == data
  {
    var kept, pending := UpdateKeptRows(data, pid, config);
    DiffAccounts(data, pid, config);
    cur := InsertPending(kept, pid, pending, config);
    if Represents(data, pid, config) {
      DiffOfRepresented(data, pid, config);
    }
    if forall q :: NamesDistinct(RowsOf(data, q)) {
      forall q ensures NamesDistinct(RowsOf(cur, q)) {
        if q != pid {
          assert RowsOf(cur, q) == RowsOf(data, q);
        }
      }
    }
  }

  /** The datastore: one in-memory table per kind and the Instance table. The
      registry stands for the handler classes the provider packages expose. */
  class Datastore {
    const registry: Registry
    var providers: KindTable
    var controllers: KindTable
    var workerGroups: KindTable
    var instances: seq<InstanceRow>

    /** HANDLE_MAPPING[kind]. */
    function TableOf(k: Kind): KindTable
      reads this
    {
      match k
      case Provider => providers
      case Controller => controllers
      case WorkerGroup => workerGroups
    }

    ghost predicate Valid()
      reads this
    {
      (forall k: Kind :: TableValid(k, TableOf(k))) && InstancesValid(instances)
    }

    /** A datastore over a new, empty database file. */
    constructor (registry: Registry)
      ensures Valid() && this.registry == registry
      ensures forall k: Kind :: TableOf(k) == KindTable([], [])
      ensures instances == []
    {
      this.registry := registry;
      providers := KindTable([], []);
      controllers := KindTable([], []);
      workerGroups := KindTable([], []);
      instances := [];
      new;
      assert forall pid :: RowsOf([], pid) == [];
    }

    /** Commit the new tables of kind `k`. */
    method PutTable(k: Kind, t: KindTable)
      modifies this
      ensures TableOf(k) == t
      ensures forall j: Kind :: j != k ==> TableOf(j) == old(TableOf(j))
      ensures instances == old(instances)
    {
      match k
      case Provider => providers := t;
      case Controller => controllers := t;
      case WorkerGroup => workerGroups := t;
    }

    /** `list_objects(kind)`: all rows of the kind, un-hydrated. */
    function ListObjects(kind: string): (r: Result<seq<EntityRow>, DatastoreError>)
      reads this
      ensures ParseKind(kind).None? ==> r == Err(UnknownKind(kind))
      ensures ParseKind(kind).Some? ==> r == Ok(TableOf(ParseKind(kind).value).rows)
    {
      match ParseKind(kind)
      case None => Err(UnknownKind(kind))
      case Some(k) => Ok(TableOf(k).rows)
    }

    /** `create_object(ptype, name, kind, **kwargs)`: refuses a name already in
        use, resolves the handler and returns a new object with an empty
        mapping and the given reference attributes. Nothing is written. */
    function CreateObject(ptype: string, name: string, kind: string, providerId: Attr, controllerId: Attr): (r: Result<Config, DatastoreError>)
      reads this
      ensures ParseKind(kind).None? ==> r == Err(UnknownKind(kind))
      ensures ParseKind(kind).Some? && (exists i :: 0 <= i < |TableOf(ParseKind(kind).value).rows|
                                                 && TableOf(ParseKind(kind).value).rows[i].name == name)
              ==> r == Err(AlreadyExists(kind, name))
      ensures r.Ok? <==> ParseKind(kind).Some?
                         && (forall e :: e in TableOf(ParseKind(kind).value).rows ==> e.name != name)
                         && GetProviderHandle(registry, kind, ptype).Ok?
      ensures ParseKind(kind).Some? && (forall e :: e in TableOf(ParseKind(kind).value).rows ==> e.name != name)
              && GetProviderHandle(registry, kind, ptype).Err?
              ==> r == Err(GetProviderHandle(registry, kind, ptype).error)
      ensures r.Ok? ==> r.value == Config(name, ptype, GetProviderHandle(registry, kind, ptype).value, None, map[], providerId, controllerId)
    {
      match ParseKind(kind)
      case None => Err(UnknownKind(kind))
      case Some(k) =>
        if FirstWhere(TableOf(k).rows, HasName(name)).Some? then Err(AlreadyExists(kind, name))
        else
          match GetProviderHandle(registry, kind, ptype)
          case Err(e) => Err(e)
          case Ok(h) => Ok(Config(name, ptype, h, None, map[], providerId, controllerId))
    }

    /** `_get_object_data(d_handle, kind, row.type, row)`: builds the mapping
        from the row's side-table rows in a loop, then resolves the handler. */
    method Hydrate(k: Kind, row: EntityRow) returns (r: Result<Config, DatastoreError>)
      ensures r == Hydration(registry, k, TableOf(k), row)
    {
      var data := CollectData(TableOf(k).data, row.id);
      var h := GetProviderHandle(registry, KindName(k), row.ptype);
      if h.Err? {
        return Err(h.error);
      }
      r := Ok(Config(row.name, row.ptype, h.value, Some(row.id), data, Unset, Unset));
    }

    /** `get_object(name, kind)`. */
    method GetObject(name: string, kind: string) returns (r: Result<Config, DatastoreError>)
      requires Valid()
      ensures ParseKind(kind).None? ==> r == Err(UnknownKind(kind))
      ensures ParseKind(kind).Some? ==>
        var k := ParseKind(kind).value;
        match FirstWhere(TableOf(k).rows, HasName(name))
        case None => r == Err(NameNotFound(kind, name))
        case Some(i) => r == Hydration(registry, k, TableOf(k), TableOf(k).rows[i])
      ensures r.Ok? ==> r.value.name == name && Saved(ParseKind(kind).value, TableOf(ParseKind(kind).value), r.value)
    {
      var kk := ParseKind(kind);
      if kk.None? {
        return Err(UnknownKind(kind));
      }
      var k := kk.value;
      var f := FirstWhere(TableOf(k).rows, HasName(name));
      if f.None? {
        return Err(NameNotFound(kind, name));
      }
      r := Hydrate(k, TableOf(k).rows[f.value]);
      if r.Ok? {
        assert TableValid(k, TableOf(k));
        HydrationIsSaved(registry, k, TableOf(k), f.value);
      }
    }

    /** `get_object_by_id(obj_id, kind)` for the three kinds of HANDLE_MAPPING. */
    method GetObjectById(id: int, kind: string) returns (r: Result<Config, DatastoreError>)
      requires Valid()
      ensures ParseKind(kind).None? ==>
        r == Err(if kind in RemoteKinds then RemoteExecutionKind(kind) else UnknownKind(kind))
      ensures ParseKind(kind).Some? ==>
        var k := ParseKind(kind).value;
        match FirstWhere(TableOf(k).rows, HasEntityId(id))
        case None => r == Err(IdNotFound(kind, id))
        case Some(i) => r == Hydration(registry, k, TableOf(k), TableOf(k).rows[i])
      ensures r.Ok? ==> r.value.id == Some(id) && Saved(ParseKind(kind).value, TableOf(ParseKind(kind).value), r.value)
    {
      var kk := ParseKind(kind);
      if kk.None? {
        if kind in RemoteKinds {
          return Err(RemoteExecutionKind(kind));
        }
        return Err(UnknownKind(kind));
      }
      var k := kk.value;
      var f := FirstWhere(TableOf(k).rows, HasEntityId(id));
      if f.None? {
        return Err(IdNotFound(kind, id));
      }
      r := Hydrate(k, TableOf(k).rows[f.value]);
      if r.Ok? {
        assert TableValid(k, TableOf(k));
        HydrationIsSaved(registry, k, TableOf(k), f.value);
      }
    }

    /** `delete_object(name, kind)`: deletes the entity row, leaving its side-table rows. */
    method DeleteObject(name: string, kind: string) returns (r: Result<(), DatastoreError>)
      requires Valid()
      modifies this
      ensures Valid() && instances == old(instances)
      ensures ParseKind(kind).None? ==> r == Err(UnknownKind(kind)) && forall k: Kind :: TableOf(k) == old(TableOf(k))
      ensures ParseKind(kind).Some? ==>
        var k := ParseKind(kind).value;
        && (forall j: Kind :: j != k ==> TableOf(j) == old(TableOf(j)))
        && match FirstWhere(old(TableOf(k)).rows, HasName(name))
           case None => r == Err(NameNotFound(kind, name)) && TableOf(k) == old(TableOf(k))
           case Some(i) =>
             && r == Ok(())
             && TableOf(k) == KindTable(RemoveAt(old(TableOf(k)).rows, i), old(TableOf(k)).data)
             && forall e :: e in TableOf(k).rows ==> e.name != name
    {
      var kk := ParseKind(kind);
      if kk.None? {
        return Err(UnknownKind(kind));
      }
      var k := kk.value;
      var t := TableOf(k);
      var f := FirstWhere(t.rows, HasName(name));
      if f.None? {
        return Err(NameNotFound(kind, name));
      }
      assert TableValid(k, t);
      RemoveKeepsRowsValid(k, t.rows, f.value);
      PutTable(k, KindTable(RemoveAt(t.rows, f.value), t.data));
      r := Ok(());
      assert TableValid(k, TableOf(k));
    }

    /** `delete_object_by_id(obj_id, kind)` for the three kinds of HANDLE_MAPPING. */
    method DeleteObjectById(id: int, kind: string) returns (r: Result<(), DatastoreError>)
      requires Valid()
      modifies this
      ensures Valid() && instances == old(instances)
      ensures ParseKind(kind).None? ==>
        && r == Err(if kind in RemoteKinds then RemoteExecutionKind(kind) else UnknownKind(kind))
        && forall k: Kind :: TableOf(k) == old(TableOf(k))
      ensures ParseKind(kind).Some? ==>
        var k := ParseKind(kind).value;
        && (forall j: Kind :: j != k ==> TableOf(j) == old(TableOf(j)))
        && match FirstWhere(old(TableOf(k)).rows, HasEntityId(id))
           case None => r == Err(IdNotFound(kind, id)) && TableOf(k) == old(TableOf(k))
           case Some(i) =>
             && r == Ok(())
             && TableOf(k) == KindTable(RemoveAt(old(TableOf(k)).rows, i), old(TableOf(k)).data)
             && forall e :: e in TableOf(k).rows ==> e.id != id
    {
      var kk := ParseKind(kind);
      if kk.None? {
        if kind in RemoteKinds {
          return Err(RemoteExecutionKind(kind));
        }
        return Err(UnknownKind(kind));
      }
      var k := kk.value;
      var t := TableOf(k);
      var f := FirstWhere(t.rows, HasEntityId(id));
      if f.None? {
        return Err(IdNotFound(kind, id));
      }
      assert TableValid(k, t);
      RemoveKeepsRowsValid(k, t.rows, f.value);
      PutTable(k, KindTable(RemoveAt(t.rows, f.value), t.data));
      r := Ok(());
      assert TableValid(k, TableOf(k));
    }

    /** `save_object(config, kind)` for the three kinds of HANDLE_MAPPING
        (`__save_molns_object`): upsert the entity row by name, then make the
        side-table rows of that row exactly `config.config`. */
    method SaveObject(cfg: Config, kind: string) returns (r: Result<(), DatastoreError>)
      requires Valid()
      modifies this
      ensures Valid() && instances == old(instances)
      ensures ParseKind(kind).None? ==>
        && r == Err(if kind in RemoteKinds then RemoteExecutionKind(kind) else UnknownKind(kind))
        && forall k: Kind :: TableOf(k) == old(TableOf(k))
      ensures ParseKind(kind).Some? ==>
        var k := ParseKind(kind).value;
        && r == Ok(())
        && (forall j: Kind :: j != k ==> TableOf(j) == old(TableOf(j)))
        && TableOf(k).rows == UpsertRows(k, old(TableOf(k)).rows, cfg)
        && Saved(k, TableOf(k), cfg)
        && (forall q :: q != UpsertedId(old(TableOf(k)).rows, cfg.name) ==>
              RowsOf(TableOf(k).data, q) == RowsOf(old(TableOf(k)).data, q))
        && (Saved(k, old(TableOf(k)), cfg) ==> TableOf(k) == old(TableOf(k)))
    {
      var kk := ParseKind(kind);
      if kk.None? {
        if kind in RemoteKinds {
          return Err(RemoteExecutionKind(kind));
        }
        return Err(UnknownKind(kind));
      }
      var k := kk.value;
      var t := TableOf(k);
      assert TableValid(k, t);
      var rows := UpsertRows(k, t.rows, cfg);
      UpsertKeepsRowsValid(k, t.rows, cfg);
      var pid := UpsertedId(t.rows, cfg.name);
      var cur := SyncData(t.data, pid, cfg.config);
      if Saved(k, t, cfg) {
        UpsertOfSaved(k, t, cfg);
      }
      PutTable(k, KindTable(rows, cur));
      r := Ok(());
      assert TableValid(k, TableOf(k));
    }

    /** `get_instance_by_id(id)`. */
    function GetInstanceById(id: int): (r: Option<InstanceRow>)
      reads this
      ensures r.Some? ==> r.value in instances && r.value.id == id
      ensures r.None? ==> forall x :: x in instances ==> x.id != id
    {
      match FirstWhere(instances, HasInstanceId(id))
      case None => None
      case Some(i) => Some(instances[i])
    }

    /** `get_instance(...)`: the row with this provider instance identifier,
        inserted with the given columns when there is none. */
    method GetInstance(pii: string, ipAddress: string, providerId: Option<int>, controllerId: Option<int>, workerGroupId: Option<int>)
      returns (row: InstanceRow)
      requires Valid()
      modifies this
      ensures Valid()
      ensures forall k: Kind :: TableOf(k) == old(TableOf(k))
      ensures match FirstWhere(old(instances), HasIdentifier(pii))
        case Some(i) => row == old(instances)[i] && instances == old(instances)
        case None =>
          && instances == old(instances) + [row]
          && row == InstanceRow(row.id, None, controllerId, workerGroupId, providerId, ipAddress, pii)
          && forall x :: x in old(instances) ==> x.id < row.id
      ensures var f := FirstWhere(instances, HasIdentifier(pii)); f.Some? && instances[f.value] == row
    {
      var f := FirstWhere(instances, HasIdentifier(pii));
      if f.Some? {
        row := instances[f.value];
        return;
      }
      row := InstanceRow(FreshId(instances, InstanceId), None, controllerId, workerGroupId, providerId, ipAddress, pii);
      AppendKeepsInstancesValid(instances, row);
      instances := instances + [row];
      assert forall k: Kind :: TableOf(k) == old(TableOf(k));
      assert !HasIdentifier(pii)(instances[|instances| - 1]) ==> false;
    }

    /** `get_controller_instances(controller_id)`. */
    function GetControllerInstances(c: Option<int>): (r: seq<InstanceRow>)
      reads this
      ensures forall x :: x in r <==> x in instances && x.controllerId == c && x.workerGroupId.None?
    {
      Where(instances, HeadNodesOf(c))
    }

    /** `get_worker_instances(controller_id)`. */
    function GetWorkerInstances(c: Option<int>): (r: seq<InstanceRow>)
      reads this
      ensures forall x :: x in r <==> x in instances && x.controllerId == c && x.workerGroupId.Some?
    {
      Where(instances, WorkersOf(c))
    }

    /** `get_all_instances(provider_id, controller_id, worker_group_id)`: only
        the first filter given applies, in that order; none when none is given. */
    function GetAllInstances(p: Option<int>, c: Option<int>, w: Option<int>): (r: seq<InstanceRow>)
      reads this
      ensures p.Some? ==> forall x :: x in r <==> x in instances && x.providerId == p
      ensures p.None? && c.Some? ==> forall x :: x in r <==> x in instances && x.controllerId == c
      ensures p.None? && c.None? && w.Some? ==> forall x :: x in r <==> x in instances && x.workerGroupId == w
      ensures p.None? && c.None? && w.None? ==> r == instances
    {
      if p.Some? then Where(instances, OfProvider(p))
      else if c.Some? then Where(instances, OfController(c))
      else if w.Some? then Where(instances, OfWorkerGroup(w))
      else instances
    }

    /** `delete_instance(instance)`: deletes the row the session holds for it. */
    method DeleteInstance(inst: InstanceRow) returns (r: Result<(), DatastoreError>)
      requires Valid()
      modifies this
      ensures Valid()
      ensures forall k: Kind :: TableOf(k) == old(TableOf(k))
      ensures match FirstWhere(old(instances), HasInstanceId(inst.id))
        case None => r == Err(InstanceNotPersisted(inst.id)) && instances == old(instances)
        case Some(i) =>
          && r == Ok(())
          && instances == RemoveAt(old(instances), i)
          && forall x :: x in instances ==> x.id != inst.id
    {
      var f := FirstWhere(instances, HasInstanceId(inst.id));
      if f.None? {
        return Err(InstanceNotPersisted(inst.id));
      }
      RemoveKeepsInstancesValid(instances, f.value);
      var old_instances := instances;
      instances := RemoveAt(instances, f.value);
      assert forall k: Kind :: TableOf(k) == old(TableOf(k));
      r := Ok(());
      forall x | x in instances ensures x.id != inst.id {
        var j :| 0 <= j < |instances| && instances[j] == x;
        var j' := if j < f.value then j else j + 1;
        assert x == old_instances[j'] && j' != f.value;
      }
    }
  }

  /** The controller's instances split between `get_controller_instances` and
      `get_worker_instances`: together they are `get_all_instances(controller_id=c)`,
      and no instance is in both. */
  lemma ControllerInstancesPartition(d: Datastore, c: Option<int>)
    requires c.Some?
    ensures multiset(d.GetControllerInstances(c)) + multiset(d.GetWorkerInstances(c))
         == multiset(d.GetAllInstances(None, c, None))
    ensures forall x :: x in d.GetControllerInstances(c) ==> x !in d.GetWorkerInstances(c)
  {
    HeadNodesAndWorkersPartition(d.instances, c);
  }

  /** `get_instance` is idempotent per provider instance identifier: a second
      call returns the row of the first and inserts nothing. */
  method GetInstanceTwice(d: Datastore, pii: string, ip: string, p: Option<int>, c: Option<int>, w: Option<int>)
    returns (first: InstanceRow, second: InstanceRow)
    requires d.Valid()
    modifies d
    ensures d.Valid()
    ensures first == second && first.identifier == pii
    ensures |d.instances| <= |old(d.instances)| + 1
  {
    first := d.GetInstance(pii, ip, p, c, w);
    ghost var afterFirst := d.instances;
    second := d.GetInstance(pii, ip, p, c, w);
    assert d.instances == afterFirst;
  }

  /** Round trip: an object read back by name after `save_object` carries the
      mapping that was saved. */
  method SaveThenGet(d: Datastore, cfg: Config, kind: string) returns (r: Result<Config, DatastoreError>)
    requires d.Valid() && ParseKind(kind).Some?
    modifies d
    ensures d.Valid()
    ensures r.Ok? ==> r.value.name == cfg.name && r.value.config == cfg.config
    ensures r.Err? ==> r.error.UnknownProviderType? || r.error.MissingHandler?
  {
    var s := d.SaveObject(cfg, kind);
    r := d.GetObject(cfg.name, kind);
    SavedHydratesBack(d.registry, ParseKind(kind).value, d.TableOf(ParseKind(kind).value), cfg);
  }

  /** Saving the same object twice has the effect of saving it once; that the
      second pass changes nothing is the last clause of `SaveObject`'s contract. */
  method SaveTwice(d: Datastore, cfg: Config, kind: string)
    requires d.Valid()
    modifies d
    ensures d.Valid()
    ensures ParseKind(kind).Some? ==>
      var k := ParseKind(kind).value;
      && d.TableOf(k).rows == UpsertRows(k, old(d.TableOf(k)).rows, cfg)
      && Saved(k, d.TableOf(k), cfg)
      && forall q :: q != UpsertedId(old(d.TableOf(k)).rows, cfg.name) ==>
           RowsOf(d.TableOf(k).data, q) == RowsOf(old(d.TableOf(k)).data, q)
  {
    var r1 := d.SaveObject(cfg, kind);
    var r2 := d.SaveObject(cfg, kind);
  }
}
