/** The key/value side tables (ProviderData, ControllerData, WorkerGroupData):
    the mapping `_get_object_data` builds from a parent's rows, and the diff
    `__save_molns_object` applies to them. */
module ExtensionRows {
  import opened Rows

  /** One side-table row: attribute `name` = `value` of the entity `parentId`. */
  datatype DataRow = DataRow(id: int, parentId: int, name: string, value: string)

  function DataRowId(d: DataRow): int
  {
    d.id
  }

  /** The query `filter_by(parent_id=pid)`. */
  function ChildOf(pid: int): DataRow -> bool
  {
    (d: DataRow) => d.parentId == pid
  }

  /** The rows of `pid`, in table order. */
  function RowsOf(rows: seq<DataRow>, pid: int): seq<DataRow>
  {
    Where(rows, ChildOf(pid))
  }

  function Names(s: seq<DataRow>): set<string>
  {
    set d | d in s :: d.name
  }

  /** The dict built by `data[d.name] = d.value` over `s`; a later row wins. */
  function ToMap(s: seq<DataRow>): (m: map<string, string>)
    ensures m.Keys == Names(s)
    decreases |s|
  {
    if s == [] then map[]
    else
      var last := s[|s| - 1];
      assert s == s[..|s| - 1] + [last];
      ToMap(s[..|s| - 1])[last.name := last.value]
  }

  /** The extension mapping of entity `pid`. */
  function MappingOf(rows: seq<DataRow>, pid: int): map<string, string>
  {
    ToMap(RowsOf(rows, pid))
  }

  /** No two rows of `s` carry the same key. */
  ghost predicate NamesDistinct(s: seq<DataRow>)
  {
    forall i, j :: 0 <= i < j < |s| ==> s[i].name != s[j].name
  }

  /** The rows of `pid` are exactly the mapping `m`, one row per key. */
  ghost predicate Represents(rows: seq<DataRow>, pid: int, m: map<string, string>)
  {
    NamesDistinct(RowsOf(rows, pid)) && MappingOf(rows, pid) == m
  }

  /** The first loop of `__save_molns_object` over the whole table: a row of
      `pid` whose key is still pending takes the configured value and consumes
      the key; any other row of `pid` is deleted; rows of other parents stay.
      Gives the rows kept and the keys still to insert. */
  function Diff(rows: seq<DataRow>, pid: int, cfg: map<string, string>): (seq<DataRow>, map<string, string>)
    decreases |rows|
  {
    if rows == [] then ([], cfg)
    else
      var (kept, pending) := Diff(rows[..|rows| - 1], pid, cfg);
      var d := rows[|rows| - 1];
      if d.parentId != pid then (kept + [d], pending)
      else if d.name in pending then (kept + [d.(value := pending[d.name])], pending - {d.name})
      else (kept, pending)
  }

  /** Rows of `pid` in `s` plus the `pending` keys make up `cfg`, each key once. */
  ghost predicate Accounts(s: seq<DataRow>, pid: int, pending: map<string, string>, cfg: map<string, string>)
  {
    && NamesDistinct(RowsOf(s, pid))
    && MappingOf(s, pid).Keys !! pending.Keys
    && MappingOf(s, pid) + pending == cfg
  }

  /** Querying a table with one more row. */
  lemma RowsOfSnoc(s: seq<DataRow>, x: DataRow, q: int)
    ensures RowsOf(s + [x], q) == RowsOf(s, q) + (if x.parentId == q then [x] else [])
  {
    WhereAppend(s, [x], ChildOf(q));
    assert [x][1..] == [];
  }

  /** The mapping of a sequence with one more row. */
  lemma ToMapSnoc(s: seq<DataRow>, x: DataRow)
    ensures ToMap(s + [x]) == ToMap(s)[x.name := x.value]
  {
    assert (s + [x])[..|s|] == s;
  }

  /** Growing a prefix of `s` by one row writes that row into the dict. */
  lemma ToMapPrefix(s: seq<DataRow>, i: nat)
    requires i < |s|
    ensures ToMap(s[..i + 1]) == ToMap(s[..i])[s[i].name := s[i].value]
  {
    assert s[..i + 1] == s[..i] + [s[i]];
    ToMapSnoc(s[..i], s[i]);
  }

  /** With distinct keys, each row's value is the one the mapping holds. */
  lemma {:induction false} ToMapAt(s: seq<DataRow>, i: nat)
    requires NamesDistinct(s) && i < |s|
    ensures s[i].name in ToMap(s) && ToMap(s)[s[i].name] == s[i].value
    decreases |s|
  {
    var p := s[..|s| - 1];
    assert s == p + [s[|s| - 1]];
    ToMapSnoc(p, s[|s| - 1]);
    if i < |s| - 1 {
      ToMapAt(p, i);
    }
  }

  /** Moving key `k` from the pending map into the mapping keeps their union. */
  lemma MoveKey(m: map<string, string>, pending: map<string, string>, cfg: map<string, string>, k: string)
    requires m.Keys !! pending.Keys && m + pending == cfg && k in pending
    ensures m[k := pending[k]].Keys !! (pending - {k}).Keys
    ensures m[k := pending[k]] + (pending - {k}) == cfg
  {
  }

  /** Appending a row with a new key keeps the keys distinct. */
  lemma DistinctSnoc(r: seq<DataRow>, x: DataRow)
    requires NamesDistinct(r) && x.name !in Names(r)
    ensures NamesDistinct(r + [x])
  {
    forall i | 0 <= i < |r| ensures r[i].name != x.name {
      assert r[i] in r;
    }
  }

  /** Adding a row of `pid` for a pending key moves that key from pending to the rows. */
  lemma AddRow(s: seq<DataRow>, pid: int, pending: map<string, string>, cfg: map<string, string>, x: DataRow)
    requires Accounts(s, pid, pending, cfg)
    requires x.parentId == pid && x.name in pending && x.value == pending[x.name]
    ensures Accounts(s + [x], pid, pending - {x.name}, cfg)
    ensures forall q :: q != pid ==> RowsOf(s + [x], q) == RowsOf(s, q)
  {
    RowsOfSnoc(s, x, pid);
    var r := RowsOf(s, pid);
    assert RowsOf(s + [x], pid) == r + [x];
    ToMapSnoc(r, x);
    DistinctSnoc(r, x);
    MoveKey(ToMap(r), pending, cfg, x.name);
    forall q | q != pid ensures RowsOf(s + [x], q) == RowsOf(s, q) {
      RowsOfSnoc(s, x, q);
    }
  }

  /** What the diff of `rows` establishes, as the loop invariant of the save. */
  ghost predicate DiffInvariant(rows: seq<DataRow>, pid: int, cfg: map<string, string>)
  {
    var (kept, pending) := Diff(rows, pid, cfg);
    && Accounts(kept, pid, pending, cfg)
    && forall q :: q != pid ==> RowsOf(kept, q) == RowsOf(rows, q)
  }

  /** A row of another parent is kept untouched. */
  lemma KeepForeignRow(kept: seq<DataRow>, p: seq<DataRow>, d: DataRow, pid: int, pending: map<string, string>, cfg: map<string, string>)
    requires d.parentId != pid
    requires Accounts(kept, pid, pending, cfg)
    requires forall q :: q != pid ==> RowsOf(kept, q) == RowsOf(p, q)
    ensures Accounts(kept + [d], pid, pending, cfg)
    ensures forall q :: q != pid ==> RowsOf(kept + [d], q) == RowsOf(p + [d], q)
  {
    ForeignRowKeepsOwnRows(kept, d, pid);
    forall q | q != pid ensures RowsOf(kept + [d], q) == RowsOf(p + [d], q) {
      SameSnoc(kept, p, d, q);
    }
  }

  lemma ForeignRowKeepsOwnRows(kept: seq<DataRow>, d: DataRow, pid: int)
    requires d.parentId != pid
    ensures RowsOf(kept + [d], pid) == RowsOf(kept, pid)
  {
    RowsOfSnoc(kept, d, pid);
  }

  lemma SameSnoc(a: seq<DataRow>, b: seq<DataRow>, d: DataRow, q: int)
    requires RowsOf(a, q) == RowsOf(b, q)
    ensures RowsOf(a + [d], q) == RowsOf(b + [d], q)
  {
    RowsOfSnoc(a, d, q);
    RowsOfSnoc(b, d, q);
  }

  /** A row of `pid` leaves the rows of other parents as they were. */
  lemma OwnRowIsNotForeign(p: seq<DataRow>, d: DataRow, pid: int)
    requires d.parentId == pid
    ensures forall q :: q != pid ==> RowsOf(p + [d], q) == RowsOf(p, q)
  {
    forall q | q != pid ensures RowsOf(p + [d], q) == RowsOf(p, q) {
      RowsOfSnoc(p, d, q);
    }
  }

  /** One step of the diff keeps its invariant. */
  lemma DiffStep(p: seq<DataRow>, d: DataRow, pid: int, cfg: map<string, string>)
    requires DiffInvariant(p, pid, cfg)
    ensures DiffInvariant(p + [d], pid, cfg)
  {
    var rows := p + [d];
    assert rows[..|rows| - 1] == p;
    var (kept, pending) := Diff(p, pid, cfg);
    if d.parentId != pid {
      KeepForeignRow(kept, p, d, pid, pending, cfg);
    } else {
      OwnRowIsNotForeign(p, d, pid);
      if d.name in pending {
        AddRow(kept, pid, pending, cfg, d.(value := pending[d.name]));
      }
    }
  }

  /** What one pass of the diff establishes: the kept rows of `pid` and the
      pending keys together are `cfg`, one row per key, and the rows of every
      other parent are those of the input. */
  lemma {:induction false} DiffAccounts(rows: seq<DataRow>, pid: int, cfg: map<string, string>)
    ensures DiffInvariant(rows, pid, cfg)
    decreases |rows|
  {
    if rows == [] {
      assert RowsOf([], pid) == [];
      assert MappingOf([], pid) == map[];
      assert map[] + cfg == cfg;
    } else {
      var p := rows[..|rows| - 1];
      assert rows == p + [rows[|rows| - 1]];
      DiffAccounts(p, pid, cfg);
      DiffStep(p, rows[|rows| - 1], pid, cfg);
    }
  }

  /** Rows of `pid` that already carry the configured value for a distinct key are kept as they are. */
  lemma {:induction false} DiffKeepsMatchingRows(rows: seq<DataRow>, pid: int, cfg: map<string, string>)
    requires NamesDistinct(RowsOf(rows, pid))
    requires forall x :: x in RowsOf(rows, pid) ==> x.name in cfg && cfg[x.name] == x.value
    ensures Diff(rows, pid, cfg).0 == rows
    decreases |rows|
  {
    if rows != [] {
      var p := rows[..|rows| - 1];
      var d := rows[|rows| - 1];
      assert rows == p + [d];
      RowsOfSnoc(p, d, pid);
      var rp := RowsOf(p, pid);
      assert forall i :: 0 <= i < |rp| ==> rp[i] == RowsOf(rows, pid)[i];
      DiffKeepsMatchingRows(p, pid, cfg);
      if d.parentId == pid {
        DiffAccounts(p, pid, cfg);
        var pending := Diff(p, pid, cfg).1;
        assert d in RowsOf(rows, pid);
        forall i | 0 <= i < |rp| ensures rp[i].name != d.name {
          assert RowsOf(rows, pid)[|rp|] == d;
        }
        assert d.name !in Names(rp);
        assert d.name in pending;
      }
    }
  }

  /** Saving a mapping the rows already represent changes nothing: every row is
      kept with its value and no key is left to insert. */
  lemma DiffOfRepresented(rows: seq<DataRow>, pid: int, cfg: map<string, string>)
    requires Represents(rows, pid, cfg)
    ensures Diff(rows, pid, cfg) == (rows, map[])
  {
    var r := RowsOf(rows, pid);
    forall x | x in r ensures x.name in cfg && cfg[x.name] == x.value {
      var i :| 0 <= i < |r| && r[i] == x;
      ToMapAt(r, i);
    }
    DiffKeepsMatchingRows(rows, pid, cfg);
    DiffAccounts(rows, pid, cfg);
    var pending := Diff(rows, pid, cfg).1;
    assert pending.Keys == {} by {
      assert pending.Keys <= cfg.Keys == MappingOf(rows, pid).Keys;
    }
  }
}
