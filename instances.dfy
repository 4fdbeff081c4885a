/** The Instance table and the filters the datastore's instance queries apply. */
module Instances {
  import opened Results
  import opened Rows

  /** One row of the `instances` table; the nullable integer columns are Options. */
  datatype InstanceRow = InstanceRow(
    id: int,
    itype: Option<string>,
    controllerId: Option<int>,
    workerGroupId: Option<int>,
    providerId: Option<int>,
    ipAddress: string,
    identifier: string)

  function InstanceId(x: InstanceRow): int
  {
    x.id
  }

  /** `filter_by(provider_instance_identifier=pii)`. */
  function HasIdentifier(pii: string): InstanceRow -> bool
  {
    (x: InstanceRow) => x.identifier == pii
  }

  /** `filter_by(id=id)`. */
  function HasInstanceId(id: int): InstanceRow -> bool
  {
    (x: InstanceRow) => x.id == id
  }

  /** `filter_by(provider_id=p)`. */
  function OfProvider(p: Option<int>): InstanceRow -> bool
  {
    (x: InstanceRow) => x.providerId == p
  }

  /** `filter_by(controller_id=c)`; a None argument selects NULL, as SQLAlchemy does. */
  function OfController(c: Option<int>): InstanceRow -> bool
  {
    (x: InstanceRow) => x.controllerId == c
  }

  /** `filter_by(worker_group_id=w)`. */
  function OfWorkerGroup(w: Option<int>): InstanceRow -> bool
  {
    (x: InstanceRow) => x.workerGroupId == w
  }

  /** The head-node instances of controller `c`: no worker group. */
  function HeadNodesOf(c: Option<int>): InstanceRow -> bool
  {
    (x: InstanceRow) => x.controllerId == c && x.workerGroupId.None?
  }

  /** The worker instances of controller `c`: some worker group. */
  function WorkersOf(c: Option<int>): InstanceRow -> bool
  {
    (x: InstanceRow) => x.controllerId == c && x.workerGroupId.Some?
  }

  /** The table invariant: rowids increase along the table and the provider's
      instance identifiers are distinct (`get_instance` never inserts a second row for one). */
  ghost predicate InstancesValid(rows: seq<InstanceRow>)
  {
    && (forall i, j :: 0 <= i < j < |rows| ==> rows[i].id < rows[j].id)
    && (forall i, j :: 0 <= i < j < |rows| ==> rows[i].identifier != rows[j].identifier)
  }

  /** Every instance of controller `c` is a head node or a worker, never both,
      and no instance is lost or duplicated between the two queries. */
  lemma HeadNodesAndWorkersPartition(rows: seq<InstanceRow>, c: Option<int>)
    ensures multiset(Where(rows, HeadNodesOf(c))) + multiset(Where(rows, WorkersOf(c)))
         == multiset(Where(rows, OfController(c)))
    ensures forall x :: x in Where(rows, HeadNodesOf(c)) ==> x !in Where(rows, WorkersOf(c))
  {
    WherePartition(rows, HeadNodesOf(c), WorkersOf(c), OfController(c));
  }

  /** Appending a row with a fresh rowid and a new identifier keeps the table invariant. */
  lemma AppendKeepsInstancesValid(rows: seq<InstanceRow>, x: InstanceRow)
    requires InstancesValid(rows)
    requires forall y :: y in rows ==> y.id < x.id && y.identifier != x.identifier
    ensures InstancesValid(rows + [x])
  {
    var r := rows + [x];
    forall i, j | 0 <= i < j < |r| ensures r[i].id < r[j].id && r[i].identifier != r[j].identifier {
      if j == |rows| {
        assert r[i] in rows;
      }
    }
  }

  /** Removing a row keeps the table invariant. */
  lemma RemoveKeepsInstancesValid(rows: seq<InstanceRow>, k: nat)
    requires InstancesValid(rows) && k < |rows|
    ensures InstancesValid(RemoveAt(rows, k))
  {
    var r := RemoveAt(rows, k);
    forall i, j | 0 <= i < j < |r| ensures r[i].id < r[j].id && r[i].identifier != r[j].identifier {
      var i' := if i < k then i else i + 1;
      var j' := if j < k then j else j + 1;
      assert r[i] == rows[i'] && r[j] == rows[j'];
    }
  }
}
