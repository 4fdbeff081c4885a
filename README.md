# MOLNS configuration datastore and Docker image references, in Dafny

This project models two self-contained pieces of MolnsLib.

**The configuration datastore** (`MolnsLib/molns_datastore/__init__.py`).
The `Datastore` class keeps configuration objects of three kinds: Provider,
Controller and WorkerGroup. Each object is one row of its kind's entity table
(id, name, type, and the provider_id/controller_id columns the table has).
Its free-form key/value configuration lives in a side table, one row per key,
linked by `parent_id`. The Instance table records the virtual machines that
were started. The model keeps every table in memory as a sequence of rows in
rowid order. The class `MolnsDatastore.Datastore` holds one `KindTable` per
kind plus the instance rows, and its methods change them in place. The model
proves:

- Saving an object is an upsert by name. Afterwards the side-table rows of
  that object are exactly its mapping, one row per key, and rows of other
  objects are untouched.
- Saving twice is the same as saving once.
- Reading an object back gives the saved mapping. This is the intended
  behaviour: the code as written reads back only Provider objects, as the
  `MolnsDatastore.Hydration` line under "## Left out" explains.
- Creating refuses a name that is taken and writes nothing.
- Get and delete report a missing name or id.
- A delete removes exactly one entity row and leaves its side-table rows in
  place.
- `get_instance` is a get-or-create keyed by the provider instance
  identifier.
- The head-node and worker queries partition a controller's instances.
- `get_all_instances` applies only the first filter it is given.

Handler classes are not loaded by reflection. The model resolves them in a
static registry of (package, class name) pairs, where `get_provider_handle`
forms the names.

**Docker image references** (`MolnsLib/Docker.py`).
A `DockerImage` holds an image id and a tag, with `DockerNonExistentTag`
standing in for a missing one. It is written as `id + delimiter + tag` and
parsed back with Python's `str.split`. The image id is extracted from
`docker build` output as the leftmost run of twelve characters from
`[a-z0-9]`. The model also covers two rules inside I/O methods: the
`/home/ubuntu/` prefix `put_archive` puts on target paths, and the mapping
from container state to status in `container_status`.

The values of `Constants.DockerImageDelimiter` and
`Constants.DockerNonExistentTag` are not part of this model. They are
parameters (`Docker.ImageConstants`), and the delimiter is only required to
be non-empty.

The round trip `from_string(str(image)) == image` holds when the image id is
cleanly separated from the delimiter and the tag does not contain it. For a
delimiter that cannot overlap itself, "neither field contains the delimiter"
is enough. For a delimiter that can overlap itself, it is not:
`Docker.ParseSerializeNeedsCleanSeparation` exhibits a delimiter `"aa"` and
the image `("a", "b")`, which comes back as `("", "ab")`. The delimiter's
actual value is outside this model, so this is stated as a precondition, not
as a defect.

Modules: `Results` (Option, Result), `Rows` (queries over a table held as a
sequence), `PyStrings` (`str.split` and occurrence), `ProviderHandles`,
`ExtensionRows` (side tables), `Instances`, `MolnsDatastore` and `Docker`.

## Model

| member | source | states |
|---|---|---|
| Rows.Where | MolnsLib/molns_datastore/__init__.py:376 | `filter_by(...).all()`: a row is in the result exactly when it is in the table and satisfies the filter |
| Rows.FirstWhere | MolnsLib/molns_datastore/__init__.py:262 | `filter_by(...).first()`: the index found satisfies the filter and no earlier row does; None means no row does |
| Rows.FreshId | MolnsLib/molns_datastore/__init__.py:406-407 | the rowid of an inserted row is at least 1 and larger than every rowid in the table, so it is fresh |
| Rows.WhereAppend | MolnsLib/molns_datastore/__init__.py:376 | a query over two stretches of a table is the concatenation of the two queries |
| Rows.WherePartition | MolnsLib/molns_datastore/__init__.py:497-512 | two disjoint filters whose union is a third split that query's result without loss or duplication (as multisets) |
| ProviderHandles.ParseKind | MolnsLib/molns_datastore/__init__.py:148-152 | a kind is accepted exactly when it is one of the HANDLE_MAPPING keys Provider, Controller, WorkerGroup |
| ProviderHandles.GetProviderHandle | MolnsLib/molns_datastore/__init__.py:184-195 | an unknown kind and a provider type outside VALID_PROVIDER_TYPES are errors; otherwise the result is the class `ptype+kind` of package `MolnsLib.<ptype>Provider`, found exactly when the registry has it |
| ProviderHandles.HandlesAreDistinct | MolnsLib/molns_datastore/__init__.py:193-195 | two (kind, provider type) pairs that resolve to the same handler class are the same pair |
| ExtensionRows.ToMap | MolnsLib/molns_datastore/__init__.py:375-378 | the dict built from side-table rows has exactly the rows' names as keys |
| ExtensionRows.ToMapAt | MolnsLib/molns_datastore/__init__.py:375-378 | with distinct keys, each row's value is what the dict holds for its name |
| ExtensionRows.AddRow | MolnsLib/molns_datastore/__init__.py:429-432 | inserting a row for a pending key moves that key from pending into the parent's mapping, keeps keys distinct and leaves other parents' rows alone |
| ExtensionRows.DiffAccounts | MolnsLib/molns_datastore/__init__.py:420-428 | after the first save loop the parent's surviving rows have distinct keys, their mapping and the pending keys are disjoint and together make up the configured mapping, and other parents' rows are unchanged |
| ExtensionRows.DiffKeepsMatchingRows | MolnsLib/molns_datastore/__init__.py:420-428 | when every row of the parent has a distinct key that the mapping keeps with the row's value, the first save loop keeps every row as it is (even with further keys to insert) |
| ExtensionRows.DiffOfRepresented | MolnsLib/molns_datastore/__init__.py:420-428 | when the parent's rows already are the mapping, the first loop leaves the table unchanged and nothing pending |
| Instances.HeadNodesAndWorkersPartition | MolnsLib/molns_datastore/__init__.py:497-512 | head nodes (no worker group) and workers (some worker group) of a controller together are that controller's instances, and no instance is both |
| Instances.AppendKeepsInstancesValid | MolnsLib/molns_datastore/__init__.py:485-490 | inserting an instance with a fresh rowid and a new identifier keeps rowids increasing and identifiers distinct |
| Instances.RemoveKeepsInstancesValid | MolnsLib/molns_datastore/__init__.py:531-535 | deleting an instance keeps rowids increasing and identifiers distinct |
| MolnsDatastore.UpsertRows | MolnsLib/molns_datastore/__init__.py:402-416 | a row is added, with the given name and type and a fresh id, only when the name is absent; existing rows keep id, name and type; rows of other names are untouched; the row of the name then carries the config's provider_id/controller_id where the config has them and the table has the column; where it does not, an existing row keeps its column and a new row has none |
| MolnsDatastore.UpsertKeepsRowsValid | MolnsLib/molns_datastore/__init__.py:402-416 | the upsert keeps rowids increasing, names unique within the kind and absent columns empty |
| MolnsDatastore.RemoveKeepsRowsValid | MolnsLib/molns_datastore/__init__.py:303-309 | deleting an entity row keeps the table invariant, and no remaining row has the deleted row's name or id |
| MolnsDatastore.HydrationIsSaved | MolnsLib/molns_datastore/__init__.py:374-383 | an object hydrated from a row of a valid table is already saved: its name finds that row and the row's side-table rows are exactly its mapping |
| MolnsDatastore.SavedHydratesBack | MolnsLib/molns_datastore/__init__.py:374-383 | hydrating the row of a saved object gives back its name, its mapping and the row's id |
| MolnsDatastore.UpsertOfSaved | MolnsLib/molns_datastore/__init__.py:403-416 | upserting an object that is already saved leaves the entity rows unchanged |
| MolnsDatastore.CollectData | MolnsLib/molns_datastore/__init__.py:375-378 | the loop over the parent's side-table rows builds exactly the specification mapping of that parent (a later row wins) |
| MolnsDatastore.UpdateKeptRows | MolnsLib/molns_datastore/__init__.py:420-428 | the first save loop: kept keys get the configured value, other rows of the parent (including repeats of a key) are deleted, and the result equals the specification `Diff` |
| MolnsDatastore.InsertPending | MolnsLib/molns_datastore/__init__.py:429-433 | the second save loop: afterwards the parent's rows are exactly the mapping, one per key; other parents' rows are unchanged; nothing pending means nothing inserted |
| MolnsDatastore.SyncData | MolnsLib/molns_datastore/__init__.py:420-433 | after both save loops the parent's rows are exactly the mapping, one per key, other parents' rows are untouched, distinct keys per parent are kept, and a table already holding the mapping is left as it is |
| MolnsDatastore.Datastore.ListObjects | MolnsLib/molns_datastore/__init__.py:239-248 | an unknown kind is an error; otherwise all rows of that kind |
| MolnsDatastore.Datastore.CreateObject | MolnsLib/molns_datastore/__init__.py:250-275 | unknown kind, then a name already in use, then the handler lookup's own error, are reported in that order; success exactly when the kind is valid, the name is free and the handler resolves, giving an object with an empty mapping, no id and the given provider_id/controller_id; tables are unchanged |
| MolnsDatastore.Datastore.Hydrate | MolnsLib/molns_datastore/__init__.py:374-383 | equals the specification `Hydration`: the handler for the row's kind and type, with the row's name and id and the mapping of its side-table rows |
| MolnsDatastore.Datastore.GetObject | MolnsLib/molns_datastore/__init__.py:311-328 | unknown kind and absent name are errors; otherwise the first row of that name hydrated, which has the requested name and is already saved |
| MolnsDatastore.Datastore.GetObjectById | MolnsLib/molns_datastore/__init__.py:356-372 | unknown kind and absent id are errors (remote-execution kinds are reported as such); otherwise the row of that id hydrated, carrying that id, already saved |
| MolnsDatastore.Datastore.DeleteObject | MolnsLib/molns_datastore/__init__.py:292-309 | unknown kind and absent name are errors that change nothing; otherwise exactly the first row of that name is removed, no row of that name remains, side-table rows and other tables are unchanged, and the invariant holds |
| MolnsDatastore.Datastore.DeleteObjectById | MolnsLib/molns_datastore/__init__.py:277-290 | as DeleteObject, by id: errors change nothing; otherwise exactly the row of that id is removed and side-table rows stay |
| MolnsDatastore.Datastore.SaveObject | MolnsLib/molns_datastore/__init__.py:401-433 | kinds outside HANDLE_MAPPING are errors that change nothing; otherwise the entity rows are the upsert, the object is then saved (its row's side-table rows are exactly its mapping), other parents' rows and other kinds are untouched, saving an already saved object changes nothing, and the invariant holds |
| MolnsDatastore.Datastore.GetInstanceById | MolnsLib/molns_datastore/__init__.py:478-480 | a row with that id from the table, or None exactly when no row has that id |
| MolnsDatastore.Datastore.GetInstance | MolnsLib/molns_datastore/__init__.py:482-495 | returns the first row with the identifier unchanged when there is one; otherwise appends exactly one row with the given columns and a fresh id; either way the row is then the first with that identifier |
| MolnsDatastore.Datastore.GetControllerInstances | MolnsLib/molns_datastore/__init__.py:497-503 | exactly the instances of the controller without a worker group |
| MolnsDatastore.Datastore.GetWorkerInstances | MolnsLib/molns_datastore/__init__.py:505-512 | exactly the instances of the controller with a worker group |
| MolnsDatastore.Datastore.GetAllInstances | MolnsLib/molns_datastore/__init__.py:514-529 | only the first given filter applies, provider before controller before worker group; none given means all instances |
| MolnsDatastore.Datastore.DeleteInstance | MolnsLib/molns_datastore/__init__.py:531-535 | an instance not in the table is an error that changes nothing; otherwise exactly its row is removed and no row with its id remains |
| MolnsDatastore.ControllerInstancesPartition | MolnsLib/molns_datastore/__init__.py:497-529 | the controller's head-node and worker queries together are `get_all_instances(controller_id=c)`, and no instance is in both |
| MolnsDatastore.GetInstanceTwice | MolnsLib/molns_datastore/__init__.py:482-495 | two `get_instance` calls with the same identifier return the same row and insert at most one |
| MolnsDatastore.SaveThenGet | MolnsLib/molns_datastore/__init__.py:401-433 | reading an object back by name after saving it gives the saved name and mapping; it can fail only on handler resolution |
| MolnsDatastore.SaveTwice | MolnsLib/molns_datastore/__init__.py:401-433 | two saves of the same object leave the state a single save's contract describes (the second changes nothing, by SaveObject's last clause) |
| PyStrings.Split | MolnsLib/Docker.py:210 | `str.split(sep)` yields at least one part |
| PyStrings.JoinSplit | MolnsLib/Docker.py:210 | joining the parts of a split with the separator gives back the string |
| PyStrings.SplitWithoutSeparator | MolnsLib/Docker.py:210 | a string that does not contain the separator splits into itself alone |
| PyStrings.SplitAtFirstSeparator | MolnsLib/Docker.py:210 | when the first field is cleanly separated, splitting `i + sep + t` gives `i` followed by the split of `t` |
| PyStrings.SplitTwoFields | MolnsLib/Docker.py:210 | with `i` cleanly separated and `t` free of the separator, `i + sep + t` splits into exactly `[i, t]` |
| PyStrings.CleanWithoutSelfOverlap | MolnsLib/Docker.py:206 | for a separator that cannot overlap itself, a field that does not contain it is cleanly separated |
| Docker.ImageIdFromString | MolnsLib/Docker.py:179-185 | a result is twelve characters from `[a-z0-9]` |
| Docker.ImageIdIsLeftmostMatch | MolnsLib/Docker.py:179-185 | the result is the leftmost match, taken from the input; None exactly when there is no match |
| Docker.LooksLikeImageIdExactly | MolnsLib/Docker.py:225-231 | a string looks like an image id exactly when it is twelve characters from `[a-z0-9]` |
| Docker.NewImage | MolnsLib/Docker.py:194-199 | fails exactly when both fields are None or the non-existent tag; otherwise a missing field becomes the non-existent tag and at least one field is real |
| Docker.Serialize | MolnsLib/Docker.py:201-206 | succeeds exactly when at least one field is real |
| Docker.Parse | MolnsLib/Docker.py:208-223 | more than two parts is an error; any parsed image has a real field |
| Docker.SerializeConstructed | MolnsLib/Docker.py:201-206 | a constructed image serialises to id, delimiter, tag |
| Docker.ParseSerialize | MolnsLib/Docker.py:201-213 | parsing a serialised image gives it back when the id is cleanly separated and the tag does not contain the delimiter |
| Docker.ParseSerializeSimple | MolnsLib/Docker.py:201-213 | for a delimiter that cannot overlap itself, the round trip holds when neither field contains it |
| Docker.ParseSerializeNeedsCleanSeparation | MolnsLib/Docker.py:206-213 | with delimiter "aa", the image ("a", "b") serialises to "aaab" and parses as ("", "ab") |
| Docker.ParseSingleField | MolnsLib/Docker.py:218-223 | a string without the delimiter becomes the image id when it looks like one and the tag otherwise |
| Docker.ArchiveTargetPath | MolnsLib/Docker.py:159-160 | the target path always starts with `/home/ubuntu/`; an already prefixed path is kept, any other is prefixed |
| Docker.ArchiveTargetPathIdempotent | MolnsLib/Docker.py:159-160 | prefixing twice is prefixing once |
| Docker.StatusOf | MolnsLib/Docker.py:56-67 | a state starting with "running" is running, any other state is stopped, a missing container is terminated, and any other inspection error propagates |

## Left out

- The SQLAlchemy engine and session, the sqlite file, the config directory and the commit in `__del__` (MolnsLib/molns_datastore/__init__.py:215-237): tables are in-memory sequences and every method commits at its end. The two commits inside a save are not modelled separately.
- Loading handler classes by `__import__`/`getattr`, and building configuration objects with them: a static registry of (package, class name) pairs and a `Config` value stand for both. `config_dir` is not modelled.
- The remote-execution sub-store (the RemoteHost and RemoteJob kinds and their tables) is not part of this model. GetObjectById, DeleteObjectById and SaveObject report these kinds as `RemoteExecutionKind` instead of reading, deleting or writing their rows, including the deletion path of `delete_object_by_id` (MolnsLib/molns_datastore/__init__.py:283-290), which would work.
- MolnsDatastore.Hydration: it does not resolve the provider/controller back-references (MolnsLib/molns_datastore/__init__.py:385-398), and it models the intended behaviour rather than the code as written. Every Controller and WorkerGroup row has `provider_id` among its loaded attributes, so the test at line 385 holds. The call `get_object_by_id(id=...)` at line 388 (and at line 395 for a WorkerGroup) then raises `TypeError`, because the parameter is named `obj_id`, and `except DatastoreException` at line 389 does not catch it. As written, `get_object` and `get_object_by_id` therefore succeed only for Provider objects. GetObject, GetObjectById and SaveThenGet return `Ok` for all three kinds.
- Rows.FreshId: a new rowid is one more than the largest present, the rule sqlite follows; only freshness is stated, not that ids are never reused.
- MolnsDatastore.InsertPending: new keys are inserted in an unspecified order rather than the dict's; only the resulting mapping is stated, not the rowids the new rows receive.
- Error messages are not modelled; errors carry the kind and the name or id.
- MolnsDatastore.Datastore.DeleteInstance: the session's refusal to delete an instance it does not hold is modelled as `InstanceNotPersisted`, matching the instance by id.
- MolnsDatastore.Datastore.GetInstance: the `provider_type` argument is ignored, as in the source, and the `type` column stays empty.
- Docker.LooksLikeImageId: compares with equality where the source compares with `is`.
- Everything in the `Docker` class that talks to the Docker daemon: container creation, start, stop, exec, build, `image_exists`, the copy in `put_archive` and the polling loop in `get_container_ip_address`.
- Docker.StatusOf: the inspection result is a parameter. A `State` without `Status` yields `str(None)`, that is `"None"`, which the model receives as `Inspected("None")` and maps to stopped. Only a missing `State` raises, and that case falls under `OtherFailure`, the propagated error.
- MolnsLib/qsubber.py: a file-existence check and a stub, with no logic to model.
- Logging throughout.
