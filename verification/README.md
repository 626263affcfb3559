# ParcelKit sync manager: registry, lifecycle and batching

ParcelKit's `PKSyncManager` keeps a Core Data managed object context and a
Firebase database in sync. Its public header declares the configuration the
manager owns and the lifecycle it goes through; this project models those
parts and proves what the header's documentation promises of them:

- the **entity-to-table registry** (`Registry`, `SyncManager`): a finite map
  from Core Data entity name to remote table ID, with the single-pair setter
  that replaces an entity's table and raises when the entity does not
  declare an attribute with the configured sync attribute name, the bulk setter that replaces the whole map, removal, and the
  lookups (`tableForEntityName:`, `tablesByEntityName`, `tableIDs`,
  `entityNames`);
- the **observing lifecycle** (`SyncManager`): `isObserving` starts as NO,
  `startObserving` and `stopObserving` switch it;
- the **configuration defaults** (`SyncManager.Fresh`): sync attribute
  `"syncID"`, synced-flag attribute `"isSynced"`, batch size 20;
- **batching** (`Batching`): the managed objects of a change set are sent
  `syncBatchSize` at a time. `Chunk(xs, n)` cuts `xs` into consecutive
  batches of at most `n`, all full but the last, which concatenate back to
  `xs`; `ChunkUnique` shows these conditions determine the batches.

A manager is an immutable record (`SyncManager.Manager`); every operation is
a pure function returning the manager it leaves behind. The raise of
`setTable:forEntityName:` is a `Result.Failure(MissingSyncAttribute(entity))`;
no new manager is produced, so the caller's registry is unchanged. The Core
Data model is a parameter (`Schema`: entity name to declared attribute
names); an entity the schema does not contain counts as lacking the sync
attribute.

The header promises neither that a table serves a single entity nor that
`startObserving` fails on an empty registry, so the model admits two
entities on one table and lets an empty manager start observing.

## Model

| member | source | states |
|---|---|---|
| Registry.Lookup | ParcelKit/PKSyncManager.h:177-182 | the table ID of a mapped entity, nil exactly when the entity is not mapped |
| Registry.Put | ParcelKit/PKSyncManager.h:141-149 | after mapping an entity its lookup yields the new table; every other entity's lookup is unchanged; the mapped entities gain exactly that one |
| Registry.Remove | ParcelKit/PKSyncManager.h:151-155 | after removal the entity's lookup is nil; every other entity's lookup is unchanged; only that entity leaves the key set |
| Registry.PutReplaces | ParcelKit/PKSyncManager.h:144 | mapping an entity twice keeps only the later table: the earlier relationship is replaced |
| Registry.PutCommutes | ParcelKit/PKSyncManager.h:141-149 | single-pair registrations of two different entities give the same registry in either order |
| Registry.RemoveUndoesPut | ParcelKit/PKSyncManager.h:151-155 | removing an entity just mapped on a registry without it restores that registry |
| Registry.EntityNames | ParcelKit/PKSyncManager.h:171-175 | lists exactly the mapped entity names, each once, as many as there are mappings |
| Registry.TableIDs | ParcelKit/PKSyncManager.h:165-169 | lists one entry per mapped entity, each the table that entity maps to, so a table ID appears iff and as often as entities map to it |
| Batching.Chunk | ParcelKit/PKSyncManager.h:98-106 | the batches are non-empty, hold at most the batch size, are full except the last, concatenate back to the input in order, and number ceil(len / size) |
| Batching.ChunkUnique | ParcelKit/PKSyncManager.h:98-106 | any split into non-empty batches of at most the batch size, all full but the last, is the one Chunk computes |
| SyncManager.Fresh | ParcelKit/PKSyncManager.h:83-106 | a new manager maps nothing, uses "syncID" and "isSynced" as attribute names and a batch size of 20, and is not observing |
| SyncManager.TableForEntityName | ParcelKit/PKSyncManager.h:177-182 | the manager's table for an entity, nil exactly when the entity is not mapped |
| SyncManager.TablesByEntityName | ParcelKit/PKSyncManager.h:159-163 | the dictionary has a key exactly for each mapped entity, and each value is that entity's table |
| SyncManager.SetTable | ParcelKit/PKSyncManager.h:141-149 | succeeds exactly when the entity declares the sync attribute, otherwise raises MissingSyncAttribute for it; on success the entity maps to the table, other entities and all settings are unchanged |
| SyncManager.SetTablesForEntityNames | ParcelKit/PKSyncManager.h:135-139 | every lookup afterwards answers as the given dictionary does, whatever was mapped before; settings are unchanged |
| SyncManager.RemoveTableForEntityName | ParcelKit/PKSyncManager.h:151-155 | the entity's table becomes nil; other entities and all settings are unchanged |
| SyncManager.SetTablesReplacesAll | ParcelKit/PKSyncManager.h:135-139 | after the bulk setter the dictionary is exactly the one given, and applying it twice equals applying it once |
| SyncManager.SetTableFailureKeepsRegistry | ParcelKit/PKSyncManager.h:145 | without the sync attribute the single-pair setter raises and yields no new registry; once the schema declares the attribute it succeeds |
| SyncManager.RemoveUndoesSetTable | ParcelKit/PKSyncManager.h:141-155 | mapping an unmapped entity and then removing it gives back the original manager |
| SyncManager.EntityNames | ParcelKit/PKSyncManager.h:171-175 | exactly the mapped entity names, each once; empty for a manager with no mappings |
| SyncManager.TableIDs | ParcelKit/PKSyncManager.h:165-169 | one entry per mapped entity, each that entity's table, so exactly the mapped table IDs; empty for a manager with no mappings |
| SyncManager.StartObserving | ParcelKit/PKSyncManager.h:194-197 | the manager is observing afterwards; registry and settings are unchanged |
| SyncManager.StopObserving | ParcelKit/PKSyncManager.h:199-202 | the manager is not observing afterwards; registry and settings are unchanged |
| SyncManager.ObservingLifecycle | ParcelKit/PKSyncManager.h:186-202 | a fresh manager is not observing and is observing after start; start then stop restores an idle manager; start and stop are idempotent; registration keeps the observing state |
| SyncManager.FreshBatching | ParcelKit/PKSyncManager.h:98-106 | with the default batch size a change set is sent in batches of at most 20 objects that keep every object in order |

## Left out

- Change propagation in both directions, echo suppression through the synced flag, per-record type checks and delegate callbacks: the header declares no implementation of them, so any model would be invented. The delegate's `isRecordSyncable:` has no default stated in the header.
- The managed object context and the Firebase database reference: foreign library objects; the Core Data model is reduced to the `Schema` parameter.
- `+syncID`: it draws a random string; randomness is outside the model.
- The ISO 8601 timestamp conversions: date formatting done by code that is not part of this model.
- The notification names and keys: broadcast plumbing with placeholder documentation.
- `userId` and `delegate`: opaque pass-through properties with no stated behaviour.
- Setters of `syncAttributeName`, `isSyncedAttributeName` and `syncBatchSize`: plain record updates (`m.(syncBatchSize := k)`); the single-pair setter checks against whatever sync attribute name the manager holds.
- A lookup from table ID back to entity name: the header declares none.
- Batching.Chunk: requires a batch size above zero; the header does not say what a batch size of 0 does.
- SyncManager.SetTable: a "valid" sync attribute is reduced to an attribute of that name being declared; its type or other validity conditions are not modelled, because the schema holds attribute names only.
- SyncManager.SetTablesForEntityNames: the header does not state whether the bulk setter checks each entity for the sync attribute; the model accepts any dictionary and never raises.
- Registry.TableIDs: the order of the listed IDs, and of the entity names, is unspecified in the header and not modelled.
