/** The sync manager's configuration and lifecycle: the attribute names it
    uses, its batch size, the entity-to-table registry it owns and whether it
    is observing changes. A manager is an immutable record; every operation
    returns the manager it leaves behind. */
module SyncManager {
  import opened Wrappers
  import Registry
  import Batching

  /** Default name of the entity attribute holding an object's sync ID. */
  const DefaultSyncAttributeName: string := "syncID"
  /** Default name of the entity attribute flagging an object as synced. */
  const DefaultIsSyncedAttributeName: string := "isSynced"
  /** Default number of managed objects sent per remote delta:
      a 2048 KiB delta ceiling over a 100 KiB largest record. */
  const DefaultSyncBatchSize: nat := 20

  /** The Core Data model as far as the manager sees it: each entity name
      with the names of the attributes that entity declares. */
  type Schema = map<string, set<string>>

  /** What `setTable:forEntityName:` raises (an internal inconsistency). */
  datatype ConfigError = MissingSyncAttribute(entityName: string)

  datatype Manager = Manager(
    tables: Registry.Mapping,
    observing: bool,
    syncAttributeName: string,
    isSyncedAttributeName: string,
    syncBatchSize: nat)

  /** `a` and `b` agree on everything but the registry. */
  predicate SameSettings(a: Manager, b: Manager)
  {
    && a.observing == b.observing
    && a.syncAttributeName == b.syncAttributeName
    && a.isSyncedAttributeName == b.isSyncedAttributeName
    && a.syncBatchSize == b.syncBatchSize
  }

  /** A newly initialised manager: nothing mapped, not observing, default
      attribute names and batch size. */
  function Fresh(): (m: Manager)
    ensures m.tables == map[]
    ensures !m.observing
    ensures m.syncAttributeName == "syncID"
    ensures m.isSyncedAttributeName == "isSynced"
    ensures m.syncBatchSize == 20
  {
    Manager(map[], false, DefaultSyncAttributeName, DefaultIsSyncedAttributeName, DefaultSyncBatchSize)
  }

  /** Entity `entity` declares the manager's sync attribute. An entity the
      schema does not know declares nothing. */
  predicate HasSyncAttribute(m: Manager, schema: Schema, entity: string)
  {
    entity in schema && m.syncAttributeName in schema[entity]
  }

  /** The table ID mapped to `entity`, or `None` (nil). */
  function TableForEntityName(m: Manager, entity: string): (r: Option<string>)
    ensures r.Some? <==> entity in m.tables
    ensures r.Some? ==> r.value == m.tables[entity]
  {
    Registry.Lookup(m.tables, entity)
  }

  /** The whole registry as a dictionary from entity name to table ID. */
  function TablesByEntityName(m: Manager): (d: map<string, string>)
    ensures forall e :: e in d <==> TableForEntityName(m, e).Some?
    ensures forall e :: e in d ==> TableForEntityName(m, e) == Some(d[e])
  {
    m.tables
  }

  /** Maps one entity to a table, replacing any earlier table for it. Fails,
      with no new manager, when the entity lacks the sync attribute. */
  function SetTable(m: Manager, schema: Schema, tableID: string, entity: string): (r: Result<Manager, ConfigError>)
    ensures r.Success? <==> HasSyncAttribute(m, schema, entity)
    ensures r.Failure? ==> r.error == MissingSyncAttribute(entity)
    ensures r.Success? ==> TableForEntityName(r.value, entity) == Some(tableID)
    ensures r.Success? ==> forall other :: other != entity ==>
              TableForEntityName(r.value, other) == TableForEntityName(m, other)
    ensures r.Success? ==> SameSettings(r.value, m)
  {
    if HasSyncAttribute(m, schema, entity) then
      Success(m.(tables := Registry.Put(m.tables, entity, tableID)))
    else
      Failure(MissingSyncAttribute(entity))
  }

  /** Replaces the whole registry by `keyedTables`. The header does not say
      whether entries are checked for the sync attribute; this model accepts
      any dictionary. */
  function SetTablesForEntityNames(m: Manager, keyedTables: map<string, string>): (r: Manager)
    ensures forall e :: TableForEntityName(r, e) == Registry.Lookup(keyedTables, e)
    ensures SameSettings(r, m)
  {
    m.(tables := keyedTables)
  }

  /** Unmaps `entity`; every other entity keeps its table. */
  function RemoveTableForEntityName(m: Manager, entity: string): (r: Manager)
    ensures TableForEntityName(r, entity) == None
    ensures forall other :: other != entity ==>
              TableForEntityName(r, other) == TableForEntityName(m, other)
    ensures SameSettings(r, m)
  {
    m.(tables := Registry.Remove(m.tables, entity))
  }

  /** After the bulk setter the registry is exactly the dictionary given,
      whatever was mapped before, so applying it twice is applying it once. */
  lemma SetTablesReplacesAll(m: Manager, keyedTables: map<string, string>)
    ensures TablesByEntityName(SetTablesForEntityNames(m, keyedTables)) == keyedTables
    ensures SetTablesForEntityNames(SetTablesForEntityNames(m, keyedTables), keyedTables)
              == SetTablesForEntityNames(m, keyedTables)
  {
  }

  /** A failed single-pair registration leaves the manager exactly as it
      was: the caller still holds `m`, and a retry once the schema declares
      the attribute maps the entity. */
  lemma {:induction false} SetTableFailureKeepsRegistry(m: Manager, schema: Schema, tableID: string, entity: string)
    requires !HasSyncAttribute(m, schema, entity)
    ensures SetTable(m, schema, tableID, entity) == Failure(MissingSyncAttribute(entity))
    ensures entity in schema ==>
              var fixed := schema[entity := schema[entity] + {m.syncAttributeName}];
              SetTable(m, fixed, tableID, entity).Success?
  {
  }

  /** Mapping an entity and then unmapping it restores a manager on which
      that entity was not mapped. */
  lemma {:induction false} RemoveUndoesSetTable(m: Manager, schema: Schema, tableID: string, entity: string)
    requires HasSyncAttribute(m, schema, entity)
    requires TableForEntityName(m, entity) == None
    ensures RemoveTableForEntityName(SetTable(m, schema, tableID, entity).value, entity) == m
  {
  }

  /** The entity names currently mapped, each once. A fresh manager has none. */
  method EntityNames(m: Manager) returns (names: seq<string>)
    ensures forall e :: e in names <==> TableForEntityName(m, e).Some?
    ensures forall i, j :: 0 <= i < j < |names| ==> names[i] != names[j]
    ensures m.tables == map[] ==> names == []
  {
    names := Registry.EntityNames(m.tables);
  }

  /** The table IDs currently mapped, one per mapped entity (`keys[i]` is
      the entity `ids[i]` belongs to). A fresh manager has none. */
  method TableIDs(m: Manager) returns (ids: seq<string>, ghost keys: seq<string>)
    ensures forall t :: t in ids <==> exists e :: TableForEntityName(m, e) == Some(t)
    ensures |ids| == |keys| == |m.tables|
    ensures forall e :: e in keys <==> TableForEntityName(m, e).Some?
    ensures forall i, j :: 0 <= i < j < |keys| ==> keys[i] != keys[j]
    ensures forall i :: 0 <= i < |ids| ==> TableForEntityName(m, keys[i]) == Some(ids[i])
    ensures m.tables == map[] ==> ids == []
  {
    ids, keys := Registry.TableIDs(m.tables);
    forall t
      ensures t in ids <==> exists e :: TableForEntityName(m, e) == Some(t)
    {
      if t in ids {
        var e :| Registry.Lookup(m.tables, e) == Some(t);
        assert TableForEntityName(m, e) == Some(t);
      }
    }
  }

  /** Starts observing; the registry and settings are untouched. */
  function StartObserving(m: Manager): (r: Manager)
    ensures r.observing
    ensures r.tables == m.tables
    ensures r.syncAttributeName == m.syncAttributeName
    ensures r.isSyncedAttributeName == m.isSyncedAttributeName
    ensures r.syncBatchSize == m.syncBatchSize
  {
    m.(observing := true)
  }

  /** Stops observing; the registry and settings are untouched. */
  function StopObserving(m: Manager): (r: Manager)
    ensures !r.observing
    ensures r.tables == m.tables
    ensures r.syncAttributeName == m.syncAttributeName
    ensures r.isSyncedAttributeName == m.isSyncedAttributeName
    ensures r.syncBatchSize == m.syncBatchSize
  {
    m.(observing := false)
  }

  /** A fresh manager is not observing; starting and then stopping returns
      an idle manager to where it was;
      stopping twice is stopping once; the registry may change while
      observing without leaving the observing state. */
  lemma ObservingLifecycle(m: Manager, schema: Schema, tableID: string, entity: string)
    ensures !Fresh().observing && StartObserving(Fresh()).observing
    ensures !m.observing ==> StopObserving(StartObserving(m)) == m
    ensures StopObserving(StopObserving(m)) == StopObserving(m)
    ensures StartObserving(StartObserving(m)) == StartObserving(m)
    ensures SetTable(StartObserving(m), schema, tableID, entity).Success? ==>
              SetTable(StartObserving(m), schema, tableID, entity).value.observing
  {
  }

  /** The objects of one change set, cut into remote deltas of the
      configured batch size, keep their order and lose none. */
  lemma FreshBatching<T>(objects: seq<T>)
    ensures var batches := Batching.Chunk(objects, Fresh().syncBatchSize);
            && Batching.Flatten(batches) == objects
            && forall i :: 0 <= i < |batches| ==> |batches[i]| <= 20
  {
  }
}
