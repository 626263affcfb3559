/** The entity-to-table registry: a finite map from a Core Data entity name
    to the remote table ID it is synced with. Every operation is a pure
    function of the old mapping. */
module Registry {
  import opened Wrappers

  /** Core Data entity name -> remote table ID. */
  type Mapping = map<string, string>

  /** The table ID mapped to `entity`, or `None` (nil) when it is not mapped. */
  function Lookup(m: Mapping, entity: string): (r: Option<string>)
    ensures r.Some? <==> entity in m
    ensures r.Some? ==> r.value == m[entity]
  {
    if entity in m then Some(m[entity]) else None
  }

  /** Maps `entity` to `table`, replacing any earlier table for `entity`. */
  function Put(m: Mapping, entity: string, table: string): (r: Mapping)
    ensures Lookup(r, entity) == Some(table)
    ensures forall other :: other != entity ==> Lookup(r, other) == Lookup(m, other)
    ensures r.Keys == m.Keys + {entity}
  {
    m[entity := table]
  }

  /** Drops the mapping of `entity`; a no-op when `entity` is not mapped. */
  function Remove(m: Mapping, entity: string): (r: Mapping)
    ensures Lookup(r, entity) == None
    ensures forall other :: other != entity ==> Lookup(r, other) == Lookup(m, other)
    ensures r.Keys == m.Keys - {entity}
  {
    m - {entity}
  }

  /** Mapping an entity a second time replaces the first relationship. */
  lemma PutReplaces(m: Mapping, entity: string, t1: string, t2: string)
    ensures Put(Put(m, entity, t1), entity, t2) == Put(m, entity, t2)
  {
  }

  /** Registration order has no effect for two different entities. */
  lemma PutCommutes(m: Mapping, e1: string, t1: string, e2: string, t2: string)
    requires e1 != e2
    ensures Put(Put(m, e1, t1), e2, t2) == Put(Put(m, e2, t2), e1, t1)
  {
  }

  /** Removing a freshly added entity restores the registry it was added to. */
  lemma RemoveUndoesPut(m: Mapping, entity: string, table: string)
    requires Lookup(m, entity) == None
    ensures Remove(Put(m, entity, table), entity) == m
  {
  }

  /** The mapped entity names: each key exactly once, in no promised order. */
  method EntityNames(m: Mapping) returns (names: seq<string>)
    ensures forall e :: e in names <==> Lookup(m, e).Some?
    ensures forall i, j :: 0 <= i < j < |names| ==> names[i] != names[j]
    ensures |names| == |m|
  {
    names := [];
    var rest := m.Keys;
    while rest != {}
      invariant rest <= m.Keys
      invariant forall e :: e in names <==> e in m.Keys - rest
      invariant forall i, j :: 0 <= i < j < |names| ==> names[i] != names[j]
      invariant |names| + |rest| == |m.Keys|
      decreases |rest|
    {
      var e :| e in rest;
      assert e !in names;
      names := names + [e];
      rest := rest - {e};
    }
  }

  /** The mapped table IDs, one entry per mapped entity: `keys` lists the
      mapped entities, each once, and `ids[i]` is the table of `keys[i]`. A
      table ID is therefore listed iff some entity maps to it, and as often as
      entities map to it. */
  method TableIDs(m: Mapping) returns (ids: seq<string>, ghost keys: seq<string>)
    ensures forall t :: t in ids <==> exists e :: Lookup(m, e) == Some(t)
    ensures |ids| == |keys| == |m|
    ensures forall e :: e in keys <==> Lookup(m, e).Some?
    ensures forall i, j :: 0 <= i < j < |keys| ==> keys[i] != keys[j]
    ensures forall i :: 0 <= i < |ids| ==> Lookup(m, keys[i]) == Some(ids[i])
  {
    ids, keys := [], [];
    var rest := m.Keys;
    while rest != {}
      invariant rest <= m.Keys
      invariant forall e :: e in keys <==> e in m.Keys - rest
      invariant forall i, j :: 0 <= i < j < |keys| ==> keys[i] != keys[j]
      invariant |ids| == |keys| && |keys| + |rest| == |m.Keys|
      invariant forall i :: 0 <= i < |ids| ==> keys[i] in m && m[keys[i]] == ids[i]
      decreases |rest|
    {
      var e :| e in rest;
      assert e !in keys;
      ids, keys := ids + [m[e]], keys + [e];
      rest := rest - {e};
    }
    forall t
      ensures t in ids <==> exists e :: Lookup(m, e) == Some(t)
    {
      if t in ids {
        var i :| 0 <= i < |ids| && ids[i] == t;
        assert Lookup(m, keys[i]) == Some(t);
      }
      if exists e :: Lookup(m, e) == Some(t) {
        var e :| Lookup(m, e) == Some(t);
        assert e in keys;
        var i :| 0 <= i < |keys| && keys[i] == e;
        assert ids[i] == t;
      }
    }
  }
}
