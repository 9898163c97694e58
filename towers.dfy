/**
 * One bucket of the grid partition (a "tower"): the ids of the objects it
 * holds, the same ids indexed by type, and the watchers registered in it,
 * indexed by type.
 *
 * `Bucket` is the value a tower holds at one instant and the functions over
 * it say what each operation does; the class `Tower` keeps the same four
 * fields and updates them in place, and each of its methods is proved to
 * move from `old(State())` to the value the matching function gives.
 */
module Towers {
  import opened Common

  /** An object or watcher id. The source keys plain objects by id and tests
      `!!ids[id]`, so a falsy id would read as absent; ids here are non-empty. */
  type Id = s: string | s != "" witness "id"

  /** A type tag. The empty string stands for a missing (falsy) type. */
  type Tag = string

  /** A type-indexed family of id sets (`typeMap` and `watchers`). */
  type IdMap = map<Tag, set<Id>>

  /** The ids under `t`, or none when `t` is not a key. */
  function Lookup(m: IdMap, t: Tag): set<Id>
  {
    if t in m then m[t] else {}
  }

  /** `id` is filed under type `t`. */
  predicate Registered(m: IdMap, t: Tag, id: Id)
  {
    t in m && id in m[t]
  }

  datatype Bucket = Bucket(ids: set<Id>, typeMap: IdMap, watchers: IdMap, size: int)
  {
    /** No entry is ever filed under the missing type. */
    predicate Wf()
    {
      "" !in typeMap && "" !in watchers
    }

    /** Every typed id is also in the type-agnostic id set. */
    predicate IdsCoverTypes()
    {
      forall t | t in typeMap :: typeMap[t] <= ids
    }

    /** `id` is filed under no type other than `typ`. */
    predicate TypedOnlyAs(id: Id, typ: Tag)
    {
      forall t | t in typeMap && t != typ :: id !in typeMap[t]
    }
  }

  const EmptyBucket: Bucket := Bucket({}, map[], map[], 0)

  /** What `add` reports: true only for a typed (id, type) pair not yet filed. */
  predicate AddAccepted(b: Bucket, id: Id, typ: Tag)
  {
    typ != "" && !Registered(b.typeMap, typ, id)
  }

  /** The bucket after `add(id, typ)`. */
  function AfterAdd(b: Bucket, id: Id, typ: Tag): (r: Bucket)
    ensures r.ids == b.ids + {id}
    ensures r.watchers == b.watchers
    ensures AddAccepted(b, id, typ) ==> Registered(r.typeMap, typ, id) && r.size == b.size + 1
    ensures !AddAccepted(b, id, typ) ==> r.typeMap == b.typeMap && r.size == b.size
    ensures forall t, x | t != typ || x != id :: Registered(r.typeMap, t, x) <==> Registered(b.typeMap, t, x)
    ensures b.Wf() ==> r.Wf()
    ensures b.IdsCoverTypes() ==> r.IdsCoverTypes()
  {
    if typ == "" then
      b.(ids := b.ids + {id})
    else if Registered(b.typeMap, typ, id) then
      assert b.typeMap[typ := b.typeMap[typ]] == b.typeMap;
      b.(ids := b.ids + {id})
    else
      Bucket(b.ids + {id}, b.typeMap[typ := Lookup(b.typeMap, typ) + {id}], b.watchers, b.size + 1)
  }

  /** `remove(id, typ)` deletes from `typeMap[typ]` without checking that the
      key exists, which throws in the source; this is when it does not. */
  predicate RemovePermitted(b: Bucket, id: Id, typ: Tag)
  {
    id in b.ids && typ != "" ==> typ in b.typeMap
  }

  /** The bucket after `remove(id, typ)`. */
  function AfterRemove(b: Bucket, id: Id, typ: Tag): (r: Bucket)
    requires RemovePermitted(b, id, typ)
    ensures r.ids == b.ids - {id}
    ensures r.watchers == b.watchers
    ensures r.typeMap.Keys == b.typeMap.Keys
    ensures id in b.ids ==> r.size == b.size - 1
    ensures id !in b.ids ==> r == b
    ensures forall t, x :: Registered(r.typeMap, t, x) <==>
              Registered(b.typeMap, t, x) && !(id in b.ids && t == typ && x == id && typ != "")
    ensures b.Wf() ==> r.Wf()
    ensures b.Wf() && b.IdsCoverTypes() && b.TypedOnlyAs(id, typ) ==> r.IdsCoverTypes()
  {
    if id !in b.ids then b
    else if typ == "" then b.(ids := b.ids - {id}, size := b.size - 1)
    else Bucket(b.ids - {id}, b.typeMap[typ := b.typeMap[typ] - {id}], b.watchers, b.size - 1)
  }

  /** The bucket after `addWatcher(id, typ)`: a watcher without a type is ignored. */
  function AfterAddWatcher(b: Bucket, id: Id, typ: Tag): (r: Bucket)
    ensures r.ids == b.ids && r.typeMap == b.typeMap && r.size == b.size
    ensures r.watchers.Keys == if typ == "" then b.watchers.Keys else b.watchers.Keys + {typ}
    ensures forall t, x :: Registered(r.watchers, t, x) <==>
              Registered(b.watchers, t, x) || (t == typ && x == id && typ != "")
    ensures b.Wf() ==> r.Wf()
  {
    if typ == "" then b
    else b.(watchers := b.watchers[typ := Lookup(b.watchers, typ) + {id}])
  }

  /** The bucket after `removeWatcher(id, typ)`: only `watchers[typ]` loses `id`. */
  function AfterRemoveWatcher(b: Bucket, id: Id, typ: Tag): (r: Bucket)
    ensures r.ids == b.ids && r.typeMap == b.typeMap && r.size == b.size
    ensures r.watchers.Keys == b.watchers.Keys
    ensures forall t, x :: Registered(r.watchers, t, x) <==>
              Registered(b.watchers, t, x) && !(t == typ && x == id && typ != "")
    ensures b.Wf() ==> r.Wf()
  {
    if typ != "" && typ in b.watchers then b.(watchers := b.watchers[typ := b.watchers[typ] - {id}])
    else b
  }

  /** Adding a typed pair twice: the second call reports false and changes nothing. */
  lemma AddTwice(b: Bucket, id: Id, typ: Tag)
    ensures !AddAccepted(AfterAdd(b, id, typ), id, typ)
    ensures typ != "" ==> AfterAdd(AfterAdd(b, id, typ), id, typ) == AfterAdd(b, id, typ)
  {
    var b1 := AfterAdd(b, id, typ);
    if typ != "" {
      assert Registered(b1.typeMap, typ, id);
      assert b1.ids + {id} == b1.ids;
    }
  }

  /** Registering a watcher twice is the same as registering it once. */
  lemma AddWatcherIdempotent(b: Bucket, id: Id, typ: Tag)
    ensures AfterAddWatcher(AfterAddWatcher(b, id, typ), id, typ) == AfterAddWatcher(b, id, typ)
  {
    if typ != "" {
      var w := AfterAddWatcher(b, id, typ).watchers;
      assert w[typ := w[typ] + {id}] == w;
    }
  }

  /** Deregistering a watcher twice is the same as deregistering it once. */
  lemma RemoveWatcherIdempotent(b: Bucket, id: Id, typ: Tag)
    ensures AfterRemoveWatcher(AfterRemoveWatcher(b, id, typ), id, typ) == AfterRemoveWatcher(b, id, typ)
  {
    if typ != "" && typ in b.watchers {
      var w := AfterRemoveWatcher(b, id, typ).watchers;
      assert w[typ] - {id} == w[typ];
      assert w[typ := w[typ] - {id}] == w;
    }
  }

  /** Removing an object under a type other than the one it was added with
      drops it from `ids` while `typeMap` still files it: the typed ids are then
      no longer covered by `ids`. */
  lemma RemoveUnderOtherTypeUncovers()
    ensures var b := AfterAdd(AfterAdd(EmptyBucket, "o", "a"), "p", "b");
            b.Wf() && b.IdsCoverTypes() && RemovePermitted(b, "o", "b") &&
            !AfterRemove(b, "o", "b").IdsCoverTypes()
  {
    var b := AfterAdd(AfterAdd(EmptyBucket, "o", "a"), "p", "b");
    assert "o" in b.typeMap["a"];
    assert "o" in AfterRemove(b, "o", "b").typeMap["a"];
  }

  class Tower {
    var ids: set<Id>
    var typeMap: IdMap
    var watchers: IdMap
    var size: int

    /** The value this tower holds. */
    ghost function State(): Bucket
      reads this
    {
      Bucket(ids, typeMap, watchers, size)
    }

    constructor ()
      ensures State() == EmptyBucket
    {
      ids := {};
      watchers := map[];
      typeMap := map[];
      size := 0;
    }

    /** Add an object to the tower. */
    method Add(id: Id, typ: Tag) returns (ok: bool)
      modifies this
      ensures ok == AddAccepted(old(State()), id, typ)
      ensures State() == AfterAdd(old(State()), id, typ)
    {
      ids := ids + {id};
      if typ != "" {
        if typ !in typeMap {
          typeMap := typeMap[typ := {}];
        }
        if id in typeMap[typ] {
          assert typeMap == old(typeMap);
          return false;
        }
        typeMap := typeMap[typ := typeMap[typ] + {id}];
        size := size + 1;
        return true;
      } else {
        return false;
      }
    }

    /** Register a watcher in the tower. */
    method AddWatcher(id: Id, typ: Tag)
      modifies this
      ensures State() == AfterAddWatcher(old(State()), id, typ)
    {
      if typ != "" {
        if typ !in watchers {
          watchers := watchers[typ := {}];
        }
        watchers := watchers[typ := watchers[typ] + {id}];
      }
    }

    /** Deregister a watcher from the tower. */
    method RemoveWatcher(id: Id, typ: Tag)
      modifies this
      ensures State() == AfterRemoveWatcher(old(State()), id, typ)
    {
      if typ != "" && typ in watchers {
        watchers := watchers[typ := watchers[typ] - {id}];
      }
    }

    /** The watcher sets of the requested types that this tower has. */
    method GetWatchers(types: seq<Tag>) returns (r: IdMap)
      ensures r.Keys == Elems(types) * watchers.Keys
      ensures forall t | t in r :: r[t] == watchers[t]
    {
      r := map[];
      if |types| > 0 {
        for i := 0 to |types|
          invariant r.Keys == Elems(types[..i]) * watchers.Keys
          invariant forall t | t in r :: r[t] == watchers[t]
        {
          var t := types[i];
          TakeOneMore(types, i);
          if t in watchers {
            r := r[t := watchers[t]];
          }
        }
        assert types[..|types|] == types;
      }
    }

    /** Remove an object from the tower. */
    method Remove(id: Id, typ: Tag)
      requires RemovePermitted(State(), id, typ)
      modifies this
      ensures State() == AfterRemove(old(State()), id, typ)
    {
      if id in ids {
        ids := ids - {id};
        if typ != "" {
          typeMap := typeMap[typ := typeMap[typ] - {id}];
        }
        size := size - 1;
      }
    }

    /** The typed id sets of the requested types that this tower has. */
    method GetIdsByTypes(types: seq<Tag>) returns (r: IdMap)
      ensures r.Keys == Elems(types) * typeMap.Keys
      ensures forall t | t in r :: r[t] == typeMap[t]
    {
      r := map[];
      for i := 0 to |types|
        invariant r.Keys == Elems(types[..i]) * typeMap.Keys
        invariant forall t | t in r :: r[t] == typeMap[t]
      {
        var t := types[i];
        TakeOneMore(types, i);
        if t in typeMap {
          r := r[t := typeMap[t]];
        }
      }
      assert types[..|types|] == types;
    }
  }
}
