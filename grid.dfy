/**
 * The grid of towers as a value: a board maps every tower coordinate to the
 * bucket held there. The engine's operations are stated over boards, and
 * the lemmas here say what those operations preserve: where an object
 * lives, and which towers a watcher is registered in.
 */
module Grid {
  import opened Common
  import opened Towers
  import opened Geometry

  type Board = map<Vec2, Bucket>

  /** Every tower coordinate of a grid whose last tower is `max`. */
  ghost function AllTowers(max: Vec2): set<Vec2>
  {
    Cells(Limit(Vec2(0, 0), max))
  }

  /** The object ids held by the given towers (type-agnostic). */
  ghost function IdsIn(g: Board, cells: set<Vec2>): (s: set<Id>)
    ensures forall c, id | c in cells && c in g && id in g[c].ids :: id in s
  {
    set c, id | c in cells && c in g && id in g[c].ids :: id
  }

  /** The requested types that some of the given towers index. */
  ghost function TypesIn(g: Board, cells: set<Vec2>, types: seq<Tag>): (s: set<Tag>)
    ensures s <= Elems(types)
  {
    set c, t | c in cells && c in g && t in types && t in g[c].typeMap :: t
  }

  /** The ids of type `t` held by the given towers. */
  ghost function TypedIdsIn(g: Board, cells: set<Vec2>, t: Tag): set<Id>
  {
    set c, id | c in cells && c in g && t in g[c].typeMap && id in g[c].typeMap[t] :: id
  }

  lemma IdsInInsert(g: Board, cells: set<Vec2>, c: Vec2)
    requires c in g
    ensures IdsIn(g, cells + {c}) == IdsIn(g, cells) + g[c].ids
  {
  }

  lemma TypesInInsert(g: Board, cells: set<Vec2>, c: Vec2, types: seq<Tag>)
    requires c in g
    ensures TypesIn(g, cells + {c}, types) == TypesIn(g, cells, types) + Elems(types) * g[c].typeMap.Keys
  {
    var l, r := TypesIn(g, cells + {c}, types), TypesIn(g, cells, types) + Elems(types) * g[c].typeMap.Keys;
    forall t | t in r ensures t in l {
      if t !in TypesIn(g, cells, types) {
        assert t in types && t in g[c].typeMap;
      }
    }
  }

  lemma TypedIdsInInsert(g: Board, cells: set<Vec2>, c: Vec2, t: Tag)
    requires c in g
    ensures TypedIdsIn(g, cells + {c}, t) == TypedIdsIn(g, cells, t) + Lookup(g[c].typeMap, t)
  {
  }

  /** No given tower indexes `t` when `t` is a requested type missing from `TypesIn`. */
  lemma TypedIdsInMissing(g: Board, cells: set<Vec2>, types: seq<Tag>, t: Tag)
    requires t in types && t !in TypesIn(g, cells, types)
    ensures TypedIdsIn(g, cells, t) == {}
  {
  }

  /** The watcher `(id, typ)` is registered in exactly the towers `cells`. */
  ghost predicate WatchedExactly(g: Board, id: Id, typ: Tag, cells: set<Vec2>)
  {
    forall c | c in g :: Registered(g[c].watchers, typ, id) <==> c in cells
  }

  /** The object `id` is held by the tower `c` and by no other. */
  ghost predicate ResidentOnlyAt(g: Board, id: Id, c: Vec2)
  {
    forall d | d in g :: id in g[d].ids <==> d == c
  }

  /** No tower holds the object `id`. */
  ghost predicate Absent(g: Board, id: Id)
  {
    forall d | d in g :: id !in g[d].ids
  }

  /** Boards that hold the same ids in every tower have the same ids in any towers. */
  lemma IdsInSameIds(g: Board, h: Board, cells: set<Vec2>)
    requires g.Keys == h.Keys && forall c | c in g :: g[c].ids == h[c].ids
    ensures IdsIn(g, cells) == IdsIn(h, cells)
  {
    assert forall id | id in IdsIn(h, cells) :: id in IdsIn(g, cells);
  }

  /** Register the watcher in every one of `cells` (the loop of `addWatcher`). */
  ghost function WatchersAdded(g: Board, cells: set<Vec2>, id: Id, typ: Tag): (r: Board)
    ensures r.Keys == g.Keys
    ensures forall c | c in g :: r[c].ids == g[c].ids
    ensures typ != "" ==> forall c | c in cells && c in g :: Registered(r[c].watchers, typ, id)
  {
    map c | c in g :: if c in cells then AfterAddWatcher(g[c], id, typ) else g[c]
  }

  /** Deregister the watcher from every one of `cells` (the loop of `removeWatcher`). */
  ghost function WatchersRemoved(g: Board, cells: set<Vec2>, id: Id, typ: Tag): (r: Board)
    ensures r.Keys == g.Keys
    ensures forall c | c in g :: r[c].ids == g[c].ids
    ensures typ != "" ==> forall c | c in cells && c in g :: !Registered(r[c].watchers, typ, id)
  {
    map c | c in g :: if c in cells then AfterRemoveWatcher(g[c], id, typ) else g[c]
  }

  /** Registering in no tower changes nothing. */
  lemma WatchersAddedNone(g: Board, id: Id, typ: Tag)
    ensures WatchersAdded(g, {}, id, typ) == g
  {
  }

  /** Deregistering from no tower changes nothing. */
  lemma WatchersRemovedNone(g: Board, id: Id, typ: Tag)
    ensures WatchersRemoved(g, {}, id, typ) == g
  {
  }

  /** `addWatcher` of a watcher registered nowhere registers it in exactly its window. */
  lemma AddedEstablishesWatch(g: Board, cells: set<Vec2>, id: Id, typ: Tag)
    requires typ != "" && WatchedExactly(g, id, typ, {})
    ensures WatchedExactly(WatchersAdded(g, cells, id, typ), id, typ, cells)
  {
  }

  /** `removeWatcher` over the window a watcher is registered in registers it nowhere. */
  lemma RemovedClearsWatch(g: Board, cells: set<Vec2>, id: Id, typ: Tag)
    requires typ != "" && WatchedExactly(g, id, typ, cells)
    ensures WatchedExactly(WatchersRemoved(g, cells, id, typ), id, typ, {})
  {
  }

  /** Registering in one more tower updates that tower alone. */
  lemma WatchersAddedInsert(g: Board, cells: set<Vec2>, c: Vec2, id: Id, typ: Tag)
    requires c in g
    ensures WatchersAdded(g, cells + {c}, id, typ)
         == WatchersAdded(g, cells, id, typ)[c := AfterAddWatcher(WatchersAdded(g, cells, id, typ)[c], id, typ)]
  {
    if c in cells {
      AddWatcherIdempotent(g[c], id, typ);
    }
  }

  /** Deregistering from one more tower updates that tower alone. */
  lemma WatchersRemovedInsert(g: Board, cells: set<Vec2>, c: Vec2, id: Id, typ: Tag)
    requires c in g
    ensures WatchersRemoved(g, cells + {c}, id, typ)
         == WatchersRemoved(g, cells, id, typ)[c := AfterRemoveWatcher(WatchersRemoved(g, cells, id, typ)[c], id, typ)]
  {
    if c in cells {
      RemoveWatcherIdempotent(g[c], id, typ);
    }
  }

  /** The incremental update of `updateWatcher`: register in the towers only
      the new window has, deregister from those only the old one has, and
      leave every other tower alone. */
  ghost function WatcherDiff(g: Board, oldCells: set<Vec2>, newCells: set<Vec2>, id: Id, typ: Tag): (r: Board)
    ensures r.Keys == g.Keys
    ensures forall c | c in g :: r[c].ids == g[c].ids && r[c].typeMap == g[c].typeMap && r[c].size == g[c].size
    ensures forall c | c in g && (c in oldCells <==> c in newCells) :: r[c] == g[c]
  {
    map c | c in g ::
      if c in newCells && c !in oldCells then AfterAddWatcher(g[c], id, typ)
      else if c in oldCells && c !in newCells then AfterRemoveWatcher(g[c], id, typ)
      else g[c]
  }

  /** The two loops of `updateWatcher`: registering in the towers only the
      new window has, then deregistering from those only the old one has,
      lands on the incremental diff. */
  lemma PhasesAreDiff(g: Board, oldCells: set<Vec2>, newCells: set<Vec2>, id: Id, typ: Tag)
    ensures WatchersRemoved(WatchersAdded(g, newCells - oldCells, id, typ), oldCells - newCells, id, typ)
         == WatcherDiff(g, oldCells, newCells, id, typ)
  {
  }

  /** Diff completeness: a watcher registered in exactly the old window ends up
      registered in exactly the new one, and every other watcher keeps its
      registrations. */
  lemma WatcherDiffComplete(g: Board, oldCells: set<Vec2>, newCells: set<Vec2>, id: Id, typ: Tag)
    requires typ != "" && WatchedExactly(g, id, typ, oldCells)
    ensures WatchedExactly(WatcherDiff(g, oldCells, newCells, id, typ), id, typ, newCells)
    ensures forall c, t, x | c in g && (t != typ || x != id) ::
              Registered(WatcherDiff(g, oldCells, newCells, id, typ)[c].watchers, t, x) <==> Registered(g[c].watchers, t, x)
  {
    var r := WatcherDiff(g, oldCells, newCells, id, typ);
    forall c | c in g ensures Registered(r[c].watchers, typ, id) <==> c in newCells {
      assert Registered(g[c].watchers, typ, id) <==> c in oldCells;
    }
  }

  /** The incremental diff lands on the same board as deregistering the watcher
      from the whole old window and registering it in the whole new one. */
  lemma WatcherDiffIsRecompute(g: Board, oldCells: set<Vec2>, newCells: set<Vec2>, id: Id, typ: Tag)
    requires WatchedExactly(g, id, typ, oldCells)
    ensures WatcherDiff(g, oldCells, newCells, id, typ)
         == WatchersAdded(WatchersRemoved(g, oldCells, id, typ), newCells, id, typ)
  {
    var l := WatcherDiff(g, oldCells, newCells, id, typ);
    var r := WatchersAdded(WatchersRemoved(g, oldCells, id, typ), newCells, id, typ);
    forall c | c in g ensures l[c] == r[c] {
      var b := g[c];
      if c in oldCells {
        assert Registered(b.watchers, typ, id);
        if c in newCells {
          ReAddRegistered(b, id, typ);
        }
      } else {
        assert !Registered(b.watchers, typ, id);
        RemoveUnregistered(b, id, typ);
      }
    }
  }

  /** Re-registering a watcher just deregistered restores the bucket. */
  lemma ReAddRegistered(b: Bucket, id: Id, typ: Tag)
    requires Registered(b.watchers, typ, id)
    ensures AfterAddWatcher(AfterRemoveWatcher(b, id, typ), id, typ) == b
  {
    if typ != "" {
      var w := b.watchers;
      assert (w[typ] - {id}) + {id} == w[typ];
      assert w[typ := w[typ] - {id}][typ := (w[typ] - {id}) + {id}] == w;
    }
  }

  /** Deregistering a watcher that is not registered changes nothing. */
  lemma RemoveUnregistered(b: Bucket, id: Id, typ: Tag)
    requires !Registered(b.watchers, typ, id)
    ensures AfterRemoveWatcher(b, id, typ) == b
  {
    if typ != "" && typ in b.watchers {
      assert b.watchers[typ] - {id} == b.watchers[typ];
      assert b.watchers[typ := b.watchers[typ] - {id}] == b.watchers;
    }
  }

  /** `updateObject` across towers: leave the old tower, join the new one. */
  ghost function MoveObject(g: Board, id: Id, typ: Tag, from: Vec2, to: Vec2): (r: Board)
    requires from in g && to in g && RemovePermitted(g[from], id, typ)
    ensures r.Keys == g.Keys
  {
    var g1 := g[from := AfterRemove(g[from], id, typ)];
    g1[to := AfterAdd(g1[to], id, typ)]
  }

  /** Single residency survives a move: an object held only by `from` is held
      only by `to` afterwards. */
  lemma MoveKeepsResidency(g: Board, id: Id, typ: Tag, from: Vec2, to: Vec2)
    requires from in g && to in g && RemovePermitted(g[from], id, typ)
    requires ResidentOnlyAt(g, id, from)
    ensures ResidentOnlyAt(MoveObject(g, id, typ, from, to), id, to)
  {
    var r := MoveObject(g, id, typ, from, to);
    forall d | d in r ensures id in r[d].ids <==> d == to {
      if d != to && d != from {
        assert r[d] == g[d];
      }
    }
  }

  /** Adding an object that no tower holds makes it resident in its tower only. */
  lemma AddMakesResident(g: Board, id: Id, typ: Tag, c: Vec2)
    requires c in g && Absent(g, id)
    ensures ResidentOnlyAt(g[c := AfterAdd(g[c], id, typ)], id, c)
  {
  }

  /** Removing a resident object from its tower leaves no tower holding it. */
  lemma RemoveMakesAbsent(g: Board, id: Id, typ: Tag, c: Vec2)
    requires c in g && ResidentOnlyAt(g, id, c) && RemovePermitted(g[c], id, typ)
    ensures Absent(g[c := AfterRemove(g[c], id, typ)], id)
  {
  }
}
