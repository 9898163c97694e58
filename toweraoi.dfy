/**
 * The engine: a grid of towers, the object and watcher
 * operations over it, and the queries. The grid is a table of `Tower`
 * objects (one sequence per column) built once by the constructor; the
 * operations update the towers in place. The
 * ghost function `Snapshot()` reads the whole grid as a `Board`, and every
 * operation is stated as the board it leaves behind.
 *
 * Events the source emits are returned as an `Option<AoiEvent>` (`None`
 * where nothing is emitted).
 */
module TowerAoi {
  import opened Common
  import opened Towers
  import opened Geometry
  import opened Grid

  /** The payload of each emitted event: `add`, `remove`, `update`, `updateWatcher`. */
  datatype AoiEvent =
    | ObjectAdded(id: Id, typ: Tag, watchers: IdMap)
    | ObjectRemoved(id: Id, typ: Tag, watchers: IdMap)
    | ObjectUpdated(id: Id, typ: Tag, oldWatchers: IdMap, newWatchers: IdMap)
    | WatcherUpdated(id: Id, typ: Tag, addObjs: seq<Id>, removeObjs: seq<Id>)

  /** `addMap`: append every id of a tower's id set to `arr`, each once. */
  method AddMap(arr: seq<Id>, m: set<Id>) returns (r: seq<Id>)
    ensures |r| == |arr| + |m| && r[..|arr|] == arr
    ensures Elems(r[|arr|..]) == m
    ensures Elems(r) == Elems(arr) + m
    ensures forall a, b | |arr| <= a < b < |r| :: r[a] != r[b]
  {
    var pushed: seq<Id> := [];
    var rest := m;
    while rest != {}
      invariant rest <= m && Elems(pushed) + rest == m && Elems(pushed) !! rest
      invariant |pushed| + |rest| == |m|
      invariant forall a, b | 0 <= a < b < |pushed| :: pushed[a] != pushed[b]
      decreases |rest|
    {
      var id :| id in rest;
      ElemsSnoc(pushed, id);
      pushed := pushed + [id];
      rest := rest - {id};
    }
    r := arr + pushed;
    assert r[..|arr|] == arr && r[|arr|..] == pushed;
  }

  /** The ids already listed under `t`. */
  function Listed(result: map<Tag, seq<Id>>, t: Tag): set<Id>
  {
    if t in result then Elems(result[t]) else {}
  }

  /** One step of `addMapByTypes`: append the tower's ids of type `t`, if it indexes `t`. */
  method AddTypeIds(r: map<Tag, seq<Id>>, m: IdMap, t: Tag) returns (r': map<Tag, seq<Id>>)
    ensures r'.Keys == r.Keys + ({t} * m.Keys)
    ensures forall u | u in r :: r[u] <= r'[u]
    ensures forall u | u in r && u != t :: r'[u] == r[u]
    ensures forall u | u in r' :: Elems(r'[u]) == Listed(r, u) + (if u == t then Lookup(m, t) else {})
  {
    r' := r;
    if t in m {
      var cur := if t in r then r[t] else [];
      var ext := AddMap(cur, m[t]);
      assert cur <= ext;
      r' := r[t := ext];
    }
  }

  /** What `addMapByTypes` collects under `t`: the ids already listed, plus the
      tower's ids of type `t` when `t` is requested. */
  function Collected(result: map<Tag, seq<Id>>, m: IdMap, types: seq<Tag>, t: Tag): set<Id>
  {
    Listed(result, t) + (if t in types then Lookup(m, t) else {})
  }

  /** `r` holds what `addMapByTypes` has gathered after the types `types`:
      the lists of `result` extended by the tower's ids of those types. */
  ghost predicate Gathered(result: map<Tag, seq<Id>>, m: IdMap, types: seq<Tag>, r: map<Tag, seq<Id>>)
  {
    && r.Keys == result.Keys + Elems(types) * m.Keys
    && (forall t | t in result :: result[t] <= r[t])
    && (forall t | t in r :: Elems(r[t]) == Collected(result, m, types, t))
  }

  /** One more type keeps `Gathered`. */
  lemma GatheredStep(result: map<Tag, seq<Id>>, m: IdMap, types: seq<Tag>, t: Tag, r0: map<Tag, seq<Id>>, r: map<Tag, seq<Id>>)
    requires Gathered(result, m, types, r0)
    requires r.Keys == r0.Keys + ({t} * m.Keys)
    requires forall u | u in r0 :: r0[u] <= r[u]
    requires forall u | u in r :: Elems(r[u]) == Listed(r0, u) + (if u == t then Lookup(m, t) else {})
    ensures Gathered(result, m, types + [t], r)
  {
    assert r.Keys == result.Keys + Elems(types + [t]) * m.Keys by {
      assert Elems(types + [t]) == Elems(types) + {t};
    }
    assert forall u | u in result :: result[u] <= r[u] by {
      forall u | u in result ensures result[u] <= r[u] {
        assert result[u] <= r0[u] <= r[u];
      }
    }
    forall u | u in r ensures Elems(r[u]) == Collected(result, m, types + [t], u) {
      CollectedStep(result, m, types, t, u);
      if u !in r0 {
        assert u == t && u !in result;
        assert !(u in types && u in m);
      }
    }
  }

  lemma CollectedStep(result: map<Tag, seq<Id>>, m: IdMap, types: seq<Tag>, t: Tag, u: Tag)
    ensures Collected(result, m, types + [t], u) == Collected(result, m, types, u) + (if u == t then Lookup(m, t) else {})
  {
    assert u in types + [t] <==> u in types || u == t;
  }

  /** `addMapByTypes`: for every requested type the tower indexes, append its
      ids to the list under that type, creating the list when missing. */
  method AddMapByTypes(result: map<Tag, seq<Id>>, m: IdMap, types: seq<Tag>) returns (r: map<Tag, seq<Id>>)
    ensures r.Keys == result.Keys + Elems(types) * m.Keys
    ensures forall t | t in result :: result[t] <= r[t]
    ensures forall t | t in r :: Elems(r[t]) == Collected(result, m, types, t)
  {
    r := result;
    for i := 0 to |types|
      invariant Gathered(result, m, types[..i], r)
    {
      var t := types[i];
      ghost var r0 := r;
      r := AddTypeIds(r, m, t);
      GatheredStep(result, m, types[..i], t, r0, r);
      TakeOneMore(types, i);
    }
    assert types[..|types|] == types;
  }

  /** `result` lists, by requested type, exactly the typed ids of the towers `cells`. */
  ghost predicate ByType(g: Board, cells: set<Vec2>, types: seq<Tag>, result: map<Tag, seq<Id>>)
  {
    result.Keys == TypesIn(g, cells, types) &&
    forall t | t in result :: Elems(result[t]) == TypedIdsIn(g, cells, t)
  }

  /** Merging the typed ids of one more tower with `addMapByTypes` keeps `ByType`. */
  lemma ByTypeInsert(g: Board, cells: set<Vec2>, c: Vec2, types: seq<Tag>,
                     before: map<Tag, seq<Id>>, m: IdMap, after: map<Tag, seq<Id>>)
    requires c in g && ByType(g, cells, types, before)
    requires m.Keys == Elems(types) * g[c].typeMap.Keys
    requires forall t | t in m :: m[t] == g[c].typeMap[t]
    requires after.Keys == before.Keys + Elems(types) * m.Keys
    requires forall t | t in after :: Elems(after[t]) == Collected(before, m, types, t)
    ensures ByType(g, cells + {c}, types, after)
  {
    TypesInInsert(g, cells, c, types);
    forall t | t in after ensures Elems(after[t]) == TypedIdsIn(g, cells + {c}, t) {
      TypedIdsInInsert(g, cells, c, t);
      if t !in before {
        assert t in types;
        TypedIdsInMissing(g, cells, types, t);
      }
    }
  }

  /** A JavaScript return value as `updateObject` produces it: a boolean, or
      `undefined` when control falls off the end of the function. */
  datatype JsReturn = Undefined | Returned(b: bool)
  {
    /** JavaScript truthiness: only `true` counts as success. */
    predicate Truthy()
    {
      Returned? && b
    }
  }

  /** What `updateObject` returns as written: `false` for a position off the
      plane, `true` when both positions share a tower, and `undefined` after a
      move between towers, since that branch ends without a `return`. */
  function UpdateObjectReturnAsWritten(config: Config, oldPos: Vec2, newPos: Vec2): (r: JsReturn)
    requires config.Wf()
    ensures r.Truthy() <==>
              config.CheckPos(oldPos) && config.CheckPos(newPos) && config.TransPos(oldPos) == config.TransPos(newPos)
    ensures r.Undefined? <==>
              config.CheckPos(oldPos) && config.CheckPos(newPos) && config.TransPos(oldPos) != config.TransPos(newPos)
  {
    if !config.CheckPos(oldPos) || !config.CheckPos(newPos) then Returned(false)
    else if config.TransPos(oldPos) == config.TransPos(newPos) then Returned(true)
    else Undefined
  }

  /** On a 1000 x 1000 plane of 200 x 200 towers, moving an object from
      (210, 110) in tower (1, 0) to (810, 810) in tower (4, 4) is carried out
      and yet reported as a falsy `undefined`. */
  lemma UpdateObjectAsWrittenFalsyOnMove()
    ensures var config := Config(1000, 1000, 200, 200);
            config.Wf() && config.CheckPos(Vec2(210, 110)) && config.CheckPos(Vec2(810, 810)) &&
            config.TransPos(Vec2(210, 110)) == Vec2(1, 0) && config.TransPos(Vec2(810, 810)) == Vec2(4, 4) &&
            UpdateObjectReturnAsWritten(config, Vec2(210, 110), Vec2(810, 810)) == Undefined
  {
    var config := Config(1000, 1000, 200, 200);
    assert config.TransPos(Vec2(210, 110)) == Vec2(1, 0);
    assert config.TransPos(Vec2(810, 810)) == Vec2(4, 4);
  }

  class TowerAOI {
    const config: Config
    const max: Vec2
    const rangeLimit: int
    /** `towers[i][j]` is the tower of column `i`, row `j`; the table is
        filled once by `init` and never reassigned. */
    const towers: seq<seq<Tower>>
    /** The towers of the grid. */
    ghost const Repr: set<Tower>
    /** Where each tower sits; it makes the towers pairwise distinct. */
    ghost const cellOf: map<Tower, Vec2>

    ghost predicate Valid()
    {
      && config.Wf() && max == config.MaxTower() && rangeLimit == RangeLimit
      && |towers| == max.x + 1
      && (forall i | 0 <= i < |towers| :: |towers[i]| == max.y + 1)
      && (forall i, j | 0 <= i < |towers| && 0 <= j < |towers[i]| ::
            towers[i][j] in Repr && towers[i][j] in cellOf && cellOf[towers[i][j]] == Vec2(i, j))
    }

    /** The grid as a value. */
    ghost function Snapshot(): (g: Board)
      requires Valid()
      reads Repr
      ensures g.Keys == AllTowers(max)
      ensures forall i, j | 0 <= i <= max.x && 0 <= j <= max.y :: g[Vec2(i, j)] == towers[i][j].State()
    {
      map c | c in AllTowers(max) :: towers[c.x][c.y].State()
    }

    /** A board that agrees with every tower is the grid. */
    lemma SnapshotIs(g: Board)
      requires Valid()
      requires g.Keys == AllTowers(max)
      requires forall i, j | 0 <= i <= max.x && 0 <= j <= max.y :: towers[i][j].State() == g[Vec2(i, j)]
      ensures Snapshot() == g
    {
      forall c | c in g ensures Snapshot()[c] == g[c] {
        assert c == Vec2(c.x, c.y);
      }
    }

    /** The tower at `(i, j)` is no other cell's tower. */
    lemma NoneAliases(i: int, j: int)
      requires Valid() && 0 <= i <= max.x && 0 <= j <= max.y
      ensures forall a, b | 0 <= a <= max.x && 0 <= b <= max.y && (a != i || b != j) :: towers[a][b] != towers[i][j]
    {
      forall a, b | 0 <= a <= max.x && 0 <= b <= max.y && (a != i || b != j)
        ensures towers[a][b] != towers[i][j]
      {
        assert cellOf[towers[a][b]] != cellOf[towers[i][j]];
      }
    }

    /** The towers a watcher at `pos` with range `range` is registered in. */
    ghost function WatchCells(pos: Vec2, range: int): set<Vec2>
      requires config.Wf()
    {
      Cells(GetPosLimit(config.TransPos(pos), ClampRange(range), max))
    }

    /** `init`: build one empty tower per grid cell. */
    constructor (config: Config)
      requires config.Wf()
      ensures Valid() && fresh(Repr)
      ensures this.config == config && max == config.MaxTower()
      ensures forall c | c in Snapshot() :: Snapshot()[c] == EmptyBucket
    {
      var m := config.MaxTower();
      var cols: seq<seq<Tower>> := [];
      ghost var owner: map<Tower, Vec2> := map[];
      var i := 0;
      while i <= m.x
        invariant 0 <= i <= m.x + 1 && |cols| == i
        invariant forall t | t in owner :: fresh(t)
        invariant forall x | 0 <= x < i :: |cols[x]| == m.y + 1
        invariant forall x, y | 0 <= x < i && 0 <= y <= m.y ::
                    cols[x][y] in owner && owner[cols[x][y]] == Vec2(x, y) && cols[x][y].State() == EmptyBucket
      {
        var col: seq<Tower> := [];
        var j := 0;
        while j <= m.y
          invariant 0 <= j <= m.y + 1 && |col| == j
          invariant forall t | t in owner :: fresh(t)
          invariant forall x, y | 0 <= x < i && 0 <= y <= m.y ::
                      cols[x][y] in owner && owner[cols[x][y]] == Vec2(x, y) && cols[x][y].State() == EmptyBucket
          invariant forall y | 0 <= y < j :: col[y] in owner && owner[col[y]] == Vec2(i, y) && col[y].State() == EmptyBucket
        {
          var t := new Tower();
          col := col + [t];
          owner := owner[t := Vec2(i, j)];
          j := j + 1;
        }
        cols := cols + [col];
        i := i + 1;
      }
      this.config := config;
      max := m;
      rangeLimit := RangeLimit;
      towers := cols;
      Repr := owner.Keys;
      cellOf := owner;
    }

    /** `getIdsByRange`: the ids of the requested types in the window of
        `range` towers around `pos`, listed by type; nothing when the
        position is off the plane or the range is negative or over the limit. */
    method GetIdsByRange(pos: Vec2, range: int, types: seq<Tag>) returns (result: map<Tag, seq<Id>>)
      requires Valid()
      ensures !(config.CheckPos(pos) && 0 <= range <= rangeLimit) ==> result == map[]
      ensures config.CheckPos(pos) && 0 <= range <= rangeLimit ==>
                var cells := Cells(GetPosLimit(config.TransPos(pos), range, max));
                result.Keys == TypesIn(Snapshot(), cells, types) &&
                forall t | t in result :: Elems(result[t]) == TypedIdsIn(Snapshot(), cells, t)
    {
      if !config.CheckPos(pos) || range < 0 || range > rangeLimit {
        return map[];
      }
      var p := config.TransPos(pos);
      var limit := GetPosLimit(p, range, max);
      result := CollectByTypes(limit, types, Snapshot());
    }

    /** The two loops of `getIdsByRange` over a window inside the grid. */
    method CollectByTypes(limit: Limit, types: seq<Tag>, ghost g: Board) returns (result: map<Tag, seq<Id>>)
      requires Valid() && g == Snapshot()
      requires 0 <= limit.start.x <= limit.end.x <= max.x && 0 <= limit.start.y <= limit.end.y <= max.y
      ensures ByType(g, Cells(limit), types, result)
    {
      result := map[];
      WalkedEnds(limit);
      ghost var seen: set<Vec2> := {};
      var i := limit.start.x;
      while i <= limit.end.x
        invariant limit.start.x <= i <= limit.end.x + 1
        invariant seen == Walked(limit, i, limit.start.y)
        invariant ByType(g, seen, types, result)
      {
        result := CollectColumn(limit, i, types, result, g, seen);
        seen := Walked(limit, i + 1, limit.start.y);
        i := i + 1;
      }
    }

    /** The inner loop of `getIdsByRange`: the towers of column `i` of the window. */
    method CollectColumn(limit: Limit, i: int, types: seq<Tag>, result: map<Tag, seq<Id>>, ghost g: Board, ghost seen: set<Vec2>)
      returns (next: map<Tag, seq<Id>>)
      requires Valid() && g == Snapshot()
      requires 0 <= limit.start.x <= i <= limit.end.x <= max.x && 0 <= limit.start.y <= limit.end.y <= max.y
      requires seen == Walked(limit, i, limit.start.y) && ByType(g, seen, types, result)
      ensures ByType(g, Walked(limit, i + 1, limit.start.y), types, next)
    {
      next := result;
      ghost var done := seen;
      var j := limit.start.y;
      while j <= limit.end.y
        invariant limit.start.y <= j <= limit.end.y + 1
        invariant done == Walked(limit, i, j)
        invariant ByType(g, done, types, next)
      {
        next := MergeTower(i, j, types, next, g, done);
        WalkedNext(limit, i, j);
        done := done + {Vec2(i, j)};
        j := j + 1;
      }
      WalkedColumn(limit, i);
    }

    /** The loop body of `getIdsByRange`: merge the typed ids of tower `(i, j)`. */
    method MergeTower(i: int, j: int, types: seq<Tag>, result: map<Tag, seq<Id>>, ghost g: Board, ghost cells: set<Vec2>)
      returns (next: map<Tag, seq<Id>>)
      requires Valid() && g == Snapshot() && 0 <= i <= max.x && 0 <= j <= max.y
      requires ByType(g, cells, types, result)
      ensures ByType(g, cells + {Vec2(i, j)}, types, next)
    {
      assert towers[i][j].typeMap == g[Vec2(i, j)].typeMap;
      var m := towers[i][j].GetIdsByTypes(types);
      next := AddMapByTypes(result, m, types);
      ByTypeInsert(g, cells, Vec2(i, j), types, result, m, next);
    }

    /** `getIdsByPos`: every object id in the window around `pos`, with the
        range clamped to 5; nothing when the position is off the plane or the
        range is negative. */
    method GetIdsByPos(pos: Vec2, range: int) returns (result: seq<Id>)
      requires Valid()
      ensures !(config.CheckPos(pos) && 0 <= range) ==> result == []
      ensures config.CheckPos(pos) && 0 <= range ==> Elems(result) == IdsIn(Snapshot(), WatchCells(pos, range))
    {
      if !config.CheckPos(pos) || range < 0 {
        return [];
      }
      var r := ClampRange(range);
      var p := config.TransPos(pos);
      var limit := GetPosLimit(p, r, max);
      result := CollectIds(limit, Snapshot());
    }

    /** The two loops of `getIdsByPos` over a window inside the grid. */
    method CollectIds(limit: Limit, ghost g: Board) returns (result: seq<Id>)
      requires Valid() && g == Snapshot()
      requires 0 <= limit.start.x <= limit.end.x <= max.x && 0 <= limit.start.y <= limit.end.y <= max.y
      ensures Elems(result) == IdsIn(g, Cells(limit))
    {
      result := [];
      WalkedEnds(limit);
      var i := limit.start.x;
      while i <= limit.end.x
        invariant limit.start.x <= i <= limit.end.x + 1
        invariant Elems(result) == IdsIn(g, Walked(limit, i, limit.start.y))
      {
        result := CollectIdsColumn(limit, i, result, g);
        i := i + 1;
      }
    }

    /** The inner loop of `getIdsByPos`: the objects of column `i` of the window. */
    method CollectIdsColumn(limit: Limit, i: int, result: seq<Id>, ghost g: Board) returns (next: seq<Id>)
      requires Valid() && g == Snapshot()
      requires 0 <= limit.start.x <= i <= limit.end.x <= max.x && 0 <= limit.start.y <= limit.end.y <= max.y
      requires Elems(result) == IdsIn(g, Walked(limit, i, limit.start.y))
      ensures Elems(next) == IdsIn(g, Walked(limit, i + 1, limit.start.y))
    {
      next := result;
      var j := limit.start.y;
      while j <= limit.end.y
        invariant limit.start.y <= j <= limit.end.y + 1
        invariant Elems(next) == IdsIn(g, Walked(limit, i, j))
      {
        var ids := towers[i][j].ids;
        assert ids == g[Vec2(i, j)].ids;
        next := AddMap(next, ids);
        IdsInInsert(g, Walked(limit, i, j), Vec2(i, j));
        WalkedNext(limit, i, j);
        j := j + 1;
      }
      WalkedColumn(limit, i);
    }

    /** `getWatchers`: the watchers of the requested types in the tower that
        holds `pos`; `None` (the source's `null`) when `pos` is off the plane. */
    method GetWatchers(pos: Vec2, types: seq<Tag>) returns (r: Option<IdMap>)
      requires Valid()
      ensures !config.CheckPos(pos) ==> r == None
      ensures config.CheckPos(pos) ==>
                var b := Snapshot()[config.TransPos(pos)];
                r.Some? && r.value.Keys == Elems(types) * b.watchers.Keys &&
                forall t | t in r.value :: r.value[t] == b.watchers[t]
    {
      if config.CheckPos(pos) {
        var p := config.TransPos(pos);
        var w := towers[p.x][p.y].GetWatchers(types);
        return Some(w);
      }
      return None;
    }

    /** `towers[p.x][p.y].add(obj)`, seen on the whole grid. */
    method AddAt(p: Vec2, id: Id, typ: Tag)
      requires Valid() && 0 <= p.x <= max.x && 0 <= p.y <= max.y
      modifies Repr
      ensures Snapshot() == old(Snapshot())[p := AfterAdd(old(Snapshot())[p], id, typ)]
    {
      ghost var g := Snapshot();
      NoneAliases(p.x, p.y);
      var added := towers[p.x][p.y].Add(id, typ);
      SnapshotIs(g[p := AfterAdd(g[p], id, typ)]);
    }

    /** `towers[p.x][p.y].remove(obj)`, seen on the whole grid. */
    method RemoveAt(p: Vec2, id: Id, typ: Tag)
      requires Valid() && 0 <= p.x <= max.x && 0 <= p.y <= max.y
      requires RemovePermitted(Snapshot()[p], id, typ)
      modifies Repr
      ensures Snapshot() == old(Snapshot())[p := AfterRemove(old(Snapshot())[p], id, typ)]
    {
      ghost var g := Snapshot();
      NoneAliases(p.x, p.y);
      towers[p.x][p.y].Remove(id, typ);
      SnapshotIs(g[p := AfterRemove(g[p], id, typ)]);
    }

    /** `addObject`: file the object in the tower that holds `pos`. */
    method AddObject(id: Id, typ: Tag, pos: Vec2) returns (ok: bool, ev: Option<AoiEvent>)
      requires Valid()
      modifies Repr
      ensures ok == config.CheckPos(pos)
      ensures !ok ==> Snapshot() == old(Snapshot()) && ev == None
      ensures ok ==>
                var c := config.TransPos(pos);
                Snapshot() == old(Snapshot())[c := AfterAdd(old(Snapshot())[c], id, typ)] &&
                ev == Some(ObjectAdded(id, typ, Snapshot()[c].watchers))
    {
      if config.CheckPos(pos) {
        var p := config.TransPos(pos);
        AddAt(p, id, typ);
        return true, Some(ObjectAdded(id, typ, towers[p.x][p.y].watchers));
      }
      return false, None;
    }

    /** `removeObject`: drop the object from the tower that holds `pos`. */
    method RemoveObject(id: Id, typ: Tag, pos: Vec2) returns (ok: bool, ev: Option<AoiEvent>)
      requires Valid()
      requires config.CheckPos(pos) ==> RemovePermitted(Snapshot()[config.TransPos(pos)], id, typ)
      modifies Repr
      ensures ok == config.CheckPos(pos)
      ensures !ok ==> Snapshot() == old(Snapshot()) && ev == None
      ensures ok ==>
                var c := config.TransPos(pos);
                Snapshot() == old(Snapshot())[c := AfterRemove(old(Snapshot())[c], id, typ)] &&
                ev == Some(ObjectRemoved(id, typ, Snapshot()[c].watchers))
    {
      if config.CheckPos(pos) {
        var p := config.TransPos(pos);
        RemoveAt(p, id, typ);
        return true, Some(ObjectRemoved(id, typ, towers[p.x][p.y].watchers));
      }
      return false, None;
    }

    /** `updateObject`: move the object from the tower of `oldPos` to the
        tower of `newPos`. Reports true whenever both positions are on the
        plane; `UpdateObjectReturnAsWritten` is the result as written. */
    method UpdateObject(id: Id, typ: Tag, oldPos: Vec2, newPos: Vec2) returns (ok: bool, ev: Option<AoiEvent>)
      requires Valid()
      requires config.CheckPos(oldPos) && config.CheckPos(newPos) && config.TransPos(oldPos) != config.TransPos(newPos) ==>
                 RemovePermitted(Snapshot()[config.TransPos(oldPos)], id, typ)
      modifies Repr
      ensures ok == (config.CheckPos(oldPos) && config.CheckPos(newPos))
      ensures !ok || config.TransPos(oldPos) == config.TransPos(newPos) ==> Snapshot() == old(Snapshot()) && ev == None
      ensures ok && config.TransPos(oldPos) != config.TransPos(newPos) ==>
                var p1, p2 := config.TransPos(oldPos), config.TransPos(newPos);
                Snapshot() == MoveObject(old(Snapshot()), id, typ, p1, p2) &&
                ev == Some(ObjectUpdated(id, typ, Snapshot()[p1].watchers, Snapshot()[p2].watchers))
      ensures ok && ResidentOnlyAt(old(Snapshot()), id, config.TransPos(oldPos)) ==>
                ResidentOnlyAt(Snapshot(), id, config.TransPos(newPos))
    {
      if !config.CheckPos(oldPos) || !config.CheckPos(newPos) {
        return false, None;
      }
      var p1 := config.TransPos(oldPos);
      var p2 := config.TransPos(newPos);
      if p1.x == p2.x && p1.y == p2.y {
        return true, None;
      }
      ghost var g := Snapshot();
      RemoveAt(p1, id, typ);
      AddAt(p2, id, typ);
      if ResidentOnlyAt(g, id, p1) {
        MoveKeepsResidency(g, id, typ, p1, p2);
      }
      return true, Some(ObjectUpdated(id, typ, towers[p1.x][p1.y].watchers, towers[p2.x][p2.y].watchers));
    }

    /** One registration of a window walk: register in tower `c`, on top of the
        towers `done` already registered; the tower's objects are untouched. */
    method RegisterStep(c: Vec2, id: Id, typ: Tag, ghost g: Board, ghost done: set<Vec2>)
      requires Valid() && 0 <= c.x <= max.x && 0 <= c.y <= max.y
      requires g.Keys == AllTowers(max) && Snapshot() == WatchersAdded(g, done, id, typ)
      modifies Repr
      ensures Snapshot() == WatchersAdded(g, done + {c}, id, typ)
      ensures towers[c.x][c.y].ids == g[c].ids
    {
      ghost var cur := Snapshot();
      WatchersAddedInsert(g, done, c, id, typ);
      AddWatcherAt(c, id, typ);
      assert Snapshot() == cur[c := AfterAddWatcher(cur[c], id, typ)];
    }

    /** `towers[p.x][p.y].addWatcher(watcher)`, seen on the whole grid. */
    method AddWatcherAt(p: Vec2, id: Id, typ: Tag)
      requires Valid() && 0 <= p.x <= max.x && 0 <= p.y <= max.y
      modifies Repr
      ensures Snapshot() == old(Snapshot())[p := AfterAddWatcher(old(Snapshot())[p], id, typ)]
    {
      ghost var g := Snapshot();
      NoneAliases(p.x, p.y);
      towers[p.x][p.y].AddWatcher(id, typ);
      SnapshotIs(g[p := AfterAddWatcher(g[p], id, typ)]);
    }

    /** One deregistration of a window walk: deregister from tower `c`, on top of the
        towers `done` already deregistered; the tower's objects are untouched. */
    method DeregisterStep(c: Vec2, id: Id, typ: Tag, ghost g: Board, ghost done: set<Vec2>)
      requires Valid() && 0 <= c.x <= max.x && 0 <= c.y <= max.y
      requires g.Keys == AllTowers(max) && Snapshot() == WatchersRemoved(g, done, id, typ)
      modifies Repr
      ensures Snapshot() == WatchersRemoved(g, done + {c}, id, typ)
      ensures towers[c.x][c.y].ids == g[c].ids
    {
      ghost var cur := Snapshot();
      WatchersRemovedInsert(g, done, c, id, typ);
      RemoveWatcherAt(c, id, typ);
      assert Snapshot() == cur[c := AfterRemoveWatcher(cur[c], id, typ)];
    }

    /** `towers[p.x][p.y].removeWatcher(watcher)`, seen on the whole grid. */
    method RemoveWatcherAt(p: Vec2, id: Id, typ: Tag)
      requires Valid() && 0 <= p.x <= max.x && 0 <= p.y <= max.y
      modifies Repr
      ensures Snapshot() == old(Snapshot())[p := AfterRemoveWatcher(old(Snapshot())[p], id, typ)]
    {
      ghost var g := Snapshot();
      NoneAliases(p.x, p.y);
      towers[p.x][p.y].RemoveWatcher(id, typ);
      SnapshotIs(g[p := AfterRemoveWatcher(g[p], id, typ)]);
    }

    /** `addWatcher`: register the watcher in every tower of its window, with
        the range clamped to 5; a negative range does nothing. The position is
        not checked: the window is clamped into the grid whatever it is. */
    method AddWatcher(id: Id, typ: Tag, pos: Vec2, range: int)
      requires Valid()
      modifies Repr
      ensures range < 0 ==> Snapshot() == old(Snapshot())
      ensures range >= 0 ==> Snapshot() == WatchersAdded(old(Snapshot()), WatchCells(pos, range), id, typ)
      ensures range >= 0 && typ != "" && WatchedExactly(old(Snapshot()), id, typ, {}) ==>
                WatchedExactly(Snapshot(), id, typ, WatchCells(pos, range))
    {
      if range < 0 {
        return;
      }
      var r := ClampRange(range);
      var p := config.TransPos(pos);
      var limit := GetPosLimit(p, r, max);
      ghost var g := Snapshot();
      RegisterWindow(limit, id, typ);
      if typ != "" && WatchedExactly(g, id, typ, {}) {
        AddedEstablishesWatch(g, Cells(limit), id, typ);
      }
    }

    /** The two loops of `addWatcher` over a window inside the grid. */
    method RegisterWindow(limit: Limit, id: Id, typ: Tag)
      requires Valid()
      requires 0 <= limit.start.x <= limit.end.x <= max.x && 0 <= limit.start.y <= limit.end.y <= max.y
      modifies Repr
      ensures Snapshot() == WatchersAdded(old(Snapshot()), Cells(limit), id, typ)
    {
      ghost var g := Snapshot();
      WalkedEnds(limit);
      WatchersAddedNone(g, id, typ);
      var i := limit.start.x;
      ghost var done := Walked(limit, i, limit.start.y);
      while i <= limit.end.x
        invariant limit.start.x <= i <= limit.end.x + 1
        invariant done == Walked(limit, i, limit.start.y)
        invariant Snapshot() == WatchersAdded(g, done, id, typ)
      {
        RegisterColumn(limit, i, id, typ, g);
        done := Walked(limit, i + 1, limit.start.y);
        i := i + 1;
      }
    }

    /** The inner loop of `addWatcher`: register in column `i` of the window. */
    method RegisterColumn(limit: Limit, i: int, id: Id, typ: Tag, ghost g: Board)
      requires Valid()
      requires 0 <= limit.start.x <= i <= limit.end.x <= max.x && 0 <= limit.start.y <= limit.end.y <= max.y
      requires g.Keys == AllTowers(max)
      requires Snapshot() == WatchersAdded(g, Walked(limit, i, limit.start.y), id, typ)
      modifies Repr
      ensures Snapshot() == WatchersAdded(g, Walked(limit, i + 1, limit.start.y), id, typ)
    {
      var j := limit.start.y;
      ghost var done := Walked(limit, i, j);
      while j <= limit.end.y
        invariant limit.start.y <= j <= limit.end.y + 1
        invariant done == Walked(limit, i, j)
        invariant Snapshot() == WatchersAdded(g, done, id, typ)
      {
        var c := Vec2(i, j);
        WalkedNext(limit, i, j);
        RegisterStep(c, id, typ, g, done);
        done := done + {c};
        j := j + 1;
      }
      WalkedColumn(limit, i);
    }

    /** `removeWatcher`: deregister the watcher from every tower of the window
        computed the same way as in `addWatcher`. */
    method RemoveWatcher(id: Id, typ: Tag, pos: Vec2, range: int)
      requires Valid()
      modifies Repr
      ensures range < 0 ==> Snapshot() == old(Snapshot())
      ensures range >= 0 ==> Snapshot() == WatchersRemoved(old(Snapshot()), WatchCells(pos, range), id, typ)
      ensures range >= 0 && typ != "" && WatchedExactly(old(Snapshot()), id, typ, WatchCells(pos, range)) ==>
                WatchedExactly(Snapshot(), id, typ, {})
    {
      if range < 0 {
        return;
      }
      var r := ClampRange(range);
      var p := config.TransPos(pos);
      var limit := GetPosLimit(p, r, max);
      ghost var g := Snapshot();
      DeregisterWindow(limit, id, typ);
      if typ != "" && WatchedExactly(g, id, typ, Cells(limit)) {
        RemovedClearsWatch(g, Cells(limit), id, typ);
      }
    }

    /** The two loops of `removeWatcher` over a window inside the grid. */
    method DeregisterWindow(limit: Limit, id: Id, typ: Tag)
      requires Valid()
      requires 0 <= limit.start.x <= limit.end.x <= max.x && 0 <= limit.start.y <= limit.end.y <= max.y
      modifies Repr
      ensures Snapshot() == WatchersRemoved(old(Snapshot()), Cells(limit), id, typ)
    {
      ghost var g := Snapshot();
      WalkedEnds(limit);
      WatchersRemovedNone(g, id, typ);
      var i := limit.start.x;
      ghost var done := Walked(limit, i, limit.start.y);
      while i <= limit.end.x
        invariant limit.start.x <= i <= limit.end.x + 1
        invariant done == Walked(limit, i, limit.start.y)
        invariant Snapshot() == WatchersRemoved(g, done, id, typ)
      {
        DeregisterColumn(limit, i, id, typ, g);
        done := Walked(limit, i + 1, limit.start.y);
        i := i + 1;
      }
    }

    /** The inner loop of `removeWatcher`: deregister from column `i` of the window. */
    method DeregisterColumn(limit: Limit, i: int, id: Id, typ: Tag, ghost g: Board)
      requires Valid()
      requires 0 <= limit.start.x <= i <= limit.end.x <= max.x && 0 <= limit.start.y <= limit.end.y <= max.y
      requires g.Keys == AllTowers(max)
      requires Snapshot() == WatchersRemoved(g, Walked(limit, i, limit.start.y), id, typ)
      modifies Repr
      ensures Snapshot() == WatchersRemoved(g, Walked(limit, i + 1, limit.start.y), id, typ)
    {
      var j := limit.start.y;
      ghost var done := Walked(limit, i, j);
      while j <= limit.end.y
        invariant limit.start.y <= j <= limit.end.y + 1
        invariant done == Walked(limit, i, j)
        invariant Snapshot() == WatchersRemoved(g, done, id, typ)
      {
        var c := Vec2(i, j);
        WalkedNext(limit, i, j);
        DeregisterStep(c, id, typ, g, done);
        done := done + {c};
        j := j + 1;
      }
      WalkedColumn(limit, i);
    }

    /** Whether `updateWatcher` takes its moving branch: both positions on the
        plane, the tower or the range changed, and neither range negative. */
    predicate WatcherMoves(oldPos: Vec2, newPos: Vec2, oldRange: int, newRange: int)
      requires config.Wf()
    {
      && config.CheckPos(oldPos) && config.CheckPos(newPos)
      && !(config.TransPos(oldPos) == config.TransPos(newPos) && oldRange == newRange)
      && 0 <= oldRange && 0 <= newRange
    }

    /** `updateWatcher`: register the watcher in the towers only its new window
        has, deregister it from those only its old window has, and report the
        objects of both kinds of tower. */
    method UpdateWatcher(id: Id, typ: Tag, oldPos: Vec2, newPos: Vec2, oldRange: int, newRange: int)
      returns (ok: bool, ev: Option<AoiEvent>)
      requires Valid()
      modifies Repr
      ensures ok <==> config.CheckPos(oldPos) && config.CheckPos(newPos) &&
                      ((config.TransPos(oldPos) == config.TransPos(newPos) && oldRange == newRange) ||
                       (0 <= oldRange && 0 <= newRange))
      ensures !WatcherMoves(oldPos, newPos, oldRange, newRange) ==> Snapshot() == old(Snapshot()) && ev == None
      ensures WatcherMoves(oldPos, newPos, oldRange, newRange) ==>
                var oc, nc := WatchCells(oldPos, oldRange), WatchCells(newPos, newRange);
                Snapshot() == WatcherDiff(old(Snapshot()), oc, nc, id, typ) &&
                ev.Some? && ev.value.WatcherUpdated? && ev.value.id == id && ev.value.typ == typ &&
                Elems(ev.value.addObjs) == IdsIn(old(Snapshot()), nc - oc) &&
                Elems(ev.value.removeObjs) == IdsIn(old(Snapshot()), oc - nc)
      ensures ok && typ != "" && WatchedExactly(old(Snapshot()), id, typ, WatchCells(oldPos, oldRange)) ==>
                WatchedExactly(Snapshot(), id, typ, WatchCells(newPos, newRange))
    {
      if !config.CheckPos(oldPos) || !config.CheckPos(newPos) {
        return false, None;
      }
      var p1 := config.TransPos(oldPos);
      var p2 := config.TransPos(newPos);
      if p1.x == p2.x && p1.y == p2.y && oldRange == newRange {
        return true, None;
      }
      if oldRange < 0 || newRange < 0 {
        return false, None;
      }
      var r1 := ClampRange(oldRange);
      var r2 := ClampRange(newRange);
      ghost var g := Snapshot();
      ghost var oc, nc := WatchCells(oldPos, oldRange), WatchCells(newPos, newRange);
      var addObjs, removeObjs := MoveWatcher(p1, p2, r1, r2, id, typ, g);
      PhasesAreDiff(g, oc, nc, id, typ);
      if typ != "" && WatchedExactly(g, id, typ, oc) {
        WatcherDiffComplete(g, oc, nc, id, typ);
      }
      return true, Some(WatcherUpdated(id, typ, addObjs, removeObjs));
    }

    /** The moving branch of `updateWatcher`: the towers to register in and to
        deregister from, then the two loops over them, one after the other. */
    method MoveWatcher(p1: Vec2, p2: Vec2, r1: int, r2: int, id: Id, typ: Tag, ghost g: Board)
      returns (addObjs: seq<Id>, removeObjs: seq<Id>)
      requires Valid() && 0 <= r1 && 0 <= r2 && g == Snapshot()
      modifies Repr
      ensures var oc, nc := Cells(GetPosLimit(p1, r1, max)), Cells(GetPosLimit(p2, r2, max));
              Snapshot() == WatchersRemoved(WatchersAdded(g, nc - oc, id, typ), oc - nc, id, typ) &&
              Elems(addObjs) == IdsIn(g, nc - oc) &&
              Elems(removeObjs) == IdsIn(g, oc - nc)
    {
      var addTowers, removeTowers, unChangeTowers := GetChangedTowers(p1, p2, r1, r2, max);
      ghost var oc, nc := Cells(GetPosLimit(p1, r1, max)), Cells(GetPosLimit(p2, r2, max));
      addObjs := RegisterAll(addTowers, id, typ, g);
      ghost var h := Snapshot();
      removeObjs := DeregisterAll(removeTowers, id, typ, h);
      IdsInSameIds(g, h, oc - nc);
    }

    /** The first loop of `updateWatcher`: register in each listed tower and
        gather its objects. */
    method RegisterAll(cells: seq<Vec2>, id: Id, typ: Tag, ghost g: Board) returns (objs: seq<Id>)
      requires Valid() && g == Snapshot()
      requires InGrid(cells, max)
      modifies Repr
      ensures Snapshot() == WatchersAdded(g, Elems(cells), id, typ)
      ensures Elems(objs) == IdsIn(g, Elems(cells))
    {
      WatchersAddedNone(g, id, typ);
      ghost var done: set<Vec2> := {};
      objs := [];
      var k := 0;
      while k < |cells|
        invariant 0 <= k <= |cells| && done == Elems(cells[..k])
        invariant Snapshot() == WatchersAdded(g, done, id, typ)
        invariant Elems(objs) == IdsIn(g, done)
      {
        var c := cells[k];
        TakeOneMore(cells, k);
        IdsInInsert(g, done, c);
        RegisterStep(c, id, typ, g, done);
        var ids := towers[c.x][c.y].ids;
        objs := AddMap(objs, ids);
        done := done + {c};
        k := k + 1;
      }
      assert cells[..|cells|] == cells;
    }

    /** The second loop of `updateWatcher`: deregister from each listed tower
        and gather its objects. */
    method DeregisterAll(cells: seq<Vec2>, id: Id, typ: Tag, ghost g: Board) returns (objs: seq<Id>)
      requires Valid() && g == Snapshot()
      requires InGrid(cells, max)
      modifies Repr
      ensures Snapshot() == WatchersRemoved(g, Elems(cells), id, typ)
      ensures Elems(objs) == IdsIn(g, Elems(cells))
    {
      WatchersRemovedNone(g, id, typ);
      ghost var done: set<Vec2> := {};
      objs := [];
      var k := 0;
      while k < |cells|
        invariant 0 <= k <= |cells| && done == Elems(cells[..k])
        invariant Snapshot() == WatchersRemoved(g, done, id, typ)
        invariant Elems(objs) == IdsIn(g, done)
      {
        var c := cells[k];
        TakeOneMore(cells, k);
        IdsInInsert(g, done, c);
        DeregisterStep(c, id, typ, g, done);
        var ids := towers[c.x][c.y].ids;
        objs := AddMap(objs, ids);
        done := done + {c};
        k := k + 1;
      }
      assert cells[..|cells|] == cells;
    }
  }
}
