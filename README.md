# Tower AOI: a verified model of the grid-partition area-of-interest engine

The model covers the "tower" area-of-interest engine of `lib/towerAOI/`. The
plane (`width x height`) is cut into a grid of towers of size
`towerWidth x towerHeight`. Each tower holds:

- the ids of the objects standing in it (`ids`);
- the same ids indexed by object type (`typeMap`);
- the watchers registered in it, indexed by watcher type (`watchers`);
- a counter (`size`): typed insertions minus removals of present ids.

A watcher with a range `r` is registered in every tower of the window of
`2r + 1` towers around its own tower. The window is shifted, not shrunk,
near the edges, then clamped to the grid. When a watcher moves, only the
towers that enter or leave its window are touched, and the objects in those
towers are reported.

The Dafny project follows the two source files:

- `towers.dfy` (module `Towers`) models `tower.ts`. `Bucket` is the value one
  tower holds, and `AfterAdd`, `AfterRemove`, `AfterAddWatcher` and
  `AfterRemoveWatcher` say what each tower operation does to it. The class
  `Tower` keeps the four fields and updates them in place. Each of its
  methods is proved to move from `old(State())` to the value the matching
  function gives.
- `geometry.dfy` (module `Geometry`) holds the pure parts of `towerAOI.ts`:
  - `checkPos` and `transPos` (as `Config.CheckPos` and `Config.TransPos`);
  - the `max` computation of `init`;
  - `getPosLimit` and `isInRect`;
  - `getChangedTowers` with its two walks.
- `grid.dfy` (module `Grid`) reads the whole grid as a value:
  `Board = map<Vec2, Bucket>`. It defines the boards the engine operations
  leave behind and proves what those operations preserve. That includes
  where an object resides and in which towers a watcher is registered.
- `toweraoi.dfy` (module `TowerAoi`) models the `TowerAOI` class. It holds
  the table of `Tower` objects built by the constructor (`init`), the object
  and watcher operations, the queries, and the helpers `addMap` and
  `addMapByTypes`. The ghost function `Snapshot()` reads the table as a
  `Board`. Each mutating operation states the board it leaves,
  `Snapshot() == F(old(Snapshot()))`, and the lemmas of `Grid` say what `F`
  preserves.
- `common.dfy` (module `Common`) is shared vocabulary: `Option` and the
  element set of a sequence.

Each emitted event is returned as an `Option<AoiEvent>` next to the method's
result (`None` where nothing is emitted). Positions are integers.
`Math.floor(x / w)` on a positive `w` is Dafny's `x / w`, and `Math.ceil` is
`CeilDiv`. A type tag of `""` stands for a missing (falsy) type. Ids are
non-empty strings.

The ranges follow the code. `rangeLimit` is `5 || config.limit`, which is
always 5 (`towerAOI.ts:25`), so the model fixes it at 5 and never reads a
configured limit. `getIdsByRange` rejects a range over 5. `getIdsByPos`,
`addWatcher`, `removeWatcher` and `updateWatcher` clamp it to 5 instead.

## Model

| member | source | states |
|---|---|---|
| Towers.AfterAdd | lib/towerAOI/tower.ts:16-33 | `add` always puts the id in `ids`. For a typed pair not yet filed, it files the id under the type and increases `size` by one. Otherwise `typeMap` and `size` are unchanged. Every other (type, id) filing and the watchers are untouched. It preserves `Wf` and `IdsCoverTypes` (every typed id is in `ids`). |
| Towers.AddTwice | lib/towerAOI/tower.ts:23-25 | A second `add` of the same pair is rejected. For a typed pair it leaves the bucket as the first `add` left it. |
| Towers.AfterRemove | lib/towerAOI/tower.ts:81-92 | `remove` of a present id drops it from `ids`, unfiles it from `typeMap[type]` for a non-empty type and decreases `size` by one. It is a no-op for an absent id. The type keys and the watchers are unchanged. `IdsCoverTypes` is preserved when the id is filed under no other type. |
| Towers.RemoveUnderOtherTypeUncovers | lib/towerAOI/tower.ts:85-89 | A concrete bucket where removing an id under a type other than the one it was added with leaves it filed in `typeMap` but absent from `ids`. This is why the preservation above has a side condition. |
| Towers.AfterAddWatcher | lib/towerAOI/tower.ts:38-46 | A watcher without a type is ignored. Otherwise it is registered under its type afterwards. No other registration changes, and the object fields are untouched. |
| Towers.AddWatcherIdempotent | lib/towerAOI/tower.ts:42-45 | Registering a watcher twice is the same as registering it once. |
| Towers.AfterRemoveWatcher | lib/towerAOI/tower.ts:51-58 | `removeWatcher` unregisters exactly (type, id). Every other type and id keeps its registration, and the key set and the object fields are unchanged. |
| Towers.RemoveWatcherIdempotent | lib/towerAOI/tower.ts:55-57 | Deregistering twice is the same as deregistering once. |
| Towers.Tower.constructor | lib/towerAOI/tower.ts:6-11 | A new tower holds the empty bucket. |
| Towers.Tower.Add | lib/towerAOI/tower.ts:16-33 | The in-place `add` leaves the fields at `AfterAdd` of the old value. It returns true exactly for a typed pair not yet filed. |
| Towers.Tower.Remove | lib/towerAOI/tower.ts:81-92 | The in-place `remove` leaves the fields at `AfterRemove` of the old value. Its precondition is the case where the source does not throw. |
| Towers.Tower.AddWatcher | lib/towerAOI/tower.ts:38-46 | The in-place `addWatcher` leaves the fields at `AfterAddWatcher` of the old value. |
| Towers.Tower.RemoveWatcher | lib/towerAOI/tower.ts:51-58 | The in-place `removeWatcher` leaves the fields at `AfterRemoveWatcher` of the old value. |
| Towers.Tower.GetWatchers | lib/towerAOI/tower.ts:63-76 | The keys of the result are exactly the requested types that have a watcher entry, each mapped to that entry. An empty type list gives an empty map. |
| Towers.Tower.GetIdsByTypes | lib/towerAOI/tower.ts:104-113 | The keys of the result are exactly the requested types that `typeMap` indexes, each mapped to its id set. |
| Geometry.CeilDiv | lib/towerAOI/towerAOI.ts:32-33 | `Math.ceil(n / d)` for a positive `d`: the least `q` with `n <= q * d`. |
| Geometry.Config.MaxTower | lib/towerAOI/towerAOI.ts:30-34 | `max` is the last tower on each axis: tower `max.x` starts inside the plane's width and ends at or past it, and the same holds for `y`. |
| Geometry.Config.CheckPos | lib/towerAOI/towerAOI.ts:160-166 | `checkPos` holds exactly when `0 <= x < width` and `0 <= y < height`. |
| Geometry.Config.TransPos | lib/towerAOI/towerAOI.ts:160-177 | `transPos` gives the tower whose extent holds the position. For a position that passes `checkPos` (`0 <= x < width`, `0 <= y < height`), the tower lies in `[0, max]` on both axes. |
| Geometry.AxisLimit | lib/towerAOI/towerAOI.ts:326-351 | On one axis, for `range >= 0`, the window satisfies `0 <= start <= end <= max` and has width `min(2 * range + 1, max + 1)`. It holds a centre in `[0, max]` and covers the clipped centred window. |
| Geometry.GetPosLimit | lib/towerAOI/towerAOI.ts:321-357 | The same facts on both axes: the bounds, the window width law, and that the window contains the centre tower. |
| Geometry.FiveByFivePlane | lib/towerAOI/towerAOI.ts:30-34 | On a 1000 x 1000 plane with 200 x 200 towers, `max` is (4, 4). The range-1 window of tower (1, 0) is shifted to columns and rows 0 to 2. |
| Geometry.IsInRect | lib/towerAOI/towerAOI.ts:362-364 | `isInRect` is the inclusive rectangle test, `start.x <= x <= end.x` and `start.y <= y <= end.y`. It holds only for a non-empty rectangle. |
| Geometry.Cells | lib/towerAOI/towerAOI.ts:362-364 | The towers of a window are exactly the coordinates `isInRect` accepts. |
| Geometry.WalkOldWindow | lib/towerAOI/towerAOI.ts:283-294 | The first walk files every tower of the old window. Those in the new window go to `unChangeTowers` and the rest to `removeTowers`. Both lists are in strictly increasing visiting order. |
| Geometry.WalkNewWindow | lib/towerAOI/towerAOI.ts:296-305 | The second walk lists exactly the towers of the new window that the old window lacks, in visiting order. |
| Geometry.GetChangedTowers | lib/towerAOI/towerAOI.ts:276-312 | `removeTowers` is exactly old minus new. `addTowers` is exactly new minus old. `unChangeTowers` is their intersection. The three lists are pairwise disjoint and free of repeats. For ranges `>= 0` every listed tower lies in the grid. |
| Grid.IdsInInsert | lib/towerAOI/towerAOI.ts:81-85 | The ids in one more tower are the ids so far plus that tower's ids. |
| Grid.TypesInInsert | lib/towerAOI/towerAOI.ts:59-63 | The requested types indexed by one more tower are those so far plus the requested types that tower indexes. |
| Grid.TypedIdsInInsert | lib/towerAOI/towerAOI.ts:59-63 | The ids of a type in one more tower are those so far plus that tower's ids of the type. |
| Grid.WatchersAdded | lib/towerAOI/towerAOI.ts:187-191 | The board after registering a watcher in a set of towers has the same towers and the same objects. A typed watcher is registered in every one of those towers. |
| Grid.WatchersRemoved | lib/towerAOI/towerAOI.ts:203-207 | The board after deregistering a watcher from a set of towers has the same towers and the same objects. A typed watcher is registered in none of those towers. |
| Grid.AddedEstablishesWatch | lib/towerAOI/towerAOI.ts:179-192 | Registering a typed watcher that no tower registers, over a set of towers, leaves it registered in exactly those towers. |
| Grid.RemovedClearsWatch | lib/towerAOI/towerAOI.ts:194-208 | Deregistering a typed watcher from exactly the towers it is registered in leaves it registered nowhere. |
| Grid.WatcherDiff | lib/towerAOI/towerAOI.ts:227-245 | The incremental update leaves every object field alone. A tower in both windows or in neither is unchanged. |
| Grid.PhasesAreDiff | lib/towerAOI/towerAOI.ts:234-244 | The two loops of `updateWatcher`, registering in new minus old and then deregistering from old minus new, give the incremental diff. |
| Grid.WatcherDiffComplete | lib/towerAOI/towerAOI.ts:210-245 | Diff completeness for a typed watcher registered in exactly the old window: afterwards it is registered in exactly the new window, and every other (type, id) registration of every tower is unchanged. |
| Grid.WatcherDiffIsRecompute | lib/towerAOI/towerAOI.ts:210-245 | For a watcher registered in exactly the old window, the incremental diff gives the same board as deregistering it from the whole old window and registering it in the whole new one. |
| Grid.ReAddRegistered | lib/towerAOI/tower.ts:38-58 | Re-registering a watcher just deregistered restores the tower. |
| Grid.RemoveUnregistered | lib/towerAOI/tower.ts:51-58 | Deregistering a watcher that is not registered changes nothing. |
| Grid.MoveObject | lib/towerAOI/towerAOI.ts:140-144 | Leaving the old tower and joining the new one keeps the set of towers. |
| Grid.MoveKeepsResidency | lib/towerAOI/towerAOI.ts:140-144 | Single residency survives `updateObject`: an object held only by the old tower is held only by the new one afterwards. |
| Grid.AddMakesResident | lib/towerAOI/towerAOI.ts:92-101 | Adding an object that no tower holds makes it resident in its tower only. |
| Grid.RemoveMakesAbsent | lib/towerAOI/towerAOI.ts:110-119 | Removing a resident object from its tower leaves no tower holding it. |
| TowerAoi.AddMap | lib/towerAOI/towerAOI.ts:371-375 | `addMap` keeps the array as a prefix and appends every id of the set exactly once. The result's elements are the old ones plus the set. |
| TowerAoi.AddTypeIds | lib/towerAOI/towerAOI.ts:382-392 | One type step of `addMapByTypes`. When the tower indexes the type, its ids are appended to the list under that type, which is created if missing. No other list changes. |
| TowerAoi.AddMapByTypes | lib/towerAOI/towerAOI.ts:380-395 | The keys are the old keys plus the requested types the tower indexes. Every old list is a prefix of the new one. Each list holds what it held plus the tower's ids of that type when requested. |
| TowerAoi.GatheredStep | lib/towerAOI/towerAOI.ts:381-393 | One more type keeps the loop invariant of `addMapByTypes`. |
| TowerAoi.ByTypeInsert | lib/towerAOI/towerAOI.ts:59-63 | Merging one more tower's typed ids with `addMapByTypes` keeps the result equal to the typed ids of the towers seen, keyed by the requested types present. |
| TowerAoi.UpdateObjectReturnAsWritten | lib/towerAOI/towerAOI.ts:125-153 | The value `updateObject` returns as written. It is truthy exactly when both positions are valid and share a tower, and `undefined` exactly after a move between towers. |
| TowerAoi.UpdateObjectAsWrittenFalsyOnMove | lib/towerAOI/towerAOI.ts:140-153 | A concrete move between towers that is carried out and yet reported as `undefined`. |
| TowerAoi.TowerAOI.constructor | lib/towerAOI/towerAOI.ts:15-42 | `init` builds `max + 1` columns of `max + 1` fresh, pairwise distinct towers. Every tower holds the empty bucket, and `rangeLimit` is 5. |
| TowerAoi.TowerAOI.GetIdsByRange | lib/towerAOI/towerAOI.ts:50-65 | The result is empty for an invalid position or a range that is negative or over 5. Otherwise its keys are exactly the requested types that some tower of the window indexes. Each key lists exactly the ids of that type in the window. |
| TowerAoi.TowerAOI.CollectByTypes | lib/towerAOI/towerAOI.ts:59-63 | The two loops of `getIdsByRange` give the typed ids of the whole window. |
| TowerAoi.TowerAOI.CollectColumn | lib/towerAOI/towerAOI.ts:60-62 | The inner loop adds one column of the window. |
| TowerAoi.TowerAOI.MergeTower | lib/towerAOI/towerAOI.ts:61 | One loop body adds one tower. |
| TowerAoi.TowerAOI.GetIdsByPos | lib/towerAOI/towerAOI.ts:70-87 | The result is empty for an invalid position or a negative range. Otherwise its elements are exactly the ids in the window of the range clamped to 5. |
| TowerAoi.TowerAOI.CollectIds | lib/towerAOI/towerAOI.ts:81-85 | The two loops of `getIdsByPos` give the ids of the whole window. |
| TowerAoi.TowerAOI.CollectIdsColumn | lib/towerAOI/towerAOI.ts:82-84 | The inner loop adds the ids of one column. |
| TowerAoi.TowerAOI.GetWatchers | lib/towerAOI/towerAOI.ts:256-263 | The result is `None` for an invalid position. Otherwise it is the requested watcher entries of the one tower holding the position. |
| TowerAoi.TowerAOI.AddAt | lib/towerAOI/towerAOI.ts:95 | `add` on one tower changes exactly that tower of the board. |
| TowerAoi.TowerAOI.RemoveAt | lib/towerAOI/towerAOI.ts:113 | `remove` on one tower changes exactly that tower of the board. |
| TowerAoi.TowerAOI.AddObject | lib/towerAOI/towerAOI.ts:92-105 | It returns the `checkPos` result. On failure the board is unchanged and there is no event. On success exactly the position's tower goes to `AfterAdd`, and an `add` event carries that tower's watchers. |
| TowerAoi.TowerAOI.RemoveObject | lib/towerAOI/towerAOI.ts:110-123 | The same as `AddObject` with `AfterRemove` and a `remove` event. |
| TowerAoi.TowerAOI.UpdateObject | lib/towerAOI/towerAOI.ts:125-153 | This is the corrected result: true exactly when both positions are valid. With an invalid position or the same tower, the board is unchanged and there is no event. Otherwise the board is `MoveObject` of the old board, an `update` event carries both towers' watchers, and single residency moves from the old tower to the new one. |
| TowerAoi.TowerAOI.AddWatcherAt | lib/towerAOI/towerAOI.ts:189 | `addWatcher` on one tower changes exactly that tower of the board. |
| TowerAoi.TowerAOI.RemoveWatcherAt | lib/towerAOI/towerAOI.ts:205 | `removeWatcher` on one tower changes exactly that tower of the board. |
| TowerAoi.TowerAOI.RegisterStep | lib/towerAOI/towerAOI.ts:189 | One registration of a walk extends the registered set by one tower and leaves that tower's objects untouched. |
| TowerAoi.TowerAOI.DeregisterStep | lib/towerAOI/towerAOI.ts:205 | One deregistration of a walk extends the deregistered set by one tower and leaves that tower's objects untouched. |
| TowerAoi.TowerAOI.AddWatcher | lib/towerAOI/towerAOI.ts:179-192 | A negative range changes nothing. Otherwise the board is `WatchersAdded` over the window of the range clamped to 5. A typed watcher registered nowhere before ends up registered in exactly that window. |
| TowerAoi.TowerAOI.RegisterWindow | lib/towerAOI/towerAOI.ts:187-191 | The two loops of `addWatcher` register the watcher in every tower of the window. |
| TowerAoi.TowerAOI.RegisterColumn | lib/towerAOI/towerAOI.ts:188-190 | The inner loop registers the watcher in one column of the window. |
| TowerAoi.TowerAOI.RemoveWatcher | lib/towerAOI/towerAOI.ts:194-208 | A negative range changes nothing. Otherwise the board is `WatchersRemoved` over the window of the range clamped to 5. A typed watcher registered in exactly that window before ends up registered nowhere. |
| TowerAoi.TowerAOI.DeregisterWindow | lib/towerAOI/towerAOI.ts:203-207 | The two loops of `removeWatcher` deregister the watcher from every tower of the window. |
| TowerAoi.TowerAOI.DeregisterColumn | lib/towerAOI/towerAOI.ts:204-206 | The inner loop deregisters the watcher from one column of the window. |
| TowerAoi.TowerAOI.UpdateWatcher | lib/towerAOI/towerAOI.ts:210-254 | It returns true exactly when both positions are valid and either the tower and the range are unchanged or both ranges are `>= 0`. Without a move the board is unchanged and there is no event. With a move the board is the incremental `WatcherDiff` of the clamped windows. The event's `addObjs` are exactly the ids of the entered towers and its `removeObjs` exactly those of the left towers. A watcher registered in exactly its old window ends up registered in exactly its new one. |
| TowerAoi.TowerAOI.MoveWatcher | lib/towerAOI/towerAOI.ts:227-245 | The moving branch: register in the towers only the new window has, then deregister from those only the old one has, reporting each side's objects. |
| TowerAoi.TowerAOI.RegisterAll | lib/towerAOI/towerAOI.ts:234-238 | The first loop registers the watcher in every listed tower and gathers exactly their ids. |
| TowerAoi.TowerAOI.DeregisterAll | lib/towerAOI/towerAOI.ts:240-244 | The second loop deregisters the watcher from every listed tower and gathers exactly their ids. |

## Left out

- Event emission: `EventEmitter`, `emit` and subscriber callbacks are not modelled. Each event payload is returned as an `Option<AoiEvent>`.
- Results and event payloads carry id and watcher sets by value. In the source they alias the tower's live objects, so later mutations would show through. This covers the `watchers` object in the `add`, `remove` and `update` events, the sets `Tower.getWatchers` (`tower.ts:70`) and `getIdsByTypes` (`tower.ts:109`) return, and therefore those `TowerAOI.getWatchers` and `getIdsByRange` pass to their callers. The model does not capture this aliasing.
- Logging and tracing (`console.error`, `console.trace`) are not modelled. The corrupt-coordinate branch of `updateObject` (`towerAOI.ts:135-139`) is not modelled either: `TransPos` of a valid position always names an existing tower, so the branch cannot be taken.
- Positions are integers. Floating-point coordinates and `Math.floor`/`Math.ceil` on fractions are not modelled.
- A degenerate plane (a width, height or tower size `<= 0`) is excluded by the constructor's precondition `config.Wf()`. In the source such a plane behaves as follows:
  - A zero tower size with a positive side makes `Math.ceil(side / 0)` infinite (`towerAOI.ts:32-33`). The loop at `towerAOI.ts:36` (for `towerWidth`) or at `towerAOI.ts:38` (for `towerHeight`) then never ends, so `init` never returns.
  - Two cases give a count `<= 0`, and then the grid is empty:
    - a zero side with a non-zero tower size;
    - a side and tower size of opposite signs.
  - A negative side with a negative tower size builds towers, but `checkPos` rejects every position.
  - A zero side with a zero tower size gives `0 / 0`. `max` is then `NaN` and the grid is empty.
- JavaScript value quirks are not modelled:
  - coercion of object keys;
  - prototype keys;
  - `null` or missing positions, types and type lists.
  Ids are non-empty strings, because the source tests `!!ids[id]` and would take a falsy id as absent. A missing type is the empty tag.
- Towers.Tower.Remove: requires that a non-empty type names an existing `typeMap` entry when the id is present. Otherwise the source's `delete this.typeMap[type][id]` throws, and the model has no exception path. `RemoveObject` inherits this precondition. `UpdateObject` inherits it only for a move between towers, the only case where it calls `remove`; a same-tower update returns before any removal.
- Towers.AfterRemove: states that `IdsCoverTypes` is preserved only when the id is filed under no type other than the one given. `remove` unfiles only `typeMap[type]`, so an object added under two types, or removed under a different type, leaves a typed entry behind (`RemoveUnderOtherTypeUncovers` exhibits one).
- TowerAoi.AddMap: states which ids are appended and that each is appended once, but not their order. The source follows JavaScript's key-enumeration order.
- TowerAoi.AddMapByTypes: states each list's contents as a set of ids. With a type requested twice, the source appends the tower's ids twice; that multiplicity is not stated.
- TowerAoi.TowerAOI.GetIdsByRange: its error result is an empty map, where the source returns `[]`, an empty array.
- `getChangedTowers` returns tower coordinates, where the source returns the `Tower` objects at those coordinates. The watcher loops look the towers up by coordinate. Its `towers` parameter is therefore not modelled.
- `getIds` is modelled as a read of the tower's `ids` field. In the source the object it returns aliases that field.
- `addWatcher` and `removeWatcher` do not check the position, and neither does the model. The window is clamped into the grid for any centre and any range `>= 0`, so no precondition on the position is needed.
- The `size` counter is kept as the source keeps it: it goes up on each new typed insertion (`tower.ts:28`) and down on each removal of a present id, typed or not (`tower.ts:90`), so it can go negative. The model states no relation between it and `ids`.
- `lib/aoiService.ts`, a facade that only forwards calls, is not part of this model. Neither is the `Vec2` module (`lib/vec2`), which lies outside `lib/towerAOI/`; `Vec2` is a plain datatype with integer fields.
- Concurrency and re-entrancy are not modelled: the engine is single-threaded and every operation is one sequential call.

## Findings

| source | as written | input that shows it | evidently intended | confidence | as-written member | corrected member |
|---|---|---|---|---|---|---|
| lib/towerAOI/towerAOI.ts:125-153 | After a successful move between towers, `updateObject` falls off the end of the function and returns `undefined`. Callers take that as a failure. | A plane of 1000 x 1000 with 200 x 200 towers: move an object from (210, 110) in tower (1, 0) to (810, 810) in tower (4, 4). The object moves and an `update` event is emitted, but the result is `undefined`. | Return `true` whenever both positions are valid, as the same-tower branch already does. | not executed | TowerAoi.UpdateObjectAsWrittenFalsyOnMove | TowerAoi.TowerAOI.UpdateObject |
