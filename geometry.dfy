/**
 * The pure part of the engine: the plane configuration, the mapping from
 * world positions to tower coordinates, the window a centre tower and a
 * range cover (`getPosLimit`), and the split of two windows into removed,
 * added and unchanged towers (`getChangedTowers`).
 *
 * Positions are integers; `Math.floor(x / w)` on a positive `w` is Dafny's
 * `x / w`, and `Math.ceil(n / d)` is `CeilDiv(n, d)`.
 */
module Geometry {
  import opened Common

  /** A world position or a tower coordinate. */
  datatype Vec2 = Vec2(x: int, y: int)

  /** An inclusive rectangle of tower coordinates. */
  datatype Limit = Limit(start: Vec2, end: Vec2)

  /** The largest range, in towers, that any query or watcher reaches. */
  const RangeLimit: int := 5

  /** `range > 5 ? 5 : range`, as the queries and watcher operations write it. */
  function ClampRange(range: int): int
  {
    if range > RangeLimit then RangeLimit else range
  }

  function Min(a: int, b: int): int { if a <= b then a else b }

  function Max(a: int, b: int): int { if a >= b then a else b }

  /** `Math.ceil(n / d)` for a positive `d`: the least `q` with `n <= q * d`. */
  function CeilDiv(n: int, d: int): (q: int)
    requires d > 0
    ensures (q - 1) * d < n <= q * d
  {
    var q := (n + d - 1) / d;
    assert n + d - 1 == q * d + (n + d - 1) % d;
    assert (q - 1) * d == q * d - d;
    q
  }

  /** The construction parameters of the plane. */
  datatype Config = Config(width: int, height: int, towerWidth: int, towerHeight: int)
  {
    predicate Wf()
    {
      width > 0 && height > 0 && towerWidth > 0 && towerHeight > 0
    }

    /** `max`: the coordinate of the last tower on each axis. */
    function MaxTower(): (m: Vec2)
      requires Wf()
      ensures m.x >= 0 && m.y >= 0
      ensures m.x * towerWidth < width <= (m.x + 1) * towerWidth
      ensures m.y * towerHeight < height <= (m.y + 1) * towerHeight
    {
      var cols, rows := CeilDiv(width, towerWidth), CeilDiv(height, towerHeight);
      assert cols <= 0 ==> cols * towerWidth <= 0;
      assert rows <= 0 ==> rows * towerHeight <= 0;
      Vec2(cols - 1, rows - 1)
    }

    /** `checkPos`: the position lies on the plane. */
    predicate CheckPos(pos: Vec2)
      ensures CheckPos(pos) <==> 0 <= pos.x < width && 0 <= pos.y < height
    {
      !(pos.x < 0 || pos.y < 0 || pos.x >= width || pos.y >= height)
    }

    /** `transPos`: the tower that holds a world position. */
    function TransPos(pos: Vec2): (p: Vec2)
      requires Wf()
      ensures p.x * towerWidth <= pos.x < (p.x + 1) * towerWidth
      ensures p.y * towerHeight <= pos.y < (p.y + 1) * towerHeight
      ensures CheckPos(pos) ==> 0 <= p.x <= MaxTower().x && 0 <= p.y <= MaxTower().y
    {
      var p := Vec2(pos.x / towerWidth, pos.y / towerHeight);
      FloorDiv(pos.x, towerWidth);
      FloorDiv(pos.y, towerHeight);
      if CheckPos(pos) then
        var m := MaxTower();
        Below(p.x, towerWidth, pos.x, m.x);
        Below(p.y, towerHeight, pos.y, m.y);
        p
      else
        p
    }
  }

  lemma FloorDiv(n: int, d: int)
    requires d > 0
    ensures (n / d) * d <= n < (n / d + 1) * d
  {
    assert n == (n / d) * d + n % d;
    assert (n / d + 1) * d == (n / d) * d + d;
  }

  lemma MulMono(a: int, b: int, d: int)
    requires d > 0 && a <= b
    ensures a * d <= b * d
  {
    assert b * d - a * d == (b - a) * d;
  }

  /** A tower coordinate `q` whose tower starts at or before `n` lies in `[0, m]`
      when `n` lies in `[0, (m + 1) * d)`. */
  lemma Below(q: int, d: int, n: int, m: int)
    requires d > 0 && 0 <= n && q * d <= n < (q + 1) * d
    requires n < (m + 1) * d
    ensures 0 <= q <= m
  {
    if q + 1 <= 0 { MulMono(q + 1, 0, d); }
    if m + 1 <= q { MulMono(m + 1, q, d); }
  }

  /** One axis of `getPosLimit`: shift the window `[p - range, p + range]`
      back inside `[0, max]` and then clamp it there. */
  function AxisLimit(p: int, range: int, max: int): (w: (int, int))
    ensures range >= 0 && max >= 0 ==> 0 <= w.0 <= w.1 <= max
    ensures range >= 0 && max >= 0 ==> w.1 - w.0 + 1 == Min(2 * range + 1, max + 1)
    ensures range >= 0 && 0 <= p <= max ==> w.0 <= p <= w.1
    ensures range >= 0 && max >= 0 ==> w.0 <= Max(p - range, 0) && Min(p + range, max) <= w.1
  {
    var (s, e) :=
      if p - range < 0 then (0, 2 * range)
      else if p + range > max then (max - 2 * range, max)
      else (p - range, p + range);
    (if s >= 0 then s else 0, if e <= max then e else max)
  }

  /** `getPosLimit`: the window of towers that a centre tower and a range cover. */
  function GetPosLimit(pos: Vec2, range: int, max: Vec2): (lim: Limit)
    ensures range >= 0 && max.x >= 0 && max.y >= 0 ==>
              0 <= lim.start.x <= lim.end.x <= max.x && 0 <= lim.start.y <= lim.end.y <= max.y
    ensures range >= 0 && max.x >= 0 && max.y >= 0 ==>
              lim.end.x - lim.start.x + 1 == Min(2 * range + 1, max.x + 1) &&
              lim.end.y - lim.start.y + 1 == Min(2 * range + 1, max.y + 1)
    ensures range >= 0 && 0 <= pos.x <= max.x && 0 <= pos.y <= max.y ==>
              IsInRect(pos, lim.start, lim.end)
    ensures range >= 0 && max.x >= 0 && max.y >= 0 ==>
              lim.start.x <= Max(pos.x - range, 0) && Min(pos.x + range, max.x) <= lim.end.x &&
              lim.start.y <= Max(pos.y - range, 0) && Min(pos.y + range, max.y) <= lim.end.y
  {
    var (sx, ex) := AxisLimit(pos.x, range, max.x);
    var (sy, ey) := AxisLimit(pos.y, range, max.y);
    Limit(Vec2(sx, sy), Vec2(ex, ey))
  }

  /** On a 1000 x 1000 plane of 200 x 200 towers the last tower is (4, 4); a
      watcher at tower (1, 0) with range 1 covers columns 0 to 2 and, the row
      window being shifted off the edge, rows 0 to 2. */
  lemma FiveByFivePlane()
    ensures Config(1000, 1000, 200, 200).MaxTower() == Vec2(4, 4)
    ensures GetPosLimit(Vec2(1, 0), 1, Vec2(4, 4)) == Limit(Vec2(0, 0), Vec2(2, 2))
  {
    var m := Config(1000, 1000, 200, 200).MaxTower();
    assert m.x * 200 < 1000 <= (m.x + 1) * 200;
    assert m.y * 200 < 1000 <= (m.y + 1) * 200;
  }

  /** `isInRect`: the coordinate lies in the inclusive rectangle. */
  predicate IsInRect(pos: Vec2, start: Vec2, end: Vec2)
    ensures IsInRect(pos, start, end) <==> start.x <= pos.x <= end.x && start.y <= pos.y <= end.y
    ensures IsInRect(pos, start, end) ==> start.x <= end.x && start.y <= end.y
  {
    pos.x >= start.x && pos.x <= end.x && pos.y >= start.y && pos.y <= end.y
  }

  /** The towers of a window, as a set. */
  ghost function Cells(lim: Limit): (s: set<Vec2>)
    ensures forall c :: c in s <==> IsInRect(c, lim.start, lim.end)
  {
    var s := set x, y | lim.start.x <= x <= lim.end.x && lim.start.y <= y <= lim.end.y :: Vec2(x, y);
    assert forall c | IsInRect(c, lim.start, lim.end) :: c in s by {
      forall c | IsInRect(c, lim.start, lim.end) ensures c in s {
        assert c == Vec2(c.x, c.y);
      }
    }
    s
  }

  /** `c` comes before tower `(x, y)` in the order the loops visit towers:
      by column, then by row. */
  predicate Before(c: Vec2, x: int, y: int)
  {
    c.x < x || (c.x == x && c.y < y)
  }

  /** The towers of a window the loops have visited before reaching `(x, y)`. */
  ghost function Walked(lim: Limit, x: int, y: int): set<Vec2>
  {
    set c | c in Cells(lim) && Before(c, x, y)
  }

  /** Visiting tower `(x, y)` of the window adds exactly that tower. */
  lemma WalkedNext(lim: Limit, x: int, y: int)
    requires lim.start.x <= x <= lim.end.x && lim.start.y <= y <= lim.end.y
    ensures Walked(lim, x, y + 1) == Walked(lim, x, y) + {Vec2(x, y)}
  {
  }

  /** Finishing a column is starting the next one. */
  lemma WalkedColumn(lim: Limit, x: int)
    ensures Walked(lim, x, lim.end.y + 1) == Walked(lim, x + 1, lim.start.y)
  {
  }

  /** Before the first column nothing is visited; after the last, the whole window. */
  lemma WalkedEnds(lim: Limit)
    ensures Walked(lim, lim.start.x, lim.start.y) == {}
    ensures Walked(lim, lim.end.x + 1, lim.start.y) == Cells(lim)
  {
  }

  /** The towers are listed in strictly increasing visiting order, so none twice. */
  predicate StrictlyOrdered(s: seq<Vec2>)
  {
    forall a, b | 0 <= a < b < |s| :: Before(s[a], s[b].x, s[b].y)
  }

  /** Appending a tower that every listed tower precedes keeps the order strict. */
  lemma AppendOrdered(s: seq<Vec2>, c: Vec2)
    requires StrictlyOrdered(s)
    requires forall d | d in s :: Before(d, c.x, c.y)
    ensures StrictlyOrdered(s + [c])
  {
    var t := s + [c];
    forall a, b | 0 <= a < b < |t| ensures Before(t[a], t[b].x, t[b].y) {
      if b == |s| { assert t[a] in s; }
    }
  }

  /** `getChangedTowers`: walk the old window, filing each tower as unchanged
      or removed, then walk the new window, filing the towers the old one
      lacks as added. Towers are given by their coordinates. */
  method GetChangedTowers(p1: Vec2, p2: Vec2, r1: int, r2: int, max: Vec2)
    returns (addTowers: seq<Vec2>, removeTowers: seq<Vec2>, unChangeTowers: seq<Vec2>)
    ensures Elems(removeTowers) == Cells(GetPosLimit(p1, r1, max)) - Cells(GetPosLimit(p2, r2, max))
    ensures Elems(addTowers) == Cells(GetPosLimit(p2, r2, max)) - Cells(GetPosLimit(p1, r1, max))
    ensures Elems(unChangeTowers) == Cells(GetPosLimit(p1, r1, max)) * Cells(GetPosLimit(p2, r2, max))
    ensures Elems(addTowers) !! Elems(removeTowers) && Elems(addTowers) !! Elems(unChangeTowers)
    ensures Elems(removeTowers) !! Elems(unChangeTowers)
    ensures StrictlyOrdered(removeTowers) && StrictlyOrdered(addTowers) && StrictlyOrdered(unChangeTowers)
    ensures 0 <= r1 && 0 <= r2 && 0 <= max.x && 0 <= max.y ==>
              InGrid(addTowers, max) && InGrid(removeTowers, max) && InGrid(unChangeTowers, max)
  {
    var limit1 := GetPosLimit(p1, r1, max);
    var limit2 := GetPosLimit(p2, r2, max);
    removeTowers, unChangeTowers := WalkOldWindow(limit1, limit2);
    addTowers := WalkNewWindow(limit1, limit2);
    assert Elems(removeTowers) == Cells(limit1) - Cells(limit2);
    assert Elems(addTowers) == Cells(limit2) - Cells(limit1);
    assert Elems(unChangeTowers) == Cells(limit1) * Cells(limit2);
    if 0 <= r1 && 0 <= r2 && 0 <= max.x && 0 <= max.y {
      ListedInGrid(addTowers, limit2, max);
      ListedInGrid(removeTowers, limit1, max);
      ListedInGrid(unChangeTowers, limit1, max);
    }
  }

  /** Every listed coordinate is a tower of the grid whose last tower is `max`. */
  ghost predicate InGrid(cells: seq<Vec2>, max: Vec2)
  {
    forall c | c in cells :: 0 <= c.x <= max.x && 0 <= c.y <= max.y
  }

  /** Towers listed from a window inside the grid are grid towers. */
  lemma ListedInGrid(cells: seq<Vec2>, lim: Limit, max: Vec2)
    requires 0 <= lim.start.x <= lim.end.x <= max.x && 0 <= lim.start.y <= lim.end.y <= max.y
    requires Elems(cells) <= Cells(lim)
    ensures InGrid(cells, max)
  {
    forall c | c in cells ensures 0 <= c.x <= max.x && 0 <= c.y <= max.y {
      assert c in Elems(cells);
    }
  }

  /** The first walk of `getChangedTowers`: every tower of `limit1`, in visiting
      order, goes to `unChangeTowers` when `limit2` holds it and to
      `removeTowers` otherwise. */
  method WalkOldWindow(limit1: Limit, limit2: Limit) returns (removeTowers: seq<Vec2>, unChangeTowers: seq<Vec2>)
    ensures forall c :: c in removeTowers <==>
              IsInRect(c, limit1.start, limit1.end) && !IsInRect(c, limit2.start, limit2.end)
    ensures forall c :: c in unChangeTowers <==>
              IsInRect(c, limit1.start, limit1.end) && IsInRect(c, limit2.start, limit2.end)
    ensures StrictlyOrdered(removeTowers) && StrictlyOrdered(unChangeTowers)
  {
    removeTowers, unChangeTowers := [], [];
    var x := limit1.start.x;
    while x <= limit1.end.x
      invariant forall c :: c in removeTowers <==>
                  IsInRect(c, limit1.start, limit1.end) && !IsInRect(c, limit2.start, limit2.end) && c.x < x
      invariant forall c :: c in unChangeTowers <==>
                  IsInRect(c, limit1.start, limit1.end) && IsInRect(c, limit2.start, limit2.end) && c.x < x
      invariant StrictlyOrdered(removeTowers) && StrictlyOrdered(unChangeTowers)
      decreases limit1.end.x - x
    {
      var y := limit1.start.y;
      while y <= limit1.end.y
        invariant forall c :: c in removeTowers <==>
                    IsInRect(c, limit1.start, limit1.end) && !IsInRect(c, limit2.start, limit2.end) && Before(c, x, y)
        invariant forall c :: c in unChangeTowers <==>
                    IsInRect(c, limit1.start, limit1.end) && IsInRect(c, limit2.start, limit2.end) && Before(c, x, y)
        invariant StrictlyOrdered(removeTowers) && StrictlyOrdered(unChangeTowers)
        decreases limit1.end.y - y
      {
        var c := Vec2(x, y);
        if IsInRect(c, limit2.start, limit2.end) {
          AppendOrdered(unChangeTowers, c);
          unChangeTowers := unChangeTowers + [c];
        } else {
          AppendOrdered(removeTowers, c);
          removeTowers := removeTowers + [c];
        }
        y := y + 1;
      }
      x := x + 1;
    }
  }

  /** The second walk of `getChangedTowers`: the towers of `limit2` that
      `limit1` lacks, in visiting order. */
  method WalkNewWindow(limit1: Limit, limit2: Limit) returns (addTowers: seq<Vec2>)
    ensures forall c :: c in addTowers <==>
              IsInRect(c, limit2.start, limit2.end) && !IsInRect(c, limit1.start, limit1.end)
    ensures StrictlyOrdered(addTowers)
  {
    addTowers := [];
    var x := limit2.start.x;
    while x <= limit2.end.x
      invariant forall c :: c in addTowers <==>
                  IsInRect(c, limit2.start, limit2.end) && !IsInRect(c, limit1.start, limit1.end) && c.x < x
      invariant StrictlyOrdered(addTowers)
      decreases limit2.end.x - x
    {
      var y := limit2.start.y;
      while y <= limit2.end.y
        invariant forall c :: c in addTowers <==>
                    IsInRect(c, limit2.start, limit2.end) && !IsInRect(c, limit1.start, limit1.end) && Before(c, x, y)
        invariant StrictlyOrdered(addTowers)
        decreases limit2.end.y - y
      {
        var c := Vec2(x, y);
        if !IsInRect(c, limit1.start, limit1.end) {
          AppendOrdered(addTowers, c);
          addTowers := addTowers + [c];
        }
        y := y + 1;
      }
      x := x + 1;
    }
  }
}
