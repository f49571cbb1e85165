/** The costmap: world coordinates, the rolling-window shift, and convex polygon cost. */
module Costmap2D {
  import opened Common
  import opened GridMath
  import opened ConvexFill

  datatype WorldPoint = WorldPoint(x: real, y: real)

  /** `static_cast<int>`: toward zero. */
  function Trunc(r: real): int {
    if r >= 0.0 then r.Floor else -((-r).Floor)
  }

  /** `mapToWorld` along one axis: the centre of cell `m`. */
  function CellCentre(origin: real, resolution: real, m: int): real {
    origin + (m as real + 0.5) * resolution
  }

  /** `worldToMap`. */
  function WorldToMap(w: nat, h: nat, resolution: real, originX: real, originY: real, p: WorldPoint): Option<Cell>
    requires resolution > 0.0
  {
    if p.x < originX || p.y < originY then None
    else
      var c := Cell(Trunc((p.x - originX) / resolution), Trunc((p.y - originY) / resolution));
      if c.x < w && c.y < h then Some(c) else None
  }

  /** World coordinate `v` lies in cell `m` of an axis. */
  predicate InCell(origin: real, resolution: real, m: int, v: real) {
    origin + m as real * resolution <= v < origin + (m + 1) as real * resolution
  }

  lemma FloorOfQuotient(d: real, resolution: real, m: int)
    requires resolution > 0.0
    ensures (d / resolution).Floor == m <==> m as real * resolution <= d < (m + 1) as real * resolution
  {
    assert d / resolution * resolution == d;
    FloorScaled(d / resolution, d, resolution, m);
  }

  lemma FloorScaled(q: real, d: real, resolution: real, m: int)
    requires resolution > 0.0 && d == q * resolution
    ensures q.Floor == m <==> m as real * resolution <= d < (m + 1) as real * resolution
  {
    ScaleKeepsOrder(q, m as real, resolution, d, m as real * resolution);
    ScaleKeepsOrder(q, (m + 1) as real, resolution, d, (m + 1) as real * resolution);
  }

  lemma ScaleKeepsOrder(a: real, b: real, scale: real, scaledA: real, scaledB: real)
    requires scale > 0.0 && scaledA == a * scale && scaledB == b * scale
    ensures a < b <==> scaledA < scaledB
  {
    assert scaledB - scaledA == (b - a) * scale;
  }

  /** A coordinate not below the origin lies in exactly the cell the cast computes. */
  lemma AxisCell(origin: real, resolution: real, v: real, m: int)
    requires resolution > 0.0
    ensures origin <= v && Trunc((v - origin) / resolution) == m <==> 0 <= m && InCell(origin, resolution, m, v)
  {
    var d := v - origin;
    FloorOfQuotient(d, resolution, m);
    QuotientSign(d, resolution);
    if 0 <= m { assert 0.0 <= m as real * resolution; }
  }

  lemma QuotientSign(d: real, resolution: real)
    requires resolution > 0.0
    ensures d >= 0.0 <==> d / resolution >= 0.0
  {
    assert (d / resolution) * resolution == d;
  }

  /** `worldToMap` answers with a cell exactly when the point lies in that cell of the grid. */
  lemma WorldToMapExact(w: nat, h: nat, resolution: real, originX: real, originY: real, p: WorldPoint, c: Cell)
    requires resolution > 0.0
    ensures WorldToMap(w, h, resolution, originX, originY, p) == Some(c) <==>
            InGrid(w, h, c) && InCell(originX, resolution, c.x, p.x) && InCell(originY, resolution, c.y, p.y)
  {
    AxisCell(originX, resolution, p.x, c.x);
    AxisCell(originY, resolution, p.y, c.y);
    hide Trunc, InCell;
  }

  /** Round trip: a cell's centre maps back to the cell. */
  lemma MapWorldRoundTrip(w: nat, h: nat, resolution: real, originX: real, originY: real, c: Cell)
    requires resolution > 0.0 && InGrid(w, h, c)
    ensures WorldToMap(w, h, resolution, originX, originY,
              WorldPoint(CellCentre(originX, resolution, c.x), CellCentre(originY, resolution, c.y))) == Some(c)
  {
    CentreInCell(originX, resolution, c.x);
    CentreInCell(originY, resolution, c.y);
    hide CellCentre, InCell, WorldToMap;
    WorldToMapExact(w, h, resolution, originX, originY,
      WorldPoint(CellCentre(originX, resolution, c.x), CellCentre(originY, resolution, c.y)), c);
  }

  /** The centre lies in its cell, as far from one side as from the other. */
  lemma CentreInCell(origin: real, resolution: real, m: int)
    requires resolution > 0.0
    ensures InCell(origin, resolution, m, CellCentre(origin, resolution, m))
    ensures CellCentre(origin, resolution, m) - (origin + m as real * resolution) ==
            origin + (m + 1) as real * resolution - CellCentre(origin, resolution, m)
  {
    assert (m as real + 0.5) * resolution == m as real * resolution + 0.5 * resolution;
    assert (m + 1) as real * resolution == m as real * resolution + resolution;
  }

  // ---------------------------------------------------------------- the map

  function Clamp(v: int, lo: int, hi: int): int {
    if v < lo then lo else if v > hi then hi else v
  }

  /** A rectangle of cells: column and row of its lower left corner, width and height. */
  datatype Region = Region(x: int, y: int, width: nat, height: nat)

  predicate InRegion(r: Region, c: Cell) {
    r.x <= c.x < r.x + r.width && r.y <= c.y < r.y + r.height
  }

  /** Cell `c` after copying the region with corner (sx, sy) of `source` onto region `r` of `dest`. */
  ghost predicate Copied(sw: nat, sh: nat, source: seq<Byte>, sx: int, sy: int,
                         dw: nat, dh: nat, dest: seq<Byte>, after: seq<Byte>, r: Region)
  {
    && |source| == sw * sh && |dest| == dw * dh && |after| == dw * dh
    && forall c :: InGrid(dw, dh, c) ==>
         if InRegion(r, c) then
           InGrid(sw, sh, Cell(c.x - r.x + sx, c.y - r.y + sy)) &&
           Get<Byte>(dw, dh, after, c) == Get<Byte>(sw, sh, source, Cell(c.x - r.x + sx, c.y - r.y + sy))
         else Get<Byte>(dw, dh, after, c) == Get<Byte>(dw, dh, dest, c)
  }

  /** The cells of `r` in scan order before column `i` of its row `j` have been copied. */
  ghost predicate CopiedUpTo(sw: nat, sh: nat, source: seq<Byte>, sx: int, sy: int,
                             dw: nat, dh: nat, dest: seq<Byte>, after: seq<Byte>, r: Region, i: nat, j: nat)
  {
    && |source| == sw * sh && |dest| == dw * dh && |after| == dw * dh
    && forall c :: InGrid(dw, dh, c) ==>
         if InRegion(r, c) && (c.y < r.y + j || (c.y == r.y + j && c.x < r.x + i)) then
           InGrid(sw, sh, Cell(c.x - r.x + sx, c.y - r.y + sy)) &&
           Get<Byte>(dw, dh, after, c) == Get<Byte>(sw, sh, source, Cell(c.x - r.x + sx, c.y - r.y + sy))
         else Get<Byte>(dw, dh, after, c) == Get<Byte>(dw, dh, dest, c)
  }

  predicate Fits(w: nat, h: nat, r: Region) {
    0 <= r.x && 0 <= r.y && r.x + r.width <= w && r.y + r.height <= h
  }

  lemma CopyOne(sw: nat, sh: nat, source: seq<Byte>, sx: int, sy: int,
                dw: nat, dh: nat, dest: seq<Byte>, after: seq<Byte>, r: Region, i: nat, j: nat)
    requires CopiedUpTo(sw, sh, source, sx, sy, dw, dh, dest, after, r, i, j)
    requires Fits(dw, dh, r) && Fits(sw, sh, Region(sx, sy, r.width, r.height)) && i < r.width && j < r.height
    ensures var d, s := Index(dw, Cell(r.x + i, r.y + j)), Index(sw, Cell(sx + i, sy + j));
            && 0 <= d < |after| && 0 <= s < |source|
            && CopiedUpTo(sw, sh, source, sx, sy, dw, dh, dest, after[d := source[s]], r, i + 1, j)
  {
    var p, q := Cell(r.x + i, r.y + j), Cell(sx + i, sy + j);
    IndexInRange(sw, sh, q);
    assert Get<Byte>(sw, sh, source, q) == source[Index(sw, q)];
    hide Index, Get;
    PutGet<Byte>(dw, dh, after, p, source[Index(sw, q)]);
  }

  lemma CopyRowEnd(sw: nat, sh: nat, source: seq<Byte>, sx: int, sy: int,
                   dw: nat, dh: nat, dest: seq<Byte>, after: seq<Byte>, r: Region, j: nat)
    requires CopiedUpTo(sw, sh, source, sx, sy, dw, dh, dest, after, r, r.width, j)
    ensures CopiedUpTo(sw, sh, source, sx, sy, dw, dh, dest, after, r, 0, j + 1)
  {
    hide Index, Get;
  }

  lemma CopyEnds(sw: nat, sh: nat, source: seq<Byte>, sx: int, sy: int,
                 dw: nat, dh: nat, dest: seq<Byte>, after: seq<Byte>, r: Region)
    ensures |source| == sw * sh && |dest| == dw * dh ==>
              CopiedUpTo(sw, sh, source, sx, sy, dw, dh, dest, dest, r, 0, 0)
    ensures CopiedUpTo(sw, sh, source, sx, sy, dw, dh, dest, after, r, 0, r.height) ==>
              Copied(sw, sh, source, sx, sy, dw, dh, dest, after, r)
    ensures r.width == 0 && |source| == sw * sh && |dest| == dw * dh ==>
              Copied(sw, sh, source, sx, sy, dw, dh, dest, dest, r)
  {
    hide Index, Get;
  }

  /** `copyMapRegion`: row by row. An empty region copies nothing, wherever its corner lies. */
  method CopyMapRegion(source: array<Byte>, sx: int, sy: int, sw: nat,
                       dest: array<Byte>, r: Region, dw: nat, ghost sh: nat, ghost dh: nat)
    requires source != dest && source.Length == sw * sh && dest.Length == dw * dh
    requires r.width == 0 || r.height == 0 || (Fits(dw, dh, r) && Fits(sw, sh, Region(sx, sy, r.width, r.height)))
    modifies dest
    ensures Copied(sw, sh, source[..], sx, sy, dw, dh, old(dest[..]), dest[..], r)
  {
    hide CopiedUpTo, Copied, Fits;
    ghost var before := dest[..];
    CopyEnds(sw, sh, source[..], sx, sy, dw, dh, before, before, r);
    var smIndex, dmIndex := sy * sw + sx, r.y * dw + r.x;
    for j := 0 to r.height
      invariant smIndex == (sy + j) * sw + sx && dmIndex == (r.y + j) * dw + r.x
      invariant CopiedUpTo(sw, sh, source[..], sx, sy, dw, dh, before, dest[..], r, 0, j)
    {
      for i := 0 to r.width
        invariant CopiedUpTo(sw, sh, source[..], sx, sy, dw, dh, before, dest[..], r, i, j)
      {
        CopyOne(sw, sh, source[..], sx, sy, dw, dh, before, dest[..], r, i, j);
        dest[dmIndex + i] := source[smIndex + i];
      }
      CopyRowEnd(sw, sh, source[..], sx, sy, dw, dh, before, dest[..], r, j);
      NextRow(sy + j, sw);
      NextRow(r.y + j, dw);
      smIndex, dmIndex := smIndex + sw, dmIndex + dw;
    }
    CopyEnds(sw, sh, source[..], sx, sy, dw, dh, before, dest[..], r);
  }

  lemma NextRow(y: int, w: nat)
    ensures (y + 1) * w == y * w + w
  {
  }

  // ---------------------------------------------------------------- the rolling window

  /** The map after its window moved by (dx, dy) cells: cells still inside the old window keep
      their value at their new position, all others are the default. */
  ghost predicate Shifted(w: nat, h: nat, before: seq<Byte>, after: seq<Byte>, defaultValue: Byte, dx: int, dy: int)
  {
    && |before| == w * h && |after| == w * h
    && forall c :: InGrid(w, h, c) ==>
         Get<Byte>(w, h, after, c) == if InGrid(w, h, Cell(c.x + dx, c.y + dy))
                                then Get<Byte>(w, h, before, Cell(c.x + dx, c.y + dy)) else defaultValue
  }

  /** The part of the old window still visible after a move by `d` cells along one axis. */
  lemma OverlapAxis(d: int, size: nat)
    ensures var lower, upper := Clamp(d, 0, size), Clamp(d + size, 0, size);
            && 0 <= lower <= upper <= size
            && (lower < upper ==> 0 <= lower - d && lower - d + (upper - lower) <= size)
  {
  }

  /** A position is in the restored part exactly when it was visible before the move. */
  lemma OverlapAt(d: int, size: nat, v: int)
    requires 0 <= v < size
    ensures var lower, upper := Clamp(d, 0, size), Clamp(d + size, 0, size);
            lower - d <= v < lower - d + (upper - lower) <==> 0 <= v + d < size
  {
  }

  ghost predicate AllAre(cells: seq<Byte>, v: Byte) {
    forall k :: 0 <= k < |cells| ==> cells[k] == v
  }

  lemma OverlapSize(w: nat, h: nat)
    ensures 0 <= w * h
  {
  }

  /** Save the overlap, reset, copy it back: together a shift. */
  lemma SaveResetRestoreShifts(w: nat, h: nat, before: seq<Byte>, junk: seq<Byte>, saved: seq<Byte>, blank: seq<Byte>,
                               after: seq<Byte>, defaultValue: Byte, dx: int, dy: int)
    requires |before| == w * h && |after| == w * h
    requires var lx, ux := Clamp(dx, 0, w), Clamp(dx + w, 0, w);
             var ly, uy := Clamp(dy, 0, h), Clamp(dy + h, 0, h);
             && lx <= ux && ly <= uy
             && Copied(w, h, before, lx, ly, ux - lx, uy - ly, junk, saved, Region(0, 0, ux - lx, uy - ly))
             && |blank| == w * h && AllAre(blank, defaultValue)
             && Copied(ux - lx, uy - ly, saved, 0, 0, w, h, blank, after, Region(lx - dx, ly - dy, ux - lx, uy - ly))
    ensures Shifted(w, h, before, after, defaultValue, dx, dy)
  {
    hide Clamp, AllAre, Copied, Index, Get;
    forall c | InGrid(w, h, c)
      ensures Get<Byte>(w, h, after, c) == if InGrid(w, h, Cell(c.x + dx, c.y + dy))
                                     then Get<Byte>(w, h, before, Cell(c.x + dx, c.y + dy)) else defaultValue
    {
      ShiftedCell(w, h, before, junk, saved, blank, after, defaultValue, dx, dy, c);
    }
  }

  lemma CopiedAt(sw: nat, sh: nat, source: seq<Byte>, sx: int, sy: int,
                 dw: nat, dh: nat, dest: seq<Byte>, after: seq<Byte>, r: Region, c: Cell)
    requires Copied(sw, sh, source, sx, sy, dw, dh, dest, after, r) && InGrid(dw, dh, c)
    ensures |source| == sw * sh && |dest| == dw * dh && |after| == dw * dh
    ensures InRegion(r, c) ==>
              && InGrid(sw, sh, Cell(c.x - r.x + sx, c.y - r.y + sy))
              && Get<Byte>(dw, dh, after, c) == Get<Byte>(sw, sh, source, Cell(c.x - r.x + sx, c.y - r.y + sy))
    ensures !InRegion(r, c) ==> Get<Byte>(dw, dh, after, c) == Get<Byte>(dw, dh, dest, c)
  {
    hide Index, Get;
  }

  lemma ShiftedCell(w: nat, h: nat, before: seq<Byte>, junk: seq<Byte>, saved: seq<Byte>, blank: seq<Byte>,
                    after: seq<Byte>, defaultValue: Byte, dx: int, dy: int, c: Cell)
    requires |before| == w * h && |after| == w * h
    requires var lx, ux := Clamp(dx, 0, w), Clamp(dx + w, 0, w);
             var ly, uy := Clamp(dy, 0, h), Clamp(dy + h, 0, h);
             && lx <= ux && ly <= uy
             && Copied(w, h, before, lx, ly, ux - lx, uy - ly, junk, saved, Region(0, 0, ux - lx, uy - ly))
             && |blank| == w * h && AllAre(blank, defaultValue)
             && Copied(ux - lx, uy - ly, saved, 0, 0, w, h, blank, after, Region(lx - dx, ly - dy, ux - lx, uy - ly))
    requires InGrid(w, h, c)
    ensures Get<Byte>(w, h, after, c) == if InGrid(w, h, Cell(c.x + dx, c.y + dy))
                                   then Get<Byte>(w, h, before, Cell(c.x + dx, c.y + dy)) else defaultValue
  {
    hide Clamp, AllAre, Copied, Index, Get;
    OverlapAt(dx, w, c.x);
    OverlapAt(dy, h, c.y);
    BlankCell(w, h, blank, defaultValue, c);
    var lx, ux := Clamp(dx, 0, w), Clamp(dx + w, 0, w);
    var ly, uy := Clamp(dy, 0, h), Clamp(dy + h, 0, h);
    var r := Region(lx - dx, ly - dy, ux - lx, uy - ly);
    CopiedAt(ux - lx, uy - ly, saved, 0, 0, w, h, blank, after, r, c);
    if InRegion(r, c) {
      var mid := Cell(c.x - r.x + 0, c.y - r.y + 0);
      var whole := Region(0, 0, ux - lx, uy - ly);
      assert InRegion(whole, mid);
      CopiedAt(w, h, before, lx, ly, ux - lx, uy - ly, junk, saved, whole, mid);
      assert Cell(mid.x - whole.x + lx, mid.y - whole.y + ly) == Cell(c.x + dx, c.y + dy);
    } else {
      assert r.x + r.width == lx - dx + (ux - lx) && r.y + r.height == ly - dy + (uy - ly);
      assert !InGrid(w, h, Cell(c.x + dx, c.y + dy));
    }
  }

  lemma BlankCell(w: nat, h: nat, blank: seq<Byte>, v: Byte, c: Cell)
    requires |blank| == w * h && AllAre(blank, v) && InGrid(w, h, c)
    ensures Get<Byte>(w, h, blank, c) == v
  {
    IndexInRange(w, h, c);
    hide Index;
  }

  /** What a costmap shows: where its window lies and what its cells hold. */
  datatype Snapshot = Snapshot(originX: real, originY: real, cells: seq<Byte>)

  /** How many whole cells the window moves when asked to go to `target`. */
  function MoveOf(resolution: real, s: Snapshot, target: WorldPoint): Cell
    requires resolution > 0.0
  {
    Cell(Trunc((target.x - s.originX) / resolution), Trunc((target.y - s.originY) / resolution))
  }

  /** Along one axis: the new origin lies a whole number of cells from the old one, between it and the
      target, and less than one cell short of the target. */
  predicate MovesToward(resolution: real, from: real, to: real, target: real, cells: int) {
    && to == from + cells as real * resolution
    && (from <= target ==> from <= to <= target && target - to < resolution)
    && (target <= from ==> target <= to <= from && to - target < resolution)
  }

  lemma TruncMovesToward(resolution: real, from: real, to: real, target: real, cells: int)
    requires resolution > 0.0 && cells == Trunc((target - from) / resolution) && to == from + cells as real * resolution
    ensures MovesToward(resolution, from, to, target, cells)
  {
    var d := target - from;
    QuotientSign(d, resolution);
    if d >= 0.0 {
      FloorOfQuotient(d, resolution, cells);
      WholeCells(cells, resolution);
    } else {
      NegatedQuotient(d, resolution);
      FloorOfQuotient(-d, resolution, -cells);
      WholeCells(-cells, resolution);
    }
  }

  lemma NegatedQuotient(d: real, resolution: real)
    requires resolution > 0.0
    ensures -(d / resolution) == (-d) / resolution
  {
  }

  lemma WholeCells(m: int, resolution: real)
    requires resolution > 0.0
    ensures (m + 1) as real * resolution == m as real * resolution + resolution
    ensures (-m) as real * resolution == -(m as real * resolution)
    ensures m >= 0 ==> m as real * resolution >= 0.0
  {
  }

  ghost predicate OriginUpdated(w: nat, h: nat, resolution: real, defaultValue: Byte,
                                before: Snapshot, after: Snapshot, target: WorldPoint)
    requires resolution > 0.0
  {
    var move := MoveOf(resolution, before, target);
    && after.originX == before.originX + move.x as real * resolution
    && after.originY == before.originY + move.y as real * resolution
    && Shifted(w, h, before.cells, after.cells, defaultValue, move.x, move.y)
  }

  class Costmap2D {
    const sizeX: nat
    const sizeY: nat
    const resolution: real
    const defaultValue: Byte
    const costmap: array<Byte>
    var originX: real
    var originY: real

    ghost predicate Valid()
      reads this
    {
      resolution > 0.0 && costmap.Length == sizeX * sizeY
    }

    ghost function View(): Snapshot
      reads this, costmap
    {
      Snapshot(originX, originY, costmap[..])
    }

    constructor (sizeX: nat, sizeY: nat, resolution: real, originX: real, originY: real, defaultValue: Byte)
      requires resolution > 0.0
      ensures Valid() && fresh(costmap) && AllAre(costmap[..], defaultValue)
      ensures this.sizeX == sizeX && this.sizeY == sizeY && this.resolution == resolution
      ensures this.originX == originX && this.originY == originY && this.defaultValue == defaultValue
    {
      OverlapSize(sizeX, sizeY);
      this.sizeX, this.sizeY, this.resolution, this.defaultValue := sizeX, sizeY, resolution, defaultValue;
      this.originX, this.originY := originX, originY;
      costmap := new Byte[sizeX * sizeY];
      new;
      ResetMaps();
    }

    method ResetMaps()
      modifies costmap
      ensures AllAre(costmap[..], defaultValue)
    {
      for k := 0 to costmap.Length
        invariant AllAre(costmap[..k], defaultValue)
      {
        costmap[k] := defaultValue;
      }
      assert costmap[..costmap.Length] == costmap[..];
    }

    /** Move the window so that its origin is the grid line at or toward the old origin from
        (newOriginX, newOriginY). */
    method UpdateOrigin(newOriginX: real, newOriginY: real)
      requires Valid()
      modifies this, costmap
      ensures Valid()
      ensures OriginUpdated(sizeX, sizeY, resolution, defaultValue, old(View()), View(),
                            WorldPoint(newOriginX, newOriginY))
      ensures exists i, j :: MovesToward(resolution, old(originX), originX, newOriginX, i)
                             && MovesToward(resolution, old(originY), originY, newOriginY, j)
    {
      hide Shifted, Copied, Fits, AllAre, Clamp, Trunc, MovesToward;
      ghost var before := costmap[..];
      var cellOx := Trunc((newOriginX - originX) / resolution);
      var cellOy := Trunc((newOriginY - originY) / resolution);
      var newGridOx := originX + cellOx as real * resolution;
      var newGridOy := originY + cellOy as real * resolution;
      var lowerLeftX, upperRightX := Clamp(cellOx, 0, sizeX), Clamp(cellOx + sizeX, 0, sizeX);
      var lowerLeftY, upperRightY := Clamp(cellOy, 0, sizeY), Clamp(cellOy + sizeY, 0, sizeY);
      OverlapFits(cellOx, cellOy, sizeX, sizeY);
      var cellSizeX: nat, cellSizeY: nat := upperRightX - lowerLeftX, upperRightY - lowerLeftY;
      OverlapSize(cellSizeX, cellSizeY);
      var localMap := new Byte[cellSizeX * cellSizeY];
      ghost var junk := localMap[..];
      CopyMapRegion(costmap, lowerLeftX, lowerLeftY, sizeX, localMap, Region(0, 0, cellSizeX, cellSizeY), cellSizeX,
                    sizeY, cellSizeY);
      ghost var saved := localMap[..];
      ResetMaps();
      ghost var blank := costmap[..];
      TruncMovesToward(resolution, originX, newGridOx, newOriginX, cellOx);
      TruncMovesToward(resolution, originY, newGridOy, newOriginY, cellOy);
      originX, originY := newGridOx, newGridOy;
      var startX, startY := lowerLeftX - cellOx, lowerLeftY - cellOy;
      CopyMapRegion(localMap, 0, 0, cellSizeX, costmap, Region(startX, startY, cellSizeX, cellSizeY), sizeX,
                    cellSizeY, sizeY);
      SaveResetRestoreShifts(sizeX, sizeY, before, junk, saved, blank, costmap[..], defaultValue, cellOx, cellOy);
    }

    /** `setConvexPolygonCost`: false and no change if a vertex is outside the map; otherwise the
        filled cells get the cost and no other cell changes. */
    method SetConvexPolygonCost(polygon: seq<WorldPoint>, costValue: Byte)
      returns (ok: bool, ghost mapPolygon: seq<Cell>, ghost outline: seq<Cell>, ghost starts: seq<nat>)
      requires Valid()
      modifies costmap
      ensures ok <==> forall p :: p in polygon ==> WorldToMap(sizeX, sizeY, resolution, originX, originY, p).Some?
      ensures !ok ==> costmap[..] == old(costmap[..])
      ensures ok ==> |mapPolygon| == |polygon| && forall i :: 0 <= i < |polygon| ==>
                WorldToMap(sizeX, sizeY, resolution, originX, originY, polygon[i]) == Some(mapPolygon[i])
      ensures ok && |polygon| < 3 ==> costmap[..] == old(costmap[..])
      ensures ok && |polygon| >= 3 ==>
                && IsOutline(outline, mapPolygon, starts)
                && forall c :: InGrid(sizeX, sizeY, c) ==>
                     Get<Byte>(sizeX, sizeY, costmap[..], c) ==
                     if Spanned(outline, c) then costValue else Get<Byte>(sizeX, sizeY, old(costmap[..]), c)
    {
      hide WorldToMap, IsOutline, Spanned, Index, Get, InGrid;
      mapPolygon, outline, starts := [], [], [];
      var cells: seq<Cell> := [];
      for i := 0 to |polygon|
        invariant |cells| == i
        invariant forall k :: 0 <= k < i ==>
                    WorldToMap(sizeX, sizeY, resolution, originX, originY, polygon[k]) == Some(cells[k])
        invariant forall p :: p in cells ==> InGrid(sizeX, sizeY, p)
        invariant costmap[..] == old(costmap[..])
      {
        var loc := WorldToMap(sizeX, sizeY, resolution, originX, originY, polygon[i]);
        if loc.None? {
          ok := false;
          return;
        }
        WorldToMapExact(sizeX, sizeY, resolution, originX, originY, polygon[i], loc.value);
        cells := cells + [loc.value];
      }
      ok, mapPolygon := true, cells;
      var polygonCells;
      polygonCells, outline, starts := ConvexFillCells(sizeX, sizeY, cells);
      if |polygon| >= 3 {
        FilledInGrid(sizeX, sizeY, cells, outline, starts);
      }
      for i := 0 to |polygonCells|
        invariant i == 0 ==> costmap[..] == old(costmap[..])
        invariant forall c :: InGrid(sizeX, sizeY, c) ==>
                    Get<Byte>(sizeX, sizeY, costmap[..], c) ==
                    if c in polygonCells[..i] then costValue else Get<Byte>(sizeX, sizeY, old(costmap[..]), c)
      {
        PutGet<Byte>(sizeX, sizeY, costmap[..], polygonCells[i], costValue);
        var index := Index(sizeX, polygonCells[i]);
        costmap[index] := costValue;
      }
    }
  }

  lemma OverlapFits(dx: int, dy: int, w: nat, h: nat)
    ensures var lx, ux := Clamp(dx, 0, w), Clamp(dx + w, 0, w);
            var ly, uy := Clamp(dy, 0, h), Clamp(dy + h, 0, h);
            && lx <= ux && ly <= uy
            && Fits(ux - lx, uy - ly, Region(0, 0, ux - lx, uy - ly))
            && Fits(w, h, Region(lx, ly, ux - lx, uy - ly))
            && (lx == ux || ly == uy || Fits(w, h, Region(lx - dx, ly - dy, ux - lx, uy - ly)))
  {
    OverlapAxis(dx, w);
    OverlapAxis(dy, h);
  }

  /** Everything the fill marks lies in the grid. */
  lemma FilledInGrid(w: nat, h: nat, polygon: seq<Cell>, outline: seq<Cell>, starts: seq<nat>)
    requires forall p :: p in polygon ==> InGrid(w, h, p)
    requires IsOutline(outline, polygon, starts) && |polygon| > 0
    ensures forall c :: Spanned(outline, c) ==> InGrid(w, h, c)
  {
    forall c | c in outline ensures InGrid(w, h, c) {
      var k :| 0 <= k < |outline| && outline[k] == c;
      var i := FindSegment(outline, polygon, starts, k, |polygon|);
      SegmentEnds(outline, polygon, starts, i);
      assert polygon[i] in polygon && polygon[if i + 1 < |polygon| then i + 1 else 0] in polygon;
    }
    hide IsOutline;
  }
}
