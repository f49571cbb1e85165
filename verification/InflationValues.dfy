/** The numbers an inflation update leaves in the map, in the terms of the source's `computeCost`. */
module InflationValues {
  import opened Common
  import opened GridMath
  import opened NearestSeeds
  import opened Wavefront
  import opened InflationLayer
  import opened InflationTheorems

  /** The layer's parameters: meters per cell, inscribed radius, cost scaling factor, and the two
      functions of the mathematical library the cost is computed with. */
  datatype Parameters = Parameters(
    resolution: real, inscribed: real, scaling: real, exp: real -> real, sqrt: real -> real)

  ghost predicate Sensible(q: Parameters) {
    && IsExp(q.exp) && IsSqrt(q.sqrt)
    && q.scaling >= 0.0 && q.resolution >= 0.0 && q.inscribed >= 0.0
  }

  /** The settings compute costs with these parameters. */
  ghost predicate Uses(st: Settings, q: Parameters) {
    && st.model.resolution == q.resolution && st.model.inscribedRadius == q.inscribed
    && forall d2: nat :: st.model.falloff(d2) == Falloff(q.exp, q.sqrt, q.scaling, q.resolution, q.inscribed, d2)
  }

  /** `n` is the cost at a distance of `cells` cells: 254 on the obstacle, 253 up to the inscribed
      radius, and beyond it what the exponential leaves of 252, rounded down. */
  ghost predicate IsCost(q: Parameters, cells: real, n: Byte) {
    if cells == 0.0 then n == 254
    else if cells * q.resolution <= q.inscribed then n == 253
    else n as real <= 252.0 * q.exp(-q.scaling * (cells * q.resolution - q.inscribed)) < n as real + 1.0
  }

  /** `cells` is the distance between two cells. */
  predicate IsDistance(c: Cell, s: Cell, cells: real) {
    cells >= 0.0 && cells * cells == ((c.x - s.x) * (c.x - s.x) + (c.y - s.y) * (c.y - s.y)) as real
  }

  lemma CostIsUnique(q: Parameters, cells: real, m: Byte, n: Byte)
    requires IsCost(q, cells, m) && IsCost(q, cells, n)
    ensures m == n
  {
  }

  /** Comparing squares is comparing distances. */
  lemma InscribedOnSquares(q: Parameters, cells: real, d2: nat)
    requires q.resolution >= 0.0 && q.inscribed >= 0.0 && cells >= 0.0 && cells * cells == d2 as real
    ensures cells * q.resolution <= q.inscribed <==>
            d2 as real * (q.resolution * q.resolution) <= q.inscribed * q.inscribed
    ensures cells == 0.0 <==> d2 == 0
  {
    SquareOfProduct(cells, q.resolution, d2 as real);
    if cells * q.resolution > q.inscribed {
      LargerSquare(q.inscribed, cells * q.resolution);
    } else {
      SquaresKeepOrder(cells * q.resolution, q.inscribed);
    }
    ZeroRoot(cells, d2);
  }

  lemma ZeroRoot(cells: real, d2: nat)
    requires cells >= 0.0 && cells * cells == d2 as real
    ensures cells == 0.0 <==> d2 == 0
  {
    if cells > 0.0 {
      LargerSquare(0.0, cells);
    } else {
      ZeroProduct(cells);
    }
  }

  lemma ZeroProduct(x: real)
    requires x == 0.0
    ensures x * x == 0.0
  {
  }

  lemma SquaresKeepOrder(a: real, b: real)
    requires 0.0 <= a <= b
    ensures a * a <= b * b
  {
    if a < b {
      LargerSquare(a, b);
    }
  }

  lemma SameRoot(a: real, b: real)
    requires a >= 0.0 && b >= 0.0 && a * a == b * b
    ensures a == b
  {
    RootOrder(a, b);
    RootOrder(b, a);
  }

  lemma CostAtIsCost(st: Settings, q: Parameters, cells: real, d2: nat)
    requires Sensible(q) && Uses(st, q) && cells >= 0.0 && cells * cells == d2 as real
    ensures IsCost(q, cells, CostAt(st.model, d2))
    ensures CostAt(st.model, d2) < NO_INFORMATION
  {
    InscribedOnSquares(q, cells, d2);
    var root := q.sqrt(d2 as real);
    SameRoot(root, cells);
    if cells != 0.0 && cells * q.resolution > q.inscribed {
      FactorAtMostOne(q.exp, q.sqrt, q.scaling, q.resolution, q.inscribed, d2);
      var factor := q.exp(-q.scaling * (cells * q.resolution - q.inscribed));
      assert Argument(q.sqrt, q.scaling, q.resolution, q.inscribed, d2) ==
             -q.scaling * (cells * q.resolution - q.inscribed);
      RoundedDown(252.0 * factor);
    }
  }

  lemma RoundedDown(x: real)
    requires 0.0 <= x <= 252.0
    ensures 0 <= x.Floor < 256 && x.Floor as real <= x < x.Floor as real + 1.0
  {
  }

  predicate Within(box: Box, c: Cell) {
    box.minI <= c.x && c.x < box.maxI && box.minJ <= c.y && c.y < box.maxJ
  }

  /** Every cell of the map after an update: one of the box that was charged to a seed `s` is inflated
      with the cost of its distance from `s`, and any other is as before. */
  lemma CellsAfterUpdate(st: Settings, q: Parameters, w: nat, h: nat, radius: nat, box: Box,
                         before: seq<Byte>, after: seq<Byte>, src: Sources, c: Cell, cells: real, n: Byte)
    requires Sensible(q) && Uses(st, q) && SweepResult(st, w, h, radius, box, before, after, src) && InGrid(w, h, c)
    requires c in src ==> IsDistance(c, src[c], cells) && IsCost(q, cells, n)
    ensures |before| == w * h && |after| == w * h
    ensures c in src && Within(box, c) ==>
              IsInflated(st.inflateUnknown, Get(w, h, before, c), n, Get(w, h, after, c))
    ensures c !in src || !Within(box, c) ==> Get(w, h, after, c) == Get(w, h, before, c)
  {
    hide SeedsIn, Window, ChargedAlongChains, AllHaveParents, SeedsDone, Index, Get, InGrid, Falloff, IsExp, IsSqrt;
    if c in src {
      DistanceIsRoot(c, src[c], cells);
      CostAtIsCost(st, q, cells, Dist2(c, src[c]));
      hide Uses, Sensible, Dist2;
      CostIsUnique(q, cells, n, CostAt(st.model, Dist2(c, src[c])));
    }
  }

  lemma DistanceIsRoot(c: Cell, s: Cell, cells: real)
    requires IsDistance(c, s, cells)
    ensures cells >= 0.0 && cells * cells == Dist2(c, s) as real
  {
  }

  /** Which cells an update starts from: the lethal ones, and if asked for the unknown ones, no farther
      from the box than the radius along either axis. */
  lemma SeedsExactly(st: Settings, w: nat, h: nat, radius: nat, box: Box, before: seq<Byte>, s: Cell)
    requires |before| == w * h
    ensures s in WindowSeeds(st, w, h, radius, box, before) <==>
              && 0 <= s.x < w && 0 <= s.y < h
              && box.minI - radius <= s.x < box.maxI + radius && box.minJ - radius <= s.y < box.maxJ + radius
              && (Get(w, h, before, s) == 254 || (st.inflateAroundUnknown && Get(w, h, before, s) == 255))
  {
    hide Get;
    SeedMembers(st, w, h, before, Window(box, w, h, radius));
    hide SeedsIn;
  }

  /** No known cell of the box closer to a lethal cell than the inscribed radius stays below 253, as long
      as a chain joins it to a nearest seed. */
  lemma NearObstacleIsMarked(st: Settings, q: Parameters, w: nat, h: nat, radius: nat, box: Box,
                             before: seq<Byte>, after: seq<Byte>, src: Sources, c: Cell, s: Cell,
                             lethal: Cell, cells: real)
    requires Sensible(q) && Uses(st, q) && SweepResult(st, w, h, radius, box, before, after, src)
    requires InGrid(w, h, c) && Within(box, c) && Get(w, h, before, c) != 255
    requires InGrid(w, h, lethal) && Get(w, h, before, lethal) == 254
    requires IsDistance(c, lethal, cells) && cells <= radius as real && cells * q.resolution <= q.inscribed
    requires var seeds := WindowSeeds(st, w, h, radius, box, before);
             Nearest(seeds, c, s) && Chained(w, h, seeds, c, s)
    ensures |after| == w * h && Get(w, h, after, c) >= 253
  {
    LethalIsSeed(st, w, h, radius, box, before, c, lethal, cells);
    hide Dist2, Get, Index, InGrid, Chained, SweepResult, WindowSeeds, CostAt, Uses, Sensible, IsDistance;
    NearestIsNearer(WindowSeeds(st, w, h, radius, box, before), c, s, lethal);
    ChainedIsExact(st, w, h, radius, box, before, after, src, c, s);
    CloserIsMarked(st, q, cells, Dist2(c, lethal), Dist2(c, s));
  }

  lemma LethalIsSeed(st: Settings, w: nat, h: nat, radius: nat, box: Box, before: seq<Byte>, c: Cell,
                     lethal: Cell, cells: real)
    requires |before| == w * h && InGrid(w, h, lethal) && Get(w, h, before, lethal) == 254
    requires Within(box, c) && IsDistance(c, lethal, cells) && cells <= radius as real
    ensures lethal in WindowSeeds(st, w, h, radius, box, before)
    ensures Dist2(c, lethal) <= radius * radius && cells >= 0.0 && cells * cells == Dist2(c, lethal) as real
  {
    DistanceIsRoot(c, lethal, cells);
    hide Dist2, Get, IsDistance, WindowSeeds;
    SquaresKeepOrder(cells, radius as real);
    assert Dist2(c, lethal) as real <= (radius * radius) as real;
    WithinAxes(c, lethal, radius);
    SeedsExactly(st, w, h, radius, box, before, lethal);
  }

  /** Costs up to the inscribed radius, whatever the exact distance. */
  lemma CloserIsMarked(st: Settings, q: Parameters, cells: real, far: nat, near: nat)
    requires Sensible(q) && Uses(st, q) && near <= far
    requires cells >= 0.0 && cells * cells == far as real && cells * q.resolution <= q.inscribed
    ensures CostAt(st.model, near) >= 253
  {
    InscribedOnSquares(q, cells, far);
    SquareOfReal(q.resolution);
    var square, limit := q.resolution * q.resolution, q.inscribed * q.inscribed;
    ScaleKeepsOrder(near as real, far as real, square);
    SameSquare(q.resolution, st.model.resolution);
    SameSquare(q.inscribed, st.model.inscribedRadius);
    hide CostAt, Falloff, IsExp, IsSqrt;
    MarkedWithin(st.model, near, square, limit);
  }

  lemma SameSquare(a: real, b: real)
    requires a == b
    ensures a * a == b * b
  {
  }

  lemma MarkedWithin(m: CostModel, d2: nat, square: real, limit: real)
    requires square == m.resolution * m.resolution && limit == m.inscribedRadius * m.inscribedRadius
    requires d2 as real * square <= limit
    ensures CostAt(m, d2) >= 253
  {
  }
}
