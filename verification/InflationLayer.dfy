/** The inflation layer: cached tables, the in-place cost update, and what it leaves in the map. */
module InflationLayer {
  import opened GridMath
  import opened DistanceRanks
  import opened NearestSeeds
  import opened Wavefront

  /** What `computeCost` depends on. `falloff` stands for the exponential branch, as a function of
      the squared distance in cells. */
  datatype CostModel = CostModel(resolution: real, inscribedRadius: real, falloff: nat -> Byte)

  /** `computeCost` at the distance whose square is `d2`; `distance * resolution <= inscribed`
      is stated on squares. */
  function CostAt(m: CostModel, d2: nat): Byte {
    if d2 == 0 then LETHAL_OBSTACLE
    else if d2 as real * (m.resolution * m.resolution) <= m.inscribedRadius * m.inscribedRadius
    then INSCRIBED_INFLATED_OBSTACLE
    else m.falloff(d2)
  }

  datatype Settings = Settings(inflateUnknown: bool, inflateAroundUnknown: bool, model: CostModel)

  /** Half-open bounds of an update, in cells. */
  datatype Box = Box(minI: int, minJ: int, maxI: int, maxJ: int)

  predicate InBox(b: Box, c: Cell) {
    b.minI <= c.x < b.maxI && b.minJ <= c.y < b.maxJ
  }

  /** The box grown by the inflation radius and clipped to the map: where seeds are looked for. */
  function Window(b: Box, w: nat, h: nat, radius: nat): Box {
    Box(Max(0, b.minI - radius), Max(0, b.minJ - radius), Min(w, b.maxI + radius), Min(h, b.maxJ + radius))
  }

  function Max(a: int, b: int): int { if a < b then b else a }
  function Min(a: int, b: int): int { if b < a then b else a }

  predicate IsSeed(st: Settings, cost: Byte) {
    cost == LETHAL_OBSTACLE || (st.inflateAroundUnknown && cost == NO_INFORMATION)
  }

  /** How an inflation cost meets the cost already in the map. */
  function Blend(st: Settings, prior: Byte, cost: Byte): Byte {
    if prior == NO_INFORMATION &&
       (if st.inflateUnknown then cost > FREE_SPACE else cost >= INSCRIBED_INFLATED_OBSTACLE)
    then cost
    else if prior < cost then cost else prior
  }

  /** The value of a cell with inflation cost `n`: a known cell keeps the larger cost; an unknown one
      takes the cost if that is worth knowing, and stays unknown otherwise. */
  predicate IsInflated(inflateUnknown: bool, prior: Byte, n: Byte, final: Byte) {
    && (prior != 255 ==> final >= prior && final >= n && (final == prior || final == n))
    && (prior == 255 ==> final == if (if inflateUnknown then n > 0 else n >= 253) then n else 255)
  }

  lemma BlendInflates(st: Settings, prior: Byte, n: Byte)
    ensures IsInflated(st.inflateUnknown, prior, n, Blend(st, prior, n))
  {
  }

  ghost function SeedsIn(st: Settings, w: nat, h: nat, before: seq<Byte>, win: Box): set<Cell>
    requires |before| == w * h
  {
    set x: int, y: int | 0 <= x < w && 0 <= y < h && SeedAt(st, w, h, before, win, Cell(x, y)) :: Cell(x, y)
  }

  ghost predicate SeedAt(st: Settings, w: nat, h: nat, before: seq<Byte>, win: Box, c: Cell)
    requires |before| == w * h
  {
    InBox(win, c) && InGrid(w, h, c) && IsSeed(st, Get(w, h, before, c))
  }

  /** The value the sweep leaves in cell `c`, given the seed it recorded for every visited cell. */
  ghost function Inflated(st: Settings, box: Box, src: Sources, c: Cell, prior: Byte): Byte {
    if c in src && InBox(box, c) then Blend(st, prior, CostAt(st.model, Dist2(c, src[c]))) else prior
  }

  ghost predicate Written(st: Settings, w: nat, h: nat, box: Box, before: seq<Byte>, after: seq<Byte>, src: Sources)
  {
    && |before| == w * h && |after| == w * h
    && forall c :: InGrid(w, h, c) ==> Get(w, h, after, c) == Inflated(st, box, src, c, Get(w, h, before, c))
  }

  ghost predicate SeenMatches(w: nat, h: nat, seen: seq<bool>, src: Sources) {
    && |seen| == w * h
    && forall c :: InGrid(w, h, c) ==> Get(w, h, seen, c) == (c in src)
  }

  lemma MarkSeen(w: nat, h: nat, seen: seq<bool>, src: Sources, p: Cell, s: Cell)
    requires SeenMatches(w, h, seen, src) && InGrid(w, h, p)
    ensures 0 <= Index(w, p) < |seen|
    ensures SeenMatches(w, h, seen[Index(w, p) := true], src[p := s])
  {
    PutGet(w, h, seen, p, true);
    hide Index, InGrid, Get;
  }

  lemma WriteOne(st: Settings, w: nat, h: nat, box: Box, before: seq<Byte>, after: seq<Byte>, src: Sources,
                 p: Cell, s: Cell)
    requires Written(st, w, h, box, before, after, src) && InGrid(w, h, p) && p !in src
    ensures 0 <= Index(w, p) < |after| && after[Index(w, p)] == Get(w, h, before, p)
    ensures var src' := src[p := s];
            Written(st, w, h, box, before, after[Index(w, p) := Inflated(st, box, src', p, after[Index(w, p)])], src')
  {
    hide Index, InGrid, Get, InBox, Blend, CostAt, Dist2;
    PutGet(w, h, after, p, Inflated(st, box, src[p := s], p, Get(w, h, after, p)));
  }

  // ---------------------------------------------------------------- the cached tables

  /** `values` holds `f` of every cell scanned before (x, y) in an `n` by `n` table. */
  ghost predicate Filled(values: seq<int>, n: nat, x: int, y: int, f: Cell -> int) {
    && |values| == n * n
    && forall c :: InGrid(n, n, c) && ScannedBefore(c, x, y) ==> Get(n, n, values, c) == f(c)
  }

  lemma FillOne(values: seq<int>, n: nat, x: int, y: int, f: Cell -> int)
    requires Filled(values, n, x, y, f) && InGrid(n, n, Cell(x, y))
    ensures 0 <= Index(n, Cell(x, y)) < |values|
    ensures Filled(values[Index(n, Cell(x, y)) := f(Cell(x, y))], n, x + 1, y, f)
  {
    PutGet(n, n, values, Cell(x, y), f(Cell(x, y)));
    hide Index, Get;
  }

  /** Entry (i, j) of the distance table is the square of hypot(i, j). */
  ghost predicate DistancesOk(distances: seq<int>, n: nat) {
    && |distances| == n * n
    && forall c :: InGrid(n, n, c) ==> Get(n, n, distances, c) == Norm(c)
  }

  ghost predicate CostsOk(m: CostModel, costs: seq<int>, n: nat) {
    && |costs| == n * n
    && forall c :: InGrid(n, n, c) ==> Get(n, n, costs, c) == CostAt(m, Norm(c))
  }

  class InflationLayer {
    var enabled: bool
    var settings: Settings
    var cellInflationRadius: nat
    var cachedCellInflationRadius: nat
    var cacheLength: nat
    var cachedDistances: seq<int>
    var cachedCosts: seq<int>
    var distanceMatrix: seq<seq<nat>>
    var inflationCells: Bins
    var seen: seq<bool>

    /** The distance table is only ever recomputed when the radius changes. */
    ghost predicate CacheKept()
      reads this
    {
      cachedCellInflationRadius > 0 ==>
        DistancesOk(cachedDistances, cachedCellInflationRadius + 2)
    }

    /** All tables agree with the current radius and cost model. */
    ghost predicate TablesOk()
      reads this
    {
      && cacheLength == cellInflationRadius + 2
      && DistancesOk(cachedDistances, cacheLength)
      && CostsOk(settings.model, cachedCosts, cacheLength)
      && |inflationCells| > 0
      && IsSquare(distanceMatrix, cellInflationRadius + 2)
      && RanksByDistance(distanceMatrix, cellInflationRadius + 2, |inflationCells| - 1)
    }

    ghost predicate Ready()
      reads this
    {
      CacheKept() && (cellInflationRadius > 0 ==> TablesOk() && AllEmpty(inflationCells))
    }

    constructor (settings: Settings)
      ensures Ready() && !enabled && this.settings == settings && cellInflationRadius == 0
    {
      this.settings := settings;
      enabled := false;
      cellInflationRadius, cachedCellInflationRadius, cacheLength := 0, 0, 0;
      cachedDistances, cachedCosts, distanceMatrix, inflationCells, seen := [], [], [], [], [];
    }

    /** `matchSize`: adopt the radius in cells and the map size, and rebuild the tables. */
    method MatchSize(radius: nat, sizeX: nat, sizeY: nat)
      requires CacheKept()
      modifies this
      ensures Ready() && cellInflationRadius == radius
      ensures settings == old(settings) && enabled == old(enabled)
      ensures seen == Unseen(sizeX, sizeY)
    {
      hide DistancesOk, CostsOk, RanksByDistance, Unseen;
      cellInflationRadius := radius;
      ComputeCaches();
      seen := Unseen(sizeX, sizeY);
    }

    method ComputeCaches()
      requires CacheKept()
      modifies this
      ensures Ready()
      ensures cellInflationRadius == old(cellInflationRadius) && settings == old(settings)
      ensures enabled == old(enabled) && seen == old(seen)
    {
      hide RanksByDistance, Norm, CostAt, Get, InGrid;
      if cellInflationRadius == 0 {
        return;
      }
      cacheLength := cellInflationRadius + 2;
      if cellInflationRadius != cachedCellInflationRadius {
        cachedDistances := FillTable(cacheLength, (c: Cell) => Norm(c));
        cachedCellInflationRadius := cellInflationRadius;
      }
      var m := settings.model;
      cachedCosts := FillTable(cacheLength, (c: Cell) => CostAt(m, Norm(c)));
      var table, level := GenerateIntegerDistances(cellInflationRadius);
      distanceMatrix := table;
      inflationCells := seq(level + 1, _ => []);
    }

    /** `enqueue`: push onto the bucket of the cell's rank unless it was seen or lies too far. */
    method Enqueue(index: int, pos: Cell, s: Cell, ghost g: Wave, ghost src: Sources)
      requires TablesOk() && g == Wave(g.w, g.h, cellInflationRadius, distanceMatrix, |inflationCells| - 1)
      requires InGrid(g.w, g.h, pos) && index == Index(g.w, pos)
      requires Abs(pos.x - s.x) <= cellInflationRadius + 1 && Abs(pos.y - s.y) <= cellInflationRadius + 1
      requires SeenMatches(g.w, g.h, seen, src)
      modifies this`inflationCells
      ensures ValidWave(g) && inflationCells == Enqueued(g, old(inflationCells), src, pos, s)
    {
      hide RanksByDistance, DistancesOk, CostsOk, Level, Norm, InCircle, InTable, Rank, Dist2, Index, InGrid;
      SeenAtIndex(g, seen, src, pos);
      if !seen[index] {
        var distance := DistanceLookup(pos, s);
        if distance > cellInflationRadius * cellInflationRadius {
          return;
        }
        var r := cellInflationRadius + 2;
        LevelInRange(g, pos, s);
        LevelIsRank(g, pos, s);
        var bucket := Rank(distanceMatrix, r, Cell(pos.x - s.x, pos.y - s.y));
        inflationCells := inflationCells[bucket := inflationCells[bucket] + [CellData(index, pos, s)]];
      }
    }

    /** The seeds of the window, each its own source, in scan order. */
    method ScanSeeds(master: array<Byte>, sizeX: nat, sizeY: nat, win: Box) returns (obsBin: seq<CellData>)
      requires master.Length == sizeX * sizeY
      requires 0 <= win.minI && 0 <= win.minJ && win.maxI <= sizeX && win.maxJ <= sizeY
      ensures SeedBin(settings, sizeX, sizeY, master[..], win, obsBin, win.minI, Max(win.minJ, win.maxJ))
    {
      hide Index, Get, IsSeed;
      obsBin := [];
      var j := win.minJ;
      while j < win.maxJ
        invariant win.minJ <= j <= Max(win.minJ, win.maxJ)
        invariant SeedBin(settings, sizeX, sizeY, master[..], win, obsBin, win.minI, j)
      {
        var i := win.minI;
        while i < win.maxI
          invariant win.minI <= i <= Max(win.minI, win.maxI)
          invariant SeedBin(settings, sizeX, sizeY, master[..], win, obsBin, i, j)
        {
          var index := j * sizeX + i;
          ScanOne(settings, sizeX, sizeY, master[..], win, obsBin, i, j);
          if IsSeed(settings, master[index]) {
            obsBin := obsBin + [CellData(index, Cell(i, j), Cell(i, j))];
          }
          i := i + 1;
        }
        ScanRowEnd(settings, sizeX, sizeY, master[..], win, obsBin, i, j);
        j := j + 1;
      }
    }

    /** Inside the box only, blend the cost at the seed's distance into the map. */
    method WriteCost(master: array<Byte>, box: Box, e: CellData, ghost src: Sources)
      requires TablesOk() && 0 <= e.index < master.Length
      requires Dist2(e.pos, e.src) <= cellInflationRadius * cellInflationRadius
      requires e.pos in src && src[e.pos] == e.src
      modifies master
      ensures master[..] == old(master[..])[e.index := Inflated(settings, box, src, e.pos, old(master[e.index]))]
      ensures if InBox(box, e.pos)
              then IsInflated(settings.inflateUnknown, old(master[e.index]),
                              CostAt(settings.model, Dist2(e.pos, e.src)), master[e.index])
              else master[e.index] == old(master[e.index])
    {
      hide RanksByDistance, DistancesOk, CostsOk, Dist2, CostAt, IsSquare, IsInflated;
      BlendInflates(settings, master[e.index], CostAt(settings.model, Dist2(e.pos, e.src)));
      WithinAxes(e.pos, e.src, cellInflationRadius);
      var mx, my := e.pos.x, e.pos.y;
      var cost := CostLookup(e.pos, e.src);
      var prior := master[e.index];
      if mx >= box.minI && my >= box.minJ && mx < box.maxI && my < box.maxJ {
        if prior == NO_INFORMATION &&
           (if settings.inflateUnknown then cost > FREE_SPACE else cost >= INSCRIBED_INFLATED_OBSTACLE) {
          master[e.index] := cost;
        } else {
          master[e.index] := Max(prior, cost);
        }
      }
    }

    /** The four guarded enqueues after a visit. */
    method EnqueueNeighbours(sizeX: nat, sizeY: nat, e: CellData, ghost g: Wave, ghost src: Sources)
      requires TablesOk() && g == Wave(sizeX, sizeY, cellInflationRadius, distanceMatrix, |inflationCells| - 1)
      requires InGrid(g.w, g.h, e.pos) && e.index == Index(g.w, e.pos) && Reaches(g, e.src, e.pos)
      requires SeenMatches(g.w, g.h, seen, src)
      modifies this`inflationCells
      ensures ValidWave(g) && inflationCells == Spread(g, old(inflationCells), src, e.pos, e.src)
    {
      hide RanksByDistance, DistancesOk, CostsOk, SeenMatches, Dist2, Level, IsSquare, Index;
      WithinAxes(e.pos, e.src, cellInflationRadius);
      hide Reaches;
      var index, mx, my := e.index, e.pos.x, e.pos.y;
      NeighbourIndices(sizeX, e.pos);
      if mx > 0 {
        Enqueue(index - 1, Cell(mx - 1, my), e.src, g, src);
      }
      if my > 0 {
        Enqueue(index - sizeX, Cell(mx, my - 1), e.src, g, src);
      }
      if mx < sizeX - 1 {
        Enqueue(index + 1, Cell(mx + 1, my), e.src, g, src);
      }
      if my < sizeY - 1 {
        Enqueue(index + sizeX, Cell(mx, my + 1), e.src, g, src);
      }
    }

    /** One first visit of a pending cell: mark it, write its cost, reach out to its neighbours. */
    method VisitCell(master: array<Byte>, sizeX: nat, sizeY: nat, box: Box, e: CellData, ghost g: Wave,
                     ghost src: Sources)
      requires TablesOk() && g == Wave(sizeX, sizeY, cellInflationRadius, distanceMatrix, |inflationCells| - 1)
      requires InGrid(g.w, g.h, e.pos) && e.index == Index(g.w, e.pos) && Reaches(g, e.src, e.pos)
      requires master.Length == sizeX * sizeY
      requires SeenMatches(g.w, g.h, seen, src)
      modifies this`seen, this`inflationCells, master
      ensures ValidWave(g) && 0 <= e.index < master.Length
      ensures var src' := src[e.pos := e.src];
              && SeenMatches(g.w, g.h, seen, src')
              && inflationCells == Spread(g, old(inflationCells), src', e.pos, e.src)
              && master[..] == old(master[..])[e.index := Inflated(settings, box, src', e.pos, old(master[e.index]))]
    {
      hide RanksByDistance, DistancesOk, CostsOk, SeenMatches, Dist2, Index, InGrid, Spread, Inflated, IsSquare;
      IndexInRange(sizeX, sizeY, e.pos);
      MarkSeen(sizeX, sizeY, seen, src, e.pos, e.src);
      seen := seen[e.index := true];
      WriteCost(master, box, e, src[e.pos := e.src]);
      EnqueueNeighbours(sizeX, sizeY, e, g, src[e.pos := e.src]);
    }

    /** Walk one bucket by index, visiting each cell not seen before. */
    method WalkBucket(master: array<Byte>, sizeX: nat, sizeY: nat, box: Box, k: nat, ghost g: Wave,
                      ghost before: seq<Byte>, ghost src0: Sources, ghost visits0: seq<CellData>)
      returns (ghost src: Sources, ghost visits: seq<CellData>)
      requires TablesOk() && g == Wave(sizeX, sizeY, cellInflationRadius, distanceMatrix, |inflationCells| - 1)
      requires k < |inflationCells| && master.Length == sizeX * sizeY
      requires SweepInv(settings, g, box, before, master[..], seen, inflationCells, src0, visits0, k)
      requires SeedProgress(settings, g, box, before, src0, k)
      modifies this`seen, this`inflationCells, master
      ensures |inflationCells| == g.maxRank + 1
      ensures SweepInv(settings, g, box, before, master[..], seen, inflationCells, src, visits, k + 1)
      ensures SeedProgress(settings, g, box, before, src, k + 1)
    {
      hide RanksByDistance, IsSquare, DistancesOk, CostsOk, SweepInv, SeedProgress, Index, Dist2, Spread, Inflated,
          SeenMatches;
      src, visits := src0, visits0;
      ghost var bin := inflationCells[k];
      var i := 0;
      while i < |inflationCells[k]|
        invariant |inflationCells| == g.maxRank + 1
        invariant 0 <= i <= |bin| && inflationCells[k] == bin
        invariant SweepInv(settings, g, box, before, master[..], seen, inflationCells, src, visits, k)
        invariant Visited(bin, i, src) && SeedProgress(settings, g, box, before, src, k)
      {
        var e := inflationCells[k][i];
        SweepEntry(settings, g, box, before, master[..], seen, inflationCells, src, visits, k, i);
        if !seen[e.index] {
          SweepVisit(settings, g, box, before, master[..], seen, inflationCells, src, visits, k, i);
          VisitCell(master, sizeX, sizeY, box, e, g, src);
          src, visits := src[e.pos := e.src], visits + [e];
        }
        i := i + 1;
      }
      SweepBucketDone(settings, g, box, before, master[..], seen, inflationCells, src, visits, k);
    }

    /** Collect the seeds of the grown box, then walk the buckets in order of distance. */
    method Sweep(master: array<Byte>, sizeX: nat, sizeY: nat, box: Box)
      returns (ghost src: Sources, ghost visits: seq<CellData>)
      requires TablesOk() && AllEmpty(inflationCells) && master.Length == sizeX * sizeY
      modifies this`seen, this`inflationCells, master
      ensures |inflationCells| == old(|inflationCells|)
      ensures SweepResult(settings, sizeX, sizeY, cellInflationRadius, box, old(master[..]), master[..], src)
      ensures ListsVisits(visits, src)
    {
      hide RanksByDistance, IsSquare, DistancesOk, CostsOk, SweepResult, SeedBin, ListsVisits, SweepInv, SeedProgress,
        Window, Index, Unseen, InBox;
      seen := Unseen(sizeX, sizeY);
      var win := Window(box, sizeX, sizeY, cellInflationRadius);
      ghost var g := Wave(sizeX, sizeY, cellInflationRadius, distanceMatrix, |inflationCells| - 1);
      ghost var before := master[..];
      WindowInMap(box, sizeX, sizeY, cellInflationRadius);
      var obsBin := ScanSeeds(master, sizeX, sizeY, win);
      inflationCells := inflationCells[0 := obsBin];
      SweepStarts(settings, g, box, before, win, inflationCells);
      src, visits := map[], [];
      for k := 0 to |inflationCells|
        invariant |inflationCells| == g.maxRank + 1
        invariant SweepInv(settings, g, box, before, master[..], seen, inflationCells, src, visits, k)
        invariant SeedProgress(settings, g, box, before, src, k)
      {
        src, visits := WalkBucket(master, sizeX, sizeY, box, k, g, before, src, visits);
      }
      SweepEnds(settings, g, box, before, master[..], seen, inflationCells, src, visits);
    }

    /** The in-place update of one box. `src` is the seed each visited cell was reached from and
        `visits` the order of the visits. */
    method UpdateCosts(master: array<Byte>, sizeX: nat, sizeY: nat, box: Box)
      returns (ghost src: Sources, ghost visits: seq<CellData>)
      requires Ready() && master.Length == sizeX * sizeY
      modifies this`seen, this`inflationCells, master
      ensures Ready()
      ensures !enabled || cellInflationRadius == 0 ==> master[..] == old(master[..]) && src == map[]
      ensures enabled && cellInflationRadius > 0 ==>
                SweepResult(settings, sizeX, sizeY, cellInflationRadius, box, old(master[..]), master[..], src)
      ensures enabled && cellInflationRadius > 0 ==>
                ChargesWritten(settings, sizeX, sizeY, box, old(master[..]), master[..], src)
      ensures ListsVisits(visits, src)
    {
      hide RanksByDistance, IsSquare, DistancesOk, CostsOk, SweepResult, ListsVisits, Unseen, ChargesWritten;
      ghost var before := master[..];
      src, visits := map[], [];
      NoVisits();
      if !enabled || cellInflationRadius == 0 {
        return;
      }
      if |seen| != sizeX * sizeY {
        seen := Unseen(sizeX, sizeY);
      }
      src, visits := Sweep(master, sizeX, sizeY, box);
      ResultIsWritten(settings, sizeX, sizeY, cellInflationRadius, box, before, master[..], src);
      ClearBuckets();
    }

    method ClearBuckets()
      modifies this`inflationCells
      ensures |inflationCells| == |old(inflationCells)| && AllEmpty(inflationCells)
    {
      for k := 0 to |inflationCells|
        invariant |inflationCells| == |old(inflationCells)|
        invariant forall j :: 0 <= j < k ==> inflationCells[j] == []
      {
        inflationCells := inflationCells[k := []];
      }
    }

    /** Reads the table at |dx|, |dy|: the squared distance to the seed. */
    method DistanceLookup(p: Cell, s: Cell) returns (d: int)
      requires TablesOk()
      requires Abs(p.x - s.x) < cacheLength && Abs(p.y - s.y) < cacheLength
      ensures d == Dist2(p, s)
    {
      hide RanksByDistance, CostsOk, Norm;
      LookupIndex(p, s, cacheLength);
      hide Get, Index, Dist2;
      d := cachedDistances[Abs(p.x - s.x) * cacheLength + Abs(p.y - s.y)];
    }

    method CostLookup(p: Cell, s: Cell) returns (cost: int)
      requires TablesOk()
      requires Abs(p.x - s.x) < cacheLength && Abs(p.y - s.y) < cacheLength
      ensures cost == CostAt(settings.model, Dist2(p, s))
    {
      hide RanksByDistance, DistancesOk, Norm, CostAt;
      LookupIndex(p, s, cacheLength);
      hide Get, Index, Dist2;
      cost := cachedCosts[Abs(p.x - s.x) * cacheLength + Abs(p.y - s.y)];
    }
  }

  /** The flat index both lookups compute, and what is stored there. */
  lemma LookupIndex(p: Cell, s: Cell, n: nat)
    requires Abs(p.x - s.x) < n && Abs(p.y - s.y) < n
    ensures var c := Cell(Abs(p.y - s.y), Abs(p.x - s.x));
            && InGrid(n, n, c) && Norm(c) == Dist2(p, s)
            && 0 <= Abs(p.x - s.x) * n + Abs(p.y - s.y) < n * n
            && forall values: seq<int> :: |values| == n * n ==>
                 Get(n, n, values, c) == values[Abs(p.x - s.x) * n + Abs(p.y - s.y)]
  {
    var c := Cell(Abs(p.y - s.y), Abs(p.x - s.x));
    AbsCell(p, s);
    IndexInRange(n, n, c);
  }

  method FillTable(n: nat, f: Cell -> int) returns (values: seq<int>)
    ensures |values| == n * n
    ensures forall c :: InGrid(n, n, c) ==> Get(n, n, values, c) == f(c)
  {
    MulNonNegative(n, n);
    values := seq(n * n, _ => 0);
    for i := 0 to n
      invariant Filled(values, n, 0, i, f)
    {
      for j := 0 to n
        invariant Filled(values, n, j, i, f)
      {
        FillOne(values, n, j, i, f);
        values := values[i * n + j := f(Cell(j, i))];
      }
    }
  }

  lemma NeighbourIndices(w: nat, p: Cell)
    ensures Index(w, Left(p)) == Index(w, p) - 1 && Index(w, Right(p)) == Index(w, p) + 1
    ensures Index(w, Above(p)) == Index(w, p) - w && Index(w, Below(p)) == Index(w, p) + w
  {
    assert (p.y - 1) * w == p.y * w - w;
    assert (p.y + 1) * w == p.y * w + w;
  }

  lemma SeenAtIndex(g: Wave, seen: seq<bool>, src: Sources, p: Cell)
    requires SeenMatches(g.w, g.h, seen, src) && InGrid(g.w, g.h, p)
    ensures 0 <= Index(g.w, p) < |seen| && seen[Index(g.w, p)] == (p in src)
  {
    IndexInRange(g.w, g.h, p);
    assert Get(g.w, g.h, seen, p) == (p in src);
  }

  function Unseen(w: nat, h: nat): seq<bool> {
    MulNonNegative(w, h);
    seq(w * h, _ => false)
  }

  lemma NothingSeen(w: nat, h: nat)
    ensures SeenMatches(w, h, Unseen(w, h), map[])
  {
    forall c | InGrid(w, h, c) ensures !Get(w, h, Unseen(w, h), c) {
      IndexInRange(w, h, c);
      hide Index;
    }
  }

  lemma MulNonNegative(a: nat, b: nat)
    ensures 0 <= a * b
  {
  }

  lemma AbsCell(p: Cell, s: Cell)
    ensures Norm(Cell(Abs(p.y - s.y), Abs(p.x - s.x))) == Dist2(p, s)
  {
  }

  lemma LevelIsRank(g: Wave, p: Cell, s: Cell)
    requires Shaped(g) && Reaches(g, s, p)
    ensures IsSquare(g.table, g.radius + 2) && InTable(Cell(p.x - s.x, p.y - s.y), g.radius + 2)
    ensures Level(g, p, s) == Rank(g.table, g.radius + 2, Cell(p.x - s.x, p.y - s.y))
  {
    hide RanksByDistance, Norm, InCircle, InTable, Rank, Reaches, Dist2;
    ReachInTable(g, p, s);
  }

  ghost predicate AllEmpty(bins: Bins) {
    forall k :: 0 <= k < |bins| ==> bins[k] == []
  }

  // ---------------------------------------------------------------- the seed scan

  /** `bin` holds exactly the seeds of the window scanned before (x, y). */
  ghost predicate SeedBin(st: Settings, w: nat, h: nat, cells: seq<Byte>, win: Box, bin: seq<CellData>, x: int, y: int)
  {
    && |cells| == w * h
    && (forall i :: 0 <= i < |bin| ==>
          bin[i] == CellData(Index(w, bin[i].pos), bin[i].pos, bin[i].pos) && SeedAt(st, w, h, cells, win, bin[i].pos))
    && (forall c :: SeedAt(st, w, h, cells, win, c) && ScannedBefore(c, x, y) ==> Queued(bin, c))
  }

  lemma ScanOne(st: Settings, w: nat, h: nat, cells: seq<Byte>, win: Box, bin: seq<CellData>, x: int, y: int)
    requires SeedBin(st, w, h, cells, win, bin, x, y)
    requires InBox(win, Cell(x, y)) && InGrid(w, h, Cell(x, y))
    ensures y * w + x == Index(w, Cell(x, y)) && 0 <= y * w + x < |cells|
    ensures IsSeed(st, cells[y * w + x]) ==>
              SeedBin(st, w, h, cells, win, bin + [CellData(y * w + x, Cell(x, y), Cell(x, y))], x + 1, y)
    ensures !IsSeed(st, cells[y * w + x]) ==> SeedBin(st, w, h, cells, win, bin, x + 1, y)
  {
    var here := Cell(x, y);
    IndexInRange(w, h, here);
    assert Get(w, h, cells, here) == cells[y * w + x];
    hide Index, Get, IsSeed;
    var after := if IsSeed(st, cells[y * w + x]) then bin + [CellData(y * w + x, here, here)] else bin;
    forall c | SeedAt(st, w, h, cells, win, c) && ScannedBefore(c, x + 1, y) ensures Queued(after, c) {
      if c == here {
        assert after[|bin|].pos == here;
      } else {
        var i :| 0 <= i < |bin| && bin[i].pos == c;
        assert after[i].pos == c;
      }
    }
  }

  lemma ScanRowEnd(st: Settings, w: nat, h: nat, cells: seq<Byte>, win: Box, bin: seq<CellData>, x: int, y: int)
    requires SeedBin(st, w, h, cells, win, bin, x, y) && x >= win.maxI
    ensures SeedBin(st, w, h, cells, win, bin, win.minI, y + 1)
  {
    hide Index, Get, IsSeed;
  }

  lemma SeedMembers(st: Settings, w: nat, h: nat, before: seq<Byte>, win: Box)
    requires |before| == w * h
    ensures forall c :: c in SeedsIn(st, w, h, before, win) <==> SeedAt(st, w, h, before, win, c)
  {
    hide Get, IsSeed;
    forall c ensures c in SeedsIn(st, w, h, before, win) <==> SeedAt(st, w, h, before, win, c) {
      assert c == Cell(c.x, c.y);
    }
  }

  /** The scan sets up the sweep. */
  lemma ScanStartsWave(st: Settings, g: Wave, cells: seq<Byte>, win: Box, bins: Bins)
    requires ValidWave(g) && |bins| == g.maxRank + 1 && |cells| == g.w * g.h
    requires forall k :: 0 < k < |bins| ==> bins[k] == []
    requires SeedBin(st, g.w, g.h, cells, win, bins[0], win.minI, Max(win.minJ, win.maxJ))
    ensures WaveInv(g, SeedsIn(st, g.w, g.h, cells, win), bins, map[])
  {
    hide RanksByDistance, IsSquare, Index, Get, IsSeed;
    SeedMembers(st, g.w, g.h, cells, win);
    var seeds := SeedsIn(st, g.w, g.h, cells, win);
    forall s | s in seeds ensures InGrid(g.w, g.h, s) && Queued(bins[0], s) {
      assert SeedAt(st, g.w, g.h, cells, win, s) && ScannedBefore(s, win.minI, Max(win.minJ, win.maxJ));
    }
    InitialInv(g, seeds, bins);
  }

  // ---------------------------------------------------------------- the sweep as a whole

  lemma WindowInMap(box: Box, w: nat, h: nat, radius: nat)
    ensures var win := Window(box, w, h, radius);
            0 <= win.minI && 0 <= win.minJ && win.maxI <= w && win.maxJ <= h
  {
  }

  /** Until bucket 0 is done only seeds are visited; from then on every seed is its own source. */
  ghost predicate SeedProgress(st: Settings, g: Wave, box: Box, before: seq<Byte>, src: Sources, k: nat)
  {
    if k == 0 then SelfSourced(src)
    else |before| == g.w * g.h && SeedsDone(SeedsIn(st, g.w, g.h, before, Window(box, g.w, g.h, g.radius)), src)
  }

  /** Everything known while bucket `k` is being walked. */
  ghost predicate SweepInv(st: Settings, g: Wave, box: Box, before: seq<Byte>, now: seq<Byte>, seen: seq<bool>,
                           bins: Bins, src: Sources, visits: seq<CellData>, k: nat)
  {
    && ValidWave(g) && |bins| == g.maxRank + 1 && |before| == g.w * g.h
    && SeenMatches(g.w, g.h, seen, src)
    && Written(st, g.w, g.h, box, before, now, src)
    && ListsVisits(visits, src)
    && var seeds := SeedsIn(st, g.w, g.h, before, Window(box, g.w, g.h, g.radius));
       WaveInv(g, seeds, bins, src) && Progress(g, seeds, src, k)
  }

  lemma SweepStarts(st: Settings, g: Wave, box: Box, before: seq<Byte>, win: Box, bins: Bins)
    requires ValidWave(g) && |bins| == g.maxRank + 1 && |before| == g.w * g.h
    requires forall k :: 0 < k < |bins| ==> bins[k] == []
    requires win == Window(box, g.w, g.h, g.radius)
    requires SeedBin(st, g.w, g.h, before, win, bins[0], win.minI, Max(win.minJ, win.maxJ))
    ensures SweepInv(st, g, box, before, before, Unseen(g.w, g.h), bins, map[], [], 0)
    ensures SeedProgress(st, g, box, before, map[], 0)
  {
    hide RanksByDistance, IsSquare, Get, Window, SeedsIn, WaveInv, SeenMatches, Progress;
    NothingSeen(g.w, g.h);
    ScanStartsWave(st, g, before, win, bins);
    ProgressBegins(g, SeedsIn(st, g.w, g.h, before, win));
  }

  /** What is known of the entry about to be looked at. */
  lemma SweepEntry(st: Settings, g: Wave, box: Box, before: seq<Byte>, now: seq<Byte>, seen: seq<bool>,
                   bins: Bins, src: Sources, visits: seq<CellData>, k: nat, i: nat)
    requires SweepInv(st, g, box, before, now, seen, bins, src, visits, k)
    requires k < |bins| && i < |bins[k]|
    ensures var e := bins[k][i];
            && InGrid(g.w, g.h, e.pos) && e.index == Index(g.w, e.pos) && Reaches(g, e.src, e.pos)
            && 0 <= e.index < |seen| && seen[e.index] == (e.pos in src)
    ensures SeenMatches(g.w, g.h, seen, src)
  {
    hide RanksByDistance, IsSquare, Get, Window, SeedsIn, SeenMatches, Written, ListsVisits, Progress, Index, Reaches,
      Level, InGrid, BinsFathered;
    var e := bins[k][i];
    assert BinOk(g, SeedsIn(st, g.w, g.h, before, Window(box, g.w, g.h, g.radius)), bins[k], k);
    SeenAtIndex(g, seen, src, e.pos);
  }

  /** Visiting an unseen entry keeps everything; the bucket being walked stays as it was. */
  lemma SweepVisit(st: Settings, g: Wave, box: Box, before: seq<Byte>, now: seq<Byte>, seen: seq<bool>,
                   bins: Bins, src: Sources, visits: seq<CellData>, k: nat, i: nat)
    requires SweepInv(st, g, box, before, now, seen, bins, src, visits, k)
    requires k < |bins| && i < |bins[k]| && bins[k][i].pos !in src
    ensures var e := bins[k][i];
            var src' := src[e.pos := e.src];
            var bins' := Spread(g, bins, src', e.pos, e.src);
            && 0 <= e.index < |now| && bins'[k] == bins[k]
            && (forall now', seen' ::
                  now' == now[e.index := Inflated(st, box, src', e.pos, now[e.index])] &&
                  SeenMatches(g.w, g.h, seen', src') ==>
                    SweepInv(st, g, box, before, now', seen', bins', src', visits + [e], k))
            && (SeedProgress(st, g, box, before, src, k) ==> SeedProgress(st, g, box, before, src', k))
  {
    hide RanksByDistance, IsSquare, Get, Window, SeedsIn, SeenMatches, Written, ListsVisits, Index, Reaches, Level,
      InGrid, Spread, FrontierOk, SourcesOk, SeedsQueued, Progress, Inflated, Fathered;
    var e := bins[k][i];
    var src' := src[e.pos := e.src];
    var seeds := SeedsIn(st, g.w, g.h, before, Window(box, g.w, g.h, g.radius));
    assert BinOk(g, seeds, bins[k], k);
    assert EntryOk(g, seeds, e, k);
    assert BinFathered(bins[k], src);
    assert Fathered(src, e);
    hide BinsOk, BinOk, BinsFathered, BinFathered;
    VisitKeepsProgress(g, seeds, src, e, k);
    VisitKeepsInv(g, seeds, bins, src, e, k);
    SpreadLeavesBucket(g, bins, src', e.pos, e.src);
    WriteOne(st, g.w, g.h, box, before, now, src, e.pos, e.src);
    ListOneMore(visits, src, e);
    if k == 0 { LevelZeroIsSeed(g, e.pos, e.src); }
    hide WaveInv;
  }

  lemma SweepBucketDone(st: Settings, g: Wave, box: Box, before: seq<Byte>, now: seq<Byte>, seen: seq<bool>,
                        bins: Bins, src: Sources, visits: seq<CellData>, k: nat)
    requires SweepInv(st, g, box, before, now, seen, bins, src, visits, k)
    requires k < |bins| && Visited(bins[k], |bins[k]|, src)
    ensures SweepInv(st, g, box, before, now, seen, bins, src, visits, k + 1)
    ensures SeedProgress(st, g, box, before, src, k) ==> SeedProgress(st, g, box, before, src, k + 1)
  {
    hide RanksByDistance, IsSquare, Get, Window, SeenMatches, Written, ListsVisits, Index, Reaches, Level,
      FrontierOk, SourcesOk, Progress, BinsOk, BinsFathered, Visited, SelfSourced, SeedsDone;
    var win := Window(box, g.w, g.h, g.radius);
    var seeds := SeedsIn(st, g.w, g.h, before, win);
    SeedMembers(st, g.w, g.h, before, win);
    hide SeedsIn;
    forall s | s in seeds ensures InGrid(g.w, g.h, s) {
      assert SeedAt(st, g.w, g.h, before, win, s);
    }
    SettleNext(g, seeds, bins, src, k);
    if k == 0 && SelfSourced(src) {
      SeedsDoneAfterFirstBucket(bins, seeds, src);
    }
  }

  /** What an enabled update leaves behind. */
  ghost predicate SweepResult(st: Settings, w: nat, h: nat, radius: nat, box: Box,
                              before: seq<Byte>, after: seq<Byte>, src: Sources)
  {
    && |before| == w * h
    && Written(st, w, h, box, before, after, src)
    && var seeds := SeedsIn(st, w, h, before, Window(box, w, h, radius));
       && SeedsDone(seeds, src)
       && (forall c :: c in src ==> InGrid(w, h, c) && src[c] in seeds && Dist2(c, src[c]) <= radius * radius)
       && ChargedAlongChains(w, h, radius, seeds, src)
       && AllHaveParents(src)
  }

  /** Each cell of the box that was charged to a seed is inflated with the cost of its distance from it,
      and no other cell has changed. */
  ghost predicate ChargesWritten(st: Settings, w: nat, h: nat, box: Box, before: seq<Byte>, after: seq<Byte>,
                                 src: Sources)
  {
    && |before| == w * h && |after| == w * h
    && forall c :: InGrid(w, h, c) ==>
         if c in src && InBox(box, c)
         then IsInflated(st.inflateUnknown, Get(w, h, before, c), CostAt(st.model, Dist2(c, src[c])),
                         Get(w, h, after, c))
         else Get(w, h, after, c) == Get(w, h, before, c)
  }

  lemma ResultIsWritten(st: Settings, w: nat, h: nat, radius: nat, box: Box, before: seq<Byte>, after: seq<Byte>,
                        src: Sources)
    requires SweepResult(st, w, h, radius, box, before, after, src)
    ensures ChargesWritten(st, w, h, box, before, after, src)
  {
    hide Index, Get, InGrid, InBox, Blend, CostAt, Dist2, IsInflated, SeedsIn, Window, ChargedAlongChains, SeedsDone,
      AllHaveParents;
    forall c | InGrid(w, h, c) && c in src && InBox(box, c)
      ensures IsInflated(st.inflateUnknown, Get(w, h, before, c), CostAt(st.model, Dist2(c, src[c])),
                         Get(w, h, after, c))
    {
      BlendInflates(st, Get(w, h, before, c), CostAt(st.model, Dist2(c, src[c])));
    }
  }

  /** Every cell within the radius that a chain joins to a seed is charged that closely or closer. */
  ghost predicate ChargedAlongChains(w: nat, h: nat, radius: nat, seeds: set<Cell>, src: Sources) {
    forall c, s {:trigger Chained(w, h, seeds, c, s)} ::
      InGrid(w, h, c) && s in seeds && Dist2(c, s) <= radius * radius && Chained(w, h, seeds, c, s) ==>
        ChargedWithin(src, c, s)
  }

  lemma SweepEnds(st: Settings, g: Wave, box: Box, before: seq<Byte>, now: seq<Byte>, seen: seq<bool>,
                  bins: Bins, src: Sources, visits: seq<CellData>)
    requires SweepInv(st, g, box, before, now, seen, bins, src, visits, |bins|)
    requires SeedProgress(st, g, box, before, src, |bins|)
    ensures SweepResult(st, g.w, g.h, g.radius, box, before, now, src)
    ensures ListsVisits(visits, src)
  {
    hide RanksByDistance, IsSquare, Get, Window, SeenMatches, Written, ListsVisits, Level, FrontierOk, BinsOk,
      BinsFathered, SeedsIn, Dist2, InGrid, SeedsDone, AllHaveParents, Chained, ChargedWithin;
    var seeds := SeedsIn(st, g.w, g.h, before, Window(box, g.w, g.h, g.radius));
    forall c, s | InGrid(g.w, g.h, c) && s in seeds && Dist2(c, s) <= g.radius * g.radius
                  && Chained(g.w, g.h, seeds, c, s)
      ensures ChargedWithin(src, c, s)
    {
      LevelInRange(g, c, s);
    }
  }
}
