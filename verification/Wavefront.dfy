/** The bucket-queue wavefront of the inflation layer as a pure transition system: buckets indexed
    by distance rank, and a record of which seed each dequeued cell was reached from. */
module Wavefront {
  import opened GridMath
  import opened DistanceRanks
  import opened NearestSeeds

  /** One pending cell: its flat index, its position, and the seed the wave reached it from. */
  datatype CellData = CellData(index: int, pos: Cell, src: Cell)

  /** The fixed data of one sweep. */
  datatype Wave = Wave(w: nat, h: nat, radius: nat, table: seq<seq<nat>>, maxRank: nat)

  type Bins = seq<seq<CellData>>
  type Sources = map<Cell, Cell>

  predicate Shaped(g: Wave) {
    IsSquare(g.table, g.radius + 2)
  }

  ghost predicate ValidWave(g: Wave) {
    Shaped(g) && RanksByDistance(g.table, g.radius + 2, g.maxRank)
  }

  function Offset(p: Cell, s: Cell): Cell {
    Cell(p.x - s.x, p.y - s.y)
  }

  predicate Reaches(g: Wave, s: Cell, p: Cell) {
    Dist2(p, s) <= g.radius * g.radius
  }

  /** The bucket of cell `p` when reached from seed `s`. */
  ghost function Level(g: Wave, p: Cell, s: Cell): nat
    requires Shaped(g)
  {
    if InTable(Offset(p, s), g.radius + 2) then Rank(g.table, g.radius + 2, Offset(p, s)) else 0
  }

  lemma ReachInTable(g: Wave, p: Cell, s: Cell)
    requires Reaches(g, s, p)
    ensures Norm(Offset(p, s)) == Dist2(p, s)
    ensures InCircle(Offset(p, s), g.radius + 2) && InTable(Offset(p, s), g.radius + 2)
  {
    SquareMonotone(g.radius, g.radius + 2);
    CircleInTable(Offset(p, s), g.radius + 2);
  }

  lemma LevelInRange(g: Wave, p: Cell, s: Cell)
    requires ValidWave(g) && Reaches(g, s, p)
    ensures Level(g, p, s) <= g.maxRank
  {
    hide Norm, InCircle, InTable, Reaches, Rank, RanksByDistance;
    ReachInTable(g, p, s);
    RankBounded(g.table, g.radius + 2, g.maxRank, Offset(p, s));
  }

  /** Buckets are visited in the order of true distance. */
  lemma LevelOrder(g: Wave, p: Cell, s: Cell, q: Cell, t: Cell)
    requires ValidWave(g) && Reaches(g, s, p) && Reaches(g, t, q)
    ensures Level(g, p, s) < Level(g, q, t) <==> Dist2(p, s) < Dist2(q, t)
  {
    hide Norm, InCircle, InTable, Dist2, Reaches, Rank, RanksByDistance;
    ReachInTable(g, p, s);
    ReachInTable(g, q, t);
    RankOrdered(g.table, g.radius + 2, g.maxRank, Offset(p, s), Offset(q, t));
  }

  lemma ReachesItself(g: Wave, s: Cell)
    ensures Reaches(g, s, s) && Offset(s, s) == ORIGIN
  {
    SquareNonNegative(g.radius);
  }

  lemma LevelOfSeed(g: Wave, s: Cell)
    requires ValidWave(g)
    ensures Reaches(g, s, s) && Level(g, s, s) == 0
  {
    hide RanksByDistance, Reaches, Rank, Norm, InCircle, IsSquare, InTable;
    ReachesItself(g, s);
    OriginRanksZero(g.table, g.radius + 2, g.maxRank);
  }

  // ---------------------------------------------------------------- one enqueue

  function Entry(g: Wave, p: Cell, s: Cell): CellData {
    CellData(Index(g.w, p), p, s)
  }

  /** `enqueue` behind its grid-border guard. */
  ghost function Enqueued(g: Wave, bins: Bins, src: Sources, q: Cell, s: Cell): (after: Bins)
    requires Shaped(g) && |bins| == g.maxRank + 1
    ensures |after| == |bins|
  {
    if InGrid(g.w, g.h, q) && q !in src && Reaches(g, s, q) then
      var k := Level(g, q, s);
      if k < |bins| then bins[k := bins[k] + [Entry(g, q, s)]] else bins
    else bins
  }

  function Left(p: Cell): Cell { Cell(p.x - 1, p.y) }
  function Above(p: Cell): Cell { Cell(p.x, p.y - 1) }
  function Right(p: Cell): Cell { Cell(p.x + 1, p.y) }
  function Below(p: Cell): Cell { Cell(p.x, p.y + 1) }

  /** The four attempted enqueues that follow the first visit of `p` from seed `s`. */
  ghost function Spread(g: Wave, bins: Bins, src: Sources, p: Cell, s: Cell): (after: Bins)
    requires Shaped(g) && |bins| == g.maxRank + 1
    ensures |after| == |bins|
  {
    var b1 := Enqueued(g, bins, src, Left(p), s);
    var b2 := Enqueued(g, b1, src, Above(p), s);
    var b3 := Enqueued(g, b2, src, Right(p), s);
    Enqueued(g, b3, src, Below(p), s)
  }

  // ---------------------------------------------------------------- what every step keeps

  ghost predicate EntryOk(g: Wave, seeds: set<Cell>, e: CellData, k: nat)
    requires Shaped(g)
  {
    && InGrid(g.w, g.h, e.pos) && e.index == Index(g.w, e.pos)
    && e.src in seeds && Reaches(g, e.src, e.pos)
    && Level(g, e.pos, e.src) == k
  }

  ghost predicate BinOk(g: Wave, seeds: set<Cell>, bin: seq<CellData>, k: nat)
    requires Shaped(g)
  {
    forall i :: 0 <= i < |bin| ==> EntryOk(g, seeds, bin[i], k)
  }

  /** Every pending cell lies in the grid, within the radius of a real seed, in the bucket of its rank. */
  ghost predicate BinsOk(g: Wave, seeds: set<Cell>, bins: Bins)
    requires Shaped(g)
  {
    |bins| == g.maxRank + 1 && forall k :: 0 <= k < |bins| ==> BinOk(g, seeds, bins[k], k)
  }

  ghost predicate SourcesOk(g: Wave, seeds: set<Cell>, src: Sources) {
    forall c :: c in src ==> InGrid(g.w, g.h, c) && src[c] in seeds && Reaches(g, src[c], c)
  }

  ghost predicate Queued(bin: seq<CellData>, q: Cell) {
    exists i :: 0 <= i < |bin| && bin[i].pos == q
  }

  /** The neighbour `q` of the visited cell `p` has been dealt with. */
  ghost predicate Covered(g: Wave, bins: Bins, src: Sources, p: Cell, q: Cell)
    requires Shaped(g) && |bins| == g.maxRank + 1
  {
    p in src && InGrid(g.w, g.h, q) && Adjacent(p, q) && Reaches(g, src[p], q) ==>
      q in src || (Level(g, q, src[p]) < |bins| && Queued(bins[Level(g, q, src[p])], q))
  }

  ghost predicate FrontierOk(g: Wave, bins: Bins, src: Sources)
    requires Shaped(g) && |bins| == g.maxRank + 1
  {
    forall p, q :: Covered(g, bins, src, p, q)
  }

  ghost predicate SeedsQueued(bins: Bins, seeds: set<Cell>)
    requires |bins| > 0
  {
    forall s :: s in seeds ==> Queued(bins[0], s)
  }

  /** A pending cell that is no seed was reached from a visited neighbour of the same source. */
  ghost predicate Fathered(src: Sources, e: CellData) {
    e.pos == e.src || exists p :: p in src && src[p] == e.src && Adjacent(p, e.pos)
  }

  ghost predicate BinFathered(bin: seq<CellData>, src: Sources) {
    forall i :: 0 <= i < |bin| ==> Fathered(src, bin[i])
  }

  ghost predicate BinsFathered(bins: Bins, src: Sources) {
    forall k :: 0 <= k < |bins| ==> BinFathered(bins[k], src)
  }

  /** The invariant of the sweep, for any set of seeds. */
  ghost predicate WaveInv(g: Wave, seeds: set<Cell>, bins: Bins, src: Sources)
    requires Shaped(g)
  {
    && BinsOk(g, seeds, bins) && SourcesOk(g, seeds, src) && FrontierOk(g, bins, src)
    && SeedsQueued(bins, seeds) && BinsFathered(bins, src)
  }

  ghost predicate Grows(bins: Bins, after: Bins) {
    |after| == |bins| && forall k :: 0 <= k < |bins| ==> bins[k] <= after[k]
  }

  lemma GrowsKeepsQueued(bins: Bins, after: Bins, k: nat, q: Cell)
    requires Grows(bins, after) && k < |bins| && Queued(bins[k], q)
    ensures Queued(after[k], q)
  {
    var i :| 0 <= i < |bins[k]| && bins[k][i].pos == q;
    assert after[k][i] == bins[k][i];
  }

  lemma EnqueuedGrows(g: Wave, bins: Bins, src: Sources, q: Cell, s: Cell)
    requires ValidWave(g) && |bins| == g.maxRank + 1
    ensures Grows(bins, Enqueued(g, bins, src, q, s))
  {
    hide Level, Reaches, InGrid, RanksByDistance;
  }

  lemma EnqueuedKeepsBins(g: Wave, seeds: set<Cell>, bins: Bins, src: Sources, q: Cell, s: Cell)
    requires ValidWave(g) && BinsOk(g, seeds, bins) && s in seeds
    ensures BinsOk(g, seeds, Enqueued(g, bins, src, q, s))
  {
    hide RanksByDistance;
    if InGrid(g.w, g.h, q) && q !in src && Reaches(g, s, q) {
      LevelInRange(g, q, s);
      hide Level, Reaches, InGrid;
      assert EntryOk(g, seeds, Entry(g, q, s), Level(g, q, s));
    }
  }

  lemma EnqueuedKeepsFathers(g: Wave, bins: Bins, src: Sources, p: Cell, q: Cell)
    requires ValidWave(g) && BinsFathered(bins, src) && p in src && Adjacent(p, q) && |bins| == g.maxRank + 1
    ensures BinsFathered(Enqueued(g, bins, src, q, src[p]), src)
  {
    hide RanksByDistance, Level, Reaches, InGrid, Adjacent;
    var after := Enqueued(g, bins, src, q, src[p]);
    assert Fathered(src, Entry(g, q, src[p]));
    hide Fathered;
    forall k | 0 <= k < |after| ensures BinFathered(after[k], src) {
      assert BinFathered(bins[k], src);
    }
  }

  /** After its own enqueue, the neighbour is dealt with. */
  lemma EnqueuedCovers(g: Wave, bins: Bins, src: Sources, p: Cell, q: Cell)
    requires ValidWave(g) && |bins| == g.maxRank + 1 && p in src
    ensures Covered(g, Enqueued(g, bins, src, q, src[p]), src, p, q)
  {
    hide RanksByDistance;
    var s := src[p];
    if InGrid(g.w, g.h, q) && q !in src && Reaches(g, s, q) {
      LevelInRange(g, q, s);
      hide Level, Reaches, InGrid;
      var k := Level(g, q, s);
      var after := Enqueued(g, bins, src, q, s);
      assert after[k][|bins[k]|] == Entry(g, q, s);
    }
  }

  lemma GrowsKeepsCovered(g: Wave, bins: Bins, after: Bins, src: Sources, p: Cell, q: Cell)
    requires ValidWave(g) && |bins| == g.maxRank + 1 && Grows(bins, after)
    requires Covered(g, bins, src, p, q)
    ensures Covered(g, after, src, p, q)
  {
    hide RanksByDistance, Reaches, InGrid;
    if p in src && Level(g, q, src[p]) < |bins| && Queued(bins[Level(g, q, src[p])], q) {
      GrowsKeepsQueued(bins, after, Level(g, q, src[p]), q);
    }
  }

  lemma SpreadGrows(g: Wave, bins: Bins, src: Sources, p: Cell, s: Cell)
    requires ValidWave(g) && |bins| == g.maxRank + 1
    ensures Grows(bins, Spread(g, bins, src, p, s))
  {
    hide RanksByDistance, Enqueued;
    var b1 := Enqueued(g, bins, src, Left(p), s);
    var b2 := Enqueued(g, b1, src, Above(p), s);
    var b3 := Enqueued(g, b2, src, Right(p), s);
    EnqueuedGrows(g, bins, src, Left(p), s);
    EnqueuedGrows(g, b1, src, Above(p), s);
    EnqueuedGrows(g, b2, src, Right(p), s);
    EnqueuedGrows(g, b3, src, Below(p), s);
  }

  lemma SpreadKeepsBins(g: Wave, seeds: set<Cell>, bins: Bins, src: Sources, p: Cell, s: Cell)
    requires ValidWave(g) && BinsOk(g, seeds, bins) && s in seeds
    ensures BinsOk(g, seeds, Spread(g, bins, src, p, s))
  {
    hide RanksByDistance, Enqueued, BinOk;
    var b1 := Enqueued(g, bins, src, Left(p), s);
    var b2 := Enqueued(g, b1, src, Above(p), s);
    var b3 := Enqueued(g, b2, src, Right(p), s);
    EnqueuedKeepsBins(g, seeds, bins, src, Left(p), s);
    EnqueuedKeepsBins(g, seeds, b1, src, Above(p), s);
    EnqueuedKeepsBins(g, seeds, b2, src, Right(p), s);
    EnqueuedKeepsBins(g, seeds, b3, src, Below(p), s);
  }

  lemma NeighboursAdjacent(p: Cell)
    ensures Adjacent(p, Left(p)) && Adjacent(p, Above(p)) && Adjacent(p, Right(p)) && Adjacent(p, Below(p))
  {
  }

  lemma SpreadKeepsFathers(g: Wave, bins: Bins, src: Sources, p: Cell)
    requires ValidWave(g) && BinsFathered(bins, src) && p in src && |bins| == g.maxRank + 1
    ensures BinsFathered(Spread(g, bins, src, p, src[p]), src)
  {
    hide RanksByDistance, Enqueued, BinsFathered, Adjacent, Left, Above, Right, Below;
    var b1 := Enqueued(g, bins, src, Left(p), src[p]);
    var b2 := Enqueued(g, b1, src, Above(p), src[p]);
    var b3 := Enqueued(g, b2, src, Right(p), src[p]);
    NeighboursAdjacent(p);
    EnqueuedKeepsFathers(g, bins, src, p, Left(p));
    EnqueuedKeepsFathers(g, b1, src, p, Above(p));
    EnqueuedKeepsFathers(g, b2, src, p, Right(p));
    EnqueuedKeepsFathers(g, b3, src, p, Below(p));
  }

  lemma VisitKeepsFathers(bins: Bins, src: Sources, e: CellData)
    requires BinsFathered(bins, src) && e.pos !in src
    ensures BinsFathered(bins, src[e.pos := e.src])
  {
    hide Adjacent;
    var src' := src[e.pos := e.src];
    forall k | 0 <= k < |bins| ensures BinFathered(bins[k], src') {
      assert BinFathered(bins[k], src);
      forall i | 0 <= i < |bins[k]| ensures Fathered(src', bins[k][i]) {
        FathersStay(src, bins[k][i], e);
      }
    }
  }

  lemma FathersStay(src: Sources, entry: CellData, e: CellData)
    requires Fathered(src, entry) && e.pos !in src
    ensures Fathered(src[e.pos := e.src], entry)
  {
    hide Adjacent;
    if entry.pos != entry.src {
      var p :| p in src && src[p] == entry.src && Adjacent(p, entry.pos);
      assert p in src[e.pos := e.src];
    }
  }

  /** All four neighbours are dealt with after the spread. */
  lemma SpreadCovers(g: Wave, bins: Bins, src: Sources, p: Cell, q: Cell)
    requires ValidWave(g) && |bins| == g.maxRank + 1 && p in src
    ensures Covered(g, Spread(g, bins, src, p, src[p]), src, p, q)
  {
    hide RanksByDistance, Enqueued, Reaches, InGrid, Level;
    var s := src[p];
    var b1 := Enqueued(g, bins, src, Left(p), s);
    var b2 := Enqueued(g, b1, src, Above(p), s);
    var b3 := Enqueued(g, b2, src, Right(p), s);
    var b4 := Enqueued(g, b3, src, Below(p), s);
    EnqueuedGrows(g, b1, src, Above(p), s);
    EnqueuedGrows(g, b2, src, Right(p), s);
    EnqueuedGrows(g, b3, src, Below(p), s);
    if q == Left(p) {
      EnqueuedCovers(g, bins, src, p, q);
      GrowsKeepsCovered(g, b1, b2, src, p, q);
      GrowsKeepsCovered(g, b2, b3, src, p, q);
      GrowsKeepsCovered(g, b3, b4, src, p, q);
    } else if q == Above(p) {
      EnqueuedCovers(g, b1, src, p, q);
      GrowsKeepsCovered(g, b2, b3, src, p, q);
      GrowsKeepsCovered(g, b3, b4, src, p, q);
    } else if q == Right(p) {
      EnqueuedCovers(g, b2, src, p, q);
      GrowsKeepsCovered(g, b3, b4, src, p, q);
    } else if q == Below(p) {
      EnqueuedCovers(g, b3, src, p, q);
    } else {
      assert !Adjacent(p, q);
    }
  }

  /** Visiting one pending entry for the first time keeps the invariant of the sweep. */
  lemma VisitKeepsInv(g: Wave, seeds: set<Cell>, bins: Bins, src: Sources, e: CellData, k: nat)
    requires ValidWave(g) && WaveInv(g, seeds, bins, src)
    requires EntryOk(g, seeds, e, k) && e.pos !in src
    ensures var src' := src[e.pos := e.src];
            WaveInv(g, seeds, Spread(g, bins, src', e.pos, e.src), src')
  {
    hide RanksByDistance, Level, Reaches, InGrid, Adjacent, Spread, Queued, BinOk, BinsFathered;
    VisitKeepsFathers(bins, src, e);
    SpreadKeepsFathers(g, bins, src[e.pos := e.src], e.pos);
    var src' := src[e.pos := e.src];
    var after := Spread(g, bins, src', e.pos, e.src);
    SpreadGrows(g, bins, src', e.pos, e.src);
    SpreadKeepsBins(g, seeds, bins, src', e.pos, e.src);
    forall p, q ensures Covered(g, after, src', p, q) {
      if p == e.pos {
        SpreadCovers(g, bins, src', p, q);
      } else {
        assert Covered(g, bins, src, p, q);
        assert Covered(g, bins, src', p, q);
        GrowsKeepsCovered(g, bins, after, src', p, q);
      }
    }
    forall s | s in seeds ensures Queued(after[0], s) {
      GrowsKeepsQueued(bins, after, 0, s);
    }
  }

  // ---------------------------------------------------------------- the bucket being walked

  /** A neighbour never lands in the bucket of the cell it was reached from: the bucket being
      walked does not grow, so walking it by index terminates. */
  lemma SpreadLeavesBucket(g: Wave, bins: Bins, src: Sources, p: Cell, s: Cell)
    requires ValidWave(g) && |bins| == g.maxRank + 1 && Reaches(g, s, p)
    ensures Level(g, p, s) <= g.maxRank
    ensures Spread(g, bins, src, p, s)[Level(g, p, s)] == bins[Level(g, p, s)]
  {
    LevelInRange(g, p, s);
    NeighbourLevels(g, p, s);
    NeighboursAdjacent(p);
    hide RanksByDistance, Level, Reaches, InGrid, Adjacent;
  }

  lemma NeighbourLevels(g: Wave, p: Cell, s: Cell)
    requires ValidWave(g) && Reaches(g, s, p)
    ensures forall q :: Adjacent(p, q) && Reaches(g, s, q) ==> Level(g, q, s) != Level(g, p, s)
  {
    hide RanksByDistance, Level, Reaches, Adjacent, Dist2;
    forall q | Adjacent(p, q) && Reaches(g, s, q) ensures Level(g, q, s) != Level(g, p, s) {
      AdjacentDistancesDiffer(p, q, s);
      LevelOrder(g, p, s, q, s);
      LevelOrder(g, q, s, p, s);
    }
  }

  // ---------------------------------------------------------------- how far the wave has come

  /** `c` was charged to a source no farther than `s`. */
  ghost predicate ChargedWithin(src: Sources, c: Cell, s: Cell) {
    c in src && Dist2(c, src[c]) <= Dist2(c, s)
  }

  /** Every cell that a chain joins to a seed, closer to it than bucket `k`, has been charged that
      closely or closer. */
  ghost predicate Settled(g: Wave, seeds: set<Cell>, src: Sources, k: nat)
    requires Shaped(g)
  {
    forall c, s {:trigger Chained(g.w, g.h, seeds, c, s)} ::
      InGrid(g.w, g.h, c) && s in seeds && Reaches(g, s, c) && Chained(g.w, g.h, seeds, c, s) && Level(g, c, s) < k ==>
        ChargedWithin(src, c, s)
  }

  /** No visited cell is farther from its source than bucket `k`. */
  ghost predicate LevelsUpTo(g: Wave, src: Sources, k: nat)
    requires Shaped(g)
  {
    forall c :: c in src ==> Level(g, c, src[c]) <= k
  }

  /** A visited cell is its own source or has a neighbour of the same source closer to it. */
  ghost predicate HasParent(src: Sources, c: Cell)
    requires c in src
  {
    c == src[c] || exists p :: p in src && src[p] == src[c] && Adjacent(p, c) && Dist2(p, src[c]) < Dist2(c, src[c])
  }

  ghost predicate AllHaveParents(src: Sources) {
    forall c :: c in src ==> HasParent(src, c)
  }

  ghost predicate Progress(g: Wave, seeds: set<Cell>, src: Sources, k: nat)
    requires Shaped(g)
  {
    Settled(g, seeds, src, k) && LevelsUpTo(g, src, k) && AllHaveParents(src)
  }

  ghost predicate Visited(bin: seq<CellData>, n: nat, src: Sources)
    requires n <= |bin|
  {
    forall i :: 0 <= i < n ==> bin[i].pos in src
  }

  lemma ProgressBegins(g: Wave, seeds: set<Cell>)
    requires Shaped(g)
    ensures Progress(g, seeds, map[], 0)
  {
  }

  /** Once a bucket has been walked to its end, the cells of that bucket are settled too. */
  lemma SettleNext(g: Wave, seeds: set<Cell>, bins: Bins, src: Sources, k: nat)
    requires ValidWave(g) && WaveInv(g, seeds, bins, src) && k < |bins|
    requires Progress(g, seeds, src, k) && Visited(bins[k], |bins[k]|, src)
    requires forall s :: s in seeds ==> InGrid(g.w, g.h, s)
    ensures Progress(g, seeds, src, k + 1)
  {
    hide RanksByDistance, IsSquare, Level, Reaches, InGrid, WaveInv, Visited, Chained, ChargedWithin, AllHaveParents;
    forall c, s | InGrid(g.w, g.h, c) && s in seeds && Reaches(g, s, c) && Chained(g.w, g.h, seeds, c, s)
                  && Level(g, c, s) < k + 1
      ensures ChargedWithin(src, c, s)
    {
      if Level(g, c, s) == k {
        SettleCell(g, seeds, bins, src, k, c, s);
      }
    }
  }

  lemma SettleCell(g: Wave, seeds: set<Cell>, bins: Bins, src: Sources, k: nat, c: Cell, s: Cell)
    requires ValidWave(g) && WaveInv(g, seeds, bins, src) && k < |bins|
    requires Progress(g, seeds, src, k) && Visited(bins[k], |bins[k]|, src)
    requires InGrid(g.w, g.h, c) && s in seeds && Reaches(g, s, c) && Level(g, c, s) == k
    requires Chained(g.w, g.h, seeds, c, s)
    ensures ChargedWithin(src, c, s)
  {
    hide RanksByDistance, IsSquare, Level, Reaches, InGrid, Adjacent, BinOk, Dist2, AllHaveParents, BinsFathered;
    if c == s {
      LevelOfSeed(g, s);
      assert Queued(bins[0], s);
    } else {
      var p :| Closer(g.w, g.h, p, c, s) && Owned(seeds, p, s) && Chained(g.w, g.h, seeds, p, s);
      CloserReaches(g, p, c, s);
      assert ChargedWithin(src, p, s);
      assert src[p] == s;
      assert Covered(g, bins, src, p, c);
    }
    assert c in src;
    LevelOrder(g, c, s, c, src[c]);
  }

  lemma CloserReaches(g: Wave, p: Cell, c: Cell, s: Cell)
    requires ValidWave(g) && Reaches(g, s, c) && Closer(g.w, g.h, p, c, s)
    ensures Reaches(g, s, p) && Level(g, p, s) < Level(g, c, s)
  {
    hide RanksByDistance, IsSquare, Level, Dist2, InGrid, Adjacent;
    assert Reaches(g, s, p);
    LevelOrder(g, p, s, c, s);
  }

  lemma VisitKeepsSettled(g: Wave, seeds: set<Cell>, src: Sources, p: Cell, t: Cell, k: nat)
    requires Shaped(g) && Settled(g, seeds, src, k) && p !in src
    ensures Settled(g, seeds, src[p := t], k)
  {
    hide IsSquare, Level, Reaches, InGrid, Dist2, Chained;
    forall c, s | InGrid(g.w, g.h, c) && s in seeds && Reaches(g, s, c) && Chained(g.w, g.h, seeds, c, s)
                  && Level(g, c, s) < k
      ensures ChargedWithin(src[p := t], c, s)
    {
      assert ChargedWithin(src, c, s);
    }
  }

  lemma VisitKeepsLevels(g: Wave, src: Sources, p: Cell, t: Cell, k: nat)
    requires Shaped(g) && LevelsUpTo(g, src, k) && Level(g, p, t) <= k
    ensures LevelsUpTo(g, src[p := t], k)
  {
    hide IsSquare, Level;
  }

  /** A cell visited in its turn lies farther out than the neighbour it was reached from. */
  lemma FatherIsCloser(g: Wave, seeds: set<Cell>, src: Sources, e: CellData, k: nat)
    requires ValidWave(g) && SourcesOk(g, seeds, src) && EntryOk(g, seeds, e, k) && e.pos !in src
    requires Fathered(src, e) && LevelsUpTo(g, src, k)
    ensures HasParent(src[e.pos := e.src], e.pos)
  {
    hide RanksByDistance, IsSquare, Level, Reaches, InGrid, Adjacent, Dist2;
    var src' := src[e.pos := e.src];
    if e.pos != e.src {
      var p :| p in src && src[p] == e.src && Adjacent(p, e.pos);
      LevelOrder(g, e.pos, e.src, p, e.src);
      AdjacentDistancesDiffer(p, e.pos, e.src);
      assert p in src' && src'[p] == e.src;
    }
  }

  lemma VisitKeepsParent(src: Sources, c: Cell, p: Cell, t: Cell)
    requires c in src && HasParent(src, c) && p !in src
    ensures HasParent(src[p := t], c)
  {
    hide Adjacent, Dist2;
    if c != src[c] {
      var q :| q in src && src[q] == src[c] && Adjacent(q, c) && Dist2(q, src[c]) < Dist2(c, src[c]);
      assert q in src[p := t];
    }
  }

  /** Visiting an entry of the bucket being walked keeps what is known so far. */
  lemma VisitKeepsProgress(g: Wave, seeds: set<Cell>, src: Sources, e: CellData, k: nat)
    requires ValidWave(g) && SourcesOk(g, seeds, src) && EntryOk(g, seeds, e, k) && e.pos !in src
    requires Fathered(src, e) && Progress(g, seeds, src, k)
    ensures Progress(g, seeds, src[e.pos := e.src], k)
  {
    hide RanksByDistance, IsSquare, Settled, LevelsUpTo, SourcesOk, Fathered, HasParent, Reaches, InGrid;
    VisitKeepsSettled(g, seeds, src, e.pos, e.src, k);
    VisitKeepsLevels(g, src, e.pos, e.src, k);
    FatherIsCloser(g, seeds, src, e, k);
    forall c | c in src ensures HasParent(src[e.pos := e.src], c) {
      VisitKeepsParent(src, c, e.pos, e.src);
    }
  }

  // ---------------------------------------------------------------- seeds and visits

  /** Only a seed itself sits in bucket 0. */
  lemma LevelZeroIsSeed(g: Wave, p: Cell, s: Cell)
    requires ValidWave(g) && Reaches(g, s, p) && Level(g, p, s) == 0
    ensures p == s
  {
    hide RanksByDistance, Level, IsSquare;
    LevelOfSeed(g, s);
    LevelOrder(g, s, s, p, s);
    assert Dist2(s, s) == 0;
    SquareNonNegative(p.x - s.x);
    SquareNonNegative(p.y - s.y);
    SquareStrictIf(0, p.x - s.x);
    SquareStrictIf(0, p.y - s.y);
  }

  /** Every seed is its own source. */
  ghost predicate SeedsDone(seeds: set<Cell>, src: Sources) {
    forall s :: s in seeds ==> s in src && src[s] == s
  }

  ghost predicate SelfSourced(src: Sources) {
    forall c :: c in src ==> src[c] == c
  }

  lemma SeedsDoneAfterFirstBucket(bins: Bins, seeds: set<Cell>, src: Sources)
    requires |bins| > 0 && SeedsQueued(bins, seeds)
    requires Visited(bins[0], |bins[0]|, src) && SelfSourced(src)
    ensures SeedsDone(seeds, src)
  {
    forall s | s in seeds ensures s in src {
      assert Queued(bins[0], s);
    }
  }

  /** `visits` lists the visited cells, each exactly once, with its source. */
  ghost predicate ListsVisits(visits: seq<CellData>, src: Sources) {
    && (forall i :: 0 <= i < |visits| ==> visits[i].pos in src && src[visits[i].pos] == visits[i].src)
    && (forall i, j :: 0 <= i < j < |visits| ==> visits[i].pos != visits[j].pos)
    && (forall c :: c in src ==> Queued(visits, c))
  }

  lemma NoVisits()
    ensures ListsVisits([], map[])
  {
  }

  lemma ListOneMore(visits: seq<CellData>, src: Sources, e: CellData)
    requires ListsVisits(visits, src) && e.pos !in src
    ensures ListsVisits(visits + [e], src[e.pos := e.src])
  {
    var after := visits + [e];
    forall c | c in src[e.pos := e.src] ensures Queued(after, c) {
      if c == e.pos {
        assert after[|visits|].pos == c;
      } else {
        var i :| 0 <= i < |visits| && visits[i].pos == c;
        assert after[i].pos == c;
      }
    }
  }

  /** Before the sweep: every seed waits in bucket 0 and nothing else does. */
  lemma InitialInv(g: Wave, seeds: set<Cell>, bins: Bins)
    requires ValidWave(g) && |bins| == g.maxRank + 1
    requires forall k :: 0 < k < |bins| ==> bins[k] == []
    requires forall i :: 0 <= i < |bins[0]| ==>
               bins[0][i] == Entry(g, bins[0][i].pos, bins[0][i].pos) && bins[0][i].pos in seeds
    requires forall s :: s in seeds ==> InGrid(g.w, g.h, s) && Queued(bins[0], s)
    ensures WaveInv(g, seeds, bins, map[])
  {
    hide RanksByDistance, Level, Reaches, InGrid, Adjacent, IsSquare, Dist2, Index;
    forall i | 0 <= i < |bins[0]| ensures EntryOk(g, seeds, bins[0][i], 0) {
      LevelOfSeed(g, bins[0][i].pos);
    }
    forall k | 0 <= k < |bins| ensures BinOk(g, seeds, bins[k], k) {
    }
  }
}
