/** What an inflation update means for the map, read off the sweep's result. */
module InflationTheorems {
  import opened Common
  import opened GridMath
  import opened NearestSeeds
  import opened Wavefront
  import opened InflationLayer

  /** The inflation a single obstacle at `s` should cause in cell `c`. */
  ghost function ExactInflation(st: Settings, radius: nat, s: Cell, c: Cell, prior: Byte): Byte {
    if Dist2(c, s) <= radius * radius then Blend(st, prior, CostAt(st.model, Dist2(c, s))) else prior
  }

  /** The seeds an update of this box starts from. */
  ghost function WindowSeeds(st: Settings, w: nat, h: nat, radius: nat, box: Box, before: seq<Byte>): set<Cell>
    requires |before| == w * h
  {
    SeedsIn(st, w, h, before, Window(box, w, h, radius))
  }

  /** Cell `c` was charged for its true distance to a nearest seed `s`. */
  ghost predicate ChargedExactly(src: Sources, c: Cell, s: Cell) {
    c in src && Dist2(c, src[c]) == Dist2(c, s)
  }

  /** A cell joined by a chain to a nearest seed within the radius is charged for its true distance:
      the chain is a property of the map before the update. */
  lemma ChainedIsExact(st: Settings, w: nat, h: nat, radius: nat, box: Box,
                       before: seq<Byte>, after: seq<Byte>, src: Sources, c: Cell, s: Cell)
    requires SweepResult(st, w, h, radius, box, before, after, src) && InGrid(w, h, c)
    requires Dist2(c, s) <= radius * radius
    requires var seeds := WindowSeeds(st, w, h, radius, box, before);
             Nearest(seeds, c, s) && Chained(w, h, seeds, c, s)
    ensures |after| == w * h && ChargedExactly(src, c, s)
    ensures InBox(box, c) ==>
              Get(w, h, after, c) == ExactInflation(st, radius, s, c, Get(w, h, before, c))
  {
    hide Window, SeedsIn, Dist2, Index, Get, InGrid, CostAt, Blend, Chained, AllHaveParents, SeedsDone;
    assert ChargedWithin(src, c, s);
  }

  /** Every cell of an isolated seed's disc is charged to that seed, whatever other seeds there are. */
  lemma IsolatedSeedExact(st: Settings, w: nat, h: nat, radius: nat, box: Box,
                          before: seq<Byte>, after: seq<Byte>, src: Sources, s: Cell)
    requires SweepResult(st, w, h, radius, box, before, after, src)
    requires Isolated(WindowSeeds(st, w, h, radius, box, before), radius, s)
    ensures |after| == w * h && forall c :: InGrid(w, h, c) ==>
              && (Dist2(c, s) <= radius * radius <==> c in src && src[c] == s)
              && (Dist2(c, s) <= radius * radius && InBox(box, c) ==>
                    Get(w, h, after, c) == ExactInflation(st, radius, s, c, Get(w, h, before, c)))
  {
    hide Window, SeedsIn, Dist2, Index, Get, InGrid, CostAt, Blend, Chained, AllHaveParents, SweepResult, Isolated;
    SeedsInMap(st, w, h, radius, box, before, after, src);
    forall c | InGrid(w, h, c) && Dist2(c, s) <= radius * radius
      ensures c in src && src[c] == s
      ensures InBox(box, c) ==> Get(w, h, after, c) == ExactInflation(st, radius, s, c, Get(w, h, before, c))
    {
      IsolatedCellExact(st, w, h, radius, box, before, after, src, c, s);
    }
  }

  lemma SeedsInMap(st: Settings, w: nat, h: nat, radius: nat, box: Box,
                   before: seq<Byte>, after: seq<Byte>, src: Sources)
    requires SweepResult(st, w, h, radius, box, before, after, src)
    ensures |before| == w * h && |after| == w * h
    ensures forall c :: c in src ==> InGrid(w, h, c) && Dist2(c, src[c]) <= radius * radius
    ensures forall c :: c in src ==> src[c] in WindowSeeds(st, w, h, radius, box, before)
    ensures forall s :: s in WindowSeeds(st, w, h, radius, box, before) ==> InGrid(w, h, s)
    ensures forall c :: InGrid(w, h, c) ==>
              Get(w, h, after, c) == Inflated(st, box, src, c, Get(w, h, before, c))
  {
    hide Window, SeedsIn, Dist2, Index, Get, InGrid, Inflated, AllHaveParents, ChargedAlongChains, SeedsDone;
    SeedMembers(st, w, h, before, Window(box, w, h, radius));
  }

  lemma IsolatedCellExact(st: Settings, w: nat, h: nat, radius: nat, box: Box,
                          before: seq<Byte>, after: seq<Byte>, src: Sources, c: Cell, s: Cell)
    requires SweepResult(st, w, h, radius, box, before, after, src) && InGrid(w, h, c)
    requires Dist2(c, s) <= radius * radius
    requires Isolated(WindowSeeds(st, w, h, radius, box, before), radius, s)
    ensures |after| == w * h && c in src && src[c] == s
    ensures InBox(box, c) ==> Get(w, h, after, c) == ExactInflation(st, radius, s, c, Get(w, h, before, c))
  {
    assert |before| == w * h;
    hide Window, SeedsIn, Dist2, Index, Get, InGrid, CostAt, Blend, Chained, SweepResult, ExactInflation;
    var seeds := WindowSeeds(st, w, h, radius, box, before);
    SeedsInMap(st, w, h, radius, box, before, after, src);
    IsolatedOwnsDisc(seeds, radius, s, c);
    OwnedIsNearest(seeds, c, s);
    IsolatedChains(w, h, seeds, radius, c, s);
    hide Isolated, WindowSeeds;
    ChainedIsExact(st, w, h, radius, box, before, after, src, c, s);
  }

  /** With one seed in the window precisely the cells of its disc are reached, and every cell of the
      box gets the cost of its true distance. */
  lemma SingleSeedExact(st: Settings, w: nat, h: nat, radius: nat, box: Box,
                        before: seq<Byte>, after: seq<Byte>, src: Sources, s: Cell)
    requires SweepResult(st, w, h, radius, box, before, after, src)
    requires WindowSeeds(st, w, h, radius, box, before) == {s}
    ensures |after| == w * h && forall c :: InGrid(w, h, c) ==>
              && (c in src <==> Dist2(c, s) <= radius * radius)
              && (c in src ==> src[c] == s)
              && Get(w, h, after, c) == if InBox(box, c) then ExactInflation(st, radius, s, c, Get(w, h, before, c))
                                        else Get(w, h, before, c)
  {
    hide Window, SeedsIn, WindowSeeds, Dist2, Index, Get, InGrid, CostAt, Blend, SweepResult;
    SeedsInMap(st, w, h, radius, box, before, after, src);
    IsolatedSeedExact(st, w, h, radius, box, before, after, src, s);
  }

  // ---------------------------------------------------------------- when several seeds are exact

  /** Every cell within the radius of a seed is charged for its distance to the nearest one. */
  ghost predicate ExactSources(w: nat, h: nat, radius: nat, seeds: set<Cell>, src: Sources) {
    forall c, s {:trigger Nearest(seeds, c, s)} ::
      InGrid(w, h, c) && Nearest(seeds, c, s) && Dist2(c, s) <= radius * radius ==> ChargedExactly(src, c, s)
  }

  /** The map as the layer promises it: inside the box every cell has the inflation of its nearest seed. */
  ghost predicate ExactMap(st: Settings, w: nat, h: nat, radius: nat, box: Box, seeds: set<Cell>,
                           before: seq<Byte>, after: seq<Byte>)
  {
    && |before| == w * h && |after| == w * h
    && forall c, s {:trigger Nearest(seeds, c, s)} :: InGrid(w, h, c) && InBox(box, c) && Nearest(seeds, c, s) ==>
         Get(w, h, after, c) == ExactInflation(st, radius, s, c, Get(w, h, before, c))
  }

  /** If every cell is linked to a nearest seed, the update is exact: ties between seeds are allowed. */
  lemma ExactWhenLinked(st: Settings, w: nat, h: nat, radius: nat, box: Box,
                        before: seq<Byte>, after: seq<Byte>, src: Sources)
    requires SweepResult(st, w, h, radius, box, before, after, src)
    requires AllLinked(w, h, WindowSeeds(st, w, h, radius, box, before), radius)
    ensures ExactSources(w, h, radius, WindowSeeds(st, w, h, radius, box, before), src)
    ensures ExactMap(st, w, h, radius, box, WindowSeeds(st, w, h, radius, box, before), before, after)
  {
    assert |before| == w * h;
    hide Window, SeedsIn, Dist2, Index, Get, InGrid, CostAt, Blend, Chained, SweepResult, Nearest, WindowSeeds, Linked;
    var seeds := WindowSeeds(st, w, h, radius, box, before);
    SeedsInMap(st, w, h, radius, box, before, after, src);
    forall c, s | InGrid(w, h, c) && Nearest(seeds, c, s) && Dist2(c, s) <= radius * radius
      ensures ChargedExactly(src, c, s)
    {
      var t :| Nearest(seeds, c, t) && Linked(w, h, seeds, c, t);
      SameDistance(seeds, c, s, t);
      LinkedChains(w, h, seeds, radius, c, t);
      ChainedIsExact(st, w, h, radius, box, before, after, src, c, t);
    }
    ExactSourcesGiveMap(st, w, h, radius, box, seeds, before, after, src);
  }

  lemma SameDistance(seeds: set<Cell>, c: Cell, s: Cell, t: Cell)
    requires Nearest(seeds, c, s) && Nearest(seeds, c, t)
    ensures Dist2(c, s) == Dist2(c, t)
  {
    hide Dist2;
  }

  lemma FarIsUnreached(seeds: set<Cell>, radius: nat, src: Sources, c: Cell, s: Cell)
    requires Nearest(seeds, c, s) && Dist2(c, s) > radius * radius
    requires forall d :: d in src ==> src[d] in seeds && Dist2(d, src[d]) <= radius * radius
    ensures c !in src
  {
    hide Dist2, Nearest;
    if c in src {
      NearestIsNearer(seeds, c, s, src[c]);
    }
  }

  lemma ExactSourcesGiveMap(st: Settings, w: nat, h: nat, radius: nat, box: Box, seeds: set<Cell>,
                            before: seq<Byte>, after: seq<Byte>, src: Sources)
    requires |before| == w * h && |after| == w * h && ExactSources(w, h, radius, seeds, src)
    requires forall c :: c in src ==> src[c] in seeds && Dist2(c, src[c]) <= radius * radius
    requires forall c :: InGrid(w, h, c) ==>
               Get(w, h, after, c) == Inflated(st, box, src, c, Get(w, h, before, c))
    ensures ExactMap(st, w, h, radius, box, seeds, before, after)
  {
    hide Dist2, Index, Get, InGrid, CostAt, Blend;
    forall c, s | InGrid(w, h, c) && InBox(box, c) && Nearest(seeds, c, s)
      ensures Get(w, h, after, c) == ExactInflation(st, radius, s, c, Get(w, h, before, c))
    {
      if Dist2(c, s) <= radius * radius {
        assert ChargedExactly(src, c, s);
      } else {
        FarIsUnreached(seeds, radius, src, c, s);
      }
    }
  }

  /** An exact update of a map without ties links every cell: a cell was reached from a neighbour
      charged to the same seed, and exactness makes that seed the neighbour's nearest. */
  lemma LinkedWhenExact(st: Settings, w: nat, h: nat, radius: nat, box: Box,
                        before: seq<Byte>, after: seq<Byte>, src: Sources, c: Cell, s: Cell)
    requires SweepResult(st, w, h, radius, box, before, after, src) && InGrid(w, h, c)
    requires NoTies(w, h, WindowSeeds(st, w, h, radius, box, before), radius)
    requires ExactSources(w, h, radius, WindowSeeds(st, w, h, radius, box, before), src)
    requires Owned(WindowSeeds(st, w, h, radius, box, before), c, s) && Dist2(c, s) <= radius * radius
    ensures Linked(w, h, WindowSeeds(st, w, h, radius, box, before), c, s)
  {
    hide Window, SeedsIn, Dist2, Index, Get, InGrid, ChargedAlongChains, Written, Adjacent;
    var seeds := WindowSeeds(st, w, h, radius, box, before);
    SeedsInMap(st, w, h, radius, box, before, after, src);
    OwnedIsNearest(seeds, c, s);
    assert ChargedExactly(src, c, s);
    assert src[c] == s;
    assert HasParent(src, c);
    hide SweepResult;
    if c != s {
      var p :| p in src && src[p] == s && Adjacent(p, c) && Dist2(p, s) < Dist2(c, s);
      var n := NearestExists(seeds, p);
      assert Dist2(p, n) <= Dist2(p, s);
      assert ChargedExactly(src, p, n);
      assert Nearest(seeds, p, s);
      assert Closer(w, h, p, c, s) && Owned(seeds, p, s);
    }
  }

  /** Without ties the update charges every cell for its true distance exactly when every cell that is
      no seed has a neighbour, closer to its nearest seed, with the same nearest seed. The condition
      can be read off the map before the update. */
  lemma ExactExactly(st: Settings, w: nat, h: nat, radius: nat, box: Box,
                     before: seq<Byte>, after: seq<Byte>, src: Sources)
    requires SweepResult(st, w, h, radius, box, before, after, src)
    requires NoTies(w, h, WindowSeeds(st, w, h, radius, box, before), radius)
    ensures ExactSources(w, h, radius, WindowSeeds(st, w, h, radius, box, before), src)
            <==> AllLinked(w, h, WindowSeeds(st, w, h, radius, box, before), radius)
  {
    assert |before| == w * h;
    hide SweepResult, SeedsIn, Window, WindowSeeds, Dist2, Linked, Nearest, Owned, ChargedExactly;
    var seeds := WindowSeeds(st, w, h, radius, box, before);
    if AllLinked(w, h, seeds, radius) {
      ExactWhenLinked(st, w, h, radius, box, before, after, src);
    }
    if ExactSources(w, h, radius, seeds, src) {
      forall c, s | InGrid(w, h, c) && Nearest(seeds, c, s) && Dist2(c, s) <= radius * radius
        ensures exists t :: Nearest(seeds, c, t) && Linked(w, h, seeds, c, t)
      {
        assert Owned(seeds, c, s);
        LinkedWhenExact(st, w, h, radius, box, before, after, src, c, s);
      }
    }
  }

  // ---------------------------------------------------------------- updating a box

  /** A seed outside the window cannot reach any cell of the box. */
  lemma WindowCatchesSeeds(box: Box, w: nat, h: nat, radius: nat, c: Cell, s: Cell)
    requires InBox(box, c) && InGrid(w, h, s) && Dist2(c, s) <= radius * radius
    ensures InBox(Window(box, w, h, radius), s)
  {
    WithinAxes(c, s, radius);
    hide Dist2;
  }

  lemma WholeWindow(w: nat, h: nat, radius: nat)
    ensures Window(Box(0, 0, w, h), w, h, radius) == Box(0, 0, w, h)
  {
  }

  lemma WindowSeedsAreSeeds(st: Settings, w: nat, h: nat, radius: nat, box: Box, before: seq<Byte>)
    requires |before| == w * h
    ensures WindowSeeds(st, w, h, radius, box, before) <= WindowSeeds(st, w, h, radius, Box(0, 0, w, h), before)
    ensures forall c, s :: InBox(box, c) && Dist2(c, s) <= radius * radius
                           && s in WindowSeeds(st, w, h, radius, Box(0, 0, w, h), before) ==>
              s in WindowSeeds(st, w, h, radius, box, before)
  {
    hide Dist2, Get, IsSeed, Index;
    var all := Box(0, 0, w, h);
    WholeWindow(w, h, radius);
    SeedMembers(st, w, h, before, Window(all, w, h, radius));
    SeedMembers(st, w, h, before, Window(box, w, h, radius));
    hide SeedsIn;
    forall c, s | InBox(box, c) && Dist2(c, s) <= radius * radius && s in WindowSeeds(st, w, h, radius, all, before)
      ensures s in WindowSeeds(st, w, h, radius, box, before)
    {
      assert SeedAt(st, w, h, before, Window(all, w, h, radius), s);
      WindowCatchesSeeds(box, w, h, radius, c, s);
      assert SeedAt(st, w, h, before, Window(box, w, h, radius), s);
    }
    forall s | s in WindowSeeds(st, w, h, radius, box, before)
      ensures s in WindowSeeds(st, w, h, radius, all, before)
    {
      assert SeedAt(st, w, h, before, Window(box, w, h, radius), s);
      assert SeedAt(st, w, h, before, Window(all, w, h, radius), s);
    }
  }

  /** What a cell of the box is charged for does not depend on the box, if a chain joins it to a
      nearest seed. */
  lemma SameChargeInBox(st: Settings, w: nat, h: nat, radius: nat, box: Box, before: seq<Byte>,
                        boxed: seq<Byte>, boxedSrc: Sources, whole: seq<Byte>, wholeSrc: Sources, c: Cell, s: Cell)
    requires SweepResult(st, w, h, radius, box, before, boxed, boxedSrc)
    requires SweepResult(st, w, h, radius, Box(0, 0, w, h), before, whole, wholeSrc)
    requires InGrid(w, h, c) && InBox(box, c) && Dist2(c, s) <= radius * radius
    requires var seeds := WindowSeeds(st, w, h, radius, Box(0, 0, w, h), before);
             Nearest(seeds, c, s) && Chained(w, h, seeds, c, s)
    ensures |boxed| == w * h && |whole| == w * h && Get(w, h, boxed, c) == Get(w, h, whole, c)
  {
    var all := Box(0, 0, w, h);
    assert InBox(all, c);
    assert |before| == w * h;
    hide Window, SeedsIn, WindowSeeds, Dist2, Index, Get, InGrid, Chained, SweepResult, ExactInflation;
    var seeds, fewer := WindowSeeds(st, w, h, radius, all, before), WindowSeeds(st, w, h, radius, box, before);
    WindowSeedsAreSeeds(st, w, h, radius, box, before);
    ChainedAmongFewer(w, h, seeds, fewer, c, s);
    assert Nearest(fewer, c, s);
    ChainedIsExact(st, w, h, radius, all, before, whole, wholeSrc, c, s);
    ChainedIsExact(st, w, h, radius, box, before, boxed, boxedSrc, c, s);
  }

  /** Every cell of the box within the radius of a seed is joined to a nearest one by a chain. */
  ghost predicate BoxChained(w: nat, h: nat, radius: nat, box: Box, seeds: set<Cell>) {
    forall c, s {:trigger Nearest(seeds, c, s)} ::
      InGrid(w, h, c) && InBox(box, c) && Nearest(seeds, c, s) && Dist2(c, s) <= radius * radius ==>
        exists t :: Nearest(seeds, c, t) && Chained(w, h, seeds, c, t)
  }

  /** Updating a box gives, inside the box, what updating the whole map gives, and nothing outside it,
      for any number of obstacles as long as every cell of the box has its chain. */
  lemma BoxedUpdateIsRestriction(st: Settings, w: nat, h: nat, radius: nat, box: Box, before: seq<Byte>,
                                 boxed: seq<Byte>, boxedSrc: Sources, whole: seq<Byte>, wholeSrc: Sources)
    requires SweepResult(st, w, h, radius, box, before, boxed, boxedSrc)
    requires SweepResult(st, w, h, radius, Box(0, 0, w, h), before, whole, wholeSrc)
    requires BoxChained(w, h, radius, box, WindowSeeds(st, w, h, radius, Box(0, 0, w, h), before))
    ensures |boxed| == w * h && |whole| == w * h
    ensures forall c :: InGrid(w, h, c) ==>
              Get(w, h, boxed, c) == if InBox(box, c) then Get(w, h, whole, c) else Get(w, h, before, c)
  {
    var all := Box(0, 0, w, h);
    hide Window, SeedsIn, WindowSeeds, Dist2, Index, Get, Chained, SweepResult, Nearest;
    SeedsInMap(st, w, h, radius, box, before, boxed, boxedSrc);
    SeedsInMap(st, w, h, radius, all, before, whole, wholeSrc);
    WindowSeedsAreSeeds(st, w, h, radius, box, before);
    var seeds := WindowSeeds(st, w, h, radius, all, before);
    forall c | InGrid(w, h, c)
      ensures Get(w, h, boxed, c) == if InBox(box, c) then Get(w, h, whole, c) else Get(w, h, before, c)
    {
      if InBox(box, c) && (c in boxedSrc || c in wholeSrc) {
        var u := if c in boxedSrc then boxedSrc[c] else wholeSrc[c];
        var s := NearestExists(seeds, c);
        NearestIsNearer(seeds, c, s, u);
        var t :| Nearest(seeds, c, t) && Chained(w, h, seeds, c, t);
        SameDistance(seeds, c, s, t);
        SameChargeInBox(st, w, h, radius, box, before, boxed, boxedSrc, whole, wholeSrc, c, t);
      }
    }
  }

  lemma NearestIsNearer(seeds: set<Cell>, c: Cell, s: Cell, t: Cell)
    requires Nearest(seeds, c, s) && t in seeds
    ensures Dist2(c, s) <= Dist2(c, t)
  {
  }

  /** In particular for pairwise isolated obstacles, such as a single one. */
  lemma IsolatedBoxIsChained(w: nat, h: nat, radius: nat, box: Box, seeds: set<Cell>)
    requires forall s :: s in seeds ==> InGrid(w, h, s) && Isolated(seeds, radius, s)
    ensures BoxChained(w, h, radius, box, seeds)
  {
    hide Dist2, Isolated, Chained, InGrid;
    forall c, s | InGrid(w, h, c) && InBox(box, c) && Nearest(seeds, c, s) && Dist2(c, s) <= radius * radius
      ensures exists t :: Nearest(seeds, c, t) && Chained(w, h, seeds, c, t)
    {
      IsolatedChains(w, h, seeds, radius, c, s);
    }
  }

  // ---------------------------------------------------------------- any number of seeds

  /** The order in which the layer only ever raises a cell: unknown lowest, then by cost. */
  function Severity(b: Byte): int {
    if b == NO_INFORMATION then -1 else b
  }

  ghost predicate CostFallsWithDistance(m: CostModel) {
    forall d: nat, e: nat :: d <= e ==> CostAt(m, e) <= CostAt(m, d)
  }

  /** The exponential function, of which only this is used. */
  ghost predicate IsExp(exp: real -> real) {
    exp(0.0) == 1.0 && forall x, y :: x <= y ==> 0.0 < exp(x) <= exp(y)
  }

  /** The falling branch of `computeCost`; a value no byte can hold is never computed there. */
  function Falloff(exp: real -> real, sqrt: real -> real, scaling: real, resolution: real, inscribed: real,
                   d2: nat): Byte {
    var factor := exp(-scaling * (sqrt(d2 as real) * resolution - inscribed));
    var cost := (252.0 * factor).Floor;
    if 0 <= cost < 256 then cost else 0
  }

  /** The cost of the squared distance never rises with it, over all three branches. */
  lemma CostModelFalls(exp: real -> real, sqrt: real -> real, scaling: real, resolution: real, inscribed: real)
    requires IsExp(exp) && IsSqrt(sqrt) && scaling >= 0.0 && resolution >= 0.0 && inscribed >= 0.0
    ensures var m := CostModel(resolution, inscribed,
                               (d: nat) => Falloff(exp, sqrt, scaling, resolution, inscribed, d));
            CostFallsWithDistance(m) && CostAt(m, 0) < NO_INFORMATION
  {
    var m := CostModel(resolution, inscribed, (d: nat) => Falloff(exp, sqrt, scaling, resolution, inscribed, d));
    var q := resolution * resolution;
    SquareOfReal(resolution);
    hide Falloff, IsExp, IsSqrt;
    forall d: nat, e: nat | d <= e ensures CostAt(m, e) <= CostAt(m, d) {
      ScaleKeepsOrder(d as real, e as real, q);
      BeyondInscribed(exp, sqrt, scaling, resolution, inscribed, d, e, q, inscribed * inscribed);
    }
  }

  lemma SquareOfReal(x: real)
    ensures x * x >= 0.0
  {
  }

  lemma ScaleKeepsOrder(a: real, b: real, k: real)
    requires a <= b && k >= 0.0
    ensures a * k <= b * k
  {
    assert (b - a) * k >= 0.0;
  }

  /** Beyond the inscribed radius the exponential is below one and falls. */
  lemma BeyondInscribed(exp: real -> real, sqrt: real -> real, scaling: real, resolution: real, inscribed: real,
                        d: nat, e: nat, q: real, limit: real)
    requires IsExp(exp) && IsSqrt(sqrt) && scaling >= 0.0 && resolution >= 0.0 && inscribed >= 0.0 && d <= e
    requires q == resolution * resolution && limit == inscribed * inscribed && d as real * q <= e as real * q
    ensures e as real * q > limit ==>
              Falloff(exp, sqrt, scaling, resolution, inscribed, e) < INSCRIBED_INFLATED_OBSTACLE
    ensures d as real * q > limit ==>
              Falloff(exp, sqrt, scaling, resolution, inscribed, e) <=
              Falloff(exp, sqrt, scaling, resolution, inscribed, d)
  {
    hide IsExp, IsSqrt, Falloff;
    if e as real * q > limit {
      FactorAtMostOne(exp, sqrt, scaling, resolution, inscribed, e);
      if d as real * q > limit {
        FactorAtMostOne(exp, sqrt, scaling, resolution, inscribed, d);
        FactorFalls(exp, sqrt, scaling, resolution, inscribed, d, e);
        FloorFalls(exp, sqrt, scaling, resolution, inscribed, d, e);
      }
    }
  }

  lemma FloorFalls(exp: real -> real, sqrt: real -> real, scaling: real, resolution: real, inscribed: real, d: nat,
                   e: nat)
    requires var near := exp(Argument(sqrt, scaling, resolution, inscribed, d));
             var far := exp(Argument(sqrt, scaling, resolution, inscribed, e));
             0.0 < far <= near <= 1.0
    ensures Falloff(exp, sqrt, scaling, resolution, inscribed, e) <=
              Falloff(exp, sqrt, scaling, resolution, inscribed, d)
  {
  }

  function Argument(sqrt: real -> real, scaling: real, resolution: real, inscribed: real, d2: nat): real {
    -scaling * (sqrt(d2 as real) * resolution - inscribed)
  }

  lemma FactorAtMostOne(exp: real -> real, sqrt: real -> real, scaling: real, resolution: real, inscribed: real, d: nat)
    requires IsExp(exp) && IsSqrt(sqrt) && scaling >= 0.0 && resolution >= 0.0 && inscribed >= 0.0
    requires d as real * (resolution * resolution) > inscribed * inscribed
    ensures 0.0 < exp(Argument(sqrt, scaling, resolution, inscribed, d)) <= 1.0
    ensures Falloff(exp, sqrt, scaling, resolution, inscribed, d) < INSCRIBED_INFLATED_OBSTACLE
  {
    var root := sqrt(d as real);
    SquareOfProduct(root, resolution, d as real);
    RootOrder(inscribed, root * resolution);
    NegativeProduct(scaling, root * resolution - inscribed);
    assert Argument(sqrt, scaling, resolution, inscribed, d) <= 0.0;
  }

  lemma SquareOfProduct(root: real, resolution: real, d: real)
    requires root * root == d && root >= 0.0 && resolution >= 0.0
    ensures (root * resolution) * (root * resolution) == d * (resolution * resolution) && root * resolution >= 0.0
  {
    assert (root * resolution) * (root * resolution) == (root * root) * (resolution * resolution);
  }

  lemma RootOrder(a: real, b: real)
    requires a >= 0.0 && b >= 0.0 && a * a <= b * b
    ensures a <= b
  {
    if a > b {
      LargerSquare(b, a);
    }
  }

  lemma LargerSquare(a: real, b: real)
    requires 0.0 <= a < b
    ensures a * a < b * b
  {
    PositiveProduct(b - a, b + a);
    assert (b - a) * (b + a) == b * b - a * a;
  }

  lemma PositiveProduct(x: real, y: real)
    requires x > 0.0 && y > 0.0
    ensures x * y > 0.0
  {
  }

  lemma NegativeProduct(k: real, x: real)
    requires k >= 0.0 && x >= 0.0
    ensures -k * x <= 0.0
  {
  }

  lemma FactorFalls(exp: real -> real, sqrt: real -> real, scaling: real, resolution: real, inscribed: real,
                    d: nat, e: nat)
    requires IsExp(exp) && IsSqrt(sqrt) && scaling >= 0.0 && resolution >= 0.0 && d <= e
    ensures exp(Argument(sqrt, scaling, resolution, inscribed, e)) <=
              exp(Argument(sqrt, scaling, resolution, inscribed, d))
  {
    var near, far := sqrt(d as real), sqrt(e as real);
    RootOrder(near, far);
    assert Argument(sqrt, scaling, resolution, inscribed, d) == -scaling * (near * resolution - inscribed);
    assert Argument(sqrt, scaling, resolution, inscribed, e) == -scaling * (far * resolution - inscribed);
    hide IsSqrt, Argument;
    ScaleKeepsOrder(near, far, resolution);
    FartherArgument(scaling, near * resolution - inscribed, far * resolution - inscribed);
  }

  lemma FartherArgument(k: real, x: real, y: real)
    requires k >= 0.0 && x <= y
    ensures -k * y <= -k * x
  {
    ScaleKeepsOrder(x, y, k);
    NegatedProducts(k, x, y);
  }

  lemma NegatedProducts(k: real, x: real, y: real)
    requires x * k <= y * k
    ensures -k * y <= -k * x
  {
  }

  lemma BlendMonotone(st: Settings, prior: Byte, low: Byte, high: Byte)
    requires low <= high < NO_INFORMATION
    ensures Severity(prior) <= Severity(Blend(st, prior, low)) <= Severity(Blend(st, prior, high))
  {
  }

  /** Any number of obstacles: a cell outside the box or beyond the radius of every obstacle keeps
      its value; a reached cell is charged to a real obstacle within the radius; the update never
      lowers a cell, and never raises it above the inflation of its true nearest obstacle. */
  lemma MultiSeedSound(st: Settings, w: nat, h: nat, radius: nat, box: Box,
                       before: seq<Byte>, after: seq<Byte>, src: Sources, c: Cell, nearest: Cell)
    requires SweepResult(st, w, h, radius, box, before, after, src) && InGrid(w, h, c)
    requires CostFallsWithDistance(st.model) && CostAt(st.model, 0) < NO_INFORMATION
    requires forall t :: SeedAt(st, w, h, before, Box(0, 0, w, h), t) ==> Dist2(c, nearest) <= Dist2(c, t)
    ensures |after| == w * h
    ensures !InBox(box, c) ==> Get(w, h, after, c) == Get(w, h, before, c)
    ensures Dist2(c, nearest) > radius * radius ==> Get(w, h, after, c) == Get(w, h, before, c)
    ensures c in src ==> SeedAt(st, w, h, before, Box(0, 0, w, h), src[c]) && Dist2(c, src[c]) <= radius * radius
    ensures Severity(Get(w, h, before, c)) <= Severity(Get(w, h, after, c))
    ensures Severity(Get(w, h, after, c)) <= Severity(ExactInflation(st, radius, nearest, c, Get(w, h, before, c)))
  {
    hide Dist2, Index, Get, CostAt, Blend, Window, IsSeed, Severity, ChargedAlongChains, AllHaveParents;
    var win := Window(box, w, h, radius);
    SeedMembers(st, w, h, before, win);
    var prior := Get(w, h, before, c);
    if c in src {
      assert SeedAt(st, w, h, before, win, src[c]);
      assert SeedAt(st, w, h, before, Box(0, 0, w, h), src[c]);
      var near, far := CostAt(st.model, Dist2(c, nearest)), CostAt(st.model, Dist2(c, src[c]));
      BlendMonotone(st, prior, far, near);
      BlendMonotone(st, prior, near, near);
    } else if Dist2(c, nearest) <= radius * radius {
      var near := CostAt(st.model, Dist2(c, nearest));
      BlendMonotone(st, prior, near, near);
    }
  }
}
