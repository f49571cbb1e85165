/** Which seed a cell is closest to, and how a wave of four-neighbour steps can get to it: geometry
    that can be read off the map before an update. */
module NearestSeeds {
  import opened GridMath

  /** No seed is closer to `c` than `s`. */
  ghost predicate Nearest(seeds: set<Cell>, c: Cell, s: Cell) {
    s in seeds && forall t :: t in seeds ==> Dist2(c, s) <= Dist2(c, t)
  }

  /** Every other seed is farther from `c` than `s`. */
  ghost predicate Owned(seeds: set<Cell>, c: Cell, s: Cell) {
    s in seeds && forall t :: t in seeds && t != s ==> Dist2(c, s) < Dist2(c, t)
  }

  /** `p` is a neighbour of `c` closer to `s`. */
  predicate Closer(w: nat, h: nat, p: Cell, c: Cell, s: Cell) {
    InGrid(w, h, p) && Adjacent(p, c) && Dist2(p, s) < Dist2(c, s)
  }

  /** A step from `c` toward `s` onto a cell owned by `s`. */
  ghost predicate Linked(w: nat, h: nat, seeds: set<Cell>, c: Cell, s: Cell) {
    c == s || exists p :: Closer(w, h, p, c, s) && Owned(seeds, p, s)
  }

  /** Steps from `c` to `s`, each closer than the last and, after `c` itself, all on cells owned by `s`. */
  ghost predicate Chained(w: nat, h: nat, seeds: set<Cell>, c: Cell, s: Cell)
    decreases Dist2(c, s)
  {
    c == s || exists p :: Closer(w, h, p, c, s) && Owned(seeds, p, s) && Chained(w, h, seeds, p, s)
  }

  /** All other seeds are more than two radii away. */
  ghost predicate Isolated(seeds: set<Cell>, radius: nat, s: Cell) {
    s in seeds && forall t :: t in seeds && t != s ==> Dist2(s, t) > 4 * (radius * radius)
  }

  lemma OwnedIsNearest(seeds: set<Cell>, c: Cell, s: Cell)
    requires Owned(seeds, c, s)
    ensures Nearest(seeds, c, s)
    ensures forall t :: Nearest(seeds, c, t) ==> t == s
  {
    hide Dist2;
  }

  lemma {:induction false} NearestExists(seeds: set<Cell>, c: Cell) returns (s: Cell)
    requires seeds != {}
    ensures Nearest(seeds, c, s)
  {
    hide Dist2;
    var t :| t in seeds;
    if seeds == {t} {
      s := t;
    } else {
      assert seeds - {t} != {} by { assert seeds == (seeds - {t}) + {t}; }
      s := NearestExists(seeds - {t}, c);
      if Dist2(c, t) < Dist2(c, s) {
        s := t;
      }
    }
  }

  /** Fewer seeds own no less. */
  lemma {:induction false} ChainedAmongFewer(w: nat, h: nat, seeds: set<Cell>, fewer: set<Cell>, c: Cell, s: Cell)
    requires fewer <= seeds && s in fewer && Chained(w, h, seeds, c, s)
    ensures Chained(w, h, fewer, c, s)
    decreases Dist2(c, s)
  {
    hide Dist2;
    if c == s {
    } else {
      var p :| Closer(w, h, p, c, s) && Owned(seeds, p, s) && Chained(w, h, seeds, p, s);
      ChainedAmongFewer(w, h, seeds, fewer, p, s);
      assert Owned(fewer, p, s);
    }
  }

  /** Within the radius of an isolated seed no other seed is as close. */
  lemma IsolatedOwnsDisc(seeds: set<Cell>, radius: nat, s: Cell, c: Cell)
    requires Isolated(seeds, radius, s) && Dist2(c, s) <= radius * radius
    ensures Owned(seeds, c, s)
  {
    hide Dist2;
    var reach := radius * radius;
    forall t | t in seeds && t != s ensures Dist2(c, s) < Dist2(c, t) {
      TwoLegs(s, c, t);
      FartherLeg(Dist2(s, t), Dist2(c, s), Dist2(c, t), reach);
    }
  }

  lemma FartherLeg(apart: nat, near: nat, far: nat, reach: nat)
    requires apart > 4 * reach && near <= reach && apart <= 2 * near + 2 * far
    ensures near < far
  {
  }

  /** (a + b)^2 <= 2 a^2 + 2 b^2 along each axis. */
  lemma TwoLegs(s: Cell, c: Cell, t: Cell)
    ensures Dist2(s, t) <= 2 * Dist2(c, s) + 2 * Dist2(c, t)
  {
    TwoSquares(s.x - c.x, c.x - t.x, s.x - t.x);
    TwoSquares(s.y - c.y, c.y - t.y, s.y - t.y);
    SquareOfOpposite(s.x - c.x, c.x - s.x);
    SquareOfOpposite(s.y - c.y, c.y - s.y);
  }

  lemma TwoSquares(a: int, b: int, sum: int)
    requires sum == a + b
    ensures sum * sum <= 2 * (a * a) + 2 * (b * b)
  {
    assert (a - b) * (a - b) == a * a - 2 * (a * b) + b * b;
    assert sum * sum == a * a + 2 * (a * b) + b * b;
    SquareNonNegative(a - b);
  }

  lemma SquareOfOpposite(a: int, b: int)
    requires a == -b
    ensures a * a == b * b
  {
  }

  /** Every cell of an isolated seed's disc can be reached over cells that seed owns. */
  lemma {:induction false} IsolatedChains(w: nat, h: nat, seeds: set<Cell>, radius: nat, c: Cell, s: Cell)
    requires Isolated(seeds, radius, s) && Dist2(c, s) <= radius * radius && InGrid(w, h, c) && InGrid(w, h, s)
    ensures Chained(w, h, seeds, c, s)
    decreases Dist2(c, s)
  {
    if c == s {
    } else {
      var p := StepTowards(c, s);
      hide Dist2, StepTowards, Isolated;
      assert Closer(w, h, p, c, s);
      IsolatedOwnsDisc(seeds, radius, s, p);
      IsolatedChains(w, h, seeds, radius, p, s);
    }
  }

  /** Every cell within the radius of a seed has a nearest seed it is linked to. */
  ghost predicate AllLinked(w: nat, h: nat, seeds: set<Cell>, radius: nat) {
    forall c, s {:trigger Nearest(seeds, c, s)} ::
      InGrid(w, h, c) && Nearest(seeds, c, s) && Dist2(c, s) <= radius * radius ==>
        exists t :: Nearest(seeds, c, t) && Linked(w, h, seeds, c, t)
  }

  /** No cell within the radius has two nearest seeds. */
  ghost predicate NoTies(w: nat, h: nat, seeds: set<Cell>, radius: nat) {
    forall c, s {:trigger Nearest(seeds, c, s)} ::
      InGrid(w, h, c) && Nearest(seeds, c, s) && Dist2(c, s) <= radius * radius ==> Owned(seeds, c, s)
  }

  lemma {:induction false} LinkedChains(w: nat, h: nat, seeds: set<Cell>, radius: nat, c: Cell, s: Cell)
    requires AllLinked(w, h, seeds, radius) && InGrid(w, h, c)
    requires Nearest(seeds, c, s) && Linked(w, h, seeds, c, s) && Dist2(c, s) <= radius * radius
    ensures Chained(w, h, seeds, c, s)
    decreases Dist2(c, s)
  {
    hide Dist2, InGrid;
    if c == s {
    } else {
      var p :| Closer(w, h, p, c, s) && Owned(seeds, p, s);
      OwnedIsNearest(seeds, p, s);
      var t :| Nearest(seeds, p, t) && Linked(w, h, seeds, p, t);
      LinkedChains(w, h, seeds, radius, p, s);
    }
  }
}
