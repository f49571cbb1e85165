/** Three obstacles on a small map whose inflation misses a cell within the radius. */
module InflationExample {
  import opened GridMath
  import opened NearestSeeds
  import opened Wavefront
  import opened InflationLayer
  import opened InflationTheorems

  const WIDTH: nat := 6
  const HEIGHT: nat := 7
  const RADIUS: nat := 5
  const WHOLE := Box(0, 0, WIDTH, HEIGHT)

  const A := Cell(4, 0)
  const B := Cell(2, 1)
  const C := Cell(0, 4)
  const CORNER := Cell(5, 5)

  predicate IsObstacle(c: Cell) {
    c == A || c == B || c == C
  }

  function Obstacles(): set<Cell> {
    {A, B, C}
  }

  /** Free but for the three obstacles. */
  ghost predicate IsMap(before: seq<Byte>) {
    && |before| == WIDTH * HEIGHT
    && forall c :: InGrid(WIDTH, HEIGHT, c) ==>
         Get(WIDTH, HEIGHT, before, c) == if IsObstacle(c) then LETHAL_OBSTACLE else FREE_SPACE
  }

  lemma SeedsOfMap(st: Settings, before: seq<Byte>)
    requires IsMap(before)
    ensures WindowSeeds(st, WIDTH, HEIGHT, RADIUS, WHOLE, before) == Obstacles()
  {
    WholeWindow(WIDTH, HEIGHT, RADIUS);
    SeedMembers(st, WIDTH, HEIGHT, before, WHOLE);
    hide Get, SeedsIn, Window;
    forall c ensures c in SeedsIn(st, WIDTH, HEIGHT, before, WHOLE) <==> c in Obstacles() {
      assert SeedAt(st, WIDTH, HEIGHT, before, WHOLE, c) <==> IsObstacle(c);
    }
  }

  /** `s` is the strictly nearest of the three. */
  predicate Wins(p: Cell, s: Cell) {
    && IsObstacle(s)
    && (s == A || Dist2(p, s) < Dist2(p, A))
    && (s == B || Dist2(p, s) < Dist2(p, B))
    && (s == C || Dist2(p, s) < Dist2(p, C))
  }

  /** One link of a chain. */
  lemma Link(p: Cell, c: Cell, s: Cell)
    requires InGrid(WIDTH, HEIGHT, p) && Adjacent(p, c) && Dist2(p, s) < Dist2(c, s) && Wins(p, s)
    requires Chained(WIDTH, HEIGHT, Obstacles(), p, s)
    ensures Chained(WIDTH, HEIGHT, Obstacles(), c, s)
  {
    hide Dist2, InGrid, Adjacent;
    assert Owned(Obstacles(), p, s);
    assert Closer(WIDTH, HEIGHT, p, c, s);
  }

  lemma RowIsWon(x: nat)
    requires x <= 4
    ensures Wins(Cell(x, 5), C) && Dist2(Cell(x, 5), C) == x * x + 1
  {
    hide Dist2;
    DistanceIs(Cell(x, 5), C, x, 1);
    DistanceIs(Cell(x, 5), B, Abs(x - 2), 4);
    DistanceIs(Cell(x, 5), A, Abs(x - 4), 5);
    assert Abs(x - 2) * Abs(x - 2) == x * x - 4 * x + 4;
    assert Abs(x - 4) * Abs(x - 4) == x * x - 8 * x + 16;
  }

  lemma ColumnIsWon(y: nat)
    requires y <= 4
    ensures Wins(Cell(5, y), A) && Dist2(Cell(5, y), A) == y * y + 1
  {
    hide Dist2;
    DistanceIs(Cell(5, y), A, 1, y);
    DistanceIs(Cell(5, y), B, 3, Abs(y - 1));
    DistanceIs(Cell(5, y), C, 5, Abs(y - 4));
    assert Abs(y - 1) * Abs(y - 1) == y * y - 2 * y + 1;
    assert Abs(y - 4) * Abs(y - 4) == y * y - 8 * y + 16;
  }

  /** The two ways into the corner belong to the outer obstacles. */
  lemma {:induction false} RowIsTaken(x: nat)
    requires x <= 4
    ensures Chained(WIDTH, HEIGHT, Obstacles(), Cell(x, 5), C)
  {
    hide Chained, Obstacles, Wins, Dist2;
    RowIsWon(x);
    if x == 0 {
      ChainEnds(C);
      AtTheEnds();
      Link(C, Cell(0, 5), C);
    } else {
      RowIsTaken(x - 1);
      RowIsWon(x - 1);
      assert (x - 1) * (x - 1) == x * x - 2 * x + 1;
      Link(Cell(x - 1, 5), Cell(x, 5), C);
    }
  }

  lemma {:induction false} ColumnIsTaken(y: nat)
    requires y <= 4
    ensures Chained(WIDTH, HEIGHT, Obstacles(), Cell(5, y), A)
  {
    hide Chained, Obstacles, Wins, Dist2;
    ColumnIsWon(y);
    if y == 0 {
      ChainEnds(A);
      AtTheEnds();
      Link(A, Cell(5, 0), A);
    } else {
      ColumnIsTaken(y - 1);
      ColumnIsWon(y - 1);
      assert (y - 1) * (y - 1) == y * y - 2 * y + 1;
      Link(Cell(5, y - 1), Cell(5, y), A);
    }
  }

  lemma DistanceIs(p: Cell, q: Cell, dx: nat, dy: nat)
    requires Abs(p.x - q.x) == dx && Abs(p.y - q.y) == dy
    ensures Dist2(p, q) == dx * dx + dy * dy
  {
  }

  lemma AtTheEnds()
    ensures Wins(A, A) && Wins(C, C) && Dist2(A, A) == 0 && Dist2(C, C) == 0
  {
    hide Dist2;
    DistanceIs(A, A, 0, 0);
    DistanceIs(A, B, 2, 1);
    DistanceIs(A, C, 4, 4);
    DistanceIs(C, C, 0, 0);
    DistanceIs(C, B, 2, 3);
    DistanceIs(C, A, 4, 4);
  }

  lemma ChainEnds(s: Cell)
    ensures Chained(WIDTH, HEIGHT, Obstacles(), s, s)
  {
  }

  /** The neighbours of the corner, and who is how close. */
  lemma AroundTheCorner()
    ensures forall p :: InGrid(WIDTH, HEIGHT, p) && Adjacent(p, CORNER) ==>
              p == Cell(4, 5) || p == Cell(5, 4) || p == Cell(5, 6)
    ensures Dist2(Cell(4, 5), B) > Dist2(Cell(4, 5), C) && Dist2(Cell(5, 4), B) > Dist2(Cell(5, 4), A)
    ensures Dist2(Cell(5, 6), B) > Dist2(CORNER, B)
    ensures Dist2(CORNER, A) > RADIUS * RADIUS && Dist2(CORNER, C) > RADIUS * RADIUS
    ensures Dist2(CORNER, B) == RADIUS * RADIUS
    ensures Dist2(Cell(4, 5), C) <= RADIUS * RADIUS && Dist2(Cell(5, 4), A) <= RADIUS * RADIUS
  {
    hide Dist2;
    DistanceIs(Cell(4, 5), B, 2, 4);
    DistanceIs(Cell(4, 5), C, 4, 1);
    DistanceIs(Cell(5, 4), B, 3, 3);
    DistanceIs(Cell(5, 4), A, 1, 4);
    DistanceIs(Cell(5, 6), B, 3, 5);
    DistanceIs(CORNER, A, 1, 5);
    DistanceIs(CORNER, B, 3, 4);
    DistanceIs(CORNER, C, 5, 1);
  }

  /** Only obstacle B is close enough to the corner, and its way there leads over taken cells. */
  lemma CornerIsUnreached(src: Sources)
    requires ChargedAlongChains(WIDTH, HEIGHT, RADIUS, Obstacles(), src) && AllHaveParents(src)
    requires forall c :: c in src ==> InGrid(WIDTH, HEIGHT, c) && src[c] in Obstacles()
    requires forall c :: c in src ==> Dist2(c, src[c]) <= RADIUS * RADIUS
    ensures CORNER !in src
  {
    RowIsTaken(4);
    ColumnIsTaken(4);
    AroundTheCorner();
    hide Chained, Dist2, Adjacent;
    assert ChargedWithin(src, Cell(4, 5), C);
    assert ChargedWithin(src, Cell(5, 4), A);
    hide ChargedAlongChains;
    assert src[Cell(4, 5)] != B && src[Cell(5, 4)] != B;
    hide ChargedWithin;
    NoParent(src);
    if CORNER in src {
      OnlyFromB(src[CORNER]);
    }
  }

  /** The corner cannot have been reached from any neighbour charged to B. */
  lemma NoParent(src: Sources)
    requires Cell(4, 5) in src && src[Cell(4, 5)] != B && Cell(5, 4) in src && src[Cell(5, 4)] != B
    requires forall c :: c in src ==> InGrid(WIDTH, HEIGHT, c)
    ensures CORNER in src && src[CORNER] == B ==> !HasParent(src, CORNER)
  {
    AroundTheCorner();
    hide Dist2, Adjacent;
  }

  lemma OnlyFromB(s: Cell)
    requires s in Obstacles() && Dist2(CORNER, s) <= RADIUS * RADIUS
    ensures s == B && s != CORNER
  {
    AroundTheCorner();
    hide Dist2;
  }

  /** Whatever the settings, the corner cell keeps its value although it lies within the radius of its
      nearest obstacle. */
  lemma SeveralSeedsMissACell(st: Settings, before: seq<Byte>, after: seq<Byte>, src: Sources)
    requires IsMap(before)
    requires SweepResult(st, WIDTH, HEIGHT, RADIUS, WHOLE, before, after, src)
    ensures Nearest(Obstacles(), CORNER, B) && Dist2(CORNER, B) <= RADIUS * RADIUS
    ensures CORNER !in src && |after| == WIDTH * HEIGHT && Get(WIDTH, HEIGHT, after, CORNER) == FREE_SPACE
    ensures !ExactSources(WIDTH, HEIGHT, RADIUS, WindowSeeds(st, WIDTH, HEIGHT, RADIUS, WHOLE, before), src)
  {
    SeedsOfMap(st, before);
    SeedsInMap(st, WIDTH, HEIGHT, RADIUS, WHOLE, before, after, src);
    assert ChargedAlongChains(WIDTH, HEIGHT, RADIUS, Obstacles(), src) && AllHaveParents(src);
    hide SweepResult, WindowSeeds, ChargedAlongChains, AllHaveParents, Get, Window, SeedsIn;
    CornerIsUnreached(src);
    AroundTheCorner();
    hide Dist2;
    assert Nearest(Obstacles(), CORNER, B);
    assert !ChargedExactly(src, CORNER, B);
  }
}
