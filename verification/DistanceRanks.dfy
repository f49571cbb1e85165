/** The integer rank table that replaces distances in the inflation wavefront
    (`generateIntegerDistances`). */
module DistanceRanks {
  import opened GridMath

  const ORIGIN := Cell(0, 0)

  function Norm(p: Cell): nat {
    Dist2(p, ORIGIN)
  }

  predicate InCircle(p: Cell, r: nat) {
    Norm(p) <= r * r
  }

  /** A square table addressed by offsets in -r..r. */
  predicate IsSquare(table: seq<seq<nat>>, r: nat) {
    |table| == 2 * r + 1 && forall i :: 0 <= i < |table| ==> |table[i]| == 2 * r + 1
  }

  predicate InTable(p: Cell, r: nat) {
    Abs(p.x) <= r && Abs(p.y) <= r
  }

  function Rank(table: seq<seq<nat>>, r: nat, p: Cell): nat
    requires IsSquare(table, r) && InTable(p, r)
  {
    table[p.x + r][p.y + r]
  }

  function SetRank(table: seq<seq<nat>>, r: nat, p: Cell, level: nat): (after: seq<seq<nat>>)
    requires IsSquare(table, r) && InTable(p, r)
    ensures IsSquare(after, r) && Rank(after, r, p) == level
    ensures forall q :: InTable(q, r) && q != p ==> Rank(after, r, q) == Rank(table, r, q)
  {
    var row: seq<nat> := table[p.x + r][p.y + r := level];
    table[p.x + r := row]
  }

  lemma CircleInTable(p: Cell, r: nat)
    requires InCircle(p, r)
    ensures InTable(p, r)
  {
    WithinAxes(p, ORIGIN, r);
  }

  /** The table orders offsets inside the circle exactly as their squared distances do. */
  ghost predicate RanksByDistance(table: seq<seq<nat>>, r: nat, maxRank: nat) {
    && IsSquare(table, r)
    && (forall p {:trigger Rank(table, r, p)} :: InTable(p, r) && InCircle(p, r) ==> Rank(table, r, p) <= maxRank)
    && Rank(table, r, ORIGIN) == 0
    && (forall p, q {:trigger Rank(table, r, p), Rank(table, r, q)} ::
          InTable(p, r) && InTable(q, r) && InCircle(p, r) && InCircle(q, r) ==>
          (Rank(table, r, p) < Rank(table, r, q) <==> Norm(p) < Norm(q)))
  }

  /** The points are exactly the offsets of the circle. */
  ghost predicate ListsCircle(points: seq<Cell>, r: nat) {
    forall p :: p in points <==> InCircle(p, r)
  }

  ghost predicate SortedByNorm(points: seq<Cell>) {
    forall i, j :: 0 <= i < j < |points| ==> Norm(points[i]) <= Norm(points[j])
  }

  lemma InsertKeepsSorted(sorted: seq<Cell>, k: nat, p: Cell)
    requires k <= |sorted| && SortedByNorm(sorted)
    requires k > 0 ==> Norm(sorted[k - 1]) <= Norm(p)
    requires k < |sorted| ==> Norm(p) <= Norm(sorted[k])
    ensures SortedByNorm(sorted[..k] + [p] + sorted[k..])
  {
    hide Norm;
    var after := sorted[..k] + [p] + sorted[k..];
    forall i, j | 0 <= i < j < |after| ensures Norm(after[i]) <= Norm(after[j]) {
      assert after[i] == if i < k then sorted[i] else if i == k then p else sorted[i - 1];
      assert after[j] == if j < k then sorted[j] else if j == k then p else sorted[j - 1];
    }
  }

  lemma InsertPermutes(sorted: seq<Cell>, k: nat, p: Cell)
    requires k <= |sorted|
    ensures multiset(sorted[..k] + [p] + sorted[k..]) == multiset(sorted + [p])
  {
    assert sorted == sorted[..k] + sorted[k..];
  }

  method InsertByNorm(sorted: seq<Cell>, p: Cell) returns (after: seq<Cell>)
    requires SortedByNorm(sorted)
    ensures SortedByNorm(after) && multiset(after) == multiset(sorted + [p])
  {
    hide *;
    var k := |sorted|;
    while k > 0 && Norm(sorted[k - 1]) > Norm(p)
      invariant 0 <= k <= |sorted|
      invariant k < |sorted| ==> Norm(p) < Norm(sorted[k])
    {
      k := k - 1;
    }
    InsertKeepsSorted(sorted, k, p);
    InsertPermutes(sorted, k, p);
    after := sorted[..k] + [p] + sorted[k..];
  }

  lemma TakeOneMore(points: seq<Cell>, n: nat, sorted: seq<Cell>, after: seq<Cell>)
    requires n < |points| && multiset(sorted) == multiset(points[..n])
    requires multiset(after) == multiset(sorted + [points[n]])
    ensures multiset(after) == multiset(points[..n + 1])
  {
    assert points[..n + 1] == points[..n] + [points[n]];
  }

  lemma NothingSorted()
    ensures SortedByNorm([])
  {
  }

  /** `std::sort` promises a sorted permutation and no order among equal keys; the callers below
      use nothing more than this contract. */
  method SortByNorm(points: seq<Cell>) returns (sorted: seq<Cell>)
    ensures SortedByNorm(sorted)
    ensures multiset(sorted) == multiset(points)
  {
    hide *;
    sorted := [];
    NothingSorted();
    for n := 0 to |points|
      invariant SortedByNorm(sorted)
      invariant multiset(sorted) == multiset(points[..n])
    {
      var after := InsertByNorm(sorted, points[n]);
      TakeOneMore(points, n, sorted, after);
      sorted := after;
    }
    assert points[..|points|] == points;
  }

  /** Scan order of the two loops: row by row. */
  predicate ScannedBefore(p: Cell, x: int, y: int) {
    p.y < y || (p.y == y && p.x < x)
  }

  ghost predicate Gathered(points: seq<Cell>, r: nat, x: int, y: int) {
    forall p :: p in points <==> InCircle(p, r) && ScannedBefore(p, x, y)
  }

  lemma GatherOne(points: seq<Cell>, r: nat, x: int, y: int)
    requires Gathered(points, r, x, y)
    ensures Gathered(if InCircle(Cell(x, y), r) then points + [Cell(x, y)] else points, r, x + 1, y)
  {
    hide InCircle;
    var after := if InCircle(Cell(x, y), r) then points + [Cell(x, y)] else points;
    forall p ensures p in after <==> InCircle(p, r) && ScannedBefore(p, x + 1, y) {
      assert p in after <==> p in points || (InCircle(Cell(x, y), r) && p == Cell(x, y));
    }
  }

  /** At the end of a row nothing of the circle is left on it. */
  lemma GatherRow(points: seq<Cell>, r: nat, y: int)
    requires Gathered(points, r, r + 1, y)
    ensures Gathered(points, r, -(r as int), y + 1)
  {
    forall p ensures p in points <==> InCircle(p, r) && ScannedBefore(p, -(r as int), y + 1) {
      if InCircle(p, r) { CircleInTable(p, r); }
    }
  }

  lemma GatherEnds(points: seq<Cell>, r: nat)
    ensures Gathered([], r, -(r as int), -(r as int))
    ensures Gathered(points, r, -(r as int), r + 1) ==> ListsCircle(points, r)
  {
    forall p ensures InCircle(p, r) ==> InTable(p, r) {
      if InCircle(p, r) { CircleInTable(p, r); }
    }
    hide InCircle;
  }

  /** The offsets of the circle of radius `r`. */
  method CirclePoints(r: nat) returns (points: seq<Cell>)
    ensures ListsCircle(points, r)
  {
    var lo := -(r as int);
    points := [];
    GatherEnds([], r);
    var y := lo;
    while y <= r
      invariant lo <= y <= r + 1
      invariant Gathered(points, r, lo, y)
    {
      var x := lo;
      while x <= r
        invariant lo <= x <= r + 1
        invariant Gathered(points, r, x, y)
      {
        GatherOne(points, r, x, y);
        if x * x + y * y <= r * r {
          points := points + [Cell(x, y)];
        }
        x := x + 1;
      }
      GatherRow(points, r, y);
      y := y + 1;
    }
    GatherEnds(points, r);
  }

  /** The first `n` sorted offsets are ranked, the last of them with `level`. */
  ghost predicate RankedUpTo(table: seq<seq<nat>>, r: nat, sorted: seq<Cell>, n: nat, level: nat)
    requires n <= |sorted|
  {
    && IsSquare(table, r)
    && (forall a :: 0 <= a < n ==> InTable(sorted[a], r) && Rank(table, r, sorted[a]) <= level)
    && (n > 0 ==> Rank(table, r, sorted[0]) == 0 && Rank(table, r, sorted[n - 1]) == level)
    && (forall a, b :: 0 <= a < n && 0 <= b < n ==>
          (Rank(table, r, sorted[a]) < Rank(table, r, sorted[b]) <==> Norm(sorted[a]) < Norm(sorted[b])))
  }

  lemma RankOneMore(table: seq<seq<nat>>, r: nat, sorted: seq<Cell>, n: nat, level: nat)
    requires n < |sorted| && SortedByNorm(sorted)
    requires RankedUpTo(table, r, sorted, n, level) && (n == 0 ==> level == 0)
    requires InTable(sorted[n], r)
    ensures var p := sorted[n];
            var next := if n > 0 && Norm(p) != Norm(sorted[n - 1]) then level + 1 else level;
            RankedUpTo(SetRank(table, r, p, next), r, sorted, n + 1, next)
  {
    var p := sorted[n];
    var next := if n > 0 && Norm(p) != Norm(sorted[n - 1]) then level + 1 else level;
    var after := SetRank(table, r, p, next);
    // An offset ranked before is either elsewhere in the table or had the very same rank.
    forall a | 0 <= a < n ensures Rank(after, r, sorted[a]) == Rank(table, r, sorted[a]) {
      if sorted[a] == p {
        assert Norm(sorted[a]) <= Norm(sorted[n - 1]) <= Norm(p);
        assert !(Rank(table, r, sorted[a]) < Rank(table, r, sorted[n - 1]));
      }
    }
    assert Rank(after, r, p) == next;
    forall a | 0 <= a < n
      ensures Rank(after, r, sorted[a]) < next <==> Norm(sorted[a]) < Norm(p)
      ensures !(next < Rank(after, r, sorted[a]))
    {
      assert Norm(sorted[a]) <= Norm(sorted[n - 1]) <= Norm(p);
    }
  }

  lemma RanksCoverCircle(table: seq<seq<nat>>, r: nat, sorted: seq<Cell>, level: nat)
    requires SortedByNorm(sorted) && RankedUpTo(table, r, sorted, |sorted|, level)
    requires ListsCircle(sorted, r)
    ensures RanksByDistance(table, r, level)
  {
    hide Norm, InCircle, ListsCircle, InTable, Rank, SortedByNorm, RankedUpTo;
    OriginFirst(sorted, r);
    OriginInCircle(r);
    OriginRank(table, r, sorted, level);
    CircleRanked(table, r, sorted, level);
  }

  lemma CircleRanked(table: seq<seq<nat>>, r: nat, sorted: seq<Cell>, level: nat)
    requires RankedUpTo(table, r, sorted, |sorted|, level)
    requires ListsCircle(sorted, r)
    ensures IsSquare(table, r)
    ensures forall p {:trigger Rank(table, r, p)} :: InTable(p, r) && InCircle(p, r) ==> Rank(table, r, p) <= level
    ensures forall p, q {:trigger Rank(table, r, p), Rank(table, r, q)} ::
              InTable(p, r) && InTable(q, r) && InCircle(p, r) && InCircle(q, r) ==>
              (Rank(table, r, p) < Rank(table, r, q) <==> Norm(p) < Norm(q))
  {
    assert IsSquare(table, r);
    hide Norm, InCircle, InTable, Rank, RankedUpTo, IsSquare;
    forall p | InTable(p, r) && InCircle(p, r) ensures Rank(table, r, p) <= level {
      PairRanked(table, r, sorted, level, p, p);
    }
    forall p, q | InTable(p, r) && InTable(q, r) && InCircle(p, r) && InCircle(q, r)
      ensures Rank(table, r, p) < Rank(table, r, q) <==> Norm(p) < Norm(q)
    {
      PairRanked(table, r, sorted, level, p, q);
    }
  }

  lemma PairRanked(table: seq<seq<nat>>, r: nat, sorted: seq<Cell>, level: nat, p: Cell, q: Cell)
    requires RankedUpTo(table, r, sorted, |sorted|, level)
    requires p in sorted && q in sorted
    ensures InTable(p, r) && InTable(q, r) && Rank(table, r, p) <= level
    ensures Rank(table, r, p) < Rank(table, r, q) <==> Norm(p) < Norm(q)
  {
    hide Norm, InTable, Rank;
    var a :| 0 <= a < |sorted| && sorted[a] == p;
    var b :| 0 <= b < |sorted| && sorted[b] == q;
  }

  lemma OriginRank(table: seq<seq<nat>>, r: nat, sorted: seq<Cell>, level: nat)
    requires |sorted| > 0 && RankedUpTo(table, r, sorted, |sorted|, level)
    requires Norm(sorted[0]) == 0 && Norm(ORIGIN) == 0
    requires ORIGIN in sorted
    ensures InTable(ORIGIN, r) && Rank(table, r, ORIGIN) == 0
  {
    hide Norm;
    var o :| 0 <= o < |sorted| && sorted[o] == ORIGIN;
    assert !(Rank(table, r, sorted[0]) < Rank(table, r, sorted[o]));
  }

  lemma OriginInCircle(r: nat)
    ensures Norm(ORIGIN) == 0 && InCircle(ORIGIN, r)
  {
    SquareNonNegative(r);
  }

  lemma OriginFirst(sorted: seq<Cell>, r: nat)
    requires SortedByNorm(sorted)
    requires ListsCircle(sorted, r)
    ensures |sorted| > 0 && Norm(sorted[0]) == 0 && ORIGIN in sorted
  {
    OriginInCircle(r);
    hide Norm, InCircle;
    assert ORIGIN in sorted;
    var o :| 0 <= o < |sorted| && sorted[o] == ORIGIN;
    assert Norm(sorted[0]) <= Norm(sorted[o]);
  }

  lemma ListedInTable(points: seq<Cell>, r: nat, n: nat)
    requires ListsCircle(points, r) && n < |points|
    ensures InTable(points[n], r)
  {
    assert points[n] in points;
    CircleInTable(points[n], r);
  }

  lemma SortKeepsMembers(points: seq<Cell>, sorted: seq<Cell>)
    requires multiset(sorted) == multiset(points)
    ensures forall p :: p in sorted <==> p in points
  {
    forall p ensures p in sorted <==> p in points {
      assert p in sorted <==> p in multiset(sorted);
      assert p in points <==> p in multiset(points);
    }
  }

  method SortedCircle(r: nat) returns (sorted: seq<Cell>)
    ensures SortedByNorm(sorted)
    ensures ListsCircle(sorted, r)
    ensures |sorted| > 0 && Norm(sorted[0]) == 0
  {
    hide Norm, InCircle, SortedByNorm;
    var points := CirclePoints(r);
    sorted := SortByNorm(points);
    SortKeepsMembers(points, sorted);
    OriginFirst(sorted, r);
  }

  /** The table before the loop: all zero, nothing ranked yet. */
  function ZeroTable(r: nat, sorted: seq<Cell>): (table: seq<seq<nat>>)
    ensures IsSquare(table, r) && RankedUpTo(table, r, sorted, 0, 0)
  {
    seq(2 * r + 1, _ => seq(2 * r + 1, _ => 0))
  }

  /** Whatever order the sort leaves equal distances in, the table it yields ranks every pair of
      offsets inside the circle as their distances do, and `level` is the greatest rank. */
  method GenerateIntegerDistances(cellInflationRadius: nat) returns (table: seq<seq<nat>>, level: nat)
    ensures IsSquare(table, cellInflationRadius + 2)
    ensures RanksByDistance(table, cellInflationRadius + 2, level)
  {
    hide *;
    var r := cellInflationRadius + 2;
    var sorted := SortedCircle(r);
    table := ZeroTable(r, sorted);
    level := 0;
    var last := ORIGIN;
    OriginInCircle(r);
    for n := 0 to |sorted|
      invariant n == 0 ==> last == ORIGIN && level == 0
      invariant n > 0 ==> last == sorted[n - 1]
      invariant IsSquare(table, r) && RankedUpTo(table, r, sorted, n, level)
    {
      var p := sorted[n];
      ListedInTable(sorted, r, n);
      RankOneMore(table, r, sorted, n, level);
      if Norm(p) != Norm(last) {
        level := level + 1;
      }
      table := SetRank(table, r, p, level);
      last := p;
    }
    RanksCoverCircle(table, r, sorted, level);
  }

  lemma RankBounded(table: seq<seq<nat>>, r: nat, maxRank: nat, p: Cell)
    requires RanksByDistance(table, r, maxRank) && InTable(p, r) && InCircle(p, r)
    ensures Rank(table, r, p) <= maxRank
  {
    hide Norm, InCircle, InTable, Rank, IsSquare;
  }

  lemma OriginRanksZero(table: seq<seq<nat>>, r: nat, maxRank: nat)
    requires RanksByDistance(table, r, maxRank)
    ensures IsSquare(table, r) && InTable(ORIGIN, r) && Rank(table, r, ORIGIN) == 0
  {
    hide Norm, InCircle, Rank;
  }

  lemma RankOrdered(table: seq<seq<nat>>, r: nat, maxRank: nat, p: Cell, q: Cell)
    requires RanksByDistance(table, r, maxRank)
    requires InTable(p, r) && InCircle(p, r) && InTable(q, r) && InCircle(q, r)
    ensures Rank(table, r, p) < Rank(table, r, q) <==> Norm(p) < Norm(q)
  {
    hide Norm, InCircle, InTable, Rank, IsSquare;
  }
}
