/** Rasterising a polygon: Bresenham outline, backtracking sort by column, and column fill. */
module ConvexFill {
  import opened GridMath

  // ---------------------------------------------------------------- line tracing

  /** A traced segment: from `a` to `b`, one cell for each step along the longer axis, inside their
      bounding box, and never more than half a cell off the straight line. */
  ghost predicate IsLine(line: seq<Cell>, a: Cell, b: Cell) {
    IsTrace(line, a, b) && |line| == Longer(a, b) + 1 && line[|line| - 1] == b
  }

  /** The beginning of a traced segment. */
  ghost predicate IsTrace(line: seq<Cell>, a: Cell, b: Cell) {
    && line != [] && line[0] == a
    && (forall k :: 0 <= k < |line| ==> NearSegment(line[k], a, b))
    && (forall k :: 0 <= k < |line| ==> InSpan(line[k].x, a.x, b.x) && InSpan(line[k].y, a.y, b.y))
    && (forall k :: 0 <= k < |line| - 1 ==> Touching(line[k], line[k + 1]))
  }

  function Longer(a: Cell, b: Cell): nat {
    var dx, dy := Abs(b.x - a.x), Abs(b.y - a.y);
    if dx >= dy then dx else dy
  }

  /** The cross product is the distance from the line through `a` and `b`, along the shorter axis,
      times the longer side. */
  predicate NearSegment(p: Cell, a: Cell, b: Cell) {
    2 * Abs((p.x - a.x) * (b.y - a.y) - (p.y - a.y) * (b.x - a.x)) <= Longer(a, b)
  }

  predicate InSpan(v: int, a: int, b: int) {
    a <= v <= b || b <= v <= a
  }

  predicate Touching(p: Cell, q: Cell) {
    Abs(p.x - q.x) <= 1 && Abs(p.y - q.y) <= 1
  }

  function IndexToCells(w: nat, index: int): Cell
    requires w > 0
  {
    Cell(index - (index / w) * w, index / w)
  }

  /** A larger factor is larger by at least one whole multiple. */
  lemma MulGap(a: int, b: int, c: nat)
    ensures a < b ==> a * c + c <= b * c
  {
    if a < b {
      assert (a + 1) * c <= b * c;
      assert (a + 1) * c == a * c + c;
    }
  }

  lemma IndexToCellsInverts(w: nat, h: nat, c: Cell)
    requires InGrid(w, h, c)
    ensures IndexToCells(w, Index(w, c)) == c
  {
    var index := c.y * w + c.x;
    var q := index / w;
    assert index == q * w + index % w;
    MulGap(q, c.y, w);
    MulGap(c.y, q, w);
  }

  function Sign(x: int): int {
    if x > 0 then 1 else -1
  }

  /** The cell `i` steps along the dominant axis and `n` along the other. */
  function Along(a: Cell, stepA: Cell, stepB: Cell, i: int, n: int): Cell {
    Cell(a.x + i * stepA.x + n * stepB.x, a.y + i * stepA.y + n * stepB.y)
  }

  /** Bresenham's error term after `i` dominant and `n` minor steps. */
  ghost predicate ErrorTerm(absDa: nat, absDb: nat, errorB: int, i: nat, n: nat) {
    && errorB == absDa / 2 + i * absDb - n * absDa
    && (absDa > 0 ==> 0 <= errorB < absDa)
  }

  lemma MinorStepsBounded(absDa: nat, absDb: nat, errorB: int, i: nat, n: nat)
    requires ErrorTerm(absDa, absDb, errorB, i, n) && 0 < absDa && absDb <= absDa && i <= absDa
    ensures n <= absDb
    ensures i == absDa ==> n == absDb
  {
    MulGap(absDb, n, absDa);
    MulGap(n, absDb, absDa);
    MulGap(i, absDa, absDb);
    assert absDa * absDb == absDb * absDa;
  }

  lemma ErrorStep(absDa: nat, absDb: nat, errorB: int, i: nat, n: nat)
    requires ErrorTerm(absDa, absDb, errorB, i, n) && absDb <= absDa && 0 < absDa
    ensures errorB + absDb < absDa ==> ErrorTerm(absDa, absDb, errorB + absDb, i + 1, n)
    ensures errorB + absDb >= absDa ==> ErrorTerm(absDa, absDb, errorB + absDb - absDa, i + 1, n + 1)
  {
    assert (i + 1) * absDb == i * absDb + absDb;
    assert (n + 1) * absDa == n * absDa + absDa;
  }

  predicate UnitStep(s: Cell) {
    s == Cell(1, 0) || s == Cell(-1, 0) || s == Cell(0, 1) || s == Cell(0, -1)
  }

  /** `stepA` is the dominant axis direction, `stepB` the other, and they lead from `a` to `b`. */
  ghost predicate LineSetup(a: Cell, b: Cell, stepA: Cell, stepB: Cell, absDa: nat, absDb: nat) {
    && UnitStep(stepA) && UnitStep(stepB) && (stepA.x == 0 <==> stepB.x != 0)
    && absDb <= absDa && Along(a, stepA, stepB, absDa, absDb) == b
  }

  lemma LongerSide(a: Cell, b: Cell, stepA: Cell, stepB: Cell, absDa: nat, absDb: nat)
    requires LineSetup(a, b, stepA, stepB, absDa, absDb)
    ensures Longer(a, b) == absDa
  {
  }

  /** With its error term in range, the cell after `i` and `n` steps is within half a cell of the line. */
  lemma AlongIsNear(a: Cell, b: Cell, stepA: Cell, stepB: Cell, absDa: nat, absDb: nat, errorB: int, i: nat, n: nat)
    requires LineSetup(a, b, stepA, stepB, absDa, absDb) && ErrorTerm(absDa, absDb, errorB, i, n)
    requires absDa == 0 ==> i == 0 && n == 0
    ensures NearSegment(Along(a, stepA, stepB, i, n), a, b)
  {
    LongerSide(a, b, stepA, stepB, absDa, absDb);
    var p := Along(a, stepA, stepB, i, n);
    CrossProduct(stepA, stepB, absDa, absDb, i, n);
    assert b.x - a.x == absDa * stepA.x + absDb * stepB.x && b.y - a.y == absDa * stepA.y + absDb * stepB.y;
    assert p.x - a.x == i * stepA.x + n * stepB.x && p.y - a.y == i * stepA.y + n * stepB.y;
    hide LineSetup, Along, Longer;
    HalfCell(absDa, errorB, i * absDb - n * absDa);
  }

  lemma HalfCell(absDa: nat, errorB: int, gap: int)
    requires errorB == absDa / 2 + gap && (absDa > 0 ==> 0 <= errorB < absDa) && (absDa == 0 ==> gap == 0)
    ensures 2 * Abs(gap) <= absDa
  {
  }

  lemma CrossProduct(stepA: Cell, stepB: Cell, absDa: nat, absDb: nat, i: nat, n: nat)
    requires UnitStep(stepA) && UnitStep(stepB) && (stepA.x == 0 <==> stepB.x != 0)
    ensures Abs((i * stepA.x + n * stepB.x) * (absDa * stepA.y + absDb * stepB.y)
                - (i * stepA.y + n * stepB.y) * (absDa * stepA.x + absDb * stepB.x)) == Abs(i * absDb - n * absDa)
  {
  }

  lemma AlongInBox(a: Cell, b: Cell, stepA: Cell, stepB: Cell, absDa: nat, absDb: nat, i: nat, n: nat)
    requires LineSetup(a, b, stepA, stepB, absDa, absDb) && i <= absDa && n <= absDb
    ensures var p := Along(a, stepA, stepB, i, n); InSpan(p.x, a.x, b.x) && InSpan(p.y, a.y, b.y)
    ensures forall w, h :: InGrid(w, h, a) && InGrid(w, h, b) ==> InGrid(w, h, Along(a, stepA, stepB, i, n))
  {
  }

  lemma AlongSteps(w: nat, a: Cell, stepA: Cell, stepB: Cell, i: nat, n: nat)
    requires UnitStep(stepA) && UnitStep(stepB) && (stepA.x == 0 <==> stepB.x != 0)
    ensures Index(w, Along(a, stepA, stepB, i + 1, n)) == Index(w, Along(a, stepA, stepB, i, n)) + Index(w, stepA)
    ensures Index(w, Along(a, stepA, stepB, i + 1, n + 1)) ==
            Index(w, Along(a, stepA, stepB, i, n)) + Index(w, stepA) + Index(w, stepB)
    ensures Touching(Along(a, stepA, stepB, i, n), Along(a, stepA, stepB, i + 1, n))
    ensures Touching(Along(a, stepA, stepB, i, n), Along(a, stepA, stepB, i + 1, n + 1))
  {
    var p := Along(a, stepA, stepB, i, n);
    assert Along(a, stepA, stepB, i + 1, n) == Cell(p.x + stepA.x, p.y + stepA.y);
    assert Along(a, stepA, stepB, i + 1, n + 1) == Cell(p.x + stepA.x + stepB.x, p.y + stepA.y + stepB.y);
    assert (p.y + stepA.y) * w == p.y * w + stepA.y * w;
    assert (p.y + stepA.y + stepB.y) * w == p.y * w + stepA.y * w + stepB.y * w;
  }

  /** The cells pushed so far lie on the way from `a` and end at `p`'s predecessor. */
  ghost predicate PartialLine(line: seq<Cell>, a: Cell, b: Cell, p: Cell) {
    && (if |line| == 0 then p == a else line[0] == a && Touching(line[|line| - 1], p))
    && (forall k :: 0 <= k < |line| ==> NearSegment(line[k], a, b))
    && (forall k :: 0 <= k < |line| ==> InSpan(line[k].x, a.x, b.x) && InSpan(line[k].y, a.y, b.y))
    && (forall k :: 0 <= k < |line| - 1 ==> Touching(line[k], line[k + 1]))
  }

  lemma ExtendLine(line: seq<Cell>, a: Cell, b: Cell, p: Cell, q: Cell)
    requires PartialLine(line, a, b, p) && NearSegment(p, a, b) && InSpan(p.x, a.x, b.x) && InSpan(p.y, a.y, b.y)
    ensures Touching(p, q) ==> PartialLine(line + [p], a, b, q)
    ensures IsTrace(line + [p], a, b)
    ensures p == b && |line| == Longer(a, b) ==> IsLine(line + [p], a, b)
  {
    hide Touching, InSpan, NearSegment, Longer;
    var after := line + [p];
    assert forall k :: 0 <= k < |after| ==> NearSegment(after[k], a, b);
    assert forall k :: 0 <= k < |after| ==> InSpan(after[k].x, a.x, b.x) && InSpan(after[k].y, a.y, b.y);
    assert forall k :: 0 <= k < |after| - 1 ==> Touching(after[k], after[k + 1]);
  }

  /** `bresenham2D` with the cell-gathering action; offsets are flat indices. A length limit cuts the
      line off after that many steps. */
  method Bresenham2D(w: nat, absDa: nat, absDb: nat, errorB0: int, offsetA: int, offsetB: int, offset0: int,
                     maxLength: nat, ghost h: nat, ghost a: Cell, ghost b: Cell, ghost stepA: Cell, ghost stepB: Cell)
    returns (line: seq<Cell>)
    requires LineSetup(a, b, stepA, stepB, absDa, absDb) && InGrid(w, h, a) && InGrid(w, h, b)
    requires errorB0 == absDa / 2
    requires offset0 == Index(w, a) && offsetA == Index(w, stepA) && offsetB == Index(w, stepB)
    ensures |line| == (if maxLength < absDa then maxLength else absDa) + 1 && IsTrace(line, a, b)
    ensures absDa <= maxLength ==> IsLine(line, a, b)
  {
    hide Index, ErrorTerm, PartialLine, IsLine, IsTrace, Along, InSpan, Touching, IndexToCells, NearSegment, Longer;
    var end := if maxLength < absDa then maxLength else absDa;
    line := [];
    var offset, errorB := offset0, errorB0;
    ghost var n: nat := 0;
    LineBegins(a, b, stepA, stepB, absDa, absDb);
    for i := 0 to end
      invariant ErrorTerm(absDa, absDb, errorB, i, n) && n <= absDb && |line| == i
      invariant offset == Index(w, Along(a, stepA, stepB, i, n))
      invariant PartialLine(line, a, b, Along(a, stepA, stepB, i, n))
    {
      ghost var p := Along(a, stepA, stepB, i, n);
      AlongInBox(a, b, stepA, stepB, absDa, absDb, i, n);
      AlongIsNear(a, b, stepA, stepB, absDa, absDb, errorB, i, n);
      IndexToCellsInverts(w, h, p);
      AlongSteps(w, a, stepA, stepB, i, n);
      ErrorStep(absDa, absDb, errorB, i, n);
      ExtendLine(line, a, b, p, Along(a, stepA, stepB, i + 1, n));
      ExtendLine(line, a, b, p, Along(a, stepA, stepB, i + 1, n + 1));
      line := line + [IndexToCells(w, offset)];
      offset := offset + offsetA;
      errorB := errorB + absDb;
      if errorB >= absDa {
        offset := offset + offsetB;
        errorB := errorB - absDa;
        n := n + 1;
      }
      MinorStepsBounded(absDa, absDb, errorB, i + 1, n);
    }
    ghost var last := Along(a, stepA, stepB, end, n);
    AlongInBox(a, b, stepA, stepB, absDa, absDb, end, n);
    IndexToCellsInverts(w, h, last);
    AlongIsNear(a, b, stepA, stepB, absDa, absDb, errorB, end, n);
    LongerSide(a, b, stepA, stepB, absDa, absDb);
    LineEnds(a, b, stepA, stepB, absDa, absDb, errorB, end, n);
    ExtendLine(line, a, b, last, last);
    line := line + [IndexToCells(w, offset)];
  }

  lemma LineBegins(a: Cell, b: Cell, stepA: Cell, stepB: Cell, absDa: nat, absDb: nat)
    ensures Along(a, stepA, stepB, 0, 0) == a && PartialLine([], a, b, a)
    ensures ErrorTerm(absDa, absDb, absDa / 2, 0, 0)
  {
  }

  lemma LineEnds(a: Cell, b: Cell, stepA: Cell, stepB: Cell, absDa: nat, absDb: nat, errorB: int, end: nat, n: nat)
    requires LineSetup(a, b, stepA, stepB, absDa, absDb) && ErrorTerm(absDa, absDb, errorB, end, n)
    requires n <= absDb && end <= absDa
    ensures end == absDa ==> Along(a, stepA, stepB, end, n) == b
  {
    if end == absDa {
      LineCompletes(absDa, absDb, errorB, n);
    }
  }

  /** After all dominant steps, exactly all minor steps have been made. */
  lemma LineCompletes(absDa: nat, absDb: nat, errorB: int, n: nat)
    requires ErrorTerm(absDa, absDb, errorB, absDa, n) && absDb <= absDa && n <= absDb
    ensures n == absDb
  {
    if absDa > 0 { MinorStepsBounded(absDa, absDb, errorB, absDa, n); }
  }

  /** `raytraceLine` with its default lengths. */
  method RaytraceLine(w: nat, ghost h: nat, a: Cell, b: Cell) returns (line: seq<Cell>)
    requires InGrid(w, h, a) && InGrid(w, h, b)
    ensures IsLine(line, a, b)
  {
    hide Index, IsLine;
    var dx, dy := b.x - a.x, b.y - a.y;
    var absDx, absDy := Abs(dx), Abs(dy);
    var offset := a.y * w + a.x;
    var offsetDx, offsetDy := Sign(dx), Sign(dy) * w;
    RaySetup(w, a, b);
    if absDx >= absDy {
      line := Bresenham2D(w, absDx, absDy, absDx / 2, offsetDx, offsetDy, offset, absDx,
                          h, a, b, Cell(Sign(dx), 0), Cell(0, Sign(dy)));
      return;
    }
    line := Bresenham2D(w, absDy, absDx, absDy / 2, offsetDy, offsetDx, offset, absDy,
                        h, a, b, Cell(0, Sign(dy)), Cell(Sign(dx), 0));
  }

  lemma RaySetup(w: nat, a: Cell, b: Cell)
    ensures var dx, dy := b.x - a.x, b.y - a.y;
            && a.y * w + a.x == Index(w, a)
            && Index(w, Cell(Sign(dx), 0)) == Sign(dx) && Index(w, Cell(0, Sign(dy))) == Sign(dy) * w
            && (Abs(dx) >= Abs(dy) ==> LineSetup(a, b, Cell(Sign(dx), 0), Cell(0, Sign(dy)), Abs(dx), Abs(dy)))
            && (Abs(dx) < Abs(dy) ==> LineSetup(a, b, Cell(0, Sign(dy)), Cell(Sign(dx), 0), Abs(dy), Abs(dx)))
  {
  }

  // ---------------------------------------------------------------- the closed outline

  /** `cells` is made of one traced segment per polygon edge, the last edge closing the polygon;
      segment `i` starts at position `starts[i]`. */
  ghost predicate IsOutline(cells: seq<Cell>, polygon: seq<Cell>, starts: seq<nat>) {
    && |starts| == |polygon| + 1 && starts[0] == 0 && starts[|polygon|] == |cells|
    && forall i :: 0 <= i < |polygon| ==> IsSegment(cells, polygon, starts, i)
  }

  ghost predicate IsSegment(cells: seq<Cell>, polygon: seq<Cell>, starts: seq<nat>, i: nat)
    requires i < |polygon| && i + 1 < |starts|
  {
    && starts[i] < starts[i + 1] <= |cells|
    && IsLine(cells[starts[i]..starts[i + 1]], polygon[i], polygon[if i + 1 < |polygon| then i + 1 else 0])
  }

  /** The segments traced so far. */
  ghost predicate IsPartialOutline(cells: seq<Cell>, polygon: seq<Cell>, starts: seq<nat>, n: nat) {
    && n <= |polygon| && |starts| == n + 1 && starts[0] == 0 && starts[n] == |cells|
    && forall i :: 0 <= i < n ==> IsSegment(cells, polygon, starts, i)
  }

  lemma AppendSegment(cells: seq<Cell>, polygon: seq<Cell>, starts: seq<nat>, n: nat, line: seq<Cell>)
    requires IsPartialOutline(cells, polygon, starts, n) && n < |polygon|
    requires IsLine(line, polygon[n], polygon[if n + 1 < |polygon| then n + 1 else 0])
    ensures IsPartialOutline(cells + line, polygon, starts + [|cells| + |line|], n + 1)
  {
    var after, starts' := cells + line, starts + [|cells| + |line|];
    assert |line| > 0;
    hide IsLine;
    forall i | 0 <= i < n + 1 ensures IsSegment(after, polygon, starts', i) {
      if i < n {
        assert IsSegment(cells, polygon, starts, i);
        assert after[starts'[i]..starts'[i + 1]] == cells[starts[i]..starts[i + 1]];
      } else {
        assert after[starts'[n]..starts'[n + 1]] == line;
      }
    }
  }

  method PolygonOutlineCells(w: nat, ghost h: nat, polygon: seq<Cell>)
    returns (cells: seq<Cell>, ghost starts: seq<nat>)
    requires |polygon| > 0 && forall p :: p in polygon ==> InGrid(w, h, p)
    ensures IsOutline(cells, polygon, starts)
    ensures ClosedWalk(cells)
  {
    hide IsLine, InGrid, IsSegment, ClosedWalk;
    cells, starts := [], [0];
    for i := 0 to |polygon| - 1
      invariant IsPartialOutline(cells, polygon, starts, i)
    {
      var line := RaytraceLine(w, h, polygon[i], polygon[i + 1]);
      AppendSegment(cells, polygon, starts, i, line);
      cells, starts := cells + line, starts + [|cells| + |line|];
    }
    var lastIndex := |polygon| - 1;
    var line := RaytraceLine(w, h, polygon[lastIndex], polygon[0]);
    AppendSegment(cells, polygon, starts, lastIndex, line);
    cells, starts := cells + line, starts + [|cells| + |line|];
    OutlineCloses(cells, polygon, starts);
  }

  /** The segment holding position `k`. */
  lemma FindSegment(cells: seq<Cell>, polygon: seq<Cell>, starts: seq<nat>, k: nat, n: nat) returns (i: nat)
    requires IsOutline(cells, polygon, starts) && n <= |polygon| && k < starts[n]
    ensures i < n && starts[i] <= k < starts[i + 1]
  {
    hide IsLine;
    if n > 0 && k < starts[n - 1] {
      i := FindSegment(cells, polygon, starts, k, n - 1);
    } else {
      i := n - 1;
    }
  }

  /** The outline is a closed walk: neighbours differ by at most one column, and it ends where it began. */
  ghost predicate ClosedWalk(cells: seq<Cell>) {
    && |cells| > 0 && cells[0] == cells[|cells| - 1]
    && forall k :: 0 <= k < |cells| - 1 ==> Touching(cells[k], cells[k + 1])
  }

  lemma SegmentEnds(cells: seq<Cell>, polygon: seq<Cell>, starts: seq<nat>, i: nat)
    requires i < |polygon| && i + 1 < |starts| && IsSegment(cells, polygon, starts, i)
    ensures cells[starts[i]] == polygon[i]
    ensures cells[starts[i + 1] - 1] == polygon[if i + 1 < |polygon| then i + 1 else 0]
    ensures forall k :: starts[i] <= k < starts[i + 1] - 1 ==> Touching(cells[k], cells[k + 1])
    ensures forall k :: starts[i] <= k < starts[i + 1] ==>
              InSpan(cells[k].x, polygon[i].x, polygon[if i + 1 < |polygon| then i + 1 else 0].x)
    ensures forall k :: starts[i] <= k < starts[i + 1] ==>
              InSpan(cells[k].y, polygon[i].y, polygon[if i + 1 < |polygon| then i + 1 else 0].y)
  {
    hide Touching, InSpan;
    var line := cells[starts[i]..starts[i + 1]];
    assert forall k :: starts[i] <= k < starts[i + 1] ==> cells[k] == line[k - starts[i]];
  }

  lemma OutlineCloses(cells: seq<Cell>, polygon: seq<Cell>, starts: seq<nat>)
    requires IsOutline(cells, polygon, starts) && |polygon| > 0
    ensures ClosedWalk(cells)
  {
    hide IsLine;
    var n := |polygon|;
    assert IsSegment(cells, polygon, starts, 0) && IsSegment(cells, polygon, starts, n - 1);
    SegmentEnds(cells, polygon, starts, 0);
    SegmentEnds(cells, polygon, starts, n - 1);
    forall k | 0 <= k < |cells| - 1 ensures Touching(cells[k], cells[k + 1]) {
      var i := FindSegment(cells, polygon, starts, k, n);
      SegmentEnds(cells, polygon, starts, i);
      if k == starts[i + 1] - 1 {
        assert i + 1 < n;
        SegmentEnds(cells, polygon, starts, i + 1);
      }
    }
  }

  /** A cell of an extreme column is not alone there: its segment's end or the neighbouring
      segment's copy of the shared vertex lies in the same column. */
  lemma ExtremeColumnHasTwo(cells: seq<Cell>, polygon: seq<Cell>, starts: seq<nat>, m: nat) returns (k: nat)
    requires IsOutline(cells, polygon, starts) && |polygon| >= 3 && m < |cells|
    requires (forall j :: 0 <= j < |cells| ==> cells[m].x <= cells[j].x) ||
             (forall j :: 0 <= j < |cells| ==> cells[j].x <= cells[m].x)
    ensures k < |cells| && k != m && cells[k].x == cells[m].x
  {
    hide IsLine, Touching;
    var n := |polygon|;
    var i := FindSegment(cells, polygon, starts, m, n);
    SegmentEnds(cells, polygon, starts, i);
    assert IsSegment(cells, polygon, starts, n - 2) && IsSegment(cells, polygon, starts, n - 1);
    if m == starts[i + 1] - 1 {
      if i + 1 < n {
        SegmentEnds(cells, polygon, starts, i + 1);
        k := starts[i + 1];
      } else {
        SegmentEnds(cells, polygon, starts, 0);
        k := 0;
      }
    } else if m == starts[i] {
      if i > 0 {
        SegmentEnds(cells, polygon, starts, i - 1);
        k := m - 1;
      } else {
        SegmentEnds(cells, polygon, starts, n - 1);
        k := |cells| - 1;
      }
    } else {
      k := if cells[starts[i]].x == cells[m].x then starts[i] else starts[i + 1] - 1;
    }
  }

  /** A walk with unit steps from one side of column `x` to the other passes through it. */
  lemma WalkCrosses(cells: seq<Cell>, lo: nat, hi: nat, x: int) returns (k: nat)
    requires lo <= hi < |cells|
    requires forall j :: 0 <= j < |cells| - 1 ==> Touching(cells[j], cells[j + 1])
    requires InSpan(x, cells[lo].x, cells[hi].x)
    ensures lo <= k <= hi && cells[k].x == x
    decreases hi - lo
  {
    if cells[lo].x == x {
      k := lo;
    } else {
      assert Touching(cells[lo], cells[lo + 1]);
      k := WalkCrosses(cells, lo + 1, hi, x);
    }
  }

  /** Every column between the extremes holds at least two entries of a closed outline. */
  ghost predicate TwoPerColumn(cells: seq<Cell>) {
    forall x, p, q :: 0 <= p < |cells| && 0 <= q < |cells| && cells[p].x <= x <= cells[q].x ==> HasTwo(cells, x)
  }

  ghost predicate HasTwo(cells: seq<Cell>, x: int) {
    exists a, b :: 0 <= a < b < |cells| && cells[a].x == x && cells[b].x == x
  }

  lemma HasTwoAt(cells: seq<Cell>, x: int, a: nat, b: nat)
    requires a < |cells| && b < |cells| && a != b && cells[a].x == x && cells[b].x == x
    ensures HasTwo(cells, x)
  {
    if a < b { assert cells[a].x == x && cells[b].x == x; } else { assert cells[b].x == x && cells[a].x == x; }
  }

  /** Strictly between two of its columns, a closed walk passes once on the way there and once on
      the way back. */
  lemma InnerColumnHasTwo(cells: seq<Cell>, x: int, m: nat, n: nat)
    requires ClosedWalk(cells) && m < n < |cells|
    requires cells[m].x < x < cells[n].x || cells[n].x < x < cells[m].x
    ensures HasTwo(cells, x)
  {
    var a := WalkCrosses(cells, m, n, x);
    var b;
    if InSpan(x, cells[n].x, cells[|cells| - 1].x) {
      b := WalkCrosses(cells, n, |cells| - 1, x);
    } else {
      b := WalkCrosses(cells, 0, m, x);
    }
    HasTwoAt(cells, x, a, b);
  }

  lemma OutlineHasTwoPerColumn(cells: seq<Cell>, polygon: seq<Cell>, starts: seq<nat>)
    requires IsOutline(cells, polygon, starts) && |polygon| >= 3
    ensures TwoPerColumn(cells)
  {
    OutlineCloses(cells, polygon, starts);
    hide IsOutline, ClosedWalk, HasTwo;
    forall x, p, q | 0 <= p < |cells| && 0 <= q < |cells| && cells[p].x <= x <= cells[q].x ensures HasTwo(cells, x) {
      ColumnHasTwo(cells, polygon, starts, x, p, q);
    }
  }

  lemma ColumnHasTwo(cells: seq<Cell>, polygon: seq<Cell>, starts: seq<nat>, x: int, p: nat, q: nat)
    requires IsOutline(cells, polygon, starts) && |polygon| >= 3 && ClosedWalk(cells)
    requires p < |cells| && q < |cells| && cells[p].x <= x <= cells[q].x
    ensures HasTwo(cells, x)
  {
    hide IsOutline, ClosedWalk, HasTwo;
    var m, n := MinColumn(cells), MaxColumn(cells);
    if x == cells[m].x {
      var k := ExtremeColumnHasTwo(cells, polygon, starts, m);
      HasTwoAt(cells, x, m, k);
    } else if x == cells[n].x {
      var k := ExtremeColumnHasTwo(cells, polygon, starts, n);
      HasTwoAt(cells, x, n, k);
    } else {
      InnerColumnHasTwo(cells, x, if m < n then m else n, if m < n then n else m);
    }
  }

  ghost function MinColumn(cells: seq<Cell>): (m: nat)
    requires |cells| > 0
    ensures m < |cells| && forall j :: 0 <= j < |cells| ==> cells[m].x <= cells[j].x
  {
    if |cells| == 1 then 0
    else
      var m := MinColumn(cells[..|cells| - 1]);
      if cells[|cells| - 1].x < cells[m].x then |cells| - 1 else m
  }

  ghost function MaxColumn(cells: seq<Cell>): (m: nat)
    requires |cells| > 0
    ensures m < |cells| && forall j :: 0 <= j < |cells| ==> cells[j].x <= cells[m].x
  {
    if |cells| == 1 then 0
    else
      var m := MaxColumn(cells[..|cells| - 1]);
      if cells[m].x < cells[|cells| - 1].x then |cells| - 1 else m
  }

  // ---------------------------------------------------------------- the backtracking sort

  ghost predicate SortedByColumn(cells: seq<Cell>, n: nat) {
    n <= |cells| && forall i, j :: 0 <= i < j < n ==> cells[i].x <= cells[j].x
  }

  /** Exchange positions `i` and `i + 1`. */
  function Swapped(cells: seq<Cell>, i: nat): seq<Cell>
    requires i + 1 < |cells|
  {
    cells[i := cells[i + 1]][i + 1 := cells[i]]
  }

  /** Later entries that belong before `c`. */
  function Smaller(cells: seq<Cell>, c: Cell): nat {
    if cells == [] then 0 else (if cells[0].x < c.x then 1 else 0) + Smaller(cells[1..], c)
  }

  /** Out-of-order pairs. */
  function Inversions(cells: seq<Cell>): nat {
    if cells == [] then 0 else Smaller(cells[1..], cells[0]) + Inversions(cells[1..])
  }

  lemma {:induction false} SmallerSwapped(cells: seq<Cell>, i: nat, c: Cell)
    requires i + 1 < |cells|
    ensures Smaller(Swapped(cells, i), c) == Smaller(cells, c)
  {
    var after := Swapped(cells, i);
    if i == 0 {
      assert after[1..][1..] == cells[1..][1..];
    } else {
      assert after[1..] == Swapped(cells[1..], i - 1);
      SmallerSwapped(cells[1..], i - 1, c);
    }
  }

  /** Exchanging an adjacent out-of-order pair removes exactly one inversion. */
  lemma {:induction false} SwapRemovesInversion(cells: seq<Cell>, i: nat)
    requires i + 1 < |cells| && cells[i].x > cells[i + 1].x
    ensures Inversions(Swapped(cells, i)) == Inversions(cells) - 1
  {
    var after := Swapped(cells, i);
    if i == 0 {
      assert after[1..][1..] == cells[1..][1..];
      assert after[1..] == [cells[0]] + cells[2..];
      assert cells[1..] == [cells[1]] + cells[2..];
    } else {
      assert after[1..] == Swapped(cells[1..], i - 1);
      SwapRemovesInversion(cells[1..], i - 1);
      SmallerSwapped(cells[1..], i - 1, cells[0]);
    }
  }

  /** How many entries lie in column `x`. */
  function CountColumn(cells: seq<Cell>, x: int): nat {
    if cells == [] then 0 else (if cells[0].x == x then 1 else 0) + CountColumn(cells[1..], x)
  }

  lemma {:induction false} CountSwapped(cells: seq<Cell>, i: nat, x: int)
    requires i + 1 < |cells|
    ensures CountColumn(Swapped(cells, i), x) == CountColumn(cells, x)
  {
    var after := Swapped(cells, i);
    if i == 0 {
      assert after[1..][1..] == cells[1..][1..];
    } else {
      assert after[1..] == Swapped(cells[1..], i - 1);
      CountSwapped(cells[1..], i - 1, x);
    }
  }

  lemma {:induction false} CountAtLeastOne(cells: seq<Cell>, x: int)
    ensures CountColumn(cells, x) >= 1 <==> exists a :: 0 <= a < |cells| && cells[a].x == x
  {
    if cells == [] {
    } else {
      CountAtLeastOne(cells[1..], x);
      if CountColumn(cells[1..], x) >= 1 {
        var a :| 0 <= a < |cells[1..]| && cells[1..][a].x == x;
        assert cells[a + 1].x == x;
      }
      if exists a :: 0 <= a < |cells| && cells[a].x == x {
        var a :| 0 <= a < |cells| && cells[a].x == x;
        if a > 0 { assert cells[1..][a - 1].x == x; }
      }
    }
  }

  lemma {:induction false} CountAtLeastTwo(cells: seq<Cell>, x: int)
    ensures CountColumn(cells, x) >= 2 <==> HasTwo(cells, x)
  {
    if cells == [] {
    } else {
      CountAtLeastTwo(cells[1..], x);
      CountAtLeastOne(cells[1..], x);
      if CountColumn(cells, x) >= 2 {
        if CountColumn(cells[1..], x) >= 2 {
          var a, b :| 0 <= a < b < |cells[1..]| && cells[1..][a].x == x && cells[1..][b].x == x;
          HasTwoAt(cells, x, a + 1, b + 1);
        } else {
          var a :| 0 <= a < |cells[1..]| && cells[1..][a].x == x;
          HasTwoAt(cells, x, 0, a + 1);
        }
      }
      if HasTwo(cells, x) {
        var a, b :| 0 <= a < b < |cells| && cells[a].x == x && cells[b].x == x;
        assert cells[1..][b - 1].x == x;
        if a > 0 { HasTwoAt(cells[1..], x, a - 1, b - 1); }
      }
    }
  }

  /** The same entries, column by column. */
  ghost predicate SameCells(cells: seq<Cell>, other: seq<Cell>) {
    && |cells| == |other|
    && multiset(cells) == multiset(other)
    && forall x :: CountColumn(cells, x) == CountColumn(other, x)
  }

  lemma SwapKeepsCells(cells: seq<Cell>, i: nat, other: seq<Cell>)
    requires i + 1 < |cells| && SameCells(cells, other)
    ensures SameCells(Swapped(cells, i), other)
  {
    forall x ensures CountColumn(Swapped(cells, i), x) == CountColumn(other, x) {
      CountSwapped(cells, i, x);
    }
  }

  /** The backtracking sort: it ends because every exchange removes an inversion and every other
      step moves right, and it leaves a permutation sorted by column. */
  method SortByColumn(outline: seq<Cell>) returns (cells: seq<Cell>)
    requires |outline| > 0
    ensures SameCells(cells, outline) && SortedByColumn(cells, |cells|)
  {
    hide SameCells, Inversions, Swapped;
    cells := outline;
    SameAsItself(outline);
    var i := 0;
    while i < |cells| - 1
      invariant |cells| == |outline| && i < |cells| && SameCells(cells, outline)
      invariant SortedByColumn(cells, i + 1)
      decreases Inversions(cells), |cells| - i
    {
      if cells[i].x > cells[i + 1].x {
        SwapRemovesInversion(cells, i);
        SwapKeepsCells(cells, i, outline);
        SwapLength(cells, i);
        cells := Swapped(cells, i);
        if i > 0 {
          i := i - 1;
        }
      } else {
        i := i + 1;
      }
    }
  }

  lemma SameAsItself(cells: seq<Cell>)
    ensures SameCells(cells, cells)
  {
  }

  lemma SwapLength(cells: seq<Cell>, i: nat)
    requires i + 1 < |cells|
    ensures |Swapped(cells, i)| == |cells|
    ensures SortedByColumn(cells, i + 1) ==> SortedByColumn(Swapped(cells, i), i)
    ensures SortedByColumn(cells, i + 1) ==> SortedByColumn(Swapped(cells, i), if i == 0 then 1 else i)
  {
  }

  // ---------------------------------------------------------------- the column fill

  /** `p` lies between two outline cells of its own column. */
  ghost predicate Spanned(outline: seq<Cell>, p: Cell) {
    exists q, r :: q in outline && r in outline && q.x == p.x && r.x == p.x && q.y <= p.y <= r.y
  }

  /** Position `i` is where column `x` begins in the sorted outline. */
  ghost predicate ColumnStart(cells: seq<Cell>, x: int, i: nat) {
    && i <= |cells|
    && (forall k :: 0 <= k < i ==> cells[k].x < x)
    && (forall k :: i <= k < |cells| ==> x <= cells[k].x)
  }

  lemma ColumnHeads(cells: seq<Cell>, x: int, i: nat)
    requires SortedByColumn(cells, |cells|) && ColumnStart(cells, x, i) && HasTwo(cells, x)
    ensures i + 1 < |cells| && cells[i].x == x && cells[i + 1].x == x
  {
    var a, b :| 0 <= a < b < |cells| && cells[a].x == x && cells[b].x == x;
    assert i <= a && i + 1 <= b;
  }

  /** The lowest and highest cell of a column among positions `from`..`to`. */
  ghost predicate Extremes(cells: seq<Cell>, x: int, from: nat, to: nat, lo: Cell, hi: Cell) {
    && from < to <= |cells|
    && lo in cells && hi in cells && lo.x == x && hi.x == x
    && forall k :: from <= k < to ==> cells[k].x == x && lo.y <= cells[k].y <= hi.y
  }

  /** Walk the column that begins at `i`, in a vector whose first entries are the sorted outline
      and whose appended entries all lie in earlier columns. */
  method ScanColumn(all: seq<Cell>, ghost cells: seq<Cell>, x: int, start: nat) returns (i: nat, lo: Cell, hi: Cell)
    requires cells <= all && SortedByColumn(cells, |cells|) && ColumnStart(cells, x, start) && HasTwo(cells, x)
    requires forall k :: |cells| <= k < |all| ==> all[k].x < x
    ensures ColumnStart(cells, x + 1, i) && Extremes(cells, x, start, i, lo, hi) && lo.y <= hi.y
  {
    ColumnHeads(cells, x, start);
    i := start;
    if all[i].y < all[i + 1].y {
      lo, hi := all[i], all[i + 1];
    } else {
      lo, hi := all[i + 1], all[i];
    }
    i := i + 2;
    while i < |all| && all[i].x == x
      invariant start + 2 <= i <= |cells|
      invariant Extremes(cells, x, start, i, lo, hi)
    {
      if all[i].y < lo.y {
        lo := all[i];
      } else if all[i].y > hi.y {
        hi := all[i];
      }
      i := i + 1;
    }
    ColumnEnds(cells, x, start, i);
  }

  lemma ColumnEnds(cells: seq<Cell>, x: int, start: nat, i: nat)
    requires SortedByColumn(cells, |cells|) && ColumnStart(cells, x, start) && start < i <= |cells|
    requires forall k :: start <= k < i ==> cells[k].x == x
    requires i < |cells| ==> cells[i].x != x
    ensures ColumnStart(cells, x + 1, i)
  {
  }

  /** The appended cells are exactly the spanned cells of the columns before `x`. */
  ghost predicate FilledBefore(cells: seq<Cell>, fill: seq<Cell>, x: int) {
    forall p :: p in fill <==> Spanned(cells, p) && p.x < x
  }

  lemma SpannedColumn(cells: seq<Cell>, x: int, from: nat, to: nat, lo: Cell, hi: Cell, y: int)
    requires ColumnStart(cells, x, from) && ColumnStart(cells, x + 1, to) && Extremes(cells, x, from, to, lo, hi)
    ensures Spanned(cells, Cell(x, y)) <==> lo.y <= y <= hi.y
  {
    if Spanned(cells, Cell(x, y)) {
      var q, r :| q in cells && r in cells && q.x == x && r.x == x && q.y <= y <= r.y;
      var a :| 0 <= a < |cells| && cells[a] == q;
      var b :| 0 <= b < |cells| && cells[b] == r;
      assert from <= a < to && from <= b < to;
    }
  }

  lemma FillColumn(cells: seq<Cell>, fill: seq<Cell>, column: seq<Cell>, x: int, from: nat, to: nat, lo: Cell, hi: Cell)
    requires FilledBefore(cells, fill, x)
    requires ColumnStart(cells, x, from) && ColumnStart(cells, x + 1, to) && Extremes(cells, x, from, to, lo, hi)
    requires forall p :: p in column <==> p.x == x && lo.y <= p.y <= hi.y
    ensures FilledBefore(cells, fill + column, x + 1)
  {
    hide Extremes, ColumnStart, Spanned;
    forall p ensures p in fill + column <==> Spanned(cells, p) && p.x < x + 1 {
      if p.x == x {
        assert p == Cell(x, p.y);
        SpannedColumn(cells, x, from, to, lo, hi, p.y);
      }
    }
  }

  method ColumnCells(x: int, loY: int, hiY: int) returns (column: seq<Cell>)
    requires loY <= hiY
    ensures forall p :: p in column <==> p.x == x && loY <= p.y <= hiY
  {
    column := [];
    var y := loY;
    while y <= hiY
      invariant loY <= y <= hiY + 1
      invariant forall p :: p in column <==> p.x == x && loY <= p.y < y
    {
      column := column + [Cell(x, y)];
      y := y + 1;
    }
  }

  /** The fill loop over a sorted outline, appending to the vector it scans. */
  method FillColumns(cells: seq<Cell>) returns (all: seq<Cell>)
    requires |cells| > 1 && SortedByColumn(cells, |cells|) && TwoPerColumn(cells)
    ensures cells <= all
    ensures forall p :: p in all <==> Spanned(cells, p)
  {
    hide ColumnStart, HasTwo, TwoPerColumn, FilledBefore, Extremes, Spanned, SortedByColumn;
    all := cells;
    var i := 0;
    var minX, maxX := cells[0].x, cells[|cells| - 1].x;
    FillBegins(cells);
    var x := minX;
    while x <= maxX
      invariant minX <= x <= maxX + 1
      invariant ColumnStart(cells, x, i)
      invariant cells <= all && FilledBefore(cells, all[|cells|..], x)
    {
      ColumnReached(cells, x, i);
      if i >= |all| - 1 {
        break;
      }
      ghost var start := i;
      OldColumns(cells, all, x);
      var lo, hi;
      i, lo, hi := ScanColumn(all, cells, x, i);
      var column := ColumnCells(x, lo.y, hi.y);
      FillColumn(cells, all[|cells|..], column, x, start, i, lo, hi);
      assert (all + column)[|cells|..] == all[|cells|..] + column;
      all := all + column;
      x := x + 1;
    }
    FillEnds(cells, all, x);
  }

  lemma FillBegins(cells: seq<Cell>)
    requires |cells| > 0 && SortedByColumn(cells, |cells|)
    ensures cells[0].x <= cells[|cells| - 1].x
    ensures ColumnStart(cells, cells[0].x, 0) && FilledBefore(cells, cells[|cells|..], cells[0].x)
  {
    forall p | Spanned(cells, p) ensures cells[0].x <= p.x {
    }
  }

  lemma ColumnReached(cells: seq<Cell>, x: int, i: nat)
    requires |cells| > 1 && SortedByColumn(cells, |cells|) && TwoPerColumn(cells) && ColumnStart(cells, x, i)
    requires cells[0].x <= x <= cells[|cells| - 1].x
    ensures HasTwo(cells, x) && i + 1 < |cells|
  {
    assert HasTwo(cells, x);
    ColumnHeads(cells, x, i);
  }

  lemma OldColumns(cells: seq<Cell>, all: seq<Cell>, x: int)
    requires cells <= all && FilledBefore(cells, all[|cells|..], x)
    ensures forall k :: |cells| <= k < |all| ==> all[k].x < x
  {
    hide Spanned;
    forall k | |cells| <= k < |all| ensures all[k].x < x {
      assert all[|cells|..][k - |cells|] == all[k];
    }
  }

  lemma FillEnds(cells: seq<Cell>, all: seq<Cell>, x: int)
    requires |cells| > 0 && SortedByColumn(cells, |cells|) && x == cells[|cells| - 1].x + 1
    requires cells <= all && FilledBefore(cells, all[|cells|..], x)
    ensures forall p :: p in all <==> Spanned(cells, p)
  {
    hide Spanned, SortedByColumn;
    var fill := all[|cells|..];
    assert all == cells + fill;
    forall p ensures p in all <==> Spanned(cells, p) {
      SpannedBounds(cells, p);
      assert p in fill <==> Spanned(cells, p) && p.x < x;
      hide FilledBefore;
      InConcatenation(cells, fill, p);
    }
  }

  lemma InConcatenation(a: seq<Cell>, b: seq<Cell>, p: Cell)
    ensures p in a + b <==> p in a || p in b
  {
  }

  lemma SpannedBounds(cells: seq<Cell>, p: Cell)
    requires |cells| > 0 && SortedByColumn(cells, |cells|)
    ensures p in cells ==> Spanned(cells, p)
    ensures Spanned(cells, p) ==> p.x <= cells[|cells| - 1].x
  {
    if Spanned(cells, p) {
      var q :| q in cells && q.x == p.x;
      var k :| 0 <= k < |cells| && cells[k] == q;
    }
  }

  lemma SameCellsSpan(cells: seq<Cell>, outline: seq<Cell>)
    requires SameCells(cells, outline)
    ensures forall p :: p in cells <==> p in outline
    ensures forall p :: Spanned(cells, p) <==> Spanned(outline, p)
    ensures TwoPerColumn(outline) ==> TwoPerColumn(cells)
  {
    assert forall p :: p in cells <==> p in multiset(cells);
    assert forall p :: p in outline <==> p in multiset(outline);
    assert forall p :: p in cells <==> p in outline;
    if TwoPerColumn(outline) {
      forall x, p, q | 0 <= p < |cells| && 0 <= q < |cells| && cells[p].x <= x <= cells[q].x ensures HasTwo(cells, x) {
        assert cells[p] in outline && cells[q] in outline;
        CountAtLeastTwo(cells, x);
        CountAtLeastTwo(outline, x);
        assert HasTwo(outline, x);
      }
    }
  }

  lemma OutlineSize(cells: seq<Cell>, polygon: seq<Cell>, starts: seq<nat>)
    requires IsOutline(cells, polygon, starts) && |polygon| >= 3
    ensures |cells| > 1
  {
    hide IsLine;
    var n := |polygon|;
    assert IsSegment(cells, polygon, starts, n - 2) && IsSegment(cells, polygon, starts, n - 1);
  }

  /** `convexFillCells` on a fresh vector: nothing for fewer than three vertices; otherwise exactly
      the outline and every cell between that column's lowest and highest outline cell. */
  method ConvexFillCells(w: nat, ghost h: nat, polygon: seq<Cell>)
    returns (polygonCells: seq<Cell>, ghost outline: seq<Cell>, ghost starts: seq<nat>)
    requires forall p :: p in polygon ==> InGrid(w, h, p)
    ensures |polygon| < 3 ==> polygonCells == []
    ensures |polygon| >= 3 ==>
              && IsOutline(outline, polygon, starts)
              && |outline| <= |polygonCells| && multiset(polygonCells[..|outline|]) == multiset(outline)
              && forall p :: p in polygonCells <==> Spanned(outline, p)
  {
    hide IsOutline, Spanned, TwoPerColumn, SortedByColumn, InGrid;
    polygonCells, outline, starts := [], [], [];
    if |polygon| < 3 {
      return;
    }
    var traced;
    traced, starts := PolygonOutlineCells(w, h, polygon);
    outline := traced;
    OutlineSize(outline, polygon, starts);
    OutlineHasTwoPerColumn(outline, polygon, starts);
    var sorted := SortByColumn(traced);
    SameCellsSpan(sorted, outline);
    polygonCells := FillColumns(sorted);
    assert polygonCells[..|outline|] == sorted;
  }
}
