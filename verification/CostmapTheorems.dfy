/** What a rolling window keeps: single updates seen from the world, and whole runs of updates. */
module CostmapTheorems {
  import opened Common
  import opened GridMath
  import opened Costmap2D

  function Plus(c: Cell, d: Cell): Cell {
    Cell(c.x + d.x, c.y + d.y)
  }

  /** The sum of a sequence of moves. */
  function Net(moves: seq<Cell>): Cell {
    if moves == [] then Cell(0, 0) else Plus(Net(moves[..|moves| - 1]), moves[|moves| - 1])
  }

  /** A run of `updateOrigin` calls: `snaps[i]` is asked to move to `targets[i]`. */
  ghost predicate IsRun(w: nat, h: nat, resolution: real, defaultValue: Byte, snaps: seq<Snapshot>,
                        targets: seq<WorldPoint>)
    requires resolution > 0.0
  {
    && |snaps| == |targets| + 1
    && |snaps[0].cells| == w * h
    && forall i :: 0 <= i < |targets| ==>
         OriginUpdated(w, h, resolution, defaultValue, snaps[i], snaps[i + 1], targets[i])
  }

  function Moves(resolution: real, snaps: seq<Snapshot>, targets: seq<WorldPoint>): (moves: seq<Cell>)
    requires resolution > 0.0 && |snaps| == |targets| + 1
    ensures |moves| == |targets|
  {
    seq(|targets|, i requires 0 <= i < |targets| => MoveOf(resolution, snaps[i], targets[i]))
  }

  /** Cell `c` of the last window was inside every window of the run: after the moves of window
      `k` onward are undone, it is a cell of window `k`. */
  ghost predicate StayedInside(w: nat, h: nat, moves: seq<Cell>, c: Cell) {
    forall k :: 0 <= k <= |moves| ==> InGrid(w, h, Plus(c, Net(moves[k..])))
  }

  lemma StayedInsideStep(w: nat, h: nat, moves: seq<Cell>, c: Cell)
    requires |moves| > 0 && InGrid(w, h, c)
    ensures var last, init := moves[|moves| - 1], moves[..|moves| - 1];
            && Plus(c, Net(moves)) == Plus(Plus(c, last), Net(init))
            && (StayedInside(w, h, moves, c) <==> StayedInside(w, h, init, Plus(c, last)))
  {
    var n := |moves|;
    var last, init := moves[n - 1], moves[..n - 1];
    assert moves[n..] == [];
    forall k | 0 <= k < n ensures Plus(c, Net(moves[k..])) == Plus(Plus(c, last), Net(init[k..])) {
      assert moves[k..][..|moves[k..]| - 1] == init[k..];
      assert moves[k..][|moves[k..]| - 1] == last;
    }
    assert moves[0..] == moves && init[0..] == init;
    hide InGrid;
    if StayedInside(w, h, moves, c) {
      forall k | 0 <= k <= |init| ensures InGrid(w, h, Plus(Plus(c, last), Net(init[k..]))) {
        assert InGrid(w, h, Plus(c, Net(moves[k..])));
      }
    }
    if StayedInside(w, h, init, Plus(c, last)) {
      forall k | 0 <= k <= n ensures InGrid(w, h, Plus(c, Net(moves[k..]))) {
        if k < n { assert InGrid(w, h, Plus(Plus(c, last), Net(init[k..]))); }
      }
    }
  }

  /** After any run of updates, with any targets, a cell holds the original value of the same world
      cell if that cell was inside every window on the way, and the default otherwise; and its
      world centre is that of the original cell. */
  lemma {:induction false} RunKeepsWorldCells(w: nat, h: nat, resolution: real, defaultValue: Byte,
                                              snaps: seq<Snapshot>, targets: seq<WorldPoint>, c: Cell)
    requires resolution > 0.0 && IsRun(w, h, resolution, defaultValue, snaps, targets) && InGrid(w, h, c)
    ensures var first, last, moves := snaps[0], snaps[|targets|], Moves(resolution, snaps, targets);
            var origin := Plus(c, Net(moves));
            && |last.cells| == w * h
            && CellCentre(last.originX, resolution, c.x) == CellCentre(first.originX, resolution, origin.x)
            && CellCentre(last.originY, resolution, c.y) == CellCentre(first.originY, resolution, origin.y)
            && (StayedInside(w, h, moves, c) ==>
                  InGrid(w, h, origin) && Get<Byte>(w, h, last.cells, c) == Get<Byte>(w, h, first.cells, origin))
            && (!StayedInside(w, h, moves, c) ==> Get<Byte>(w, h, last.cells, c) == defaultValue)
    decreases |targets|
  {
    hide Index, Get, CellCentre, MoveOf, StayedInside, OriginUpdated, Shifted, InGrid, Plus;
    var n, moves := |targets|, Moves(resolution, snaps, targets);
    if n == 0 {
      NoMoves(w, h, c);
    } else {
      var init, last := moves[..n - 1], moves[n - 1];
      assert OriginUpdated(w, h, resolution, defaultValue, snaps[n - 1], snaps[n], targets[n - 1]);
      assert Moves(resolution, snaps[..n], targets[..n - 1]) == init;
      StayedInsideStep(w, h, moves, c);
      var p := Plus(c, last);
      UpdateMovesCentres(w, h, resolution, defaultValue, snaps[n - 1], snaps[n], targets[n - 1], c);
      UpdateMovesCells(w, h, resolution, defaultValue, snaps[n - 1], snaps[n], targets[n - 1], c);
      RunCentres(w, h, resolution, defaultValue, snaps[..n], targets[..n - 1], p);
      if InGrid(w, h, p) {
        RunKeepsWorldCells(w, h, resolution, defaultValue, snaps[..n], targets[..n - 1], p);
      } else {
        LeftTheWindow(w, h, init, p);
      }
    }
  }

  lemma UpdateMovesCells(w: nat, h: nat, resolution: real, defaultValue: Byte,
                         before: Snapshot, after: Snapshot, target: WorldPoint, c: Cell)
    requires resolution > 0.0 && OriginUpdated(w, h, resolution, defaultValue, before, after, target) && InGrid(w, h, c)
    ensures var p := Plus(c, MoveOf(resolution, before, target));
            && |before.cells| == w * h && |after.cells| == w * h
            && Get<Byte>(w, h, after.cells, c) ==
               if InGrid(w, h, p) then Get<Byte>(w, h, before.cells, p) else defaultValue
  {
    hide Index, Get, MoveOf;
  }

  /** Moving the window keeps the world centre of every cell it keeps. */
  lemma UpdateMovesCentres(w: nat, h: nat, resolution: real, defaultValue: Byte,
                           before: Snapshot, after: Snapshot, target: WorldPoint, c: Cell)
    requires resolution > 0.0 && OriginUpdated(w, h, resolution, defaultValue, before, after, target)
    ensures var p := Plus(c, MoveOf(resolution, before, target));
            && CellCentre(after.originX, resolution, c.x) == CellCentre(before.originX, resolution, p.x)
            && CellCentre(after.originY, resolution, c.y) == CellCentre(before.originY, resolution, p.y)
  {
    hide CellCentre, MoveOf, Shifted;
    var move := MoveOf(resolution, before, target);
    CentreMoves(before.originX, resolution, c.x, move.x);
    CentreMoves(before.originY, resolution, c.y, move.y);
  }

  lemma NoMoves(w: nat, h: nat, c: Cell)
    requires InGrid(w, h, c)
    ensures Plus(c, Net([])) == c && StayedInside(w, h, [], c)
  {
    var none: seq<Cell> := [];
    assert none[0..] == none && Plus(c, Net(none)) == c;
  }

  lemma LeftTheWindow(w: nat, h: nat, moves: seq<Cell>, p: Cell)
    requires !InGrid(w, h, p)
    ensures !StayedInside(w, h, moves, p)
  {
    assert moves[|moves|..] == [] && Plus(p, Net(moves[|moves|..])) == p;
  }

  lemma CentreMoves(origin: real, resolution: real, m: int, d: int)
    ensures CellCentre(origin + d as real * resolution, resolution, m) == CellCentre(origin, resolution, m + d)
  {
    assert (m as real + 0.5) * resolution + d as real * resolution == ((m + d) as real + 0.5) * resolution;
  }

  /** World centres are preserved by a run, for any cell position. */
  lemma {:induction false} RunCentres(w: nat, h: nat, resolution: real, defaultValue: Byte,
                                      snaps: seq<Snapshot>, targets: seq<WorldPoint>, c: Cell)
    requires resolution > 0.0 && IsRun(w, h, resolution, defaultValue, snaps, targets)
    ensures var first, last := snaps[0], snaps[|targets|];
            var origin := Plus(c, Net(Moves(resolution, snaps, targets)));
            && CellCentre(last.originX, resolution, c.x) == CellCentre(first.originX, resolution, origin.x)
            && CellCentre(last.originY, resolution, c.y) == CellCentre(first.originY, resolution, origin.y)
    decreases |targets|
  {
    hide CellCentre, MoveOf, Shifted, OriginUpdated, Plus;
    var n, moves := |targets|, Moves(resolution, snaps, targets);
    if n > 0 {
      assert OriginUpdated(w, h, resolution, defaultValue, snaps[n - 1], snaps[n], targets[n - 1]);
      assert Moves(resolution, snaps[..n], targets[..n - 1]) == moves[..n - 1];
      UpdateMovesCentres(w, h, resolution, defaultValue, snaps[n - 1], snaps[n], targets[n - 1], c);
      RunCentres(w, h, resolution, defaultValue, snaps[..n], targets[..n - 1], Plus(c, moves[n - 1]));
      PlusNet(c, moves);
    } else {
      PlusNet(c, moves);
    }
  }

  lemma PlusNet(c: Cell, moves: seq<Cell>)
    ensures Plus(c, Net(moves)) ==
            if moves == [] then c else Plus(Plus(c, moves[|moves| - 1]), Net(moves[..|moves| - 1]))
  {
  }

  /** A world point inside the window before and after an update reads the same cost. */
  lemma WorldPointKeepsCost(w: nat, h: nat, resolution: real, defaultValue: Byte,
                            before: Snapshot, after: Snapshot, target: WorldPoint, p: WorldPoint, c: Cell, d: Cell)
    requires resolution > 0.0 && OriginUpdated(w, h, resolution, defaultValue, before, after, target)
    requires WorldToMap(w, h, resolution, before.originX, before.originY, p) == Some(c)
    requires WorldToMap(w, h, resolution, after.originX, after.originY, p) == Some(d)
    ensures InGrid(w, h, c) && InGrid(w, h, d) && |before.cells| == w * h && |after.cells| == w * h
    ensures Get<Byte>(w, h, after.cells, d) == Get<Byte>(w, h, before.cells, c)
  {
    hide Index, Get, WorldToMap, InCell, MoveOf, OriginUpdated;
    var move := MoveOf(resolution, before, target);
    WorldToMapExact(w, h, resolution, before.originX, before.originY, p, c);
    WorldToMapExact(w, h, resolution, after.originX, after.originY, p, d);
    UpdateMovesPoints(w, h, resolution, defaultValue, before, after, target, d, p);
    SameCell(before.originX, resolution, c.x, d.x + move.x, p.x);
    SameCell(before.originY, resolution, c.y, d.y + move.y, p.y);
    assert c == Plus(d, move);
    UpdateMovesCells(w, h, resolution, defaultValue, before, after, target, d);
  }

  lemma UpdateMovesPoints(w: nat, h: nat, resolution: real, defaultValue: Byte,
                          before: Snapshot, after: Snapshot, target: WorldPoint, d: Cell, p: WorldPoint)
    requires resolution > 0.0 && OriginUpdated(w, h, resolution, defaultValue, before, after, target)
    requires InCell(after.originX, resolution, d.x, p.x) && InCell(after.originY, resolution, d.y, p.y)
    ensures var move := MoveOf(resolution, before, target);
            InCell(before.originX, resolution, d.x + move.x, p.x) &&
            InCell(before.originY, resolution, d.y + move.y, p.y)
  {
    hide InCell, MoveOf, Shifted;
    var move := MoveOf(resolution, before, target);
    CellMoves(before.originX, resolution, d.x, move.x, p.x);
    CellMoves(before.originY, resolution, d.y, move.y, p.y);
  }

  lemma CellMoves(origin: real, resolution: real, m: int, d: int, v: real)
    ensures InCell(origin + d as real * resolution, resolution, m, v) <==> InCell(origin, resolution, m + d, v)
  {
    assert m as real * resolution + d as real * resolution == (m + d) as real * resolution;
    assert (m + 1) as real * resolution + d as real * resolution == (m + d + 1) as real * resolution;
  }

  /** A coordinate lies in at most one cell. */
  lemma SameCell(origin: real, resolution: real, m: int, n: int, v: real)
    requires resolution > 0.0 && InCell(origin, resolution, m, v) && InCell(origin, resolution, n, v)
    ensures m == n
  {
    FloorScaled((v - origin) / resolution, v - origin, resolution, m);
    FloorScaled((v - origin) / resolution, v - origin, resolution, n);
  }

  // ---------------------------------------------------------------- where the window goes

  /** An update moves the window by whole cells toward the target, never past it, and stops less than
      one cell away along either axis; a cell shows the old cost of the cell with the same centre. */
  lemma WindowFollowsTarget(w: nat, h: nat, resolution: real, defaultValue: Byte,
                            before: Snapshot, after: Snapshot, target: WorldPoint)
    returns (i: int, j: int)
    requires resolution > 0.0 && OriginUpdated(w, h, resolution, defaultValue, before, after, target)
    ensures MovesToward(resolution, before.originX, after.originX, target.x, i)
    ensures MovesToward(resolution, before.originY, after.originY, target.y, j)
    ensures Shifted(w, h, before.cells, after.cells, defaultValue, i, j)
  {
    hide Trunc, Shifted, MovesToward;
    var move := MoveOf(resolution, before, target);
    i, j := move.x, move.y;
    TruncMovesToward(resolution, before.originX, after.originX, target.x, i);
    TruncMovesToward(resolution, before.originY, after.originY, target.y, j);
  }

  /** That fixes where the window goes. */
  lemma MoveIsUnique(resolution: real, origin: real, one: real, other: real, target: real, i: int, j: int)
    requires resolution > 0.0
    requires MovesToward(resolution, origin, one, target, i) && MovesToward(resolution, origin, other, target, j)
    ensures i == j && one == other
  {
    var x, y := i as real * resolution, j as real * resolution;
    WholeGap(resolution, i, j, x, y);
    WholeGap(resolution, j, i, y, x);
    SameOrigin(resolution, origin, one, other, target, i, j, x, y);
  }

  lemma SameOrigin(resolution: real, origin: real, one: real, other: real, target: real, i: int, j: int,
                   x: real, y: real)
    requires resolution > 0.0 && one == origin + x && other == origin + y
    requires (i < j ==> y - x >= resolution) && (j < i ==> x - y >= resolution) && (i == j ==> x == y)
    requires origin <= target ==> one <= target && target - one < resolution
    requires origin <= target ==> other <= target && target - other < resolution
    requires target <= origin ==> target <= one && one - target < resolution
    requires target <= origin ==> target <= other && other - target < resolution
    ensures i == j && one == other
  {
  }

  lemma WholeGap(resolution: real, i: int, j: int, x: real, y: real)
    requires resolution > 0.0 && x == i as real * resolution && y == j as real * resolution
    ensures i < j ==> y - x >= resolution
  {
    if i < j {
      var rest := (j - i - 1) as real;
      assert rest * resolution >= 0.0;
      assert rest * resolution == y - x - resolution;
    }
  }
}
