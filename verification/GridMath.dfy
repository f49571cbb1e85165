/** Cells of a costmap, their flat index, and squared distances between them. */
module GridMath {

  /** A costmap value: one `unsigned char`. */
  type Byte = b: int | 0 <= b < 256

  const FREE_SPACE: Byte := 0
  const INSCRIBED_INFLATED_OBSTACLE: Byte := 253
  const LETHAL_OBSTACLE: Byte := 254
  const NO_INFORMATION: Byte := 255

  datatype Cell = Cell(x: int, y: int)

  predicate InGrid(w: int, h: int, c: Cell) {
    0 <= c.x < w && 0 <= c.y < h
  }

  /** Row-major position of a cell, `getIndex`. */
  function Index(w: int, c: Cell): int {
    c.y * w + c.x
  }

  function Dist2(p: Cell, q: Cell): nat {
    SquareNonNegative(p.x - q.x);
    SquareNonNegative(p.y - q.y);
    (p.x - q.x) * (p.x - q.x) + (p.y - q.y) * (p.y - q.y)
  }

  predicate Adjacent(p: Cell, q: Cell) {
    || (p.y == q.y && (q.x == p.x + 1 || q.x == p.x - 1))
    || (p.x == q.x && (q.y == p.y + 1 || q.y == p.y - 1))
  }

  function Abs(x: int): nat {
    if x < 0 then -x else x
  }

  lemma SquareNonNegative(x: int)
    ensures 0 <= x * x
  {
  }

  lemma IndexInRange(w: int, h: int, c: Cell)
    requires InGrid(w, h, c)
    ensures 0 <= Index(w, c) < w * h
  {
    assert c.y * w <= (h - 1) * w;
    assert (h - 1) * w == h * w - w;
  }

  lemma IndexOrdered(w: int, h: int, p: Cell, q: Cell)
    requires InGrid(w, h, p) && InGrid(w, h, q)
    ensures p.y < q.y ==> Index(w, p) < Index(w, q)
  {
    if p.y < q.y {
      assert (p.y + 1) * w <= q.y * w;
      assert (p.y + 1) * w == p.y * w + w;
    }
  }

  /** Two cells of one grid share a flat index only if they are the same cell. */
  lemma IndexInjective(w: int, h: int, p: Cell, q: Cell)
    requires InGrid(w, h, p) && InGrid(w, h, q)
    requires Index(w, p) == Index(w, q)
    ensures p == q
  {
    IndexOrdered(w, h, p, q);
    IndexOrdered(w, h, q, p);
  }

  lemma SquareMonotone(a: int, b: int)
    requires Abs(a) <= Abs(b)
    ensures a * a <= b * b
  {
    var x, y: nat := Abs(a), Abs(b);
    assert x * x <= x * y;
    assert x * y <= y * y;
  }

  lemma SquareStrict(a: int, b: int)
    requires Abs(a) < Abs(b)
    ensures a * a < b * b
  {
    SquareMonotone(Abs(a) + 1, b);
    assert (Abs(a) + 1) * (Abs(a) + 1) == a * a + 2 * Abs(a) + 1;
  }

  /** A cell within distance `r` is within `r` along each axis. */
  lemma WithinAxes(p: Cell, q: Cell, r: nat)
    requires Dist2(p, q) <= r * r
    ensures Abs(p.x - q.x) <= r && Abs(p.y - q.y) <= r
  {
    SquareNonNegative(p.x - q.x);
    SquareNonNegative(p.y - q.y);
    if Abs(p.x - q.x) > r { SquareStrict(r, p.x - q.x); }
    if Abs(p.y - q.y) > r { SquareStrict(r, p.y - q.y); }
  }

  /** One step along an axis always changes the squared distance to a third cell. */
  lemma AdjacentDistancesDiffer(p: Cell, q: Cell, s: Cell)
    requires Adjacent(p, q)
    ensures Dist2(p, s) != Dist2(q, s)
  {
    var dx, dy := p.x - s.x, p.y - s.y;
    assert (dx + 1) * (dx + 1) == dx * dx + 2 * dx + 1;
    assert (dx - 1) * (dx - 1) == dx * dx - 2 * dx + 1;
    assert (dy + 1) * (dy + 1) == dy * dy + 2 * dy + 1;
    assert (dy - 1) * (dy - 1) == dy * dy - 2 * dy + 1;
  }

  /** The neighbour of `c` one step closer to `s`, which stays inside any grid holding both. */
  function StepTowards(c: Cell, s: Cell): (p: Cell)
    requires c != s
    ensures Adjacent(p, c) && Dist2(p, s) < Dist2(c, s)
    ensures forall w, h :: InGrid(w, h, c) && InGrid(w, h, s) ==> InGrid(w, h, p)
  {
    var p := if c.x < s.x then Cell(c.x + 1, c.y)
             else if c.x > s.x then Cell(c.x - 1, c.y)
             else if c.y < s.y then Cell(c.x, c.y + 1)
             else Cell(c.x, c.y - 1);
    SquareStrictIf(p.x - s.x, c.x - s.x);
    SquareStrictIf(p.y - s.y, c.y - s.y);
    p
  }

  lemma SquareStrictIf(a: int, b: int)
    ensures Abs(a) < Abs(b) ==> a * a < b * b
  {
    if Abs(a) < Abs(b) { SquareStrict(a, b); }
  }

  /** Cell `c` of a flat row-major table. */
  function Get<T>(w: nat, h: nat, cells: seq<T>, c: Cell): T
    requires |cells| == w * h && InGrid(w, h, c)
  {
    IndexInRange(w, h, c);
    cells[Index(w, c)]
  }

  /** Writing one cell of a flat table changes that cell and no other. */
  lemma PutGet<T>(w: nat, h: nat, cells: seq<T>, p: Cell, v: T)
    requires |cells| == w * h && InGrid(w, h, p)
    ensures 0 <= Index(w, p) < |cells| && cells[Index(w, p)] == Get(w, h, cells, p)
    ensures forall c :: InGrid(w, h, c) ==>
              Get(w, h, cells[Index(w, p) := v], c) == if c == p then v else Get(w, h, cells, c)
  {
    IndexInRange(w, h, p);
    var after := cells[Index(w, p) := v];
    forall c | InGrid(w, h, c)
      ensures Get(w, h, after, c) == if c == p then v else Get(w, h, cells, c)
    {
      IndexInRange(w, h, c);
      if Index(w, c) == Index(w, p) { IndexInjective(w, h, c, p); }
    }
  }
}
