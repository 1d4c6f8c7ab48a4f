/**
  The playing field of the snake game: a 640 x 480 pixel screen divided into
  20 pixel cells, the four movement directions, and the toroidal wrap-around
  of a step in pixels (`Snake.move`).

  Coordinates are pixel pairs, as in the source. Python's `%` with a positive
  right operand (640 or 480) rounds toward minus infinity and so agrees with
  Dafny's Euclidean `%`; `//` on the positive screen sizes agrees with `/`.
*/
module Grid {

  const ScreenWidth: int := 640
  const ScreenHeight: int := 480
  const GridSize: int := 20
  const GridWidth: int := ScreenWidth / GridSize
  const GridHeight: int := ScreenHeight / GridSize

  /** A pixel position or a direction delta (a Python pair of ints). */
  datatype Vec = Vec(x: int, y: int)

  /** Where a new snake starts: the centre of the screen. */
  const Center: Vec := Vec(ScreenWidth / 2, ScreenHeight / 2)

  /** The source defines only DOWN, LEFT and RIGHT; UP is the evident fourth. */
  const Up: Vec := Vec(0, -1)
  const Down: Vec := Vec(0, 1)
  const Left: Vec := Vec(-1, 0)
  const Right: Vec := Vec(1, 0)

  predicate IsDirection(d: Vec) {
    d == Up || d == Down || d == Left || d == Right
  }

  function Opposite(d: Vec): Vec {
    Vec(-d.x, -d.y)
  }

  /** Inside the screen, upper bounds exclusive. */
  predicate OnBoard(p: Vec) {
    0 <= p.x < ScreenWidth && 0 <= p.y < ScreenHeight
  }

  /** The top-left corner of some cell. */
  predicate Aligned(p: Vec) {
    p.x % GridSize == 0 && p.y % GridSize == 0
  }

  predicate OnGrid(p: Vec) {
    OnBoard(p) && Aligned(p)
  }

  /**
    The head a step of one cell in direction `dir` leads to, wrapped around
    each edge of the screen. The result is always on the screen and stays on
    the cell grid when the old head is on it.
  */
  function Wrap(head: Vec, dir: Vec): (r: Vec)
    ensures OnBoard(r)
    ensures Aligned(head) ==> Aligned(r)
  {
    Vec((head.x + dir.x * GridSize) % ScreenWidth,
        (head.y + dir.y * GridSize) % ScreenHeight)
  }

  /** The cell with column `c.x` and row `c.y`. */
  predicate IsCell(c: Vec) {
    0 <= c.x < GridWidth && 0 <= c.y < GridHeight
  }

  /** The pixel origin of a cell. */
  function Origin(c: Vec): Vec {
    Vec(c.x * GridSize, c.y * GridSize)
  }

  /** The cell whose square contains pixel `p`. */
  function CellOf(p: Vec): Vec {
    Vec(p.x / GridSize, p.y / GridSize)
  }

  /** One step on the 32 x 24 torus of cells. */
  function CellStep(c: Vec, d: Vec): Vec {
    Vec((c.x + d.x) % GridWidth, (c.y + d.y) % GridHeight)
  }

  lemma ScaledMod(t: int, n: int)
    requires n == GridWidth || n == GridHeight
    ensures (GridSize * t) % (GridSize * n) == GridSize * (t % n)
  {
    var q, r := t / n, t % n;
    assert t == n * q + r;
    assert GridSize * t == (GridSize * n) * q + GridSize * r;
    assert 0 <= GridSize * r < GridSize * n;
  }

  /**
    Wrapping pixels is stepping on the cell torus: the origin of a cell, moved
    by `Wrap`, is the origin of the cell one step further, wrapped.
  */
  lemma WrapIsCellStep(c: Vec, d: Vec)
    ensures Wrap(Origin(c), d) == Origin(CellStep(c, d))
  {
    ScaledMod(c.x + d.x, GridWidth);
    ScaledMod(c.y + d.y, GridHeight);
    assert c.x * GridSize + d.x * GridSize == GridSize * (c.x + d.x);
    assert c.y * GridSize + d.y * GridSize == GridSize * (c.y + d.y);
  }

  /**
    The positions on the grid are exactly the origins of the 32 x 24 cells.
  */
  lemma OnGridIffCellOrigin(p: Vec)
    ensures OnGrid(p) ==> IsCell(CellOf(p)) && Origin(CellOf(p)) == p
    ensures forall c :: IsCell(c) && Origin(c) == p ==> OnGrid(p)
  {
  }
}
