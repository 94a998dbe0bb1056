/** The board both game variants play on: compass directions, pixel points,
    moving one cell, the collision test and the cells food may be placed on.
    Both source files declare the same Direction enum, Point tuple and
    BLOCK_SIZE constant; here they are declared once. */
module Grid {

  datatype Option<T> = None | Some(value: T)

  /** Side of one grid cell, in pixels (BLOCK_SIZE). */
  const BlockSize: int := 20

  /** The four headings; the enum values are 0, 1, 2, 3 in this order. */
  datatype Direction = Right | Down | Left | Up

  /** A position in pixels; y grows downwards, as on the screen. */
  datatype Point = Point(x: int, y: int)

  /** The clockwise list [RIGHT, DOWN, LEFT, UP] used for relative turns. */
  const Clockwise: seq<Direction> := [Right, Down, Left, Up]

  /** The enum value of a direction, which is also its index in Clockwise
      (what `clock_wise.index(d)` computes). */
  function Value(d: Direction): (v: nat)
    ensures v < |Clockwise| && Clockwise[v] == d
  {
    match d
    case Right => 0
    case Down => 1
    case Left => 2
    case Up => 3
  }

  /** The opposite heading, defined by the compass rather than by values. */
  function Opposite(d: Direction): Direction
  {
    match d
    case Right => Left
    case Left => Right
    case Down => Up
    case Up => Down
  }

  function Abs(n: int): nat
  {
    if n < 0 then -n else n
  }

  predicate Horizontal(d: Direction)
  {
    d == Right || d == Left
  }

  /** The point one block further along `d` (the if-chain of `__move` and `_move`). */
  function Advance(p: Point, d: Direction): (q: Point)
    ensures Abs(q.x - p.x) + Abs(q.y - p.y) == BlockSize
    ensures (q.y == p.y) == Horizontal(d)
    ensures Horizontal(d) ==> (q.x > p.x <==> d == Right)
    ensures !Horizontal(d) ==> (q.y > p.y <==> d == Down)
    ensures !Horizontal(d) ==> q.x == p.x
  {
    match d
    case Right => Point(p.x + BlockSize, p.y)
    case Left => Point(p.x - BlockSize, p.y)
    case Down => Point(p.x, p.y + BlockSize)
    case Up => Point(p.x, p.y - BlockSize)
  }

  /** Moving one block and then one block back restores the point. */
  lemma AdvanceOppositeUndoes(p: Point, d: Direction)
    ensures Advance(Advance(p, d), Opposite(d)) == p
  {
  }

  /** Value is one-to-one, so `clock_wise.index` is well defined. */
  lemma ValueInjective(d: Direction, e: Direction)
    requires Value(d) == Value(e)
    ensures d == e
  {
  }

  /** Different headings lead to different cells. */
  lemma AdvanceInjective(p: Point, d: Direction, e: Direction)
    requires d != e
    ensures Advance(p, d) != Advance(p, e)
  {
  }

  /** The boundary part of the collision test: outside [0, w-BLOCK] x [0, h-BLOCK]. */
  predicate OutOfBounds(p: Point, w: int, h: int)
  {
    p.x > w - BlockSize || p.x < 0 || p.y > h - BlockSize || p.y < 0
  }

  /** `is_collision` / `__is_collision`: `pt` hits the boundary or lies in
      `snake[1:]`. The snake passed in already holds the new head at index 0. */
  function Collides(pt: Point, snake: seq<Point>, w: int, h: int): (r: bool)
    ensures r <==> !(0 <= pt.x <= w - BlockSize && 0 <= pt.y <= h - BlockSize)
                   || exists i :: 1 <= i < |snake| && snake[i] == pt
  {
    if OutOfBounds(pt, w, h) then true
    else if |snake| > 0 && pt in snake[1..] then true
    else false
  }

  /** A cell position: both coordinates multiples of BLOCK_SIZE. */
  predicate Aligned(p: Point)
  {
    p.x % BlockSize == 0 && p.y % BlockSize == 0
  }

  /** A cell of a w x h board: aligned and inside [0, w-BLOCK] x [0, h-BLOCK]. */
  predicate OnBoard(p: Point, w: int, h: int)
  {
    Aligned(p) && !OutOfBounds(p, w, h)
  }

  /** The point `randint` index pair (ix, iy) stands for. */
  function Cell(ix: int, iy: int): Point
  {
    Point(ix * BlockSize, iy * BlockSize)
  }

  /** Number of cells along a side of `size` pixels: randint(0, (size-BLOCK)//BLOCK) has this many outcomes. */
  function Span(size: int): nat
  {
    if size < BlockSize then 0 else (size - BlockSize) / BlockSize + 1
  }

  function CellCount(w: int, h: int): nat
  {
    Span(w) * Span(h)
  }

  /** Some cell that food could be drawn on is not covered by the snake. */
  predicate HasFreeCell(snake: seq<Point>, w: int, h: int)
  {
    exists ix, iy :: 0 <= ix < Span(w) && 0 <= iy < Span(h) && Cell(ix, iy) !in snake
  }

  /** The cells `__create_food` can draw are exactly the board cells. */
  lemma CellOnBoard(ix: int, iy: int, w: int, h: int)
    ensures (0 <= ix < Span(w) && 0 <= iy < Span(h)) <==> OnBoard(Cell(ix, iy), w, h)
  {
  }

  // ---- A snake shorter than the board leaves a free cell (pigeonhole) ----

  /** The cells (0, iy) .. (cols-1, iy) of one row. */
  function RowCells(cols: nat, iy: int): set<Point>
  {
    if cols == 0 then {} else RowCells(cols - 1, iy) + {Cell(cols - 1, iy)}
  }

  /** The cells of rows 0 .. rows-1, each `cols` wide. */
  function GridCells(cols: nat, rows: nat): set<Point>
  {
    if rows == 0 then {} else GridCells(cols, rows - 1) + RowCells(cols, rows - 1)
  }

  /** The points of a sequence, as a set. */
  function Elements(s: seq<Point>): set<Point>
  {
    if s == [] then {} else {s[0]} + Elements(s[1..])
  }

  lemma {:induction false} RowMember(p: Point, cols: nat, iy: int) returns (ix: int)
    requires p in RowCells(cols, iy)
    ensures 0 <= ix < cols && p == Cell(ix, iy)
  {
    if p == Cell(cols - 1, iy) {
      ix := cols - 1;
    } else {
      ix := RowMember(p, cols - 1, iy);
    }
  }

  lemma {:induction false} GridMember(p: Point, cols: nat, rows: nat) returns (ix: int, iy: int)
    requires p in GridCells(cols, rows)
    ensures 0 <= ix < cols && 0 <= iy < rows && p == Cell(ix, iy)
  {
    if p in RowCells(cols, rows - 1) {
      ix := RowMember(p, cols, rows - 1);
      iy := rows - 1;
    } else {
      ix, iy := GridMember(p, cols, rows - 1);
    }
  }

  lemma {:induction false} RowCard(cols: nat, iy: int)
    ensures |RowCells(cols, iy)| == cols
  {
    if cols > 0 {
      RowCard(cols - 1, iy);
      if Cell(cols - 1, iy) in RowCells(cols - 1, iy) {
        var ix := RowMember(Cell(cols - 1, iy), cols - 1, iy);
        assert false;
      }
    }
  }

  /** A row lies strictly below all rows above it. */
  lemma RowsDisjoint(cols: nat, rows: nat)
    ensures GridCells(cols, rows) * RowCells(cols, rows) == {}
  {
    forall p | p in GridCells(cols, rows)
      ensures p !in RowCells(cols, rows)
    {
      var ix, iy := GridMember(p, cols, rows);
      if p in RowCells(cols, rows) {
        var jx := RowMember(p, cols, rows);
        assert false;
      }
    }
  }

  lemma {:induction false} GridCard(cols: nat, rows: nat)
    ensures |GridCells(cols, rows)| == cols * rows
  {
    if rows > 0 {
      GridCard(cols, rows - 1);
      RowCard(cols, rows - 1);
      RowsDisjoint(cols, rows - 1);
      assert cols * rows == cols * (rows - 1) + cols;
    }
  }

  lemma {:induction false} ElementsBound(s: seq<Point>)
    ensures |Elements(s)| <= |s|
    ensures forall p :: p in Elements(s) <==> p in s
  {
    if s != [] {
      ElementsBound(s[1..]);
      assert forall p :: p in s <==> p == s[0] || p in s[1..];
    }
  }

  lemma SubsetCard(a: set<Point>, b: set<Point>)
    requires a <= b
    ensures |a| <= |b|
  {
    assert b == a + (b - a);
  }

  /** Pigeonhole: a snake with fewer segments than the board has cells
      leaves a cell that a draw of `__create_food` can land on. */
  lemma FreeCellExists(snake: seq<Point>, w: int, h: int)
    requires |snake| < CellCount(w, h)
    ensures HasFreeCell(snake, w, h)
  {
    var all := GridCells(Span(w), Span(h));
    GridCard(Span(w), Span(h));
    ElementsBound(snake);
    var taken := Elements(snake);
    if all <= taken {
      SubsetCard(all, taken);
      assert false;
    }
    var p :| p in all && p !in taken;
    var ix, iy := GridMember(p, Span(w), Span(h));
    assert Cell(ix, iy) !in snake;
  }
}
