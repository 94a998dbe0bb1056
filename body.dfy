/** The snake as a head-first sequence of cells, the invariant a running
    game keeps on it, and the two ways a surviving tick reshapes it:
    shift (insert the new head, pop the tail) and grow (insert only). */
module Body {
  import opened Grid

  /** The starting snake of `__init__` / `reset`: the head and two cells to its left. */
  function InitialSnake(head: Point): (s: seq<Point>)
    ensures |s| == 3 && s[0] == head
    ensures forall i :: 0 <= i < 3 ==> s[i] == Point(head.x - i * BlockSize, head.y)
  {
    [head, Point(head.x - BlockSize, head.y), Point(head.x - 2 * BlockSize, head.y)]
  }

  /** Two cells one block apart (Manhattan distance BLOCK_SIZE). */
  predicate Adjacent(p: Point, q: Point)
  {
    Abs(p.x - q.x) + Abs(p.y - q.y) == BlockSize
  }

  /** Each segment touches the next one. */
  predicate Connected(s: seq<Point>)
  {
    forall i :: 0 <= i < |s| - 1 ==> Adjacent(s[i], s[i + 1])
  }

  /** No cell is held by two segments. */
  predicate NoOverlap(s: seq<Point>)
  {
    forall i, j :: 0 <= i < j < |s| ==> s[i] != s[j]
  }

  /** What holds of the snake while the game goes on: non-empty, every
      segment a cell of the board, consecutive segments adjacent, no overlap. */
  predicate WellFormed(s: seq<Point>, w: int, h: int)
  {
    && |s| >= 1
    && (forall i :: 0 <= i < |s| ==> OnBoard(s[i], w, h))
    && Connected(s)
    && NoOverlap(s)
  }

  /** Food is on a board cell that no segment holds. */
  predicate FoodOff(food: Point, s: seq<Point>, w: int, h: int)
  {
    OnBoard(food, w, h) && food !in s
  }

  /** On a board whose half-width and half-height are cell multiples and
      which is at least four blocks wide, the starting snake is well formed. */
  lemma InitialSnakeWellFormed(w: int, h: int)
    requires w % (2 * BlockSize) == 0 && h % (2 * BlockSize) == 0
    requires w >= 4 * BlockSize && h >= 2 * BlockSize
    ensures WellFormed(InitialSnake(Point(w / 2, h / 2)), w, h)
  {
    var s := InitialSnake(Point(w / 2, h / 2));
    assert (w / 2) % BlockSize == 0 && (h / 2) % BlockSize == 0;
    assert OnBoard(s[0], w, h) && OnBoard(s[1], w, h) && OnBoard(s[2], w, h);
  }

  /** The cell (0, 0) is free at the start of a game on any board of height
      at least one block, so the first `__create_food` succeeds. */
  lemma InitialSnakeLeavesFreeCell(w: int, h: int)
    requires w >= BlockSize && h >= BlockSize
    ensures HasFreeCell(InitialSnake(Point(w / 2, h / 2)), w, h)
  {
    assert Cell(0, 0) !in InitialSnake(Point(w / 2, h / 2));
  }

  /** A move the collision test lets through lands on a free cell of the board. */
  lemma SafeHead(s: seq<Point>, d: Direction, w: int, h: int)
    requires WellFormed(s, w, h)
    requires !Collides(Advance(s[0], d), [Advance(s[0], d)] + s, w, h)
    ensures OnBoard(Advance(s[0], d), w, h)
    ensures Advance(s[0], d) !in s
    ensures Adjacent(Advance(s[0], d), s[0])
  {
  }

  /** Growing (food eaten): the snake gains the new head and keeps its tail. */
  lemma GrowKeepsWellFormed(s: seq<Point>, d: Direction, w: int, h: int)
    requires WellFormed(s, w, h)
    requires !Collides(Advance(s[0], d), [Advance(s[0], d)] + s, w, h)
    ensures WellFormed([Advance(s[0], d)] + s, w, h)
  {
    SafeHead(s, d, w, h);
    var t := [Advance(s[0], d)] + s;
    forall i | 0 <= i < |t| - 1
      ensures Adjacent(t[i], t[i + 1])
    {
      if i > 0 {
        assert t[i] == s[i - 1] && t[i + 1] == s[i];
      }
    }
    forall i, j | 0 <= i < j < |t|
      ensures t[i] != t[j]
    {
      if i > 0 {
        assert t[i] == s[i - 1] && t[j] == s[j - 1];
      } else {
        assert t[j] == s[j - 1];
      }
    }
  }

  /** Shifting (no food): the snake gains the new head and drops its tail,
      and stays well formed. */
  lemma ShiftKeepsWellFormed(s: seq<Point>, d: Direction, w: int, h: int)
    requires WellFormed(s, w, h)
    requires !Collides(Advance(s[0], d), [Advance(s[0], d)] + s, w, h)
    ensures WellFormed(([Advance(s[0], d)] + s)[..|s|], w, h)
  {
    GrowKeepsWellFormed(s, d, w, h);
    var t := [Advance(s[0], d)] + s;
    var u := t[..|s|];
    assert forall i :: 0 <= i < |u| ==> u[i] == t[i];
  }

  /** Food that was off the snake stays off it when the snake only shifts
      onto a cell other than the food. */
  lemma ShiftKeepsFoodOff(s: seq<Point>, q: Point, food: Point, w: int, h: int)
    requires |s| >= 1 && FoodOff(food, s, w, h) && q != food
    ensures FoodOff(food, ([q] + s)[..|s|], w, h)
  {
  }

  /** A head that collides never lands on food that was off the snake:
      either it left the board or it sits on a segment. */
  lemma CollisionMissesFood(s: seq<Point>, q: Point, food: Point, w: int, h: int)
    requires FoodOff(food, s, w, h) && Collides(q, [q] + s, w, h)
    ensures q != food
  {
  }
}
