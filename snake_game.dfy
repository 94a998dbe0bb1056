/** The keyboard-driven game of snake_game.py: each tick takes an optional
    compass direction (the last arrow key pressed, if any), refuses a
    direct reversal, moves the head one block, and then ends the game,
    grows the snake or shifts it. */
module Interactive {
  import opened Grid
  import opened Body

  /** `abs(a.value - b.value) == 2`, the reversal test of `__move`. */
  predicate Reverses(a: Direction, b: Direction)
  {
    Abs(Value(a) - Value(b)) == 2
  }

  /** The value test singles out exactly the compass opposites:
      RIGHT/LEFT and DOWN/UP, and no other pair. */
  lemma ReversesIffOpposite(a: Direction, b: Direction)
    ensures Reverses(a, b) <==> b == Opposite(a)
  {
  }

  /** The heading `__move` uses when `prev` was last tick's heading and
      `requested` is the heading after input handling. */
  function Guard(prev: Direction, requested: Direction): (d: Direction)
    ensures d == requested || d == prev
    ensures d == requested <==> requested != Opposite(prev)
    ensures d != Opposite(prev)
  {
    if Reverses(prev, requested) then prev else requested
  }

  /** The heading after `__handle_input`: the requested key, or the
      current heading when no arrow key was pressed. */
  function Requested(request: Option<Direction>, current: Direction): Direction
  {
    match request
    case Some(d) => d
    case None => current
  }

  /** With no key pressed the snake keeps going the way it went, provided
      heading and previous heading agree, as they do between ticks. */
  lemma NoInputKeepsHeading(d: Direction)
    ensures Guard(d, Requested(None, d)) == d
  {
  }

  class SnakeGame {
    const w: int := 640
    const h: int := 480

    var direction: Direction
    var prevDirection: Direction
    var head: Point
    var snake: seq<Point>
    var score: int
    var food: Point

    /** The shape every tick relies on: the head is the first segment. */
    ghost predicate Valid()
      reads this
    {
      |snake| >= 1 && head == snake[0]
    }

    /** The food is on a free board cell. */
    ghost predicate FoodPlaced()
      reads this
    {
      FoodOff(food, snake, w, h)
    }

    /** The snake is well formed on this board. */
    ghost predicate SnakeWellFormed()
      reads this
    {
      WellFormed(snake, w, h)
    }

    /** The head after the next tick, for a given key request. */
    function NextHead(request: Option<Direction>): (q: Point)
      reads this
      ensures Adjacent(q, head)
    {
      Advance(head, Guard(prevDirection, Requested(request, direction)))
    }

    /** The tick for `request` reaches `__create_food`: the next head is on
        the food and does not collide. */
    predicate WouldEat(request: Option<Direction>)
      reads this
    {
      var q := NextHead(request);
      q == food && !Collides(q, [q] + snake, w, h)
    }

    /** `__init__` without the display: heading RIGHT, the three-segment
        snake centred on the 640 x 480 board, score 0, food placed. */
    constructor ()
      ensures Valid() && FoodPlaced() && SnakeWellFormed()
      ensures direction == Right && prevDirection == direction
      ensures head == Point(w / 2, h / 2) && head == Point(320, 240)
      ensures snake == InitialSnake(head)
      ensures snake == [Point(320, 240), Point(300, 240), Point(280, 240)]
      ensures score == 0
    {
      direction := Right;
      prevDirection := Right;
      head := Point(640 / 2, 480 / 2);
      snake := InitialSnake(Point(640 / 2, 480 / 2));
      score := 0;
      // The source starts with no food; a cell on the snake plays that part
      // until `CreateFood` draws the real one.
      food := Point(640 / 2, 480 / 2);
      new;
      InitialSnakeLeavesFreeCell(w, h);
      InitialSnakeWellFormed(w, h);
      CreateFood();
    }

    /** `__create_food`: draw a cell index pair in randint's inclusive
        ranges; the source draws again, by a recursive call, while the cell
        is on the snake, and whichever draw it stops at is a free cell. */
    method CreateFood()
      requires HasFreeCell(snake, w, h)
      modifies this`food
      ensures FoodOff(food, snake, w, h)
    {
      var ix: int, iy: int :| 0 <= ix <= (w - BlockSize) / BlockSize
                           && 0 <= iy <= (h - BlockSize) / BlockSize
                           && Cell(ix, iy) !in snake;
      food := Cell(ix, iy);
      CellOnBoard(ix, iy, w, h);
    }

    /** `__handle_input`: the last arrow key of the tick, if any, becomes the heading. */
    method HandleInput(request: Option<Direction>)
      modifies this`direction
      ensures direction == Requested(request, old(direction))
    {
      if request.Some? {
        direction := request.value;
      }
    }

    /** `__move`: undo a reversal, step the head, remember the heading. */
    method Move()
      modifies this`direction, this`prevDirection, this`head
      ensures direction == Guard(old(prevDirection), old(direction))
      ensures prevDirection == direction
      ensures head == Advance(old(head), direction)
    {
      if Reverses(prevDirection, direction) {
        direction := prevDirection;
      }
      head := Advance(head, direction);
      prevDirection := direction;
    }

    /** `__is_collision`: the head is off the board or on a later segment. */
    function IsCollision(): (r: bool)
      reads this
      ensures r <==> OutOfBounds(head, w, h) || exists i :: 1 <= i < |snake| && snake[i] == head
    {
      Collides(head, snake, w, h)
    }

    /** `play_step` without rendering and pacing. */
    method PlayStep(request: Option<Direction>) returns (gameOver: bool, finalScore: int)
      requires Valid()
      requires WouldEat(request) ==> |snake| + 1 < CellCount(w, h)
      modifies this
      ensures Valid()
      ensures direction == Guard(old(prevDirection), Requested(request, old(direction)))
      ensures prevDirection == direction
      ensures head == Advance(old(head), direction)
      ensures gameOver == Collides(head, [head] + old(snake), w, h)
      ensures finalScore == score
      ensures gameOver ==>
        snake == [head] + old(snake) && score == old(score) && food == old(food)
      ensures !gameOver && head == old(food) ==>
        snake == [head] + old(snake) && score == old(score) + 1 && FoodPlaced()
      ensures !gameOver && head != old(food) ==>
        snake == [head] + old(snake)[..|old(snake)| - 1] && score == old(score) && food == old(food)
      ensures old(FoodPlaced()) ==> FoodPlaced()
      ensures old(SnakeWellFormed()) && !gameOver ==> SnakeWellFormed()
    {
      ghost var before := snake;
      HandleInput(request);
      Move();
      snake := [head] + snake;

      gameOver := false;
      if IsCollision() {
        gameOver := true;
        if old(FoodPlaced()) {
          CollisionMissesFood(before, head, food, w, h);
        }
        return gameOver, score;
      }

      if head == food {
        score := score + 1;
        FreeCellExists(snake, w, h);
        CreateFood();
        if old(SnakeWellFormed()) {
          GrowKeepsWellFormed(before, direction, w, h);
        }
      } else {
        if old(FoodPlaced()) {
          ShiftKeepsFoodOff(before, head, food, w, h);
        }
        if old(SnakeWellFormed()) {
          ShiftKeepsWellFormed(before, direction, w, h);
        }
        snake := snake[..|snake| - 1];
        assert snake == [head] + before[..|before| - 1];
      }
      return gameOver, score;
    }
  }
}
