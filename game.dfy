/** The agent-driven game of game.py: each tick takes a relative action
    (straight, right turn, left turn), counts frames, ends an episode on a
    collision or when it drags on too long, and reports a reward. */
module Autonomous {
  import opened Grid
  import opened Body

  /** The three moves an agent can choose, `[1,0,0]`, `[0,1,0]`, `[0,0,1]`. */
  datatype Action = Straight | TurnRight | TurnLeft

  /** How `_move` reads the action vector: `[1,0,0]` is straight,
      `[0,1,0]` a right turn, and everything else a left turn. */
  function DecodeAction(action: seq<int>): (a: Action)
    ensures a == Straight <==> action == [1, 0, 0]
    ensures a == TurnRight <==> action == [0, 1, 0]
  {
    if action == [1, 0, 0] then Straight
    else if action == [0, 1, 0] then TurnRight
    else TurnLeft
  }

  /** The encoding the agent is meant to send; `DecodeAction` inverts it. */
  function EncodeAction(a: Action): seq<int>
  {
    match a
    case Straight => [1, 0, 0]
    case TurnRight => [0, 1, 0]
    case TurnLeft => [0, 0, 1]
  }

  lemma DecodeEncode(a: Action)
    ensures DecodeAction(EncodeAction(a)) == a
  {
  }

  /** The new heading of `_move`: one step along the clockwise list for a
      right turn, one step back (Python's floored `% 4`) for a left turn. */
  function Turn(d: Direction, a: Action): (r: Direction)
    ensures a == Straight ==> r == d
    ensures a == TurnRight ==> Value(r) == (Value(d) + 1) % 4
    ensures a == TurnLeft ==> (Value(r) + 1) % 4 == Value(d)
    ensures r != Opposite(d)
  {
    var idx := Value(d);
    match a
    case Straight => Clockwise[idx]
    case TurnRight => Clockwise[(idx + 1) % 4]
    case TurnLeft => Clockwise[(idx - 1) % 4]
  }

  /** A right turn is a quarter turn clockwise on the compass. */
  lemma RightTurnIsClockwise(d: Direction)
    ensures Turn(d, TurnRight) == match d
      case Right => Down
      case Down => Left
      case Left => Up
      case Up => Right
  {
  }

  /** A left turn undoes a right turn and vice versa. */
  lemma TurnsCancel(d: Direction)
    ensures Turn(Turn(d, TurnRight), TurnLeft) == d
    ensures Turn(Turn(d, TurnLeft), TurnRight) == d
  {
  }

  /** Four right turns (or four left turns) come back to the start. */
  lemma FourTurnsCycle(d: Direction)
    ensures Turn(Turn(Turn(Turn(d, TurnRight), TurnRight), TurnRight), TurnRight) == d
    ensures Turn(Turn(Turn(Turn(d, TurnLeft), TurnLeft), TurnLeft), TurnLeft) == d
  {
  }

  /** Two turns the same way reverse the heading: a reversal takes two ticks. */
  lemma TwoTurnsReverse(d: Direction)
    ensures Turn(Turn(d, TurnRight), TurnRight) == Opposite(d)
    ensures Turn(Turn(d, TurnLeft), TurnLeft) == Opposite(d)
  {
  }

  lemma LeftFromRightIsUp()
    ensures Turn(Right, TurnLeft) == Up
  {
  }

  /** The frame limit of `play_step`, measured on the snake after the head
      was inserted: a snake of `len` segments before the tick may run
      100 * (len + 1) frames. */
  predicate Stagnant(frameIteration: int, lenAfterInsert: int)
  {
    frameIteration > 100 * lenAfterInsert
  }

  /** The reward of a tick. */
  function Reward(gameOver: bool, ate: bool): (r: int)
    ensures gameOver ==> r == -10
    ensures !gameOver && ate ==> r == 10
    ensures !gameOver && !ate ==> r == 0
  {
    if gameOver then -10 else if ate then 10 else 0
  }

  class SnakeGameAI {
    const w: int
    const h: int

    var direction: Direction
    var head: Point
    var snake: seq<Point>
    var score: int
    var food: Point
    var frameIteration: int

    /** The shape every tick relies on: the head is the first segment. */
    ghost predicate Valid()
      reads this
    {
      |snake| >= 1 && head == snake[0]
    }

    /** The food is on a free board cell. */
    ghost predicate FoodPlaced()
      reads this
    {
      FoodOff(food, snake, w, h)
    }

    /** The snake is well formed on this board. */
    ghost predicate SnakeWellFormed()
      reads this
    {
      WellFormed(snake, w, h)
    }

    /** The head after the next tick, for a given action. */
    function NextHead(action: seq<int>): (q: Point)
      reads this
      ensures Adjacent(q, head)
    {
      Advance(head, Turn(direction, DecodeAction(action)))
    }

    /** The tick for `action` reaches `__create_food`: the next head is on
        the food, it does not collide, and the frame limit is not exceeded. */
    predicate WouldEat(action: seq<int>)
      reads this
    {
      var q := NextHead(action);
      q == food && !Collides(q, [q] + snake, w, h) && !Stagnant(frameIteration + 1, |snake| + 1)
    }

    /** `__init__(w, h)` without the display, then `reset`. The sizes are
        even so that `w/2`, `h/2` are whole, and at least one block so that
        the ranges `randint` draws from are not empty. */
    constructor (w: int, h: int)
      requires w >= BlockSize && h >= BlockSize && w % 2 == 0 && h % 2 == 0
      ensures this.w == w && this.h == h
      ensures Valid() && FoodPlaced()
      ensures direction == Right && head == Point(w / 2, h / 2) && snake == InitialSnake(head)
      ensures score == 0 && frameIteration == 0
      ensures w % (2 * BlockSize) == 0 && h % (2 * BlockSize) == 0 && w >= 4 * BlockSize ==> SnakeWellFormed()
    {
      this.w := w;
      this.h := h;
      new;
      Reset();
    }

    /** `reset`: heading RIGHT, the three-segment snake centred on the
        board, score 0, food placed, frame counter 0. */
    method Reset()
      requires w >= BlockSize && h >= BlockSize
      modifies this
      ensures Valid() && FoodPlaced()
      ensures direction == Right && head == Point(w / 2, h / 2) && snake == InitialSnake(head)
      ensures score == 0 && frameIteration == 0
      ensures w % (2 * BlockSize) == 0 && h % (2 * BlockSize) == 0 && w >= 4 * BlockSize ==> SnakeWellFormed()
    {
      direction := Right;
      head := Point(w / 2, h / 2);
      snake := InitialSnake(head);
      score := 0;
      InitialSnakeLeavesFreeCell(w, h);
      CreateFood();
      frameIteration := 0;
      if w % (2 * BlockSize) == 0 && h % (2 * BlockSize) == 0 && w >= 4 * BlockSize {
        InitialSnakeWellFormed(w, h);
      }
    }

    /** `__create_food`: draw a cell index pair in randint's inclusive
        ranges; the source draws again, by a recursive call, while the cell
        is on the snake, and whichever draw it stops at is a free cell. */
    method CreateFood()
      requires HasFreeCell(snake, w, h)
      modifies this`food
      ensures FoodOff(food, snake, w, h)
    {
      var ix: int, iy: int :| 0 <= ix <= (w - BlockSize) / BlockSize
                           && 0 <= iy <= (h - BlockSize) / BlockSize
                           && Cell(ix, iy) !in snake;
      food := Cell(ix, iy);
      CellOnBoard(ix, iy, w, h);
    }

    /** `is_collision(pt)`: `pt` (the head when absent) is off the board or
        on a segment other than the first. */
    function IsCollision(pt: Option<Point>): (r: bool)
      reads this
      ensures pt.None? ==> (r <==> Collides(head, snake, w, h))
      ensures pt.Some? ==>
        (r <==> OutOfBounds(pt.value, w, h) || exists i :: 1 <= i < |snake| && snake[i] == pt.value)
    {
      var p := if pt.None? then head else pt.value;
      Collides(p, snake, w, h)
    }

    /** `_move`: turn as the action says, then step the head. */
    method Move(action: seq<int>)
      modifies this`direction, this`head
      ensures direction == Turn(old(direction), DecodeAction(action))
      ensures head == Advance(old(head), direction)
    {
      direction := Turn(direction, DecodeAction(action));
      head := Advance(head, direction);
    }

    /** `play_step` without event polling, rendering and pacing. */
    method PlayStep(action: seq<int>) returns (reward: int, gameOver: bool, finalScore: int)
      requires Valid()
      requires WouldEat(action) ==> |snake| + 1 < CellCount(w, h)
      modifies this
      ensures Valid()
      ensures frameIteration == old(frameIteration) + 1
      ensures direction == Turn(old(direction), DecodeAction(action))
      ensures head == Advance(old(head), direction)
      ensures gameOver <==>
        Collides(head, [head] + old(snake), w, h) || Stagnant(frameIteration, |old(snake)| + 1)
      ensures reward == Reward(gameOver, head == old(food))
      ensures finalScore == score
      ensures gameOver ==>
        snake == [head] + old(snake) && score == old(score) && food == old(food)
      ensures !gameOver && head == old(food) ==>
        snake == [head] + old(snake) && score == old(score) + 1 && FoodPlaced()
      ensures !gameOver && head != old(food) ==>
        snake == [head] + old(snake)[..|old(snake)| - 1] && score == old(score) && food == old(food)
      ensures old(FoodPlaced()) ==> (FoodPlaced() <==> food != head)
      ensures old(SnakeWellFormed()) && !gameOver ==> SnakeWellFormed()
    {
      ghost var before := snake;
      frameIteration := frameIteration + 1;
      Move(action);
      snake := [head] + snake;

      reward := 0;
      gameOver := false;
      if IsCollision(None) || frameIteration > 100 * |snake| {
        gameOver := true;
        reward := -10;
        return reward, gameOver, score;
      }

      if head == food {
        score := score + 1;
        reward := 10;
        FreeCellExists(snake, w, h);
        CreateFood();
        if old(SnakeWellFormed()) {
          GrowKeepsWellFormed(before, direction, w, h);
        }
      } else {
        if old(FoodPlaced()) {
          ShiftKeepsFoodOff(before, head, food, w, h);
        }
        if old(SnakeWellFormed()) {
          ShiftKeepsWellFormed(before, direction, w, h);
        }
        snake := snake[..|snake| - 1];
        assert snake == [head] + before[..|before| - 1];
      }
      return reward, gameOver, score;
    }
  }
}
