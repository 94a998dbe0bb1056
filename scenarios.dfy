/** Concrete ticks of both games, derived from the class contracts alone:
    what a caller of `play_step` can rely on in a few fixed situations. */
module Scenarios {
  import opened Grid
  import opened Body
  import Interactive
  import Autonomous

  /** The first tick of a fresh interactive game with no key pressed: the
      head moves right to (340, 240) and the snake shifts, or grows if the
      food happened to be drawn on that cell. */
  method OpeningTick() returns (gameOver: bool, finalScore: int, snake: seq<Point>)
    ensures !gameOver
    ensures || (snake == [Point(340, 240), Point(320, 240), Point(300, 240)] && finalScore == 0)
            || (snake == [Point(340, 240), Point(320, 240), Point(300, 240), Point(280, 240)] && finalScore == 1)
  {
    var g := new Interactive.SnakeGame();
    gameOver, finalScore := g.PlayStep(None);
    snake := g.snake;
  }

  /** Pressing LEFT while heading RIGHT is ignored: the snake goes on right. */
  method ReversalRefused() returns (heading: Direction, head: Point)
    ensures heading == Right && head == Point(340, 240)
  {
    var g := new Interactive.SnakeGame();
    var _, _ := g.PlayStep(Some(Left));
    heading, head := g.direction, g.head;
  }

  /** A head at (620, 0) heading right leaves the 640-wide board: the
      episode ends with reward -10 and the score unchanged. */
  method RightEdgeCollision() returns (reward: int, gameOver: bool, finalScore: int)
    ensures gameOver && reward == -10 && finalScore == 0
  {
    var g := new Autonomous.SnakeGameAI(640, 480);
    g.head := Point(620, 0);
    g.snake := [Point(620, 0), Point(600, 0), Point(580, 0)];
    g.direction := Right;
    reward, gameOver, finalScore := g.PlayStep([1, 0, 0]);
  }

  /** A hooked five-segment snake heading up that turns right runs into
      its own fourth segment: the episode ends with reward -10. */
  method SelfCollision() returns (reward: int, gameOver: bool, length: nat)
    ensures gameOver && reward == -10 && length == 6
  {
    var g := new Autonomous.SnakeGameAI(640, 480);
    g.head := Point(100, 100);
    g.snake := [Point(100, 100), Point(100, 120), Point(120, 120), Point(120, 100), Point(120, 80)];
    g.direction := Up;
    var finalScore;
    reward, gameOver, finalScore := g.PlayStep([0, 1, 0]);
    assert g.snake[4] == Point(120, 100);
    length := |g.snake|;
  }

  /** The frame limit counts the inserted head: a three-segment snake that
      eats nothing survives frame 400 and is stopped at frame 401. */
  method StagnationLimit() returns (endsAt400: bool, endsAt401: bool)
    ensures !endsAt400 && endsAt401
  {
    var g := new Autonomous.SnakeGameAI(640, 480);
    g.frameIteration := 399;
    var r, s;
    r, endsAt400, s := g.PlayStep([1, 0, 0]);

    var g2 := new Autonomous.SnakeGameAI(640, 480);
    g2.frameIteration := 400;
    r, endsAt401, s := g2.PlayStep([1, 0, 0]);
  }

  /** On an 80 x 80 board a 15-segment snake heads for the food on the last
      free cell at frame 1601. The frame limit 100 * 16 ends the episode
      before any food would be drawn, so the tick is admitted although no
      cell would remain after growing. */
  method FullBoardFrameLimit() returns (reward: int, gameOver: bool, length: nat)
    ensures gameOver && reward == -10 && length == 16
  {
    var g := new Autonomous.SnakeGameAI(80, 80);
    g.head := Point(20, 60);
    g.snake := [Point(20, 60), Point(40, 60), Point(60, 60), Point(60, 40), Point(40, 40),
                Point(20, 40), Point(0, 40), Point(0, 20), Point(20, 20), Point(40, 20),
                Point(60, 20), Point(60, 0), Point(40, 0), Point(20, 0), Point(0, 0)];
    g.direction := Left;
    g.food := Point(0, 60);
    g.frameIteration := 1600;
    var finalScore;
    reward, gameOver, finalScore := g.PlayStep([1, 0, 0]);
    length := |g.snake|;
  }
}
