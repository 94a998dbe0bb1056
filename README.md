# Snake game simulation engine, modelled in Dafny

This project models the tick-by-tick simulation of a grid Snake game. The
game comes in two near-duplicate variants:

- `SnakeGame` (snake_game.py) is played from the keyboard. Each tick takes
  the last arrow key pressed, if any. A direct reversal is refused. The head
  moves one block and is inserted at the front of the snake. Then the game
  ends on a collision, or the snake grows when it reaches the food (score
  +1), or it shifts (the tail is popped).
- `SnakeGameAI` (game.py) is driven by an agent. Each tick takes a
  straight / right turn / left turn action, applied as a step of +1 or -1
  (mod 4) along the clockwise list [RIGHT, DOWN, LEFT, UP]. It also counts
  frames and ends an episode that runs longer than 100 frames per snake
  segment. It returns a reward: -10 when the episode ends, +10 for food,
  0 otherwise.

Files and modules:

- `grid.dfy`, module `Grid`: the shared types (`Direction`, `Point`,
  `BlockSize`), one-block moves (`Advance`), the collision test
  (`Collides`), and the cells food can be drawn on. It also proves a
  pigeonhole lemma: a snake with fewer segments than the board has cells
  leaves a free cell (`FreeCellExists`).
- `body.dfy`, module `Body`: the starting snake. It defines the invariant a
  running game keeps on its snake (`WellFormed`: every segment a board cell,
  consecutive segments adjacent, no two segments on one cell) and proves
  that growing and shifting after a safe move keep it. It also proves that
  food stays off the snake.
- `snake_game.dfy`, module `Interactive`: the reversal guard and class
  `SnakeGame`. The class has the fields of the Python object; its methods
  `CreateFood`, `HandleInput`, `Move` and `PlayStep` update them in place.
- `game.dfy`, module `Autonomous`: actions, relative turns, rewards and
  class `SnakeGameAI`, with `Reset`, `CreateFood`, `Move`, `IsCollision` and
  `PlayStep`.
- `scenarios.dfy`, module `Scenarios`: fixed situations played through the
  class contracts only. These are the opening tick, a refused reversal, a
  collision with the right edge, a collision with the snake's own body, the
  frame limit of a three-segment snake, and a frame-limit tick on a board
  with one free cell left.

Each `PlayStep` follows the source's order. In `SnakeGame` it is: input,
move, insert the head, check for the end of the game, then grow or pop. In
`SnakeGameAI` the frame counter is raised first; the input step there only
polls for the window-close event, which is left out, and then come the same
move, insert, check and grow-or-pop. Its postcondition
gives the whole new state in terms of the old one. It also says that the
game invariants carry over: the food stays on a free board cell, and a snake
that was well formed stays well formed while the game goes on.

Three behaviours of the code that are easy to miss:

- The frame limit of game.py compares `frame_iteration` with
  `100*len(snake)` AFTER the new head was inserted. A three-segment snake
  therefore runs out at frame 401 (`Scenarios.StagnationLimit`).
- game.py's `_move` reads any action other than `[1,0,0]` and `[0,1,0]` as a
  left turn (`Autonomous.DecodeAction`). Malformed actions are not rejected.
- After an agent episode ends on the frame limit, the snake's new head may
  sit on the food, so "food is never on the snake" is not kept by that tick.
  `SnakeGameAI.PlayStep` states exactly when the food is off the snake: when
  it differs from the head.

## Model

| member | source | states |
|---|---|---|
| Grid.Value | game.py:119-120 | the enum value of a direction is its index in the clockwise list [RIGHT, DOWN, LEFT, UP] |
| Grid.ValueInjective | game.py:7-11 | distinct directions have distinct values, so the list index is well defined |
| Grid.Advance | snake_game.py:116-127 | the new head is exactly one block from the old one, along the x axis for RIGHT/LEFT (y unchanged) and the y axis for DOWN/UP (x unchanged), towards +x for RIGHT and +y for DOWN |
| Grid.AdvanceOppositeUndoes | game.py:133-144 | a move followed by a move in the opposite direction restores the point |
| Grid.AdvanceInjective | game.py:133-144 | different directions lead to different cells |
| Grid.OutOfBounds | game.py:106 | the boundary test: a point is off the board when x > w-BLOCK_SIZE, x < 0, y > h-BLOCK_SIZE or y < 0 (definition, no contract) |
| Grid.Collides | game.py:105-113 | a point collides iff it lies outside [0, w-BLOCK_SIZE] x [0, h-BLOCK_SIZE] or equals some segment at index 1 or later |
| Grid.CellOnBoard | snake_game.py:48-50 | the index pairs randint can draw give exactly the aligned points inside the board |
| Grid.FreeCellExists | game.py:54-59 | a snake with fewer segments than the board has cells leaves a free cell for the draw of `__create_food` to find |
| Body.InitialSnake | game.py:43-46 | the starting snake has three segments: the head, then one and two blocks to its left |
| Body.InitialSnakeWellFormed | snake_game.py:38-41 | when w/2 and h/2 are multiples of BLOCK_SIZE and the board is at least four blocks wide and two blocks high, the starting snake lies on board cells, is connected and does not overlap |
| Body.InitialSnakeLeavesFreeCell | snake_game.py:44-45 | the first food placement always has a free cell to choose |
| Body.SafeHead | snake_game.py:60-66 | a head the collision test lets through is a board cell, is off the old snake and is adjacent to the old head |
| Body.GrowKeepsWellFormed | snake_game.py:70-72 | growing after a safe move keeps the snake well formed |
| Body.ShiftKeepsWellFormed | snake_game.py:73-74 | inserting the safe head and popping the tail keeps the snake well formed |
| Body.ShiftKeepsFoodOff | game.py:85-86 | food off the snake stays off it after a shift onto another cell |
| Body.CollisionMissesFood | snake_game.py:64-67 | a colliding head never lands on food that was on a free cell |
| Interactive.ReversesIffOpposite | snake_game.py:113 | a value difference of exactly 2 holds precisely for the pairs RIGHT/LEFT and DOWN/UP |
| Interactive.Reverses | snake_game.py:113 | the reversal test `abs(prev.value - direction.value) == 2` (definition, no contract; its meaning is `Interactive.ReversesIffOpposite`) |
| Interactive.Guard | snake_game.py:113-114 | the heading used is the requested one unless that is opposite to the previous heading, in which case it is the previous heading; it is never opposite to the previous heading |
| Interactive.Requested | snake_game.py:88-96 | the heading after input handling: the pressed arrow key, or the current heading when none was pressed (definition, no contract; used by `HandleInput` and `PlayStep`) |
| Interactive.NoInputKeepsHeading | snake_game.py:83-96 | with no key pressed the heading is unchanged |
| Interactive.SnakeGame.NextHead | snake_game.py:111-127 | the next head is adjacent to the current head |
| Interactive.SnakeGame.constructor | snake_game.py:35-45 | heading RIGHT, previous heading equal to it, snake [(320,240), (300,240), (280,240)], score 0, food on a free cell, snake well formed |
| Interactive.SnakeGame.CreateFood | snake_game.py:47-52 | the food is placed on an aligned in-board cell not on the snake |
| Interactive.SnakeGame.HandleInput | snake_game.py:88-96 | a pressed arrow key becomes the heading; no key leaves it unchanged |
| Interactive.SnakeGame.Move | snake_game.py:111-128 | a reversal is replaced by the previous heading, the head advances one block along the heading, and the previous heading becomes the heading |
| Interactive.SnakeGame.IsCollision | snake_game.py:99-108 | the head is off the board or equal to a segment at index 1 or later |
| Interactive.SnakeGame.PlayStep | snake_game.py:55-80 | game over iff the inserted head collides; on game over the snake keeps the inserted head and the score is unchanged; on food the snake grows by one, the score rises by one and new food is placed; otherwise the snake becomes the new head followed by all but the old tail; the returned score is the current score; food stays on a free cell; a well-formed snake stays well formed while the game goes on |
| Autonomous.DecodeAction | game.py:122-129 | [1,0,0] is straight, [0,1,0] is a right turn, anything else a left turn |
| Autonomous.DecodeEncode | game.py:117 | decoding the one-hot encoding of an action gives the action back |
| Autonomous.Turn | game.py:119-131 | straight keeps the heading, a right turn adds 1 and a left turn subtracts 1 from its value modulo 4, and no action gives the opposite heading |
| Autonomous.RightTurnIsClockwise | game.py:124-126 | a right turn is a quarter turn clockwise: RIGHT to DOWN to LEFT to UP to RIGHT |
| Autonomous.TurnsCancel | game.py:124-129 | a left turn undoes a right turn and vice versa |
| Autonomous.FourTurnsCycle | game.py:124-129 | four right turns, or four left turns, return to the starting heading |
| Autonomous.TwoTurnsReverse | game.py:124-129 | reversing takes two turns the same way |
| Autonomous.LeftFromRightIsUp | game.py:127-129 | a left turn from RIGHT gives UP |
| Autonomous.Reward | game.py:73-83 | the reward is -10 on game over, 10 on food and 0 otherwise |
| Autonomous.Stagnant | game.py:75 | the frame limit: the frame counter exceeds 100 times the snake length measured after the head was inserted (definition, no contract; used by `PlayStep` and `Scenarios.StagnationLimit`) |
| Autonomous.SnakeGameAI.NextHead | game.py:116-144 | the next head is adjacent to the current head |
| Autonomous.SnakeGameAI.constructor | game.py:30-37 | the board has the given size and is in the reset state; the source's default size 640 x 480 is passed explicitly by the scenarios |
| Autonomous.SnakeGameAI.Reset | game.py:40-51 | heading RIGHT, snake of three segments centred on the board, score 0, frame counter 0, food on a free cell; when w/2 and h/2 are multiples of BLOCK_SIZE and the board is at least four blocks wide, the snake is well formed |
| Autonomous.SnakeGameAI.CreateFood | game.py:54-59 | the food is placed on an aligned in-board cell not on the snake |
| Autonomous.SnakeGameAI.IsCollision | game.py:101-113 | with no point the head is tested; a point collides iff it is off the board or equal to a segment at index 1 or later |
| Autonomous.SnakeGameAI.Move | game.py:116-144 | the heading becomes the turned heading and the head advances one block along it |
| Autonomous.SnakeGameAI.PlayStep | game.py:62-92 | the frame counter rises by one; game over iff the inserted head collides or the counter exceeds 100 times the length after the insert; the reward is -10, 10 or 0 as the tick ends, eats or shifts; game over keeps the inserted head and the score; on food the snake grows by one, the score rises by one and new food is placed; otherwise the tail is popped; food is off the snake exactly when it is not under the head; a well-formed snake stays well formed while the episode goes on |
| Scenarios.OpeningTick | snake_game.py:55-80 | the first tick without a key press moves the head to (340, 240) and does not end the game; the snake shifts, or grows with score 1 if the food was drawn there |
| Scenarios.ReversalRefused | snake_game.py:111-114 | pressing LEFT while heading RIGHT keeps the heading RIGHT |
| Scenarios.RightEdgeCollision | game.py:101-107 | a head at (620, 0) moving right on a 640-wide board ends the episode with reward -10 |
| Scenarios.SelfCollision | game.py:109-111 | a hooked snake turning into its own body ends the episode with reward -10 and keeps the inserted head |
| Scenarios.FullBoardFrameLimit | game.py:62-78 | on an 80 x 80 board a 15-segment snake heading for the food on the last free cell at frame 1601 is stopped by the frame limit with reward -10, before any food would be drawn |
| Scenarios.StagnationLimit | game.py:75 | a three-segment snake that eats nothing survives frame 400 and is stopped at frame 401 |

## Left out

- Display, fonts, the frame clock and the window-close event (`pygame`
  calls in `__init__`, `play_step`, `__handle_input` and the `__main__`
  loop). They do not affect the returned values.
- Rendering (`__render`, `__draw_snake`, `__compare_snake_parts`). It only
  decides how the cells are drawn.
- Keyboard decoding: `__handle_input` is modelled as receiving the last
  arrow key of the tick as an optional direction.
- Randomness: `random.randint` is modelled by choosing any index pair in
  the same inclusive ranges whose cell is free. The distribution is not
  modelled, and neither is the retry on an occupied cell.
- Interactive.SnakeGame.CreateFood, Autonomous.SnakeGameAI.CreateFood: require a free cell and always succeed. The source retries by a recursive call, so Python stops it with RecursionError after about 1000 occupied draws. On a full board that always happens; with few free cells it can also happen (with 1 free cell of 768, in roughly a quarter of the calls). The model does not capture this failure.
- Interactive.SnakeGame.PlayStep, Autonomous.SnakeGameAI.PlayStep: require room on the board for the grown snake when the tick reaches `__create_food` (the next head is on the food, does not collide and, for the agent game, the frame limit is not exceeded). On a full board the source's tick would end in RecursionError there.
- Floating point: Python's `w/2` and `h/2` give floats. The model uses
  integers. The agent game therefore requires an even width and height, and
  one of at least one block so that the `randint` ranges are not empty.
  The source's default arguments `w=640, h=480` are not modelled as
  defaults; a caller passes the size.
  Cell alignment of the starting snake is a hypothesis of
  `Body.InitialSnakeWellFormed`, not of the constructor.
- numpy: `np.array_equal` on the action vector is modelled as equality of
  integer sequences in `Autonomous.DecodeAction`, which `Move` applies to
  the action vector it is given.
