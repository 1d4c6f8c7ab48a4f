# Snake game state, modelled in Dafny

A model of the game logic of `the_snake.py`, a pygame snake game. The field is
640 x 480 pixels divided into 20-pixel cells (32 x 24). The snake is a
head-first list of pixel positions that moves one cell per tick, wrapping
around the edges. It grows when its head reaches the apple and is reset when
its head hits its own body. The game is won when the body has 32 * 24 entries.

Modules, one per component of the file:

- `Grid` (grid.dfy): screen constants, the direction vectors, `Wrap` (the
  new-head arithmetic of `move`) and how pixel positions correspond to cells.
- `Controls` (controls.dfy): `handle_quit` and the key rule of `handle_keys`
  as pure functions.
- `SnakeState` (snake_state.dfy): `Advanced` and `Grown`, the body after
  `move` and after `get_new_head`. Also `class Snake`, whose fields and
  methods are those of the source.
- `Food` (food.dfy): `Placement`, the outcome of `randomize_position` for a
  given sequence of random rolls, and `class Apple`.
- `Game` (game.dfy): `NextTick`, one pass of `main`'s loop as a function, and
  `Run`, a finite prefix of the loop. `HandleKeys`, `Tick` and `Play` drive the
  objects and are proved to agree with those functions. Lemmas cover the
  invariant, the rule order and the quirks listed below.
- `Wrappers` (wrappers.dfy): `Option`, for the source's `None`.

Quirks of the code that the model keeps:

- Growth is immediate. `get_new_head` inserts the head a second time, so the
  body is one entry longer in the same tick. The `length` field is set to 1
  and never changes; the win test counts the entries of `positions`.
- `reset` restores `positions = [position]`. `Snake.draw` overwrites
  `position` with the head before every `move`. After a collision the snake
  therefore restarts at the head it had before the fatal step, which is not
  necessarily the centre (`Game.CollisionResetsAtLastDrawnHead`,
  `Game.ResetAwayFromCenter`).
- `main` calls `randomize_position()` without the snake's positions. The
  apple can therefore land on the snake. `randint` includes both bounds, so
  the apple can land at x = 640 or y = 480, off the screen, where it can never
  be eaten (`Game.OffBoardAppleNeverEaten`).
- The direction rule applies per key press, not per tick. With UP taken as
  (0, -1), two presses in one tick can reverse the snake
  (`Controls.TwoKeysCanReverse`).
- Python's `%` with a positive right operand agrees with Dafny's `%`, so
  `Wrap` uses it directly.

## Model

| member | source | states |
|---|---|---|
| `Grid.Wrap` | the_snake.py:146-150 | the new head is always on the screen, and it stays on a cell corner when the old head is on one |
| `Grid.WrapIsCellStep` | the_snake.py:149-150 | wrapping a cell's pixel origin gives the origin of the next cell on the 32 x 24 torus |
| `Grid.OnGridIffCellOrigin` | the_snake.py:6-9 | the aligned on-screen positions are exactly the origins of the 32 x 24 cells |
| `Controls.Steer` | the_snake.py:58-65 | a key toward t sets the direction to t exactly when the current direction is not opposite to t; other keys change nothing; the result stays one of the four directions |
| `Controls.SteerNeverReverses` | the_snake.py:58-65 | one key press never sets the direction opposite to the current one |
| `Controls.HandleEvents` | the_snake.py:45-65 | a tick's events quit the game if and only if one of them is a window close or Escape; the direction stays one of the four |
| `Controls.HandleEventsSplit` | the_snake.py:55-65 | handling events in two parts equals handling them at once, stopping at a quit |
| `Controls.OneKeyNeverReverses` | the_snake.py:55-65 | a tick with one key press never reverses the snake |
| `Controls.TwoKeysCanReverse` | the_snake.py:55-65 | Up then Left in one tick turns a snake moving Right to Left |
| `Controls.SteerAsWritten` | the_snake.py:58-65 | with UP undefined, K_UP (unless moving Down) and K_DOWN raise NameError; otherwise the result agrees with `Steer` |
| `Controls.AsWrittenNeverTurns` | the_snake.py:58-65 | as written, a snake moving Right either raises NameError or keeps moving Right |
| `SnakeState.Advanced` | the_snake.py:144-152 | after a step the length is unchanged, the head is the wrapped step, each segment moves into the place of the one in front, and a body on the grid stays on it |
| `SnakeState.Grown` | the_snake.py:154-156 | growth adds exactly one entry: the old head twice, then the old body in order; the grid is kept |
| `SnakeState.Snake.constructor` | the_snake.py:113-116 | a new snake is one cell at the centre, moving Right, with `length` 1 and no `last` |
| `SnakeState.Snake.UpdateDirection` | the_snake.py:118-120 | sets `direction` and no other field |
| `SnakeState.Snake.GetHeadPosition` | the_snake.py:122-124 | returns the first body entry |
| `SnakeState.Snake.Reset` | the_snake.py:136-142 | body becomes `[position]`, `length` 1, `last` None, direction Right; `position` is untouched |
| `SnakeState.Snake.Move` | the_snake.py:144-152 | body becomes `Advanced` of the old body; `last` is the old tail |
| `SnakeState.Snake.GetNewHead` | the_snake.py:154-156 | body becomes `Grown` of the old body |
| `SnakeState.Snake.DrawCell` | the_snake.py:80-84 | drawing a cell records it in `position` |
| `SnakeState.Snake.Draw` | the_snake.py:126-131 | drawing the snake records its head in `position` |
| `Food.Placement` | the_snake.py:94-100 | the placed apple is never on the supplied snake positions, is the first roll off the snake (every earlier roll hit it), and is an aligned point with 0 <= x <= 640 and 0 <= y <= 480; there is none exactly when every roll hits the snake; with no snake the first roll is taken |
| `Food.ScaledOnGrid` | the_snake.py:96-97 | a rolled apple is on the screen exactly when neither roll hit its inclusive upper bound |
| `Food.Apple.constructor` | the_snake.py:90-92 | a new apple is placed by the first roll |
| `Food.Apple.RandomizePosition` | the_snake.py:94-100 | the retry loop ends at `Placement` of the rolls and stores it in `position` |
| `Game.NextTick` | the_snake.py:165-180 | one tick keeps the body non-empty |
| `Game.Run` | the_snake.py:165-180 | a run of ticks keeps the body non-empty |
| `Game.InitialInv` | the_snake.py:162-164 | the starting state satisfies the game invariant |
| `Game.TickKeepsInv` | the_snake.py:165-180 | a tick keeps the invariant: body on the grid, a unit direction, `length` 1, apple within its placement range |
| `Game.TickEnds` | the_snake.py:170-179 | a tick ends the game on quit exactly when a quit event came, and is won only with at least 768 entries and no collision |
| `Game.CollisionResetsAtLastDrawnHead` | the_snake.py:169-173 | after a collision, even on the apple, the snake is one cell at its pre-step head, moving Right, and the apple moves |
| `Game.EatingGrowsByOne` | the_snake.py:170-176 | eating without collision adds exactly one entry, keeps the order and moves the apple |
| `Game.WinOrPlainMove` | the_snake.py:170-179 | with no collision and the head off the apple, the tick is won exactly when the body has at least 768 entries; otherwise it goes on; either way the snake keeps its moved body and the apple stays |
| `Game.OffBoardAppleNeverEaten` | the_snake.py:174-176 | an apple off the screen is never eaten, so it never grows the snake |
| `Game.RunKeepsInv` | the_snake.py:165-180 | every state a run of the loop reaches satisfies the invariant |
| `Game.EatOnFirstTick` | the_snake.py:170-176 | with the apple just right of the centre, the first tick gives two entries at (340, 240) and the second moves the head to (360, 240) |
| `Game.ResetAwayFromCenter` | the_snake.py:169-173 | a collision can reset the snake to a cell other than the centre |
| `Game.StartGame` | the_snake.py:162-164 | set-up yields the initial state |
| `Game.HandleKeys` | the_snake.py:53-65 | the event loop leaves the direction and the quit flag that `HandleEvents` gives |
| `Game.Tick` | the_snake.py:165-180 | one loop pass changes the snake and apple exactly as `NextTick` says |
| `Game.Play` | the_snake.py:165-180 | the loop over a finite sequence of ticks agrees with `Run` |

## Findings

| source | as written | input that shows it | evidently intended | confidence | as-written member | corrected member |
|---|---|---|---|---|---|---|
| the_snake.py:58-61 | `UP` is used but never defined, so the K_UP and K_DOWN branches raise NameError | snake moving Right, key K_DOWN (or K_UP) | `UP = (0, -1)`, so vertical keys turn the snake | high, not executed | `Controls.SteerAsWritten` | `Controls.Steer` |

The rest of the model uses `Controls.Steer`, with UP taken as (0, -1).

## Left out

- Window, display, clock and `display.update`; the `screen.fill` in `reset`. These are pygame I/O.
- Rendering by `draw`, `draw_cell`, `pygame.Rect` and `pygame.draw.rect`, and the colours. Only `draw_cell`'s assignment to `position` is kept. `Apple.draw` passes the apple's own position, so it changes nothing.
- The `GameObject` base class and its `NotImplementedError`. Its fields appear directly in `Snake` and `Apple`.
- Event polling and `SystemExit`. Events are an input sequence. Quit and win are the statuses `Quit` and `Won`. The win message printed before exit is not modelled.
- Random number generation. `randint` results are inputs (`rolls`, `roll`), assumed to be within randint's inclusive bounds.
- Food.Apple.RandomizePosition: takes a finite sequence of rolls and returns None when all of them hit the snake. The source instead calls itself again for each roll that hits, until Python's recursion limit raises `RecursionError`.
- Food.Placement: the recursion-depth limit is not modelled. Each roll that lands on the snake adds a stack frame in the source, so roughly 1000 hits in a row raise `RecursionError`, while `Placement` returns the first free roll after any number of hits. `main` never passes the snake's positions, so the game itself never retries.
- `main`'s endless `while True` loop: `Game.Play` and `Game.Run` cover any finite prefix of it.
