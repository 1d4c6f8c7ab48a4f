/**
  The main loop (`main`) and `handle_keys`. Each tick: the apple is drawn
  (no change to the model), keys are handled (a quit event ends the game),
  the snake is drawn (recording its head in `position`) and moved, and then
  exactly one rule applies, in this order: the head hit the body, so the
  snake is reset and the apple moved; the head reached the apple, so the snake
  grows and the apple moves; the body has at least 32 * 24 entries, so the
  game is won; otherwise nothing more happens.

  `NextTick` is the pure meaning of one tick and `Run` of a finite prefix of
  the endless loop; `Tick` and `Play` run the objects and are proved to agree
  with them.
*/
module Game {
  import opened Wrappers
  import opened Grid
  import opened Controls
  import opened SnakeState
  import opened Food

  /** How a tick ends: the loop goes on, or the process exits. */
  datatype Status = Running | Quit | Won

  /** The fields of the snake and the apple's position. */
  datatype World = World(
    positions: seq<Vec>,
    direction: Vec,
    last: Option<Vec>,
    length: int,
    snakePosition: Vec,
    apple: Vec)

  datatype TickResult = TickResult(status: Status, world: World)

  /** The inputs of one tick: the events polled and the roll used if the apple moves. */
  datatype TickInput = TickInput(events: seq<Event>, roll: Vec)

  /** The state right after `Apple()` and `Snake()`. */
  function Initial(roll: Vec): World {
    World([Center], Right, None, 1, Center, Scaled(roll))
  }

  /**
    What holds of every state the game reaches: a non-empty body on the grid,
    a drawn cell on the grid, a unit direction, `length` still 1 and an apple
    within the (inclusive) placement range.
  */
  predicate Inv(w: World) {
    && |w.positions| >= 1
    && AllOnGrid(w.positions)
    && OnGrid(w.snakePosition)
    && IsDirection(w.direction)
    && (w.last.Some? ==> OnGrid(w.last.value))
    && w.length == 1
    && InApplePlacement(w.apple)
  }

  /** One tick of `main`, after the events and the next roll are known. */
  function NextTick(w: World, events: seq<Event>, roll: Vec): (r: TickResult)
    requires |w.positions| >= 1
    ensures |r.world.positions| >= 1
  {
    var keys := HandleEvents(w.direction, events);
    if keys.quit then
      TickResult(Quit, w.(direction := keys.direction))
    else
      var drawn := w.positions[0];
      var moved := Advanced(w.positions, keys.direction);
      var last := Some(w.positions[|w.positions| - 1]);
      var head := moved[0];
      if head in moved[1..] then
        TickResult(Running, World([drawn], Right, None, 1, drawn, Scaled(roll)))
      else if head == w.apple then
        TickResult(Running, World(Grown(moved), keys.direction, last, w.length, drawn, Scaled(roll)))
      else if |moved| >= GridWidth * GridHeight then
        TickResult(Won, World(moved, keys.direction, last, w.length, drawn, w.apple))
      else
        TickResult(Running, World(moved, keys.direction, last, w.length, drawn, w.apple))
  }

  /** Ticks in order until one ends the game or the inputs run out. */
  function Run(w: World, inputs: seq<TickInput>): (r: TickResult)
    requires |w.positions| >= 1
    ensures |r.world.positions| >= 1
    decreases |inputs|
  {
    if inputs == [] then TickResult(Running, w)
    else
      var t := NextTick(w, inputs[0].events, inputs[0].roll);
      if t.status != Running then t else Run(t.world, inputs[1..])
  }

  /** The game starts in a state satisfying the invariant. */
  lemma InitialInv(roll: Vec)
    requires InRollRange(roll)
    ensures Inv(Initial(roll))
  {
  }

  /** A tick keeps the invariant. */
  lemma TickKeepsInv(w: World, events: seq<Event>, roll: Vec)
    requires Inv(w) && InRollRange(roll)
    ensures Inv(NextTick(w, events, roll).world)
  {
    var keys := HandleEvents(w.direction, events);
    if !keys.quit {
      assert OnGrid(Wrap(w.positions[0], keys.direction));
    }
  }

  /**
    The game only ends on a quit event or a win, and is won only with at
    least 32 * 24 body entries, none of them hit by the head.
  */
  lemma TickEnds(w: World, events: seq<Event>, roll: Vec)
    requires |w.positions| >= 1
    ensures var r := NextTick(w, events, roll);
      && (r.status == Quit <==> exists i :: 0 <= i < |events| && IsQuit(events[i]))
      && (r.status == Won ==> |r.world.positions| >= GridWidth * GridHeight
                              && r.world.positions[0] !in r.world.positions[1..])
  {
  }

  /**
    After a self-collision the snake is reset to length 1 at the head it had
    before the fatal step, which `draw` recorded, and not necessarily at the
    centre; this rule wins even when that step also reached the apple.
  */
  lemma CollisionResetsAtLastDrawnHead(w: World, events: seq<Event>, roll: Vec)
    requires |w.positions| >= 1
    requires var keys := HandleEvents(w.direction, events);
      !keys.quit && var moved := Advanced(w.positions, keys.direction); moved[0] in moved[1..]
    ensures var r := NextTick(w, events, roll);
      && r.status == Running
      && r.world.positions == [w.positions[0]] && r.world.snakePosition == w.positions[0]
      && r.world.length == 1 && r.world.last == None && r.world.direction == Right
      && r.world.apple == Scaled(roll)
  {
  }

  /**
    Reaching the apple without a collision grows the body by exactly one
    entry: the new head twice, then the old body without its tail, in order.
    The apple moves to the roll.
  */
  lemma EatingGrowsByOne(w: World, events: seq<Event>, roll: Vec)
    requires |w.positions| >= 1
    requires var keys := HandleEvents(w.direction, events);
      !keys.quit && var moved := Advanced(w.positions, keys.direction);
      moved[0] !in moved[1..] && moved[0] == w.apple
    ensures var r := NextTick(w, events, roll);
      var ps := r.world.positions;
      && r.status == Running
      && |ps| == |w.positions| + 1
      && ps[0] == ps[1] == w.apple
      && ps[2..] == w.positions[..|w.positions| - 1]
      && r.world.apple == Scaled(roll)
  {
    var keys := HandleEvents(w.direction, events);
    var moved := Advanced(w.positions, keys.direction);
    assert moved[1..] == w.positions[..|w.positions| - 1];
  }

  /**
    When the step neither hits the body nor reaches the apple, the game is
    won exactly when the body has at least 32 * 24 entries; either way the
    snake keeps its moved body and the apple stays where it is.
  */
  lemma WinOrPlainMove(w: World, events: seq<Event>, roll: Vec)
    requires |w.positions| >= 1
    requires var keys := HandleEvents(w.direction, events);
      !keys.quit && var moved := Advanced(w.positions, keys.direction);
      moved[0] !in moved[1..] && moved[0] != w.apple
    ensures var keys := HandleEvents(w.direction, events);
      var r := NextTick(w, events, roll);
      && (r.status == Won <==> |w.positions| >= GridWidth * GridHeight)
      && (r.status != Won ==> r.status == Running)
      && r.world == World(Advanced(w.positions, keys.direction), keys.direction,
                          Some(w.positions[|w.positions| - 1]), w.length, w.positions[0], w.apple)
  {
  }

  /**
    An apple placed at x = 640 or y = 480 can never be eaten: the head is
    always on the screen, so the snake only ever moves past it.
  */
  lemma OffBoardAppleNeverEaten(w: World, events: seq<Event>, roll: Vec)
    requires |w.positions| >= 1 && !OnBoard(w.apple)
    ensures var r := NextTick(w, events, roll);
      |r.world.positions| <= |w.positions| && (r.world.apple == w.apple || |r.world.positions| == 1)
  {
  }

  /** Every state of a run of the loop satisfies the invariant. */
  lemma {:induction false} RunKeepsInv(w: World, inputs: seq<TickInput>)
    requires Inv(w)
    requires forall i :: 0 <= i < |inputs| ==> InRollRange(inputs[i].roll)
    ensures Inv(Run(w, inputs).world)
    decreases |inputs|
  {
    if inputs != [] {
      TickKeepsInv(w, inputs[0].events, inputs[0].roll);
      var t := NextTick(w, inputs[0].events, inputs[0].roll);
      if t.status == Running {
        RunKeepsInv(t.world, inputs[1..]);
      }
    }
  }

  /**
    The first ticks of a game with the apple right in front of the snake: the
    snake eats at once (its body is then the new head twice) and the next tick
    moves it on with two entries.
  */
  lemma EatOnFirstTick()
    ensures var w1 := NextTick(Initial(Vec(17, 12)), [], Vec(0, 0)).world;
      && w1.positions == [Vec(340, 240), Vec(340, 240)]
      && NextTick(w1, [], Vec(0, 0)).world.positions == [Vec(360, 240), Vec(340, 240)]
  {
    var w0 := Initial(Vec(17, 12));
    assert HandleEvents(Right, []) == KeysOutcome(Right, false);
    var m0 := Advanced(w0.positions, Right);
    assert m0 == [Vec(340, 240)] && m0[1..] == [];
    var w1 := NextTick(w0, [], Vec(0, 0)).world;
    assert w1.positions == [Vec(340, 240), Vec(340, 240)] && w1.direction == Right && w1.apple == Vec(0, 0);
    var m1 := Advanced(w1.positions, Right);
    assert m1 == [Vec(360, 240), Vec(340, 240)] && m1[1..] == [Vec(340, 240)];
  }

  /** A collision that resets the snake away from the centre. */
  lemma ResetAwayFromCenter()
    ensures var w := World([Vec(100, 100), Vec(100, 120), Vec(120, 120), Vec(120, 100), Vec(120, 80)],
                           Right, None, 1, Vec(100, 100), Vec(0, 0));
      NextTick(w, [], Vec(0, 0)).world.positions == [Vec(100, 100)] != [Center]
  {
    var w := World([Vec(100, 100), Vec(100, 120), Vec(120, 120), Vec(120, 100), Vec(120, 80)],
                   Right, None, 1, Vec(100, 100), Vec(0, 0));
    assert HandleEvents(Right, []) == KeysOutcome(Right, false);
    var moved := Advanced(w.positions, Right);
    assert moved[0] == Vec(120, 100) && moved[4] == Vec(120, 100);
    assert moved[0] in moved[1..] by { assert moved[1..][3] == moved[4]; }
  }

  /** The objects' state as a `World`. */
  ghost function Snapshot(snake: Snake, apple: Apple): World
    reads snake, apple
  {
    World(snake.positions, snake.direction, snake.last, snake.length, snake.position, apple.position)
  }

  /** `main`'s set-up: `Apple()`, then `Snake()`. */
  method StartGame(roll: Vec) returns (snake: Snake, apple: Apple)
    ensures fresh(snake) && fresh(apple) && snake.Valid()
    ensures Snapshot(snake, apple) == Initial(roll)
  {
    apple := new Apple(roll);
    snake := new Snake();
  }

  /**
    `handle_keys`: the events of one tick in order; a quit event stops the
    game at once, each arrow key is tested against the current direction.
  */
  method HandleKeys(snake: Snake, events: seq<Event>) returns (quit: bool)
    modifies snake`direction
    ensures KeysOutcome(snake.direction, quit) == HandleEvents(old(snake.direction), events)
  {
    var i := 0;
    while i < |events|
      invariant 0 <= i <= |events|
      invariant HandleEvents(old(snake.direction), events) == HandleEvents(snake.direction, events[i..])
    {
      var event := events[i];
      assert events[i..][1..] == events[i + 1..];
      if IsQuit(event) {
        return true;
      }
      if event.KeyPress? {
        if event.key == ArrowUp && snake.direction != Down {
          snake.UpdateDirection(Up);
        } else if event.key == ArrowDown && snake.direction != Up {
          snake.UpdateDirection(Down);
        } else if event.key == ArrowLeft && snake.direction != Right {
          snake.UpdateDirection(Left);
        } else if event.key == ArrowRight && snake.direction != Left {
          snake.UpdateDirection(Right);
        }
      }
      i := i + 1;
    }
    return false;
  }

  /** One pass of `main`'s loop body. */
  method Tick(snake: Snake, apple: Apple, events: seq<Event>, roll: Vec) returns (status: Status)
    requires snake.Valid()
    modifies snake, apple
    ensures snake.Valid()
    ensures TickResult(status, Snapshot(snake, apple)) == NextTick(old(Snapshot(snake, apple)), events, roll)
  {
    // apple.draw() records the apple's own position: no change.
    var quit := HandleKeys(snake, events);
    if quit {
      return Quit;
    }
    snake.Draw();
    snake.Move();
    var head := snake.GetHeadPosition();
    if head in snake.positions[1..] {
      snake.Reset();
      var placed := apple.RandomizePosition(None, [roll]);
      apple.position := placed.value;
    } else if head == apple.position {
      snake.GetNewHead();
      var placed := apple.RandomizePosition(None, [roll]);
    } else if |snake.positions| >= GridWidth * GridHeight {
      return Won;
    }
    return Running;
  }

  /** `main`'s loop over the ticks of `inputs`, until the game ends. */
  method Play(snake: Snake, apple: Apple, inputs: seq<TickInput>) returns (status: Status)
    requires snake.Valid()
    modifies snake, apple
    ensures snake.Valid()
    ensures TickResult(status, Snapshot(snake, apple)) == Run(old(Snapshot(snake, apple)), inputs)
  {
    var i := 0;
    status := Running;
    while i < |inputs|
      invariant 0 <= i <= |inputs|
      invariant snake.Valid() && status == Running
      invariant Run(old(Snapshot(snake, apple)), inputs) == Run(Snapshot(snake, apple), inputs[i..])
    {
      assert inputs[i..][1..] == inputs[i + 1..];
      status := Tick(snake, apple, inputs[i].events, inputs[i].roll);
      if status != Running {
        return;
      }
      i := i + 1;
    }
  }
}
