/**
  The apple (`class Apple`) and its placement (`randomize_position`). The
  random numbers are an input: `rolls` are the successive results of the
  pair of `randint(0, GRID_WIDTH)`, `randint(0, GRID_HEIGHT)` calls, both
  bounds inclusive, so a roll may name column 32 or row 24, just off the
  screen.
*/
module Food {
  import opened Wrappers
  import opened Grid

  /** What `randint(0, GRID_WIDTH)` and `randint(0, GRID_HEIGHT)` can return. */
  predicate InRollRange(roll: Vec) {
    0 <= roll.x <= GridWidth && 0 <= roll.y <= GridHeight
  }

  /** The pixel position a roll stands for. */
  function Scaled(roll: Vec): Vec {
    Vec(roll.x * GridSize, roll.y * GridSize)
  }

  /**
    Where an apple can be put: on a cell corner with 0 <= x <= 640 and
    0 <= y <= 480, upper bounds included.
  */
  predicate InApplePlacement(p: Vec) {
    0 <= p.x <= ScreenWidth && 0 <= p.y <= ScreenHeight && Aligned(p)
  }

  /**
    The position the retry loop of `randomize_position` settles on when the
    rolls come in this order: the first roll not on the snake (any roll when
    no snake positions are given). None when every supplied roll lands on the
    snake, where the source would call itself again, until Python's recursion
    limit stops it.
  */
  function Placement(rolls: seq<Vec>, occupied: Option<seq<Vec>>): (r: Option<Vec>)
    ensures r.Some? && occupied.Some? ==> r.value !in occupied.value
    ensures r.Some? ==> exists i :: 0 <= i < |rolls| && r.value == Scaled(rolls[i]) &&
                                    forall j :: 0 <= j < i ==> occupied.Some? && Scaled(rolls[j]) in occupied.value
    ensures r.Some? && (forall i :: 0 <= i < |rolls| ==> InRollRange(rolls[i])) ==> InApplePlacement(r.value)
    ensures r.None? <==> forall i :: 0 <= i < |rolls| ==> occupied.Some? && Scaled(rolls[i]) in occupied.value
    ensures occupied.None? && |rolls| >= 1 ==> r == Some(Scaled(rolls[0]))
    decreases |rolls|
  {
    if rolls == [] then None
    else if occupied.None? || Scaled(rolls[0]) !in occupied.value then Some(Scaled(rolls[0]))
    else Placement(rolls[1..], occupied)
  }

  /** A rolled position is on the screen unless the roll hit an upper bound. */
  lemma ScaledOnGrid(roll: Vec)
    requires InRollRange(roll)
    ensures OnGrid(Scaled(roll)) <==> roll.x < GridWidth && roll.y < GridHeight
  {
  }

  class Apple {
    var position: Vec

    /** `Apple()`: placed by the first roll, with no snake to avoid. */
    constructor (roll: Vec)
      ensures position == Scaled(roll)
    {
      position := Scaled(roll);
    }

    /**
      `randomize_position`: roll until the position is off the snake (or, with
      no snake positions, once). The recursive retry of the source is the
      loop here; it stops early when the supplied rolls run out, with the
      last roll on the snake.
    */
    method RandomizePosition(snakePositions: Option<seq<Vec>>, rolls: seq<Vec>) returns (placed: Option<Vec>)
      requires |rolls| >= 1
      modifies this`position
      ensures placed == Placement(rolls, snakePositions)
      ensures placed.Some? ==> position == placed.value
      ensures placed.None? ==> position == Scaled(rolls[|rolls| - 1])
    {
      var i := 0;
      position := Scaled(rolls[0]);
      while snakePositions.Some? && position in snakePositions.value && i + 1 < |rolls|
        invariant 0 <= i < |rolls|
        invariant position == Scaled(rolls[i])
        invariant Placement(rolls, snakePositions) == Placement(rolls[i..], snakePositions)
      {
        assert rolls[i..][1..] == rolls[i + 1..];
        i := i + 1;
        position := Scaled(rolls[i]);
      }
      if snakePositions.Some? && position in snakePositions.value {
        assert rolls[i..][1..] == [];
        placed := None;
      } else {
        placed := Some(position);
      }
    }
  }
}
