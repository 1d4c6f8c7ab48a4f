/**
  The snake (`class Snake`): its body as a head-first list of pixel positions,
  its direction, the cell its tail last left, the unused `length` field and
  `position`, the cell it last drew. `Advanced` and `Grown` give the body
  after a step and after eating; the methods of `Snake` are proved to change
  the fields as these functions say.
*/
module SnakeState {
  import opened Wrappers
  import opened Grid

  /** Every position of a body lies on a cell of the board. */
  predicate AllOnGrid(ps: seq<Vec>) {
    forall i :: 0 <= i < |ps| ==> OnGrid(ps[i])
  }

  /**
    The body after one step (`move`): a new head one cell further in `dir`,
    wrapped around the screen, then the old body without its tail. The length
    is unchanged, every segment takes the place of the one in front of it,
    and a body on the grid stays on the grid.
  */
  function Advanced(ps: seq<Vec>, dir: Vec): (r: seq<Vec>)
    requires |ps| >= 1
    ensures |r| == |ps|
    ensures r[0] == Wrap(ps[0], dir)
    ensures forall i :: 1 <= i < |r| ==> r[i] == ps[i - 1]
    ensures AllOnGrid(ps) ==> AllOnGrid(r)
  {
    [Wrap(ps[0], dir)] + ps[..|ps| - 1]
  }

  /**
    The body after eating (`get_new_head`): the head is inserted again in
    front of itself. The body is one longer, its first two entries are the old
    head, and the old body follows in order.
  */
  function Grown(ps: seq<Vec>): (r: seq<Vec>)
    requires |ps| >= 1
    ensures |r| == |ps| + 1
    ensures r[0] == r[1] == ps[0] && r[1..] == ps
    ensures AllOnGrid(ps) ==> AllOnGrid(r)
  {
    [ps[0]] + ps
  }

  class Snake {
    var positions: seq<Vec>
    var direction: Vec
    var last: Option<Vec>
    var length: int
    var position: Vec

    /** The body is never empty. */
    ghost predicate Valid()
      reads this
    {
      |positions| >= 1
    }

    /** A new snake is reset at the centre of the screen. */
    constructor ()
      ensures Valid()
      ensures position == Center && positions == [Center]
      ensures length == 1 && last == None && direction == Right
    {
      position := Center;
      positions := [];
      new;
      Reset();
    }

    /** `update_direction`: sets the direction and nothing else. */
    method UpdateDirection(d: Vec)
      modifies this`direction
      ensures direction == d
    {
      direction := d;
    }

    /** `get_head_position`: the first entry of the body. */
    method GetHeadPosition() returns (head: Vec)
      requires Valid()
      ensures head == positions[0]
    {
      head := positions[0];
    }

    /**
      `reset`: the body shrinks to the single cell `position`, which is the
      cell drawn last (the centre only before the first draw); the direction
      is Right again. `position` itself is not touched.
    */
    method Reset()
      modifies this`positions, this`length, this`last, this`direction
      ensures Valid()
      ensures positions == [position] && length == 1 && last == None && direction == Right
    {
      positions := [position];
      length := 1;
      last := None;
      direction := Right;
    }

    /**
      `move`: prepend the wrapped new head, pop the tail into `last`.
    */
    method Move()
      requires Valid()
      modifies this`positions, this`last
      ensures Valid()
      ensures positions == Advanced(old(positions), direction)
      ensures last == Some(old(positions)[|old(positions)| - 1])
    {
      var head := GetHeadPosition();
      var newHead := Wrap(head, direction);
      positions := [newHead] + positions;
      last := Some(positions[|positions| - 1]);
      positions := positions[..|positions| - 1];
    }

    /** `get_new_head`: grow by inserting the head in front of itself. */
    method GetNewHead()
      requires Valid()
      modifies this`positions
      ensures Valid()
      ensures positions == Grown(old(positions))
    {
      var head := GetHeadPosition();
      positions := [head] + positions;
    }

    /** `draw_cell`: the only effect kept is that the drawn cell is recorded. */
    method DrawCell(cell: Vec)
      modifies this`position
      ensures position == cell
    {
      position := cell;
    }

    /** `draw`: draws the head (twice: fill, then border), recording it. */
    method Draw()
      requires Valid()
      modifies this`position
      ensures position == positions[0]
    {
      var head := GetHeadPosition();
      DrawCell(head);
      head := GetHeadPosition();
      DrawCell(head);
    }
  }
}
