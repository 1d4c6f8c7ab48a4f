/**
  Keyboard handling (`handle_quit` and `handle_keys`): which events end the
  game and how an arrow key changes the snake's direction. A key toward
  direction `t` is obeyed unless the snake is moving in the opposite
  direction, so it cannot turn back on itself with one key press.
*/
module Controls {
  import opened Wrappers
  import opened Grid

  datatype Key = ArrowUp | ArrowDown | ArrowLeft | ArrowRight | Escape | OtherKey

  /** The events of one tick, as the event queue hands them out. */
  datatype Event = QuitEvent | KeyPress(key: Key) | OtherEvent

  /** `handle_quit`: closing the window or pressing Escape ends the game. */
  predicate IsQuit(e: Event) {
    e.QuitEvent? || (e.KeyPress? && e.key == Escape)
  }

  /** The direction an arrow key asks for. */
  function Target(key: Key): (t: Option<Vec>)
    ensures t.Some? ==> IsDirection(t.value)
  {
    match key
    case ArrowUp => Some(Up)
    case ArrowDown => Some(Down)
    case ArrowLeft => Some(Left)
    case ArrowRight => Some(Right)
    case _ => None
  }

  /**
    The direction after one key press, following the chain of tests in
    `handle_keys` with UP taken to be (0, -1). The key's direction is taken
    exactly when the current direction is not its opposite; other keys change
    nothing.
  */
  function Steer(current: Vec, key: Key): (d: Vec)
    ensures Target(key).None? ==> d == current
    ensures Target(key).Some? ==> (d == Target(key).value <==> current != Opposite(Target(key).value))
    ensures Target(key).Some? && current == Opposite(Target(key).value) ==> d == current
    ensures IsDirection(current) ==> IsDirection(d)
  {
    if key == ArrowUp && current != Down then Up
    else if key == ArrowDown && current != Up then Down
    else if key == ArrowLeft && current != Right then Left
    else if key == ArrowRight && current != Left then Right
    else current
  }

  /** What one tick of event handling leaves behind. */
  datatype KeysOutcome = KeysOutcome(direction: Vec, quit: bool)

  /**
    `handle_keys` over the events of one tick, in order: a quit event ends the
    processing at once (the source raises SystemExit), each key press steers.
  */
  function HandleEvents(current: Vec, events: seq<Event>): (o: KeysOutcome)
    ensures o.quit <==> exists i :: 0 <= i < |events| && IsQuit(events[i])
    ensures IsDirection(current) ==> IsDirection(o.direction)
    decreases |events|
  {
    if events == [] then KeysOutcome(current, false)
    else if IsQuit(events[0]) then KeysOutcome(current, true)
    else if events[0].KeyPress? then HandleEvents(Steer(current, events[0].key), events[1..])
    else HandleEvents(current, events[1..])
  }

  /**
    Handling a tick's events in two parts gives the same outcome as handling
    them at once: the second part starts from the first part's direction.
  */
  lemma {:induction false} HandleEventsSplit(current: Vec, first: seq<Event>, rest: seq<Event>)
    ensures HandleEvents(current, first + rest) ==
      var o := HandleEvents(current, first);
      if o.quit then o else HandleEvents(o.direction, rest)
    decreases |first|
  {
    if first != [] {
      assert (first + rest)[1..] == first[1..] + rest;
      var next := if IsQuit(first[0]) || !first[0].KeyPress? then current else Steer(current, first[0].key);
      HandleEventsSplit(next, first[1..], rest);
    } else {
      assert first + rest == rest;
    }
  }

  /**
    With a single arrow key per tick the snake never reverses; two keys in
    one tick can reverse it (Up then Left while moving Right).
  */
  lemma OneKeyNeverReverses(current: Vec, key: Key)
    requires IsDirection(current)
    ensures HandleEvents(current, [KeyPress(key)]).direction != Opposite(current)
  {
    var evs := [KeyPress(key)];
    assert evs[1..] == [];
    var o := HandleEvents(current, evs);
    if key == Escape {
      assert o.direction == current;
    } else {
      assert o == HandleEvents(Steer(current, key), []);
      SteerNeverReverses(current, key);
    }
  }

  lemma SteerNeverReverses(current: Vec, key: Key)
    requires IsDirection(current)
    ensures Steer(current, key) != Opposite(current)
  {
  }

  lemma TwoKeysCanReverse()
    ensures HandleEvents(Right, [KeyPress(ArrowUp), KeyPress(ArrowLeft)]) == KeysOutcome(Left, false)
  {
    var evs := [KeyPress(ArrowUp), KeyPress(ArrowLeft)];
    assert evs[1..] == [KeyPress(ArrowLeft)] && evs[1..][1..] == [];
  }

  /** The source as written: UP is never defined, so evaluating it fails. */
  datatype Steering = Steered(direction: Vec) | NameError

  /**
    One key press as the source is written: the K_UP branch calls
    `update_direction(UP)` and the K_DOWN branch compares with `UP`; each
    raises NameError when reached. Elsewhere it agrees with `Steer`.
  */
  function SteerAsWritten(current: Vec, key: Key): (s: Steering)
    ensures s.NameError? <==> (key == ArrowUp && current != Down) || key == ArrowDown
    ensures s.Steered? ==> s.direction == Steer(current, key)
  {
    if key == ArrowUp && current != Down then NameError
    else if key == ArrowDown then NameError
    else if key == ArrowLeft && current != Right then Steered(Left)
    else if key == ArrowRight && current != Left then Steered(Right)
    else Steered(current)
  }

  /**
    As written, a snake that starts moving Right can never turn: vertical keys
    raise NameError and Left is refused as a reversal.
  */
  lemma AsWrittenNeverTurns(key: Key)
    ensures SteerAsWritten(Right, key) == if key in {ArrowUp, ArrowDown} then NameError else Steered(Right)
  {
  }
}
