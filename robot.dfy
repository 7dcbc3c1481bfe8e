/**
 * The arm controller: a single piece of state, the arm's commanded position, which
 * starts at the origin, is overwritten by every move and is reset by calibration.
 */
module Robot {

  /** A commanded arm position. */
  datatype Coordinates = Coordinates(x: real, y: real, z: real)

  /** The position a new controller starts at and calibration returns to. */
  const Origin: Coordinates := Coordinates(0.0, 0.0, 0.0)

  /** The two calls a client can make on the controller. */
  datatype Command = MoveCmd(target: Coordinates) | CalibrateCmd

  /** The position one call leaves behind, starting from `position`. */
  function Step(position: Coordinates, cmd: Command): (p: Coordinates)
  {
    match cmd
    case MoveCmd(target) => target
    case CalibrateCmd => Origin
  }

  /** The position reached from `position` by performing `cmds` in order. */
  function Run(position: Coordinates, cmds: seq<Command>): (p: Coordinates)
    decreases |cmds|
  {
    if cmds == [] then position else Run(Step(position, cmds[0]), cmds[1..])
  }

  /** Performing one more call after a history applies that call to where the history ended. */
  lemma {:induction false} RunSnoc(position: Coordinates, cmds: seq<Command>, cmd: Command)
    ensures Run(position, cmds + [cmd]) == Step(Run(position, cmds), cmd)
    decreases |cmds|
  {
    if cmds == [] {
      assert [] + [cmd] == [cmd];
    } else {
      assert (cmds + [cmd])[1..] == cmds[1..] + [cmd];
      RunSnoc(Step(position, cmds[0]), cmds[1..], cmd);
    }
  }

  /**
   * Neither call reads the old position, so after any non-empty history the position is
   * what the last call alone sets, whatever the starting position and earlier calls.
   */
  lemma {:induction false} OnlyLastCommandMatters(position: Coordinates, cmds: seq<Command>)
    requires cmds != []
    ensures Run(position, cmds) == Step(position, cmds[|cmds| - 1])
    ensures cmds[|cmds| - 1].MoveCmd? ==> Run(position, cmds) == cmds[|cmds| - 1].target
    ensures cmds[|cmds| - 1].CalibrateCmd? ==> Run(position, cmds) == Origin
  {
    var n := |cmds| - 1;
    assert cmds == cmds[..n] + [cmds[n]];
    RunSnoc(position, cmds[..n], cmds[n]);
  }

  /** Last write wins: two moves in a row leave the arm at the second target. */
  lemma LastMoveWins(position: Coordinates, cmds: seq<Command>, a: Coordinates, b: Coordinates)
    ensures Run(position, cmds + [MoveCmd(a), MoveCmd(b)]) == b
  {
    OnlyLastCommandMatters(position, cmds + [MoveCmd(a), MoveCmd(b)]);
  }

  /** Calibration returns the arm to the origin after any history, a move included. */
  lemma CalibrateResets(position: Coordinates, cmds: seq<Command>)
    ensures Run(position, cmds + [CalibrateCmd]) == Origin
  {
    OnlyLastCommandMatters(position, cmds + [CalibrateCmd]);
  }

  /** Calibrating twice leaves the same position as calibrating once. */
  lemma CalibrateIdempotent(position: Coordinates, cmds: seq<Command>)
    ensures Run(position, cmds + [CalibrateCmd, CalibrateCmd]) == Run(position, cmds + [CalibrateCmd])
  {
    OnlyLastCommandMatters(position, cmds + [CalibrateCmd, CalibrateCmd]);
    OnlyLastCommandMatters(position, cmds + [CalibrateCmd]);
  }

  /**
   * The controller. `position` is its only state; the ghost `history` records the
   * calls made so far, and `Valid` says the position is where that history leads.
   */
  class ArmController {
    var position: Coordinates
    ghost var history: seq<Command>

    ghost predicate Valid()
      reads this
    {
      position == Run(Origin, history)
    }

    /** A new controller stands at the origin and has no history. */
    constructor ()
      ensures Valid()
      ensures position == Origin && history == []
    {
      position := Origin;
      history := [];
    }

    /** Overwrites the position with `coordinates`, whatever it was. */
    method MoveTo(coordinates: Coordinates)
      requires Valid()
      modifies this
      ensures Valid()
      ensures position == coordinates
      ensures history == old(history) + [MoveCmd(coordinates)]
    {
      RunSnoc(Origin, history, MoveCmd(coordinates));
      position := coordinates;
      history := history + [MoveCmd(coordinates)];
    }

    /** Resets the position to the origin, whatever it was. */
    method Calibrate()
      requires Valid()
      modifies this
      ensures Valid()
      ensures position == Origin
      ensures history == old(history) + [CalibrateCmd]
    {
      RunSnoc(Origin, history, CalibrateCmd);
      position := Origin;
      history := history + [CalibrateCmd];
    }
  }

  /**
   * A client of the controller: a move followed by two calibrations ends at the origin,
   * and at the very position a single calibration after the move would have left.
   */
  method MoveThenCalibrateTwice(arm: ArmController, c: Coordinates)
    requires arm.Valid()
    modifies arm
    ensures arm.Valid() && arm.position == Origin
    ensures arm.history == old(arm.history) + [MoveCmd(c), CalibrateCmd, CalibrateCmd]
    ensures arm.position == Run(Origin, old(arm.history) + [MoveCmd(c), CalibrateCmd])
  {
    ghost var moved := arm.history + [MoveCmd(c)];
    arm.MoveTo(c);
    arm.Calibrate();
    arm.Calibrate();
    assert arm.history == moved + [CalibrateCmd, CalibrateCmd];
    assert old(arm.history) + [MoveCmd(c), CalibrateCmd] == moved + [CalibrateCmd];
    CalibrateIdempotent(Origin, moved);
  }
}
