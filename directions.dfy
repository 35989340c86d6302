/**
 * The direction enums of direction.rs: two three-valued enums whose discriminants
 * are -1, 0 and 1, their `from_int` sign classifiers, and the integer
 * "rotation" `rot_by` with its two callers.
 */
module Directions {
  import opened MachineInts

  /** Horizontal component: `Left = -1`, `Middle = 0`, `Right = 1`. */
  datatype LeftRight = Left | Middle | Right {
    /** The discriminant, i.e. `self as i8`. */
    function Disc(): i8 {
      match this
      case Left => -1
      case Middle => 0
      case Right => 1
    }
  }

  /** Vertical component: `Down = -1`, `Middle = 0`, `Up = 1`. */
  datatype UpDown = Down | Middle | Up {
    /** The discriminant, i.e. `self as i8`. */
    function Disc(): i8 {
      match this
      case Down => -1
      case Middle => 0
      case Up => 1
    }
  }

  datatype Direction = Direction(hdir: LeftRight, vdir: UpDown)

  const Centre := Direction(LeftRight.Middle, UpDown.Middle)

  function Sign(i: int): int {
    if i < 0 then -1 else if i > 0 then 1 else 0
  }

  /** `LeftRight::from_int`: classifies an `i8` by its sign. */
  function LeftRightFromInt(i: i8): (r: LeftRight)
    ensures r.Disc() == Sign(i)
  {
    if i < 0 then Left else if i > 0 then Right else LeftRight.Middle
  }

  /** `UpDown::from_int`: negative numbers give `Up` and positive ones `Down`. */
  function UpDownFromInt(i: i8): (r: UpDown)
    ensures r.Disc() == -Sign(i)
  {
    if i < 0 then Up else if i > 0 then Down else UpDown.Middle
  }

  /** Swaps `Up` and `Down`. */
  function Flip(v: UpDown): UpDown {
    match v
    case Up => Down
    case Down => Up
    case Middle => UpDown.Middle
  }

  /** `from_int` applied to a discriminant gives the value back for `LeftRight`. */
  lemma LeftRightFromIntInverse(d: LeftRight)
    ensures LeftRightFromInt(d.Disc()) == d
  {
  }

  /** ... and the mirrored value for `UpDown`. */
  lemma UpDownFromIntMirrors(d: UpDown)
    ensures UpDownFromInt(d.Disc()) == Flip(d)
    ensures d != UpDown.Middle ==> UpDownFromInt(d.Disc()) != d
  {
  }

  /**
   * The six `i8` operations of `rot_by` do not overflow (Rust checks each
   * product and difference in debug builds).
   */
  predicate RotFits(d: Direction, re: i8, im: i8) {
    var a, b := d.hdir.Disc(), d.vdir.Disc();
    InI8(a * re) && InI8(b * im) && InI8(a * re - b * im) &&
    InI8(a * im) && InI8(b * re) && InI8(a * im - b * re)
  }

  /** `Direction::rot_by`. */
  function RotBy(d: Direction, re: i8, im: i8): (r: Direction)
    requires RotFits(d, re, im)
    ensures var a, b := d.hdir.Disc(), d.vdir.Disc();
      r.hdir.Disc() == Sign(a * re - b * im) && r.vdir.Disc() == -Sign(a * im - b * re)
  {
    var a, b := d.hdir.Disc(), d.vdir.Disc();
    Direction(LeftRightFromInt(a * re - b * im), UpDownFromInt(a * im - b * re))
  }

  /** For multipliers in {-1, 0, 1} every intermediate value lies in [-2, 2]. */
  lemma RotFitsForUnitMultipliers(d: Direction, re: i8, im: i8)
    requires -1 <= re <= 1 && -1 <= im <= 1
    ensures RotFits(d, re, im)
    ensures var a, b := d.hdir.Disc(), d.vdir.Disc();
      -2 <= a * re - b * im <= 2 && -2 <= a * im - b * re <= 2
  {
  }

  /** The centre direction is a fixed point of `rot_by` for every multiplier that fits. */
  lemma RotByFixesCentre(re: i8, im: i8)
    ensures RotFits(Centre, re, im)
    ensures RotBy(Centre, re, im) == Centre
  {
  }

  /** `rot_cw` = `rot_by(1, -1)`: both components take the sign of `a + b`. */
  function RotCw(d: Direction): (r: Direction)
    ensures r.hdir.Disc() == Sign(d.hdir.Disc() + d.vdir.Disc())
    ensures r.vdir.Disc() == Sign(d.hdir.Disc() + d.vdir.Disc())
  {
    RotBy(d, 1, -1)
  }

  /** `rot_ctr_cw` = `rot_by(1, 1)`: horizontal sign of `a - b`, vertical the opposite sign. */
  function RotCtrCw(d: Direction): (r: Direction)
    ensures r.hdir.Disc() == Sign(d.hdir.Disc() - d.vdir.Disc())
    ensures r.vdir.Disc() == -Sign(d.hdir.Disc() - d.vdir.Disc())
  {
    RotBy(d, 1, 1)
  }

  /**
   * As written, neither function is a rotation of the eight compass directions:
   * `rot_cw` fixes up-right and collapses up-left onto the centre, and
   * `rot_ctr_cw` fixes down-right.
   */
  lemma RotationsAsWrittenAreNotRotations()
    ensures RotCw(Direction(Right, Up)) == Direction(Right, Up)
    ensures RotCw(Direction(Left, Up)) == Centre
    ensures RotCtrCw(Direction(Right, Down)) == Direction(Right, Down)
  {
  }

  /** The sign classifier with `Up` for positive numbers, as the discriminants suggest. */
  function UpDownFromSign(i: int): (r: UpDown)
    ensures r.Disc() == Sign(i)
  {
    if i < 0 then Down else if i > 0 then Up else UpDown.Middle
  }

  /**
   * Multiplication of `a + b i` by `re + im i`, sign-classified component by
   * component: a rotation by 45 degrees for `(1, 1)` and `(1, -1)`.
   */
  function RotByCorrected(d: Direction, re: int, im: int): Direction {
    var a, b := d.hdir.Disc() as int, d.vdir.Disc() as int;
    var x, y := a * re - b * im, a * im + b * re;
    Direction(if x < 0 then Left else if x > 0 then Right else LeftRight.Middle, UpDownFromSign(y))
  }

  function RotCwCorrected(d: Direction): Direction { RotByCorrected(d, 1, -1) }

  function RotCtrCwCorrected(d: Direction): Direction { RotByCorrected(d, 1, 1) }

  /** Turns a direction by 90 degrees counter-clockwise: `(a, b)` becomes `(-b, a)`. */
  function QuarterTurn(d: Direction): Direction {
    Direction(LeftRightFromInt(-d.vdir.Disc()), UpDownFromSign(d.hdir.Disc()))
  }

  /**
   * The corrected rotations are mutually inverse, never send a compass direction
   * to the centre, and two counter-clockwise steps make a quarter turn.
   */
  lemma CorrectedRotationsRotate(d: Direction)
    ensures RotCwCorrected(RotCtrCwCorrected(d)) == d
    ensures RotCtrCwCorrected(RotCwCorrected(d)) == d
    ensures d != Centre ==> RotCtrCwCorrected(d) != Centre && RotCwCorrected(d) != Centre
    ensures RotCtrCwCorrected(RotCtrCwCorrected(d)) == QuarterTurn(d)
  {
  }

  /** Eight counter-clockwise steps of 45 degrees bring every direction back. */
  lemma CorrectedRotationHasPeriodEight(d: Direction)
    ensures QuarterTurn(QuarterTurn(QuarterTurn(QuarterTurn(d)))) == d
    ensures var r2 := RotCtrCwCorrected(RotCtrCwCorrected(d));
      var r4 := RotCtrCwCorrected(RotCtrCwCorrected(r2));
      var r6 := RotCtrCwCorrected(RotCtrCwCorrected(r4));
      RotCtrCwCorrected(RotCtrCwCorrected(r6)) == d
  {
    CorrectedRotationsRotate(d);
    var q := QuarterTurn(d);
    CorrectedRotationsRotate(q);
    CorrectedRotationsRotate(QuarterTurn(q));
    CorrectedRotationsRotate(QuarterTurn(QuarterTurn(q)));
  }
}
