/**
 * The coordinate tracker (`CoordinateTracker`): it turns the bounding box of
 * the latest face into a horizontal aiming target and derives the command for
 * the stepper motor that turns the camera. Angles are in degrees, 0 straight
 * ahead, -90 at the left edge and +90 at the right edge of the frame.
 */
module Tracker {
  import opened Util

  /** A box in pixel coordinates, `[x1, y1, x2, y2]`. */
  datatype BBox = BBox(x1: int, y1: int, x2: int, y2: int)

  /** The target dictionary `update_target` stores. */
  datatype Target = Target(x: int, y: int, angle: real, distance: real, bbox: BBox)

  datatype Action = Locked | Rotate
  datatype Priority = Low | Medium | High

  /** The dictionary `get_stepper_command` returns. */
  datatype Command =
    | Idle
    | Aim(action: Action, angle: real, distance: real, priority: Priority, targetX: int, targetY: int)
  {
    /** The 'angle' entry: 0 for the idle command. */
    function Angle(): real
    {
      if Idle? then 0.0 else angle
    }

    /** The 'priority' entry: low for the idle command. */
    function Urgency(): Priority
    {
      if Idle? then Low else priority
    }
  }

  function Abs(r: real): real
  {
    if r < 0.0 then -r else r
  }

  /** The target for `bbox` in a frame `frameWidth` pixels wide (`update_target`). */
  function TargetFor(bbox: BBox, frameWidth: int): (t: Target)
    requires frameWidth >= 2
    ensures t.bbox == bbox
    ensures 2 * t.x <= bbox.x1 + bbox.x2 < 2 * t.x + 2
    ensures 2 * t.y <= bbox.y1 + bbox.y2 < 2 * t.y + 2
    ensures t.distance >= 0.0 && Abs(t.angle) == 90.0 * t.distance
    ensures t.angle < 0.0 <==> t.x < frameWidth / 2
    ensures t.distance == 0.0 <==> t.x == frameWidth / 2
  {
    var half := frameWidth / 2;
    var cx := (bbox.x1 + bbox.x2) / 2;
    var cy := (bbox.y1 + bbox.y2) / 2;
    var offset := cx - half;
    Target(cx, cy, (offset as real / half as real) * 90.0, Abs(offset as real) / half as real, bbox)
  }

  /** `get_stepper_command` for the stored target, `round` aside. */
  function StepperCommand(target: Option<Target>): (c: Command)
    ensures target.None? <==> c.Idle?
    ensures c.Aim? ==> (c.action == Locked <==> Abs(target.value.angle) < 5.0)
    ensures c.Aim? ==> c.angle == target.value.angle && c.distance == target.value.distance
    ensures c.Aim? ==> c.targetX == target.value.x && c.targetY == target.value.y
    ensures c.Urgency() == High <==> target.Some? && target.value.distance > 0.7
    ensures c.Urgency() == Medium <==> target.Some? && 0.3 < target.value.distance <= 0.7
  {
    match target
    case None => Idle
    case Some(t) =>
      Aim(if Abs(t.angle) < 5.0 then Locked else Rotate,
          t.angle, t.distance,
          if t.distance > 0.7 then High else if t.distance > 0.3 then Medium else Low,
          t.x, t.y)
  }

  /**
   * In pixels: the stepper is locked exactly when the box centre lies within
   * 1/18 of the half-width of the frame's centre column, and the priority is
   * high exactly when it lies more than 7/10 of the half-width away.
   */
  lemma LockedIffNearCentre(bbox: BBox, frameWidth: int)
    requires frameWidth >= 2
    ensures var t := TargetFor(bbox, frameWidth);
            var offset := t.x - frameWidth / 2;
            && (StepperCommand(Some(t)).action == Locked <==> 18 * IntAbs(offset) < frameWidth / 2)
            && (StepperCommand(Some(t)).priority == High <==> 10 * IntAbs(offset) > 7 * (frameWidth / 2))
  {
    var t := TargetFor(bbox, frameWidth);
    var half := frameWidth / 2;
    var a := IntAbs(t.x - half) as real;
    assert t.distance == a / half as real;
    RatioBelow(a, half as real, 1.0 / 18.0);
    RatioBelow(a, half as real, 0.7);
  }

  /** For a positive denominator, `a / h < c` exactly when `a < c * h`. */
  lemma RatioBelow(a: real, h: real, c: real)
    requires h > 0.0
    ensures a / h < c <==> a < c * h
    ensures a / h > c <==> a > c * h
  {
    var q := a / h;
    assert q * h == a;
    if q < c {
      assert (c - q) * h > 0.0;
    }
    if q > c {
      assert (q - c) * h > 0.0;
    }
    if a < c * h {
      assert (c * h - a) / h > 0.0;
    }
    if a > c * h {
      assert (a - c * h) / h > 0.0;
    }
  }

  function IntAbs(n: int): nat
  {
    if n < 0 then -n else n
  }

  /** `CoordinateTracker`: the frame size and the latest target. */
  class CoordinateTracker {
    var frameWidth: int
    var frameHeight: int
    var currentTarget: Option<Target>

    ghost predicate Valid()
      reads this
    {
      frameWidth >= 2
    }

    constructor (frameWidth: int, frameHeight: int)
      requires frameWidth >= 2
      ensures Valid()
      ensures this.frameWidth == frameWidth && this.frameHeight == frameHeight && currentTarget == None
    {
      this.frameWidth := frameWidth;
      this.frameHeight := frameHeight;
      currentTarget := None;
    }

    /** `update_target(bbox)`: store and return the target for the box. */
    method UpdateTarget(bbox: BBox) returns (t: Target)
      requires Valid()
      modifies this
      ensures Valid()
      ensures t == TargetFor(bbox, frameWidth) && currentTarget == Some(t)
      ensures frameWidth == old(frameWidth) && frameHeight == old(frameHeight)
    {
      t := TargetFor(bbox, frameWidth);
      currentTarget := Some(t);
    }

    /** `get_stepper_command()` */
    function GetStepperCommand(): (c: Command)
      reads this
      ensures c.Idle? <==> currentTarget.None?
    {
      StepperCommand(currentTarget)
    }
  }
}
