/**
 The skeleton data the Kinect runtime hands to the application once per tick:
 joint positions in the sensor's 3D space (metres) with a per-joint tracking
 quality, and a per-skeleton tracking state. Coordinates are `real`; the
 sensor's single-precision rounding is not modelled.
 */
module Kinect {

  /** A position in the sensor's skeleton space (the runtime's SkeletonPoint). */
  datatype Point = Point(x: real, y: real, z: real)

  /** The default SkeletonPoint value: every coordinate zero. */
  const Origin: Point := Point(0.0, 0.0, 0.0)

  /** Tracking quality of one joint. */
  datatype JointTrackingState = NotTracked | Inferred | Tracked

  /** Tracking state of a whole skeleton. */
  datatype SkeletonTrackingState = SkeletonNotTracked | PositionOnly | SkeletonTracked

  /** The twenty joints the runtime reports for every skeleton. */
  datatype JointType =
    | HipCenter | Spine | ShoulderCenter | Head
    | ShoulderLeft | ElbowLeft | WristLeft | HandLeft
    | ShoulderRight | ElbowRight | WristRight | HandRight
    | HipLeft | KneeLeft | AnkleLeft | FootLeft
    | HipRight | KneeRight | AnkleRight | FootRight

  datatype Joint = Joint(position: Point, trackingState: JointTrackingState)

  /** A skeleton: its tracking state and the joint collection, indexed by joint type. */
  datatype Skeleton = Skeleton(trackingState: SkeletonTrackingState, joints: JointType -> Joint)

  /** Position of joint `j` of `s`. */
  function Pos(s: Skeleton, j: JointType): Point {
    s.joints(j).position
  }

  /** Whether joint `j` of `s` is fully tracked. */
  predicate IsTracked(s: Skeleton, j: JointType) {
    s.joints(j).trackingState == Tracked
  }

  function Abs(x: real): (r: real)
    ensures r >= 0.0
    ensures r == x || r == -x
  {
    if x < 0.0 then -x else x
  }

  function Shift(p: Point, v: Point): Point {
    Point(p.x + v.x, p.y + v.y, p.z + v.z)
  }

  /** The same body seen from a sensor displaced by `-v`: every joint moved by `v`. */
  function Translate(s: Skeleton, v: Point): (r: Skeleton)
    ensures r.trackingState == s.trackingState
    ensures forall j :: IsTracked(r, j) == IsTracked(s, j)
    ensures forall j :: Pos(r, j) == Shift(Pos(s, j), v)
  {
    Skeleton(s.trackingState, (j: JointType) => Joint(Shift(Pos(s, j), v), s.joints(j).trackingState))
  }

  /** Successful result or absence, used for a frame the runtime could not open. */
  datatype Option<+T> = None | Some(value: T)
}
