/**
 The per-frame checks the exercise routine is built from: the head-tracking
 check, the "hands above head" thresholds, the static HoldHandsUp pose and the
 RaiseHands gesture accumulator.
 */
module Detectors {
  import opened Kinect

  /** Fraction of a reference height that the thresholds forgive. */
  const ErrorMargin: real := 0.2

  /** Multiplier on the head-to-shoulder height that a hand must travel. */
  const DifficultyFactor: real := 1.6

  /** Half side of the square box around each pose target, in metres. */
  const DetectionRadius: real := 0.11

  // ---------------------------------------------------------------------------
  // Tracking and height checks
  // ---------------------------------------------------------------------------

  /** The user stands far enough from the sensor: the head joint is fully tracked. */
  function MinDistance(s: Skeleton): (r: bool)
    ensures r <==> s.joints(Head).trackingState == Tracked
  {
    IsTracked(s, Head)
  }

  /** The distance check reads the head joint's tracking quality and nothing else:
      two skeletons that agree on it agree on the check, whatever their other joints. */
  lemma MinDistanceReadsOnlyHead(s: Skeleton, t: Skeleton)
    requires s.joints(Head).trackingState == t.joints(Head).trackingState
    ensures MinDistance(s) == MinDistance(t)
  {
  }

  /** Height a hand must strictly exceed to count as above the head. */
  function AboveHeadThreshold(s: Skeleton): real {
    (1.0 - ErrorMargin) * Pos(s, Head).y
  }

  predicate IsLeftHandAboveHead(s: Skeleton) {
    Pos(s, HandLeft).y > AboveHeadThreshold(s)
  }

  predicate IsRightHandAboveHead(s: Skeleton) {
    Pos(s, HandRight).y > AboveHeadThreshold(s)
  }

  function AreHandsAboveHead(s: Skeleton): (r: bool)
    ensures r <==> Pos(s, HandLeft).y > 0.8 * Pos(s, Head).y && Pos(s, HandRight).y > 0.8 * Pos(s, Head).y
  {
    IsRightHandAboveHead(s) && IsLeftHandAboveHead(s)
  }

  /** The thresholds read only the two hands' and the head's heights; tracking
      quality plays no part, and a hand exactly at the threshold is not above. */
  lemma HandsAboveHeadIff(s: Skeleton)
    ensures AreHandsAboveHead(s) <==>
              Pos(s, HandLeft).y > 0.8 * Pos(s, Head).y && Pos(s, HandRight).y > 0.8 * Pos(s, Head).y
    ensures Pos(s, HandLeft).y == 0.8 * Pos(s, Head).y ==> !AreHandsAboveHead(s)
  {
  }

  /** Raising a hand never takes it below the threshold: the check is monotone in
      each hand's height when the head stays put. */
  lemma HandsAboveHeadMonotone(s: Skeleton, t: Skeleton)
    requires Pos(t, Head).y == Pos(s, Head).y
    requires Pos(t, HandLeft).y >= Pos(s, HandLeft).y
    requires Pos(t, HandRight).y >= Pos(s, HandRight).y
    ensures AreHandsAboveHead(s) ==> AreHandsAboveHead(t)
  {
  }

  // ---------------------------------------------------------------------------
  // The HoldHandsUp pose
  // ---------------------------------------------------------------------------

  /** Where the two hands should be: at head height, each displaced sideways from
      the head by half the horizontal elbow-to-elbow spread. */
  datatype PoseTargets = PoseTargets(left: Point, right: Point)

  /** Horizontal elbow-to-shoulder-centre distance averaged over both arms. */
  function HalfSpread(s: Skeleton): (d: real)
    ensures d == (Pos(s, ElbowLeft).x - Pos(s, ElbowRight).x) / 2.0
  {
    ((Pos(s, ElbowLeft).x - Pos(s, ShoulderCenter).x) + (Pos(s, ShoulderCenter).x - Pos(s, ElbowRight).x)) / 2.0
  }

  function HoldHandsUpTargets(s: Skeleton): (r: PoseTargets)
    // both targets sit at the head's height and depth
    ensures r.left.y == Pos(s, Head).y && r.right.y == Pos(s, Head).y
    ensures r.left.z == Pos(s, Head).z && r.right.z == Pos(s, Head).z
    // they are mirror images about the head
    ensures r.left.x + r.right.x == 2.0 * Pos(s, Head).x
    // and as far apart as the elbows
    ensures r.left.x - r.right.x == Pos(s, ElbowLeft).x - Pos(s, ElbowRight).x
  {
    var head := Pos(s, Head);
    var d := HalfSpread(s);
    PoseTargets(head.(x := head.x + d), head.(x := head.x - d))
  }

  /** One hand's in-position test: fails closed when the hand is not tracked,
      otherwise a strict square box of half side DetectionRadius in the x/y plane. */
  function HandInPosition(hand: Joint, target: Point): (r: bool)
    ensures r ==> hand.trackingState == Tracked
    ensures r <==> (
              && hand.trackingState == Tracked
              && -DetectionRadius < hand.position.x - target.x < DetectionRadius
              && -DetectionRadius < hand.position.y - target.y < DetectionRadius)
  {
    && hand.trackingState == Tracked
    && Abs(hand.position.x - target.x) < DetectionRadius
    && Abs(hand.position.y - target.y) < DetectionRadius
  }

  /** What the pose check reports: the two targets (drawn as cues) and each hand's verdict. */
  datatype PoseResult = PoseResult(targets: PoseTargets, leftInPosition: bool, rightInPosition: bool) {
    predicate Achieved() { leftInPosition && rightInPosition }
  }

  function PoseHoldHandsUp(s: Skeleton): (r: PoseResult)
    ensures r.targets == HoldHandsUpTargets(s)
    ensures r.leftInPosition ==> IsTracked(s, HandLeft)
    ensures r.rightInPosition ==> IsTracked(s, HandRight)
    ensures r.leftInPosition <==> (
              && IsTracked(s, HandLeft)
              && -DetectionRadius < Pos(s, HandLeft).x - (Pos(s, Head).x + HalfSpread(s)) < DetectionRadius
              && -DetectionRadius < Pos(s, HandLeft).y - Pos(s, Head).y < DetectionRadius)
    ensures r.rightInPosition <==> (
              && IsTracked(s, HandRight)
              && -DetectionRadius < Pos(s, HandRight).x - (Pos(s, Head).x - HalfSpread(s)) < DetectionRadius
              && -DetectionRadius < Pos(s, HandRight).y - Pos(s, Head).y < DetectionRadius)
  {
    var t := HoldHandsUpTargets(s);
    PoseResult(t, HandInPosition(s.joints(HandLeft), t.left), HandInPosition(s.joints(HandRight), t.right))
  }

  /** The pose is anchor-relative: moving the whole body leaves both verdicts unchanged. */
  lemma PoseTranslationInvariant(s: Skeleton, v: Point)
    ensures PoseHoldHandsUp(Translate(s, v)).leftInPosition == PoseHoldHandsUp(s).leftInPosition
    ensures PoseHoldHandsUp(Translate(s, v)).rightInPosition == PoseHoldHandsUp(s).rightInPosition
  {
  }

  /** An untracked hand never satisfies the pose, however close it is to its target. */
  lemma PoseFailsClosed(s: Skeleton)
    requires !IsTracked(s, HandLeft) || !IsTracked(s, HandRight)
    ensures !PoseHoldHandsUp(s).Achieved()
  {
  }

  // ---------------------------------------------------------------------------
  // The RaiseHands gesture
  // ---------------------------------------------------------------------------

  /** Vertical distance each hand must travel: head-to-right-shoulder height,
      shrunk by the error margin and scaled by the difficulty factor. */
  function GestureTarget(s: Skeleton): (r: real)
    ensures r == 1.28 * (Pos(s, Head).y - Pos(s, ShoulderRight).y)
    ensures r > 0.0 <==> Pos(s, Head).y > Pos(s, ShoulderRight).y
    ensures Pos(s, Head).y > Pos(s, ShoulderRight).y ==> r > Pos(s, Head).y - Pos(s, ShoulderRight).y
  {
    var headToShoulder := Pos(s, Head).y - Pos(s, ShoulderRight).y;
    headToShoulder * (1.0 - ErrorMargin) * DifficultyFactor
  }

  /** The target depends on body proportions only, not on where the body stands. */
  lemma GestureTargetTranslationInvariant(s: Skeleton, v: Point)
    ensures GestureTarget(Translate(s, v)) == GestureTarget(s)
  {
  }

  /** The two accumulators after one gesture call, and each hand's verdict. */
  datatype GestureResult = GestureResult(travelledLeft: real, travelledRight: real, left: bool, right: bool) {
    predicate Completed() { left && right }
  }

  /** One call of the gesture: add each hand's vertical displacement since the
      remembered position to its accumulator (no clamping), then compare with the target. */
  function GestureRaiseHands(travelledLeft: real, travelledRight: real, lastLeft: Point, lastRight: Point,
                             s: Skeleton): (r: GestureResult)
    ensures r.travelledLeft - travelledLeft == Pos(s, HandLeft).y - lastLeft.y
    ensures r.travelledRight - travelledRight == Pos(s, HandRight).y - lastRight.y
    ensures r.left <==> r.travelledLeft > GestureTarget(s)
    ensures r.right <==> r.travelledRight > GestureTarget(s)
    // a hand that does not move vertically leaves its accumulator as it was
    ensures Pos(s, HandLeft).y == lastLeft.y ==> r.travelledLeft == travelledLeft
    // a hand that moves down lowers its accumulator
    ensures Pos(s, HandLeft).y < lastLeft.y ==> r.travelledLeft < travelledLeft
    ensures Pos(s, HandRight).y == lastRight.y ==> r.travelledRight == travelledRight
    ensures Pos(s, HandRight).y < lastRight.y ==> r.travelledRight < travelledRight
  {
    var target := GestureTarget(s);
    var t1 := travelledLeft + (Pos(s, HandLeft).y - lastLeft.y);
    var t2 := travelledRight + (Pos(s, HandRight).y - lastRight.y);
    GestureResult(t1, t2, t1 > target, t2 > target)
  }
}
