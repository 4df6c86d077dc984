# Kinect exercise recogniser — a Dafny model

This project models the per-frame exercise recogniser of the NPI_Kinect
application (`MainWindow`). For each skeleton frame, the application feeds every
skeleton that the Kinect runtime reports as `Tracked` into a small state
machine, `movementRoutine`. That machine guides the user through one exercise:

1. Stand far enough away that the head is tracked.
2. Hold the *HoldHandsUp* pose. Both hands must be tracked and inside a square
   box of half side 0.11 m. The box is centred on a target at head height,
   displaced sideways by half the elbow-to-elbow spread.
3. Perform the *RaiseHands* gesture. While both hands stay above
   `(1 − errorMargin) · head.Y`, each hand's vertical displacement since the
   previous skeleton is added to its accumulator. The gesture is complete when
   both accumulators strictly exceed
   `(head.Y − shoulderRight.Y) · (1 − errorMargin) · difficultyFactor`.
4. Start over: both flags are cleared and both accumulators go back to zero.

The routine's memory is the immutable record `Routine.RoutineState`. It holds:

- the two flags `poseAchieved` and `end`;
- the two accumulators, `travelledLeft` and `travelledRight` (the source's
  `travelledDistance1` and `travelledDistance2`);
- the two remembered hand positions, `lastLeft` and `lastRight` (the source's
  `lastPosition1` and `lastPosition2`).

`Routine.Step` is a pure function from a state and a skeleton to the next state
and a `Cue`. The cue is data that stands in for the drawing calls and the
on-screen text. The source's `errorMargin` is 0.2, its `difficultyFactor` is
1.6 and its detection radius is 0.11. Nothing in the file changes these values,
so the model declares them as constants.

Modules:

- `Kinect` (kinect.dfy) holds the runtime's data:
  - points;
  - joint and skeleton tracking states;
  - the twenty joint types;
  - a skeleton's joint collection, modelled as a total map from joint type to
    joint.
- `Detectors` (detectors.dfy) holds the checks:
  - `MinDistance`;
  - the hands-above-head thresholds;
  - the pose targets and the in-position test;
  - the gesture target and the accumulator update.
- `Routine` (routine.dfy) holds the step function and its if/else-if chain,
  reified as `Branch`. It also proves:
  - the reachable-state invariant;
  - that the chain agrees with an explicit phase-transition table;
  - the telescoping property of runs of gesture steps.
- `Dispatch` (dispatch.dfy) holds the frame handler. It is a loop over the
  skeleton array that steps the routine once per `Tracked` skeleton.

What the code does, in the places where a reader might expect otherwise:

- **No reset on a broken gesture.** The comment at
  `NPI_Kinect/MainWindow.xaml.cs:396` says the cycle resets when the user
  lowers the hands before finishing. The code only resets when `end` is set
  (line 397). Lowering the hands with the pose achieved and the gesture
  unfinished changes nothing but the remembered positions. The lemma
  `BreakingGestureDoesNotReset` states this.
- **Accumulators are not reset on entering the pose.** They are zeroed only in
  the reset branch. The invariant `Inv` shows this is equivalent for reachable
  states: whenever the pose is not achieved, both accumulators are zero.
- **Only the head gates tracking.** The tracking gate checks only the head
  joint, not the hands. The gesture reads hand positions whatever their
  tracking quality.
- **Every tracked skeleton is stepped.** Each `Tracked` skeleton of a frame
  steps the same routine state, in array order. The code does not stop at the
  first one.

## Model

| member | source | states |
|---|---|---|
| Detectors.MinDistance | NPI_Kinect/MainWindow.xaml.cs:416-429 | true iff the head joint is Tracked; no other joint is read |
| Detectors.MinDistanceReadsOnlyHead | NPI_Kinect/MainWindow.xaml.cs:416-429 | two skeletons whose head joints have the same tracking quality get the same verdict, whatever their other joints |
| Detectors.AreHandsAboveHead | NPI_Kinect/MainWindow.xaml.cs:443-456 | true iff both the left and the right hand are strictly higher than (1 − 0.2) × head height |
| Detectors.HandsAboveHeadIff | NPI_Kinect/MainWindow.xaml.cs:443-456 | both hands must be strictly higher than 0.8 × head height (error margin 0.2); a hand exactly at the threshold fails; tracking quality plays no part |
| Detectors.HandsAboveHeadMonotone | NPI_Kinect/MainWindow.xaml.cs:447-456 | with the head fixed, raising either hand never turns a passing check into a failing one |
| Detectors.HalfSpread | NPI_Kinect/MainWindow.xaml.cs:491-495 | the averaged elbow-to-shoulder-centre spread equals half the elbow-to-elbow horizontal distance; the shoulder centre cancels |
| Detectors.HoldHandsUpTargets | NPI_Kinect/MainWindow.xaml.cs:498-507 | both pose targets keep the head's height and depth, are mirror images about the head horizontally, and lie as far apart as the elbows |
| Detectors.HandInPosition | NPI_Kinect/MainWindow.xaml.cs:509-534 | a hand passes only if it is tracked, and then iff both its x and y offsets from the target lie strictly inside (−0.11, 0.11) |
| Detectors.PoseHoldHandsUp | NPI_Kinect/MainWindow.xaml.cs:467-540 | each hand's verdict implies that hand is tracked, and holds iff the hand is within the strict box around head.X ± half spread at head height; the reported targets are the computed ones |
| Detectors.PoseFailsClosed | NPI_Kinect/MainWindow.xaml.cs:479-539 | if either hand is not tracked the pose is not achieved, however close the hands are |
| Detectors.PoseTranslationInvariant | NPI_Kinect/MainWindow.xaml.cs:493-531 | moving every joint by the same vector leaves both hand verdicts unchanged: the targets are anchor-relative |
| Detectors.GestureTarget | NPI_Kinect/MainWindow.xaml.cs:582-590 | the target is exactly 1.28 = (1 − 0.2) × 1.6 times the head-to-right-shoulder height; it is positive iff the head is above the right shoulder, and then exceeds that height |
| Detectors.GestureTargetTranslationInvariant | NPI_Kinect/MainWindow.xaml.cs:583-590 | the gesture target depends only on body proportions, not on where the body stands |
| Detectors.GestureRaiseHands | NPI_Kinect/MainWindow.xaml.cs:577-604 | each accumulator changes by exactly the hand's vertical displacement since its remembered position, with no clamping (for either hand, no vertical movement leaves it unchanged and a lowered hand decreases it); each hand passes iff its new accumulator strictly exceeds the target |
| Routine.BranchOf | NPI_Kinect/MainWindow.xaml.cs:383-403 | the five branches are selected by disjoint conditions: head lost; pose not achieved; hands above head and gesture unfinished; gesture finished; otherwise idle |
| Routine.Step | NPI_Kinect/MainWindow.xaml.cs:379-408 | the remembered positions become the current hands in every branch; without a tracked head flags and accumulators are unchanged and the reposition cue is shown; the pose flag rises only via a passing pose check; `end` rises only with the pose achieved and both hands above the head; each of the two accumulators changes only while accumulating or when reset to zero; the pose cue appears exactly in the pose-check branch and carries the computed targets and each hand's in-position verdict, whose conjunction is the new pose flag; the gesture cue appears exactly in the accumulating branch and carries each hand's verdict against the target and a "completed" flag equal to the new `end` |
| Routine.InitialInv | NPI_Kinect/MainWindow.xaml.cs:38-78 | the start state (both flags false, accumulators zero) satisfies the invariant |
| Routine.StepPreservesInv | NPI_Kinect/MainWindow.xaml.cs:383-403 | every step keeps `end ⇒ poseAchieved` and keeps both accumulators at zero while the pose is not achieved |
| Routine.BreakingGestureDoesNotReset | NPI_Kinect/MainWindow.xaml.cs:389-403 | with the pose achieved and the gesture unfinished, lowering the hands changes nothing but the remembered positions and shows no cue |
| Routine.FinishedGestureResets | NPI_Kinect/MainWindow.xaml.cs:397-403 | after a finished gesture, the next skeleton with a tracked head clears both flags and both accumulators |
| Routine.GestureFinishesIff | NPI_Kinect/MainWindow.xaml.cs:389-395 | in the accumulating branch `end` becomes true iff both updated accumulators strictly exceed the target |
| Routine.StepFollowsPhaseTable | NPI_Kinect/MainWindow.xaml.cs:383-403 | on every state satisfying the invariant, the if/else-if chain moves between AwaitPose, AwaitGesture and GestureDone exactly as an independent transition table says |
| Routine.PhaseTableNeedsInv | NPI_Kinect/MainWindow.xaml.cs:386-387 | outside the invariant the chain departs from the table: an `end`-set state without the pose lands in GestureDone after a passing pose check |
| Routine.Run | NPI_Kinect/MainWindow.xaml.cs:405-407 | after any non-empty sequence of steps the remembered positions are the last skeleton's hands |
| Routine.GestureRunTelescopes | NPI_Kinect/MainWindow.xaml.cs:593-594 | over a contiguous run of accumulating steps each accumulator grows by exactly the hand's height at the last step minus the height remembered before the run |
| Routine.ConstantRiseAccumulates | NPI_Kinect/MainWindow.xaml.cs:593 | if the left hand rises by the same `d` at each of `n` accumulating steps, its accumulator grows by `n·d` |
| Routine.ConstantRiseAccumulatesRight | NPI_Kinect/MainWindow.xaml.cs:594 | the same for the right hand: `n` equal rises of `d` add `n·d` to its accumulator |
| Routine.RunPreservesInv | NPI_Kinect/MainWindow.xaml.cs:379-408 | every sequence of steps from a state satisfying the invariant ends in one that satisfies it |
| Dispatch.TrackedOnly | NPI_Kinect/MainWindow.xaml.cs:345-356 | the skeletons handed to the routine are all in state Tracked, all come from the array, and every Tracked skeleton of the array is among them |
| Dispatch.TrackedOnlyAppend | NPI_Kinect/MainWindow.xaml.cs:347-356 | the selection distributes over concatenation of arrays, so the routine sees the Tracked skeletons in array order |
| Dispatch.UntrackedOnlyIsEmpty | NPI_Kinect/MainWindow.xaml.cs:351-365 | an array with no Tracked skeleton (only PositionOnly or NotTracked) gives the routine nothing |
| Dispatch.SensorSkeletonFrameReady | NPI_Kinect/MainWindow.xaml.cs:327-372 | the routine is stepped once per Tracked skeleton in array order; a frame that cannot be opened, or one with no Tracked skeleton, leaves the state unchanged and produces no cue; the invariant is preserved |

## Left out

- Sensor discovery, stream enabling, start and stop, and the smoothing parameters (lines 213-296) are left out. They are device I/O, and the smoothing object is never applied.
- Colour-frame copying into the bitmap (lines 303-320) is left out. It is pixel I/O.
- All drawing is left out: `RenderClippedEdges`, `DrawBonesAndJoints`, `DrawBone`, `drawCues_HoldHandsUp`, `drawCues_RaiseHands`, the body-centre ellipse of a `PositionOnly` skeleton, and the arrow end point that `drawCues_RaiseHands` computes. The model returns the data these draw (targets and per-hand verdicts) as a `Cue`.
- `SkeletonPointToScreen` is left out. It is a call into the sensor's coordinate mapper.
- The text assignments (`instructionsText.Text`, `positionCuesHelp.Text`) are modelled only as the cue tags `RepositionCue`, `PoseCues` and `GestureCues.completed`.
- Single-precision floating point is not modelled. Coordinates and constants are exact `real`s, so a value lying within float rounding of a threshold may compare differently in the program.
- A skeleton's `Position` and `ClippedEdges` are not modelled. Only drawing reads them.
- The program has no menu, dwell selector, home button, repetition counter or parameter setters, so none is modelled.
