/**
 The exercise routine driven once per tracked skeleton: first hold the
 HoldHandsUp pose, then raise both hands far enough while keeping them above
 the head, then start over. The routine's memory is an immutable record and
 one step is a pure function of that record and the skeleton.
 */
module Routine {
  import opened Kinect
  import opened Detectors

  /** Everything the routine remembers between skeletons. `travelledLeft` and
      `travelledRight` are the two gesture accumulators (left and right hand);
      `lastLeft` and `lastRight` are the hand positions seen at the previous step. */
  datatype RoutineState = RoutineState(
    poseAchieved: bool,
    end: bool,
    travelledLeft: real,
    travelledRight: real,
    lastLeft: Point,
    lastRight: Point)

  /** The state before any skeleton: both flags down, accumulators at zero and the
      remembered positions at the default point. */
  const Initial: RoutineState := RoutineState(false, false, 0.0, 0.0, Origin, Origin)

  /** What a step asks the screen to show, in place of the drawing calls. */
  datatype Cue =
    | RepositionCue
      // ask the user to step back until the head is tracked
    | PoseCues(targets: PoseTargets, leftInPosition: bool, rightInPosition: bool)
      // pose instructions plus one circle per target, coloured by that hand's verdict
    | GestureCues(left: bool, right: bool, completed: bool)
      // one arrow per hand, coloured by its verdict, and the "gesture completed" text
    | NoCue

  datatype Outcome = Outcome(state: RoutineState, cue: Cue)

  /** The five arms of the routine's if/else-if chain, in the order they are tried. */
  datatype Branch = HeadLost | PoseCheck | Accumulate | Reset | Idle

  function BranchOf(st: RoutineState, s: Skeleton): (b: Branch)
    ensures b == HeadLost <==> !MinDistance(s)
    ensures b == PoseCheck <==> MinDistance(s) && !st.poseAchieved
    ensures b == Accumulate <==> MinDistance(s) && st.poseAchieved && AreHandsAboveHead(s) && !st.end
    ensures b == Reset <==> MinDistance(s) && st.poseAchieved && st.end
    ensures b == Idle <==> MinDistance(s) && st.poseAchieved && !AreHandsAboveHead(s) && !st.end
  {
    if !MinDistance(s) then HeadLost
    else if !st.poseAchieved then PoseCheck
    else if AreHandsAboveHead(s) && !st.end then Accumulate
    else if st.end then Reset
    else Idle
  }

  /** One call of the routine for one skeleton. */
  function Step(st: RoutineState, s: Skeleton): (r: Outcome)
    // the remembered hand positions always become the current ones, whatever branch ran
    ensures r.state.lastLeft == Pos(s, HandLeft) && r.state.lastRight == Pos(s, HandRight)
    // without a tracked head nothing but the remembered positions changes
    ensures !MinDistance(s) ==>
              && r.state.poseAchieved == st.poseAchieved && r.state.end == st.end
              && r.state.travelledLeft == st.travelledLeft && r.state.travelledRight == st.travelledRight
              && r.cue == RepositionCue
    // the pose flag rises only through a successful pose check
    ensures r.state.poseAchieved && !st.poseAchieved ==> MinDistance(s) && PoseHoldHandsUp(s).Achieved()
    // the end flag rises only from an achieved pose with both hands above the head
    ensures r.state.end && !st.end ==> st.poseAchieved && AreHandsAboveHead(s)
    // the accumulators move only while the gesture runs, or drop to zero on the reset
    ensures r.state.travelledLeft != st.travelledLeft ==>
              BranchOf(st, s) == Accumulate || (BranchOf(st, s) == Reset && r.state.travelledLeft == 0.0)
    ensures r.state.travelledRight != st.travelledRight ==>
              BranchOf(st, s) == Accumulate || (BranchOf(st, s) == Reset && r.state.travelledRight == 0.0)
    // the pose check shows both targets, each coloured by its hand's verdict, and
    // the pose flag becomes the conjunction of the two verdicts
    ensures r.cue.PoseCues? <==> BranchOf(st, s) == PoseCheck
    ensures r.cue.PoseCues? ==> r.cue.targets == HoldHandsUpTargets(s)
    ensures r.cue.PoseCues? ==> (r.state.poseAchieved <==> r.cue.leftInPosition && r.cue.rightInPosition)
    ensures r.cue.PoseCues? ==> r.cue.leftInPosition == HandInPosition(s.joints(HandLeft), r.cue.targets.left)
    ensures r.cue.PoseCues? ==> r.cue.rightInPosition == HandInPosition(s.joints(HandRight), r.cue.targets.right)
    // the gesture shows each hand's verdict against the target and the
    // "completed" text exactly when the end flag is raised
    ensures r.cue.GestureCues? <==> BranchOf(st, s) == Accumulate
    ensures r.cue.GestureCues? ==> (r.cue.completed <==> r.state.end)
    ensures r.cue.GestureCues? ==> (r.cue.left <==> r.state.travelledLeft > GestureTarget(s))
    ensures r.cue.GestureCues? ==> (r.cue.right <==> r.state.travelledRight > GestureTarget(s))
  {
    var (core, cue) :=
      match BranchOf(st, s)
      case HeadLost => (st, RepositionCue)
      case PoseCheck =>
        var p := PoseHoldHandsUp(s);
        (st.(poseAchieved := p.Achieved()), PoseCues(p.targets, p.leftInPosition, p.rightInPosition))
      case Accumulate =>
        var g := GestureRaiseHands(st.travelledLeft, st.travelledRight, st.lastLeft, st.lastRight, s);
        (st.(end := g.Completed(), travelledLeft := g.travelledLeft, travelledRight := g.travelledRight),
         GestureCues(g.left, g.right, g.Completed()))
      case Reset =>
        (st.(poseAchieved := false, end := false, travelledLeft := 0.0, travelledRight := 0.0), NoCue)
      case Idle => (st, NoCue);
    Outcome(core.(lastLeft := Pos(s, HandLeft), lastRight := Pos(s, HandRight)), cue)
  }

  // ---------------------------------------------------------------------------
  // One-step properties
  // ---------------------------------------------------------------------------

  /** The invariant every reachable state keeps: the gesture cannot be finished
      before the pose is achieved, and before the pose is achieved nothing has
      been accumulated. */
  predicate Inv(st: RoutineState) {
    && (st.end ==> st.poseAchieved)
    && (!st.poseAchieved ==> st.travelledLeft == 0.0 && st.travelledRight == 0.0)
  }

  lemma InitialInv()
    ensures Inv(Initial)
  {
  }

  lemma StepPreservesInv(st: RoutineState, s: Skeleton)
    requires Inv(st)
    ensures Inv(Step(st, s).state)
  {
  }

  /** With the pose held and the gesture not finished, lowering the hands below
      the head does not restart the cycle: flags and accumulators stay as they are. */
  lemma BreakingGestureDoesNotReset(st: RoutineState, s: Skeleton)
    requires MinDistance(s) && st.poseAchieved && !st.end && !AreHandsAboveHead(s)
    ensures Step(st, s).state == st.(lastLeft := Pos(s, HandLeft), lastRight := Pos(s, HandRight))
    ensures Step(st, s).cue == NoCue
  {
  }

  /** Once the gesture is finished, the next skeleton whose head is tracked
      restarts the cycle from scratch, wherever the hands are. */
  lemma FinishedGestureResets(st: RoutineState, s: Skeleton)
    requires Inv(st) && st.end && MinDistance(s)
    ensures var r := Step(st, s).state;
            && !r.poseAchieved && !r.end
            && r.travelledLeft == 0.0 && r.travelledRight == 0.0
  {
  }

  /** The gesture finishes exactly when, in the accumulating branch, both
      accumulators strictly exceed the target after adding this step's rise. */
  lemma GestureFinishesIff(st: RoutineState, s: Skeleton)
    requires BranchOf(st, s) == Accumulate
    ensures Step(st, s).state.end <==>
              && st.travelledLeft + (Pos(s, HandLeft).y - st.lastLeft.y) > GestureTarget(s)
              && st.travelledRight + (Pos(s, HandRight).y - st.lastRight.y) > GestureTarget(s)
  {
  }

  // ---------------------------------------------------------------------------
  // The routine as an explicit phase machine
  // ---------------------------------------------------------------------------

  /** The three phases a reachable state can be in. */
  datatype Phase = AwaitPose | AwaitGesture | GestureDone

  function PhaseOf(st: RoutineState): Phase {
    if !st.poseAchieved then AwaitPose
    else if !st.end then AwaitGesture
    else GestureDone
  }

  /** What the detectors report about one skeleton, given the current accumulators. */
  datatype Observation = Observation(headTracked: bool, pose: bool, handsAbove: bool, gesture: bool)

  function Observe(st: RoutineState, s: Skeleton): Observation {
    Observation(
      MinDistance(s),
      PoseHoldHandsUp(s).Achieved(),
      AreHandsAboveHead(s),
      GestureRaiseHands(st.travelledLeft, st.travelledRight, st.lastLeft, st.lastRight, s).Completed())
  }

  /** The transition table of the routine, written independently of the chain. */
  function NextPhase(p: Phase, o: Observation): Phase {
    if !o.headTracked then p
    else match p
      case AwaitPose => if o.pose then AwaitGesture else AwaitPose
      case AwaitGesture => if o.handsAbove && o.gesture then GestureDone else AwaitGesture
      case GestureDone => AwaitPose
  }

  /** On every reachable state the if/else-if chain follows the transition table. */
  lemma StepFollowsPhaseTable(st: RoutineState, s: Skeleton)
    requires Inv(st)
    ensures PhaseOf(Step(st, s).state) == NextPhase(PhaseOf(st), Observe(st, s))
  {
  }

  /** Without the invariant the chain and the table disagree: a state whose
      gesture is marked finished but whose pose is not achieved goes back to the
      pose check and lands in the finished phase after a successful pose. */
  lemma PhaseTableNeedsInv(st: RoutineState, s: Skeleton)
    requires st.end && !st.poseAchieved && MinDistance(s) && PoseHoldHandsUp(s).Achieved()
    ensures PhaseOf(Step(st, s).state) != NextPhase(PhaseOf(st), Observe(st, s))
  {
  }

  // ---------------------------------------------------------------------------
  // Runs of steps
  // ---------------------------------------------------------------------------

  /** The state after stepping through `ss` in order. */
  function Run(st: RoutineState, ss: seq<Skeleton>): (r: RoutineState)
    ensures |ss| > 0 ==> r.lastLeft == Pos(ss[|ss| - 1], HandLeft) && r.lastRight == Pos(ss[|ss| - 1], HandRight)
    decreases |ss|
  {
    if |ss| == 0 then st
    else Step(Run(st, ss[..|ss| - 1]), ss[|ss| - 1]).state
  }

  /** Every step of `ss`, taken from `st`, goes through the accumulating branch. */
  predicate GestureRun(st: RoutineState, ss: seq<Skeleton>)
    decreases |ss|
  {
    |ss| == 0 || (GestureRun(st, ss[..|ss| - 1]) && BranchOf(Run(st, ss[..|ss| - 1]), ss[|ss| - 1]) == Accumulate)
  }

  /** Telescoping: over a run of accumulating steps each accumulator grows by
      exactly the hand's height at the last step minus the height remembered
      before the run; the intermediate heights cancel. */
  lemma {:induction false} GestureRunTelescopes(st: RoutineState, ss: seq<Skeleton>)
    requires |ss| > 0 && GestureRun(st, ss)
    ensures Run(st, ss).travelledLeft == st.travelledLeft + (Pos(ss[|ss| - 1], HandLeft).y - st.lastLeft.y)
    ensures Run(st, ss).travelledRight == st.travelledRight + (Pos(ss[|ss| - 1], HandRight).y - st.lastRight.y)
  {
    var init := ss[..|ss| - 1];
    if |init| > 0 {
      GestureRunTelescopes(st, init);
    }
  }

  /** Constant rise: if the left hand climbs by `d` at every one of `n` accumulating
      steps, its accumulator grows by `n * d`. */
  lemma ConstantRiseAccumulates(st: RoutineState, ss: seq<Skeleton>, d: real)
    requires |ss| > 0 && GestureRun(st, ss)
    requires forall i :: 0 <= i < |ss| ==> Pos(ss[i], HandLeft).y == st.lastLeft.y + (i + 1) as real * d
    ensures Run(st, ss).travelledLeft == st.travelledLeft + |ss| as real * d
  {
    GestureRunTelescopes(st, ss);
  }

  /** The same for the right hand: `n` equal rises of `d` add `n * d` to its accumulator. */
  lemma ConstantRiseAccumulatesRight(st: RoutineState, ss: seq<Skeleton>, d: real)
    requires |ss| > 0 && GestureRun(st, ss)
    requires forall i :: 0 <= i < |ss| ==> Pos(ss[i], HandRight).y == st.lastRight.y + (i + 1) as real * d
    ensures Run(st, ss).travelledRight == st.travelledRight + |ss| as real * d
  {
    GestureRunTelescopes(st, ss);
  }

  /** Any run from a state satisfying the invariant keeps the invariant. */
  lemma {:induction false} RunPreservesInv(st: RoutineState, ss: seq<Skeleton>)
    requires Inv(st)
    ensures Inv(Run(st, ss))
    decreases |ss|
  {
    if |ss| > 0 {
      RunPreservesInv(st, ss[..|ss| - 1]);
      StepPreservesInv(Run(st, ss[..|ss| - 1]), ss[|ss| - 1]);
    }
  }
}
