/**
 The skeleton-frame handler: every skeleton of the frame whose tracking state is
 Tracked is fed to the routine, in array order; the others only get drawn.
 */
module Dispatch {
  import opened Kinect
  import opened Routine

  /** The skeleton array of a frame; a frame that could not be opened reads as empty. */
  function Skeletons(frame: Option<seq<Skeleton>>): seq<Skeleton> {
    match frame
    case None => []
    case Some(a) => a
  }

  /** The skeletons the routine sees, in order: those whose state is Tracked. */
  function TrackedOnly(skels: seq<Skeleton>): (r: seq<Skeleton>)
    ensures |r| <= |skels|
    ensures forall k :: 0 <= k < |r| ==> r[k].trackingState == SkeletonTracked
    // nothing is invented: every skeleton passed on comes from the array
    ensures forall x :: x in r ==> x in skels
    // nothing Tracked is dropped
    ensures forall k :: 0 <= k < |skels| && skels[k].trackingState == SkeletonTracked ==> skels[k] in r
    decreases |skels|
  {
    if |skels| == 0 then []
    else
      var init := TrackedOnly(skels[..|skels| - 1]);
      if skels[|skels| - 1].trackingState == SkeletonTracked then init + [skels[|skels| - 1]] else init
  }

  /** A skeleton that is only position-tracked or not tracked is invisible to the routine. */
  lemma {:induction false} UntrackedOnlyIsEmpty(skels: seq<Skeleton>)
    requires forall k :: 0 <= k < |skels| ==> skels[k].trackingState != SkeletonTracked
    ensures TrackedOnly(skels) == []
    decreases |skels|
  {
    if |skels| > 0 {
      UntrackedOnlyIsEmpty(skels[..|skels| - 1]);
    }
  }

  /** The cues of the routine calls for `ss`, in order: the k-th is the cue of
      the step taken on `ss[k]` from the state reached after `ss[..k]`. This is
      the specification the frame handler's loop is proved against. */
  function CuesOf(st: RoutineState, ss: seq<Skeleton>): (r: seq<Cue>)
    ensures |r| == |ss|
    decreases |ss|
  {
    if |ss| == 0 then []
    else CuesOf(st, ss[..|ss| - 1]) + [Step(Run(st, ss[..|ss| - 1]), ss[|ss| - 1]).cue]
  }

  /** Feeding one more skeleton extends the run by one step and the cues by one cue. */
  lemma Snoc(st: RoutineState, ss: seq<Skeleton>, x: Skeleton)
    ensures Run(st, ss + [x]) == Step(Run(st, ss), x).state
    ensures CuesOf(st, ss + [x]) == CuesOf(st, ss) + [Step(Run(st, ss), x).cue]
  {
    assert (ss + [x])[..|ss|] == ss;
  }

  /** Extending the array by one skeleton extends the tracked subsequence by it
      exactly when it is Tracked. */
  lemma TrackedOnlySnoc(skels: seq<Skeleton>, i: nat)
    requires i < |skels|
    ensures TrackedOnly(skels[..i + 1]) ==
              if skels[i].trackingState == SkeletonTracked then TrackedOnly(skels[..i]) + [skels[i]]
              else TrackedOnly(skels[..i])
  {
    assert skels[..i + 1][..i] == skels[..i];
  }

  /** Filtering distributes over concatenation, so the routine sees the Tracked
      skeletons in the order they appear in the array. */
  lemma {:induction false} TrackedOnlyAppend(a: seq<Skeleton>, b: seq<Skeleton>)
    ensures TrackedOnly(a + b) == TrackedOnly(a) + TrackedOnly(b)
    decreases |b|
  {
    if |b| == 0 {
      assert a + b == a;
    } else {
      assert (a + b)[..|a + b| - 1] == a + b[..|b| - 1];
      TrackedOnlyAppend(a, b[..|b| - 1]);
    }
  }

  /** The frame handler: step the routine once per Tracked skeleton, in array order. */
  method SensorSkeletonFrameReady(st: RoutineState, frame: Option<seq<Skeleton>>)
    returns (r: RoutineState, cues: seq<Cue>)
    ensures r == Run(st, TrackedOnly(Skeletons(frame)))
    ensures cues == CuesOf(st, TrackedOnly(Skeletons(frame)))
    ensures (forall k :: 0 <= k < |Skeletons(frame)| ==> Skeletons(frame)[k].trackingState != SkeletonTracked)
            ==> r == st && cues == []
    ensures frame.None? ==> r == st && cues == []
    ensures Inv(st) ==> Inv(r)
  {
    var skeletons := Skeletons(frame);
    r, cues := st, [];
    var i := 0;
    while i < |skeletons|
      invariant 0 <= i <= |skeletons|
      invariant r == Run(st, TrackedOnly(skeletons[..i]))
      invariant cues == CuesOf(st, TrackedOnly(skeletons[..i]))
    {
      var skel := skeletons[i];
      TrackedOnlySnoc(skeletons, i);
      if skel.trackingState == SkeletonTracked {
        Snoc(st, TrackedOnly(skeletons[..i]), skel);
        var o := Step(r, skel);
        r, cues := o.state, cues + [o.cue];
      }
      i := i + 1;
    }
    assert skeletons[..i] == skeletons;
    if forall k :: 0 <= k < |skeletons| ==> skeletons[k].trackingState != SkeletonTracked {
      UntrackedOnlyIsEmpty(skeletons);
    }
    if Inv(st) {
      RunPreservesInv(st, TrackedOnly(skeletons));
    }
  }
}
