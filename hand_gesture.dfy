/** The hand-openness estimate of the `HandGesture` component: from the
    landmarks of the first detected hand to a control value in [0, 1], the
    status line shown to the user, and the one `onGestureChange` call made
    per detection cycle that sees a hand. */
module HandGesture {
  import opened Geometry

  datatype Option<T> = None | Some(value: T)

  /** One keypoint reported by the hand-pose model: pixel x and y and a
      relative depth z. */
  datatype Landmark = Landmark(x: real, y: real, z: real)

  /** One hand found in a video frame; the model reports 21 landmarks. */
  datatype Prediction = Prediction(landmarks: seq<Landmark>)

  const LandmarkCount: nat := 21
  const ThumbTip: nat := 4
  /** Thumb tip, then the index, middle, ring and pinky tips. */
  const TipIndices: seq<nat> := [4, 8, 12, 16, 20]

  /** Mean thumb-to-tip distance, in pixels, of a fully closed fist. */
  const MinDistance: real := 30.0
  /** Mean thumb-to-tip distance, in pixels, of a fully open hand. */
  const MaxDistance: real := 150.0

  function Min(a: real, b: real): real { if a <= b then a else b }
  function Max(a: real, b: real): real { if a >= b then a else b }

  /** `Math.sqrt(Math.pow(dx, 2) + Math.pow(dy, 2))`: the planar distance
      between two landmarks; depth is not used. */
  function TipDistance(thumb: Landmark, tip: Landmark, m: MathFns): (d: real)
    requires SqrtSound(m)
    ensures 0.0 <= d
  {
    m.sqrt(Sq(thumb.x - tip.x) + Sq(thumb.y - tip.y))
  }

  /** The distances from the thumb tip to the index, middle, ring and pinky
      tips, in that order. */
  function Distances(lm: seq<Landmark>, m: MathFns): (ds: seq<real>)
    requires |lm| == LandmarkCount && SqrtSound(m)
    ensures |ds| == 4
    ensures forall i :: 0 <= i < |ds| ==> 0.0 <= ds[i]
  {
    var thumb := lm[ThumbTip];
    [TipDistance(thumb, lm[8], m), TipDistance(thumb, lm[12], m),
     TipDistance(thumb, lm[16], m), TipDistance(thumb, lm[20], m)]
  }

  /** `reduce((a, b) => a + b, 0)`: a left fold from 0. */
  function Sum(s: seq<real>): real
  {
    if s == [] then 0.0 else Sum(s[..|s| - 1]) + s[|s| - 1]
  }

  /** `sum / distances.length`. */
  function Mean(s: seq<real>): real
    requires s != []
  {
    Sum(s) / (|s| as real)
  }

  function SeqMin(s: seq<real>): (r: real)
    requires s != []
    ensures r in s
    ensures forall i :: 0 <= i < |s| ==> r <= s[i]
  {
    if |s| == 1 then s[0] else Min(SeqMin(s[..|s| - 1]), s[|s| - 1])
  }

  function SeqMax(s: seq<real>): (r: real)
    requires s != []
    ensures r in s
    ensures forall i :: 0 <= i < |s| ==> s[i] <= r
  {
    if |s| == 1 then s[0] else Max(SeqMax(s[..|s| - 1]), s[|s| - 1])
  }

  /** Every element lies in [lo, hi], so the sum lies in [n * lo, n * hi]. */
  lemma {:induction false} SumBounds(s: seq<real>, lo: real, hi: real)
    requires forall i :: 0 <= i < |s| ==> lo <= s[i] <= hi
    ensures (|s| as real) * lo <= Sum(s) <= (|s| as real) * hi
  {
    if s != [] {
      var init := s[..|s| - 1];
      SumBounds(init, lo, hi);
      assert (|s| as real) * lo == (|init| as real) * lo + lo;
      assert (|s| as real) * hi == (|init| as real) * hi + hi;
    }
  }

  lemma DivideBounds(total: real, n: real, lo: real, hi: real)
    requires 0.0 < n && n * lo <= total <= n * hi
    ensures lo <= total / n <= hi
  {
  }

  /** The mean of the distances lies between the smallest and the largest. */
  lemma MeanBetweenExtremes(s: seq<real>)
    requires s != []
    ensures SeqMin(s) <= Mean(s) <= SeqMax(s)
  {
    SumBounds(s, SeqMin(s), SeqMax(s));
    DivideBounds(Sum(s), |s| as real, SeqMin(s), SeqMax(s));
  }

  /** `Math.max(0, Math.min(1, (avg - 30) / (150 - 30)))`. */
  function Openness(avg: real): (o: real)
    ensures 0.0 <= o <= 1.0
    ensures avg <= MinDistance ==> o == 0.0
    ensures avg >= MaxDistance ==> o == 1.0
    ensures MinDistance <= avg <= MaxDistance ==> o == (avg - 30.0) / 120.0
  {
    Max(0.0, Min(1.0, (avg - MinDistance) / (MaxDistance - MinDistance)))
  }

  /** A wider hand never reads as less open. */
  lemma OpennessMonotone(a: real, b: real)
    requires a <= b
    ensures Openness(a) <= Openness(b)
  {
  }

  /** The openness of one detected hand. */
  function HandOpenness(lm: seq<Landmark>, m: MathFns): (o: real)
    requires |lm| == LandmarkCount && SqrtSound(m)
    ensures 0.0 <= o <= 1.0
  {
    Openness(Mean(Distances(lm, m)))
  }

  /** The mean distance fed to `Openness` is non-negative and lies between
      the shortest and the longest thumb-to-tip distance. */
  lemma AvgDistanceBounds(lm: seq<Landmark>, m: MathFns)
    requires |lm| == LandmarkCount && SqrtSound(m)
    ensures 0.0 <= SeqMin(Distances(lm, m)) <= Mean(Distances(lm, m)) <= SeqMax(Distances(lm, m))
  {
    MeanBetweenExtremes(Distances(lm, m));
  }

  /** Two hands agree on the x and y of the five fingertips. */
  predicate SameTipsXY(lm1: seq<Landmark>, lm2: seq<Landmark>)
    requires |lm1| == LandmarkCount && |lm2| == LandmarkCount
  {
    forall j :: 0 <= j < |TipIndices| ==>
      lm1[TipIndices[j]].x == lm2[TipIndices[j]].x && lm1[TipIndices[j]].y == lm2[TipIndices[j]].y
  }

  /** Depth and the sixteen other landmarks do not affect the openness. */
  lemma OpennessUsesOnlyTipsXY(lm1: seq<Landmark>, lm2: seq<Landmark>, m: MathFns)
    requires |lm1| == LandmarkCount && |lm2| == LandmarkCount && SqrtSound(m)
    requires SameTipsXY(lm1, lm2)
    ensures HandOpenness(lm1, m) == HandOpenness(lm2, m)
  {
    forall j | 0 <= j < |TipIndices|
      ensures lm1[TipIndices[j]].x == lm2[TipIndices[j]].x && lm1[TipIndices[j]].y == lm2[TipIndices[j]].y
    {
    }
    assert TipIndices[0] == 4 && TipIndices[1] == 8 && TipIndices[2] == 12;
    assert TipIndices[3] == 16 && TipIndices[4] == 20;
    assert Distances(lm1, m) == Distances(lm2, m);
  }

  /** The status line of the component. */
  datatype GestureStatus =
    | Initializing
    | AwaitingHand
    | Closed(percentage: int)
    | Open(percentage: int)
    | Partial(percentage: int)

  /** `Math.round(openness * 100)`; JavaScript rounds halves upwards. */
  function Percentage(o: real): (p: int)
    ensures (p as real) - 0.5 <= o * 100.0 < (p as real) + 0.5
    ensures 0.0 <= o <= 1.0 ==> 0 <= p <= 100
  {
    (o * 100.0 + 0.5).Floor
  }

  /** The status shown for a hand of openness `o`. */
  function Classify(o: real): (s: GestureStatus)
    ensures s.Closed? || s.Open? || s.Partial?
    ensures s.Closed? <==> o < 0.2
    ensures s.Open? <==> o > 0.8
    ensures s.Partial? <==> 0.2 <= o <= 0.8
    ensures s.percentage == Percentage(o)
  {
    var p := Percentage(o);
    if o < 0.2 then Closed(p)
    else if o > 0.8 then Open(p)
    else Partial(p)
  }

  /** One cycle of the detection loop: whether model, video and canvas were
      all available, and what `estimateHands` returned. */
  datatype Frame = Frame(ready: bool, predictions: seq<Prediction>)

  /** The value passed to `onGestureChange` in a cycle, if any, and the
      status afterwards. */
  datatype FrameResult = FrameResult(call: Option<real>, status: GestureStatus)

  /** The hand-pose model reports 21 landmarks for every hand. */
  predicate FrameWellFormed(f: Frame)
  {
    |f.predictions| > 0 ==> |f.predictions[0].landmarks| == LandmarkCount
  }

  /** A cycle that runs detection and sees at least one hand. */
  predicate HasHand(f: Frame)
  {
    f.ready && |f.predictions| > 0
  }

  /** One pass of `detectHands`: only the first hand is used. */
  function DetectFrame(f: Frame, status: GestureStatus, m: MathFns): (r: FrameResult)
    requires FrameWellFormed(f) && SqrtSound(m)
    ensures r.call.Some? <==> HasHand(f)
    ensures r.call.Some? ==> 0.0 <= r.call.value <= 1.0
    ensures HasHand(f) ==> r.call.value == HandOpenness(f.predictions[0].landmarks, m)
    ensures HasHand(f) ==> r.status == Classify(r.call.value)
    ensures f.ready && f.predictions == [] ==> r.status == AwaitingHand
    ensures !f.ready ==> r.status == status
  {
    if !f.ready then
      FrameResult(None, status)
    else if |f.predictions| > 0 then
      var o := HandOpenness(f.predictions[0].landmarks, m);
      FrameResult(Some(o), Classify(o))
    else
      FrameResult(None, AwaitingHand)
  }

  /** The number of cycles in which detection ran and saw a hand. */
  function HandFrames(frames: seq<Frame>): nat
  {
    if frames == [] then 0
    else (if HasHand(frames[0]) then 1 else 0) + HandFrames(frames[1..])
  }

  /** The `onGestureChange` calls of a run of the loop, in order, and the
      final status. */
  datatype Trace = Trace(calls: seq<real>, status: GestureStatus)

  /** Consecutive cycles of the detection loop from status `status`:
      exactly one call per cycle with a hand, each with a value in [0, 1]. */
  function RunFrames(frames: seq<Frame>, status: GestureStatus, m: MathFns): (t: Trace)
    requires forall i :: 0 <= i < |frames| ==> FrameWellFormed(frames[i])
    requires SqrtSound(m)
    ensures |t.calls| == HandFrames(frames)
    ensures forall i :: 0 <= i < |t.calls| ==> 0.0 <= t.calls[i] <= 1.0
  {
    if frames == [] then
      Trace([], status)
    else
      var r := DetectFrame(frames[0], status, m);
      var rest := RunFrames(frames[1..], r.status, m);
      var here := if r.call.Some? then [r.call.value] else [];
      Trace(here + rest.calls, rest.status)
  }
}
