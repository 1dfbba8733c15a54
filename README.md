# Gesture-driven morphing tree — verified model

This project models the logic core of a small React/three.js scene in which
about eleven hundred ornaments and a star morph between a cone-shaped "tree"
layout and a spherical "scattered" layout. One control value in [0, 1]
drives the morph. It comes either from a webcam hand-openness estimate or
from two buttons. Numbers are modelled as `real`. The random draws and the
library functions `Math.sqrt`, `Math.cbrt`, `Math.sin`, `Math.cos` and
`Math.acos` are inputs to the model.

Modules, one per source component:

- `Geometry` (`geometry.dfy`): `Vec3`, three.js `lerpVectors` as `Lerp`, and
  `MathFns`, which holds the library functions as values. The predicates
  `SqrtSound`, `CbrtSound` and `TrigSound` state only the bounds the model
  relies on. For `sin` and `cos` that is the Pythagorean identity, taken as
  a hypothesis.
- `HandGesture` (`hand_gesture.dfy`): the openness estimate of
  `detectHands`. It takes the planar distances from the thumb tip (landmark
  4) to the four fingertips (8, 12, 16, 20), takes their mean, maps [30, 150]
  pixels linearly onto [0, 1] and clamps. It then derives the status line
  (Closed below 0.2, Open above 0.8, Partial otherwise, with a rounded
  percentage). One detection cycle is `DetectFrame`; a run of cycles is
  `RunFrames`, which makes exactly one `onGestureChange` call per cycle that
  sees a hand.
- `App` (`app.dfy`): the two state cells `morphState` and `morphProgress`,
  as the class `AppState` with the two handlers, and as values (`Control`,
  `Write`, `ApplyWrite`, `Replay`) for the lemmas about runs of writes:
  consistency of the two cells, last write wins, and progress bounds.
- `Tree` (`tree.dfy`): the per-element first-order approach
  `p += (target - p) * delta * 3` (`Approach`, `Run`, and the class
  `MorphingItem`), the cone and sphere samplers, the 1125-ornament generation
  loop (`BuildOrnaments`) and the star.

The openness is the mean thumb-to-fingertip distance mapped from [30, 150]
pixels onto [0, 1] and clamped. It is not normalised by palm size, has no
floor or dead zone, and is passed on unsmoothed. The frame time `delta` is
not clamped either, so the no-overshoot lemmas take a bound on it as a
hypothesis, and `Tree.LongFrameOvershoots` shows a frame that breaks it.

## Model

| member | source | states |
|---|---|---|
| `Geometry.Lerp` | src/components/Tree.tsx:51 | at progress 0 the position is `treePos`, at 1 it is `scatterPos`; for progress in [0, 1] every coordinate lies between the two end points |
| `HandGesture.TipDistance` | src/components/HandGesture.tsx:85-90 | each thumb-to-tip distance is non-negative and uses only x and y |
| `HandGesture.Distances` | src/components/HandGesture.tsx:78-90 | exactly four distances, thumb tip to index, middle, ring and pinky tips, all non-negative |
| `HandGesture.Sum` | src/components/HandGesture.tsx:92 | the left fold from 0 that `reduce((a, b) => a + b, 0)` computes; its bounds are stated by `HandGesture.SumBounds` |
| `HandGesture.Mean` | src/components/HandGesture.tsx:92 | the sum divided by the number of distances; `HandGesture.MeanBetweenExtremes` proves it lies between the smallest and the largest distance |
| `HandGesture.SumBounds` | src/components/HandGesture.tsx:92 | if every distance lies in [lo, hi], their sum lies in [n·lo, n·hi] |
| `HandGesture.MeanBetweenExtremes` | src/components/HandGesture.tsx:92 | the average lies between the smallest and the largest of the values averaged |
| `HandGesture.AvgDistanceBounds` | src/components/HandGesture.tsx:85-92 | the average distance is non-negative and lies between the shortest and the longest thumb-to-tip distance |
| `HandGesture.Openness` | src/components/HandGesture.tsx:94-100 | openness lies in [0, 1]; it is 0 at or below 30 pixels, 1 at or above 150, and exactly (avg − 30)/120 in between |
| `HandGesture.OpennessMonotone` | src/components/HandGesture.tsx:98-100 | openness never decreases as the average distance grows |
| `HandGesture.HandOpenness` | src/components/HandGesture.tsx:78-100 | the openness of any detected hand lies in [0, 1] |
| `HandGesture.OpennessUsesOnlyTipsXY` | src/components/HandGesture.tsx:78-90 | two hands that agree on x and y of landmarks 4, 8, 12, 16 and 20 have the same openness; depth and all other landmarks play no part |
| `HandGesture.Percentage` | src/components/HandGesture.tsx:105 | the displayed percentage is within one half of openness·100 (halves round up) and lies in 0..100 when openness is in [0, 1] |
| `HandGesture.Classify` | src/components/HandGesture.tsx:106-112 | exactly one of Closed, Open and Partial applies: Closed iff openness < 0.2, Open iff > 0.8, Partial iff in [0.2, 0.8], so 0.2 and 0.8 are both Partial |
| `HandGesture.DetectFrame` | src/components/HandGesture.tsx:50-117 | a cycle calls `onGestureChange` iff detection is ready and sees a hand, with the first hand's openness in [0, 1] and the matching status; no hand gives the "show your hand" status; a cycle that is not ready changes nothing |
| `HandGesture.RunFrames` | src/components/HandGesture.tsx:50-117 | over any run of cycles the number of `onGestureChange` calls equals the number of cycles that saw a hand, and every value passed lies in [0, 1] |
| `App.ApplyWrite` | src/App.tsx:12-21 | a gesture write stores the openness as progress and sets the state to SCATTERED iff openness > 0.5 (0.5 itself gives TREE_SHAPE); a button write stores the requested state with progress exactly 1 for SCATTERED and 0 for TREE_SHAPE; both leave the two cells consistent |
| `App.InitialConsistent` | src/App.tsx:9-10 | the initial TREE_SHAPE with progress 0 is consistent |
| `App.ReplayConsistent` | src/App.tsx:9-21 | every run of handler calls keeps `morphState == (morphProgress > 0.5 ? SCATTERED : TREE_SHAPE)` |
| `App.LastWriteWins` | src/App.tsx:12-21 | after any non-empty run of writes both cells are determined by the final write alone, whatever the starting values |
| `App.ProgressStaysInUnit` | src/App.tsx:10-21 | if every gesture value lies in [0, 1], `morphProgress` stays in [0, 1] |
| `App.GestureFeedInUnit` | src/App.tsx:12-26 | button clicks followed by the calls of any run of the detection loop leave `morphProgress` in [0, 1] |
| `App.AppState.constructor` | src/App.tsx:9-10 | the cells start as TREE_SHAPE with progress 0 |
| `App.AppState.HandleGestureChange` | src/App.tsx:12-16 | progress becomes the openness; the state becomes SCATTERED iff openness > 0.5; the cells stay consistent |
| `App.AppState.HandleButtonClick` | src/App.tsx:18-21 | the state becomes the requested one, with progress exactly 1 or 0; the cells stay consistent |
| `Tree.Approach` | src/components/Tree.tsx:48 | one frame multiplies the distance to the target by (1 − 3·delta) |
| `Tree.ApproachFixedPoint` | src/components/Tree.tsx:48 | a progress equal to the target is left unchanged |
| `Tree.NoOvershoot` | src/components/Tree.tsx:48 | with 0 ≤ 3·delta ≤ 1 the new progress lies between the old progress and the target |
| `Tree.LongFrameOvershoots` | src/components/Tree.tsx:45-48 | a 0.5 s frame from 1 towards 0 lands at −0.5: the unclamped step passes the target |
| `Tree.Contraction` | src/components/Tree.tsx:48 | with 0 < 3·delta < 1 a frame moves strictly closer to the target and stays on the same side |
| `Tree.RunStaysInUnit` | src/components/Tree.tsx:43-48 | with short frames and control values in [0, 1], a progress starting in [0, 1] stays in [0, 1] |
| `Tree.RunNeverCrosses` | src/components/Tree.tsx:48 | with short frames and a fixed control value, the progress always lies between its start and the target |
| `Tree.SteadyGeometric` | src/components/Tree.tsx:48 | after n equal frames the distance to the target is (1 − 3·delta)^n times the initial distance |
| `Tree.RunFromScatteredPositive` | src/components/Tree.tsx:43-48 | from the initial progress 1 towards target 0, with 0 < 3·delta < 1, the progress stays in (0, 1] |
| `Tree.ScatteredToTreeDecreases` | src/components/Tree.tsx:43-48 | from progress 1 towards 0 every frame lowers the progress strictly and it never reaches or passes 0 |
| `Tree.MorphingItem.constructor` | src/components/Tree.tsx:42-43 | the element starts with progress 1 at `scatterPos` |
| `Tree.MorphingItem.Frame` | src/components/Tree.tsx:45-54 | when mounted, the progress takes one approach step and the position becomes the lerp at the new progress; otherwise nothing changes; the position always equals the lerp at the current progress |
| `Tree.RadiusAtHeight` | src/components/Tree.tsx:22 | the cone's radius at height y is the full base radius at y = 0, zero at the apex, and in (0, maxRadius] for every y in [0, height) |
| `Tree.RandomInCone` | src/components/Tree.tsx:20-28 | with draws in [0, 1), y lies in [0, height), the radius at that height lies in (0, maxRadius], and the horizontal distance from the axis is at most that radius |
| `Tree.SphereRadius` | src/components/Tree.tsx:12 | the radial distance `cbrt(u)·radius` lies in [0, radius], strictly below a positive radius |
| `Tree.RandomInSphere` | src/components/Tree.tsx:7-17 | the sample lies at the radial distance from the centre, hence inside the ball |
| `Tree.PickIndex` | src/components/Tree.tsx:114-115 | `floor(u·n)` is a valid index into an n-entry array, and u·n lies in [i, i+1) |
| `Tree.PickKind` | src/components/Tree.tsx:111-114 | the type is box iff u < 0.6, sphere iff 0.6 ≤ u < 0.8, gem iff u ≥ 0.8 |
| `Tree.PickColor` | src/components/Tree.tsx:102-115 | the colour is one of the seven palette entries |
| `Tree.MakeOrnament` | src/components/Tree.tsx:113-123 | one ornament has a palette colour, its tree point inside the height-6, radius-2.5 cone and its scatter point inside the radius-12 ball |
| `Tree.BuildOrnaments` | src/components/Tree.tsx:98-126 | exactly 1125 ornaments, the i-th built from the i-th group of draws, each with a palette colour, a tree point in the cone and a scatter point in the ball |
| `Tree.MakeStar` | src/components/Tree.tsx:129-132 | the star's tree point is exactly (0, 6.2, 0), on the axis above the height-6 cone; its scatter point lies in the radius-10 ball |

## Left out

- Camera and model I/O (`getUserMedia`, `handpose.load`, `estimateHands`, stopping the tracks at teardown) are foreign asynchronous calls. The result of `estimateHands` is an input (`Frame.predictions`), and the guard on model, video and canvas is the flag `Frame.ready`.
- The camera and model-loading status messages are left out: they come only from the I/O above.
- `requestAnimationFrame` scheduling, its cancellation, and the relative timing of the detection loop and the render loop are left out. This is concurrency and timing, not logic. A run of cycles or frames is a sequence.
- The canvas debug drawing and all JSX styling are presentation.
- `UI.tsx`, `Scene.tsx` and `LoveMessage.tsx` are not part of this model. The buttons are captured by `App.AppState.HandleButtonClick`.
- The `Ornament` hover state, the `Float` and `Sparkles` animation, the group's sine-based rotation and the per-render random scale are left out. They are presentation and nondeterminism that feed no state.
- Copying `currentPos` into the group's `position` is not modelled separately; `MorphingItem.currentPos` is the value copied.
- The scene renders one `MorphingItem` per ornament plus the star, all reading the same control value. Each element is independent, so the model states the per-element behaviour once.
- IEEE-754 rounding is not modelled: numbers are `real`, and `Math.round` is `floor(x + 0.5)`.
- HandGesture.TipDistance: `Math.sqrt` is an abstract function known only to be non-negative on non-negative arguments (and below 1 on [0, 1)); the distance is not tied to Euclidean length.
- Tree.RandomInSphere: `Math.acos` is unconstrained and `sin`/`cos` are known only through the Pythagorean identity. So the model proves the sample lies inside the ball, not that the samples are uniform by volume.
- Tree.RandomInCone: the same abstraction of `sqrt`, `sin` and `cos`. The model proves the sample lies in the cone, not that the samples are uniform by area.
- HandGesture.DetectFrame: requires that the first hand has 21 landmarks, as the hand-pose model always reports.
