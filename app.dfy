/** The two state cells of the `App` component, `morphState` and
    `morphProgress`, and their two writers: the hand-gesture callback and
    the buttons. Each write replaces both cells; nothing arbitrates between
    the writers, so the last write wins. */
module App {
  import HandGesture
  import Geometry

  datatype MorphState = TreeShape | Scattered

  /** The values of the two state cells. */
  datatype Control = Control(morphState: MorphState, morphProgress: real)

  /** One call of a handler: `handleGestureChange(openness)` or
      `handleButtonClick(state)`. */
  datatype Write = GestureWrite(openness: real) | ButtonWrite(state: MorphState)

  /** `useState('TREE_SHAPE')` and `useState(0)`. */
  const Initial: Control := Control(TreeShape, 0.0)

  /** The binary state that a progress value stands for. */
  function StateFor(progress: real): MorphState
  {
    if progress > 0.5 then Scattered else TreeShape
  }

  /** The two cells agree: the state is the one the progress stands for. */
  predicate Consistent(c: Control)
  {
    c.morphState == StateFor(c.morphProgress)
  }

  /** Both handlers overwrite both cells; the previous values play no part. */
  function ApplyWrite(c: Control, w: Write): (c': Control)
    ensures Consistent(c')
    ensures w.GestureWrite? ==> c'.morphProgress == w.openness
    ensures w.GestureWrite? ==> (c'.morphState == Scattered <==> w.openness > 0.5)
    ensures w.ButtonWrite? ==> c'.morphState == w.state
    ensures w.ButtonWrite? ==> c'.morphProgress == (if w.state == Scattered then 1.0 else 0.0)
  {
    match w
    case GestureWrite(openness) => Control(if openness > 0.5 then Scattered else TreeShape, openness)
    case ButtonWrite(state) => Control(state, if state == Scattered then 1.0 else 0.0)
  }

  /** The cells after the writes `ws`, applied in order from `c`. */
  function Replay(c: Control, ws: seq<Write>): Control
    decreases |ws|
  {
    if ws == [] then c else Replay(ApplyWrite(c, ws[0]), ws[1..])
  }

  lemma InitialConsistent()
    ensures Consistent(Initial)
  {
  }

  /** Every run of handler calls from the initial state keeps the cells
      consistent. */
  lemma {:induction false} ReplayConsistent(c: Control, ws: seq<Write>)
    requires Consistent(c)
    ensures Consistent(Replay(c, ws))
    decreases |ws|
  {
    if ws != [] {
      ReplayConsistent(ApplyWrite(c, ws[0]), ws[1..]);
    }
  }

  /** Last write wins: after a non-empty run of writes, both cells are fixed
      by the final write alone, whatever the starting values. */
  lemma {:induction false} LastWriteWins(c: Control, d: Control, ws: seq<Write>)
    requires ws != []
    ensures Replay(c, ws) == ApplyWrite(d, ws[|ws| - 1])
    decreases |ws|
  {
    if |ws| > 1 {
      LastWriteWins(ApplyWrite(c, ws[0]), d, ws[1..]);
    }
  }

  predicate GestureInputsInUnit(ws: seq<Write>)
  {
    forall i :: 0 <= i < |ws| ==> ws[i].GestureWrite? ==> 0.0 <= ws[i].openness <= 1.0
  }

  /** If every gesture value lies in [0, 1], so does the progress. */
  lemma {:induction false} ProgressStaysInUnit(c: Control, ws: seq<Write>)
    requires 0.0 <= c.morphProgress <= 1.0
    requires GestureInputsInUnit(ws)
    ensures 0.0 <= Replay(c, ws).morphProgress <= 1.0
    decreases |ws|
  {
    if ws != [] {
      assert GestureInputsInUnit(ws[1..]) by {
        forall i | 0 <= i < |ws[1..]| && ws[1..][i].GestureWrite?
          ensures 0.0 <= ws[1..][i].openness <= 1.0
        {
          assert ws[1..][i] == ws[i + 1];
        }
      }
      ProgressStaysInUnit(ApplyWrite(c, ws[0]), ws[1..]);
    }
  }

  /** The gesture writes made by a run of the detection loop. */
  function GestureWrites(calls: seq<real>): (ws: seq<Write>)
    ensures |ws| == |calls|
    ensures forall i :: 0 <= i < |ws| ==> ws[i] == GestureWrite(calls[i])
  {
    if calls == [] then [] else [GestureWrite(calls[0])] + GestureWrites(calls[1..])
  }

  /** Feeding the `onGestureChange` calls of any run of the detection loop,
      following any button clicks, keeps the progress in [0, 1]. */
  lemma GestureFeedInUnit(frames: seq<HandGesture.Frame>, s: HandGesture.GestureStatus,
                          m: Geometry.MathFns, clicks: seq<MorphState>)
    requires forall i :: 0 <= i < |frames| ==> HandGesture.FrameWellFormed(frames[i])
    requires Geometry.SqrtSound(m)
    ensures 0.0 <= Replay(Initial, ButtonWrites(clicks) + GestureWrites(HandGesture.RunFrames(frames, s, m).calls)).morphProgress <= 1.0
  {
    var calls := HandGesture.RunFrames(frames, s, m).calls;
    var ws := ButtonWrites(clicks) + GestureWrites(calls);
    forall i | 0 <= i < |ws| && ws[i].GestureWrite?
      ensures 0.0 <= ws[i].openness <= 1.0
    {
      assert i >= |clicks|;
      assert ws[i] == GestureWrites(calls)[i - |clicks|];
    }
    ProgressStaysInUnit(Initial, ws);
  }

  /** The button writes made by a run of clicks. */
  function ButtonWrites(clicks: seq<MorphState>): (ws: seq<Write>)
    ensures |ws| == |clicks|
    ensures forall i :: 0 <= i < |ws| ==> ws[i] == ButtonWrite(clicks[i])
  {
    if clicks == [] then [] else [ButtonWrite(clicks[0])] + ButtonWrites(clicks[1..])
  }

  /** The state of the `App` component. */
  class AppState {
    var morphState: MorphState
    var morphProgress: real

    function Snapshot(): Control
      reads this
    {
      Control(morphState, morphProgress)
    }

    constructor ()
      ensures Snapshot() == Initial
      ensures Consistent(Snapshot())
    {
      morphState := TreeShape;
      morphProgress := 0.0;
    }

    /** `handleGestureChange`: stores the openness and derives the state
        from the 0.5 threshold. */
    method HandleGestureChange(openness: real)
      modifies this
      ensures morphProgress == openness
      ensures morphState == Scattered <==> openness > 0.5
      ensures Consistent(Snapshot())
      ensures Snapshot() == ApplyWrite(old(Snapshot()), GestureWrite(openness))
    {
      morphProgress := openness;
      morphState := if openness > 0.5 then Scattered else TreeShape;
    }

    /** `handleButtonClick`: stores the requested state, with progress
        exactly 1 for `Scattered` and exactly 0 for `TreeShape`. */
    method HandleButtonClick(state: MorphState)
      modifies this
      ensures morphState == state
      ensures morphProgress == if state == Scattered then 1.0 else 0.0
      ensures Consistent(Snapshot())
      ensures Snapshot() == ApplyWrite(old(Snapshot()), ButtonWrite(state))
    {
      morphState := state;
      morphProgress := if state == Scattered then 1.0 else 0.0;
    }
  }
}
