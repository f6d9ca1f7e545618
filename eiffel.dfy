/** The painting game Eiffel (Eiffel/app.js): the player paints the tower by
    dragging a brush; half a second after a stroke the painting is compared
    with the tower's mask, and once every pixel of the mask is painted the
    game is won. The canvas is reduced to what the logic reads back: the RGBA
    bytes of the mask and of the painting, and the list of strokes drawn. The
    colour keying of the loaded images is the one of `Pixels`. */
module Eiffel {
  import opened Common
  import opened Pixels
  import Scenes

  /** `config.initialBrushPosition`. */
  const InitialBrush := Vec(300.0, 230.0)

  /** The alpha threshold of the message image. */
  const Opaque := 64

  /** The byte at index j after the threshold pass of `createMessageImage`:
      colour bytes become 0, and the alpha byte 0 below the threshold and
      255 from it on; all four depend on the pixel's original alpha only. */
  function ThresholdByte(s: seq<Byte>, j: nat): Byte
    requires |s| % 4 == 0 && j < |s|
  {
    if j % 4 == 3 && s[j] >= Opaque then 255 else 0
  }

  function Thresholded(s: seq<Byte>): (r: seq<Byte>)
    requires |s| % 4 == 0
    ensures |r| == |s|
    ensures forall p :: 0 <= p < |s| / 4 ==>
      r[4 * p] == 0 && r[4 * p + 1] == 0 && r[4 * p + 2] == 0
      && r[4 * p + 3] == (if s[4 * p + 3] < Opaque then 0 else 255)
  {
    seq(|s|, j requires 0 <= j < |s| => ThresholdByte(s, j))
  }

  /** After the threshold pass every pixel is transparent black or opaque
      black. */
  lemma ThresholdedIsBlack(s: seq<Byte>)
    requires |s| % 4 == 0
    ensures var r := Thresholded(s);
      forall p :: 0 <= p < |s| / 4 ==>
        (r[4 * p], r[4 * p + 1], r[4 * p + 2], r[4 * p + 3]) in {(0, 0, 0, 0), (0, 0, 0, 255)}
  {
  }

  /** A second threshold pass changes nothing. */
  lemma ThresholdedIdempotent(s: seq<Byte>)
    requires |s| % 4 == 0
    ensures Thresholded(Thresholded(s)) == Thresholded(s)
  {
    var r := Thresholded(s);
    var rr := Thresholded(r);
    forall j | 0 <= j < |s|
      ensures rr[j] == r[j]
    {
      var p := j / 4;
      assert 4 * p <= j < 4 * p + 4;
      assert j - j % 4 == 4 * p;
    }
  }

  /** The four bytes of the pixel starting at index i after the pass. */
  lemma ThresholdedPixel(s: seq<Byte>, i: nat)
    requires |s| % 4 == 0 && i % 4 == 0 && i + 3 < |s|
    ensures var r := Thresholded(s);
      r[i] == 0 && r[i + 1] == 0 && r[i + 2] == 0
      && r[i + 3] == if s[i + 3] < Opaque then 0 else 255
  {
    var p := i / 4;
    assert i == 4 * p;
  }

  /** The body of the pixel loop of `createMessageImage` at index i: the
      colour bytes become 0, the alpha byte 0 below the threshold and 255
      from it on. */
  method BlackenPixel(data: array<Byte>, i: nat)
    requires i + 3 < data.Length
    modifies data
    ensures data[i] == 0 && data[i + 1] == 0 && data[i + 2] == 0
    ensures data[i + 3] == if old(data[i + 3]) < Opaque then 0 else 255
    ensures forall j :: 0 <= j < data.Length && (j < i || i + 3 < j) ==> data[j] == old(data[j])
  {
    if data[i + 3] < Opaque {
      data[i + 0] := 0;
      data[i + 1] := 0;
      data[i + 2] := 0;
      data[i + 3] := 0;
    } else {
      data[i + 0] := 0;
      data[i + 1] := 0;
      data[i + 2] := 0;
      data[i + 3] := 255;
    }
  }

  /** The pixel loop of `createMessageImage`, in place. */
  method ThresholdAlpha(data: array<Byte>)
    requires data.Length % 4 == 0
    modifies data
    ensures data[..] == Thresholded(old(data[..]))
  {
    ghost var s0 := data[..];
    ghost var want := Thresholded(s0);
    ghost var n := 0;
    var i := 0;
    while i < data.Length
      invariant 0 <= i <= data.Length && i == 4 * n
      invariant forall j {:trigger data[j]} :: 0 <= j < i ==> data[j] == want[j]
      invariant forall j {:trigger data[j]} :: i <= j < data.Length ==> data[j] == s0[j]
    {
      assert i % 4 == 0 && i + 3 < data.Length;
      ThresholdedPixel(s0, i);
      BlackenPixel(data, i);
      forall j | i <= j < i + 4
        ensures data[j] == want[j]
      {
        assert j == i || j == i + 1 || j == i + 2 || j == i + 3;
      }
      i := i + 4;
      n := n + 1;
    }
    assert data[..] == want;
  }

  /** Every pixel of the tower's mask is painted: no pixel has a visible mask
      and a transparent painting. */
  predicate Covered(tour: seq<Byte>, drawing: seq<Byte>)
    requires |tour| == |drawing| && |tour| % 4 == 0
  {
    forall p :: 0 <= p < |tour| / 4 ==> !(Alpha(tour, p) != 0 && Alpha(drawing, p) == 0)
  }

  /** Painting more keeps a won painting won: a painting whose visible pixels
      include those of a covering one covers the mask too. */
  lemma CoveredGrows(tour: seq<Byte>, drawing: seq<Byte>, more: seq<Byte>)
    requires |tour| == |drawing| == |more| && |tour| % 4 == 0
    requires Covered(tour, drawing)
    requires forall p :: 0 <= p < |tour| / 4 && Alpha(drawing, p) != 0 ==> Alpha(more, p) != 0
    ensures Covered(tour, more)
  {
  }

  /** An empty mask is covered by any painting, and a non-empty one by no
      blank painting. */
  lemma CoveredEdgeCases(tour: seq<Byte>, drawing: seq<Byte>)
    requires |tour| == |drawing| && |tour| % 4 == 0
    ensures (forall p :: 0 <= p < |tour| / 4 ==> Alpha(tour, p) == 0) ==> Covered(tour, drawing)
    ensures ((forall p :: 0 <= p < |tour| / 4 ==> Alpha(drawing, p) == 0)
             && (exists p :: 0 <= p < |tour| / 4 && Alpha(tour, p) != 0)) ==> !Covered(tour, drawing)
  {
  }

  /** `isVictory` on the mask's and the painting's bytes, both read at the
      scene's size. */
  method IsVictory(tour: array<Byte>, drawing: array<Byte>) returns (victory: bool)
    requires tour.Length == drawing.Length && tour.Length % 4 == 0
    ensures victory <==> Covered(tour[..], drawing[..])
  {
    var i := 0;
    while i < tour.Length
      invariant 0 <= i <= tour.Length && i % 4 == 0
      invariant forall p :: 0 <= p < i / 4 ==> !(Alpha(tour[..], p) != 0 && Alpha(drawing[..], p) == 0)
    {
      if tour[i + 3] != 0 && drawing[i + 3] == 0 {
        assert Alpha(tour[..], i / 4) != 0 && Alpha(drawing[..], i / 4) == 0;
        return false;
      }
      i := i + 4;
    }
    return true;
  }

  /** The state of the Eiffel application that the logic reads and writes. */
  class EiffelGame {
    var scene: string
    var needRedraw: bool
    var victory: bool
    /** `pendingVictoryCheck` is not null. */
    var pendingVictoryCheck: bool
    /** The checks scheduled and not yet run. */
    ghost var scheduledChecks: nat
    var dragActive: bool
    var previousMouse: Option<Vec>
    var brush: Vec
    /** The segments stroked on the painting, oldest first. */
    var strokes: seq<(Vec, Vec)>

    /** At most one victory check is pending, and the flag says whether one
        is; a drag under way has a previous pointer position to stroke from. */
    ghost predicate Valid()
      reads this
    {
      && scheduledChecks == (if pendingVictoryCheck then 1 else 0)
      && (dragActive ==> previousMouse.Some?)
    }

    /** The constructor's state: `GAME`, not won, no drag, the brush at its
        initial position and a blank painting. */
    constructor ()
      ensures Valid() && scene == Scenes.Game && needRedraw && !victory && !pendingVictoryCheck
      ensures !dragActive && previousMouse == None && brush == InitialBrush && strokes == []
    {
      scene := Scenes.Game;
      needRedraw := true;
      victory := false;
      pendingVictoryCheck := false;
      scheduledChecks := 0;
      dragActive := false;
      previousMouse := None;
      brush := InitialBrush;
      strokes := [];
    }

    /** `triggerCheckVictory`: schedules a check unless one is pending. */
    method TriggerCheckVictory()
      requires Valid()
      modifies this
      ensures Valid() && pendingVictoryCheck && scheduledChecks == 1
      ensures old(pendingVictoryCheck) ==> unchanged(this)
      ensures victory == old(victory) && scene == old(scene) && needRedraw == old(needRedraw)
      ensures dragActive == old(dragActive) && previousMouse == old(previousMouse)
      ensures brush == old(brush) && strokes == old(strokes)
    {
      if pendingVictoryCheck {
        return;
      }
      pendingVictoryCheck := true;
      scheduledChecks := scheduledChecks + 1;
    }

    /** `checkVictory`: wins when the painting covers the mask, and never
        takes a victory back. */
    method CheckVictory(tour: array<Byte>, drawing: array<Byte>)
      requires tour.Length == drawing.Length && tour.Length % 4 == 0
      modifies this
      ensures victory == (old(victory) || Covered(tour[..], drawing[..]))
      ensures scene == old(scene) && needRedraw == old(needRedraw)
      ensures pendingVictoryCheck == old(pendingVictoryCheck) && scheduledChecks == old(scheduledChecks)
      ensures dragActive == old(dragActive) && previousMouse == old(previousMouse)
      ensures brush == old(brush) && strokes == old(strokes)
    {
      var won := IsVictory(tour, drawing);
      if won {
        victory := true;
      }
    }

    /** The scheduled check firing after `checkVictoryDelay`, with the bytes
        the canvases hold at that moment: it checks and clears the flag. */
    method RunScheduledCheck(tour: array<Byte>, drawing: array<Byte>)
      requires Valid() && pendingVictoryCheck
      requires tour.Length == drawing.Length && tour.Length % 4 == 0
      modifies this
      ensures Valid() && !pendingVictoryCheck
      ensures victory == (old(victory) || Covered(tour[..], drawing[..]))
      ensures scene == old(scene) && needRedraw == old(needRedraw)
      ensures dragActive == old(dragActive) && previousMouse == old(previousMouse)
      ensures brush == old(brush) && strokes == old(strokes)
    {
      CheckVictory(tour, drawing);
      pendingVictoryCheck := false;
      scheduledChecks := scheduledChecks - 1;
    }

    /** `updateDragging` with the pointer already in scene coordinates: a
        no-op without a drag; otherwise strokes from the previous position,
        moves the brush there, asks for a check and remembers the position. */
    method UpdateDragging(mouse: Vec)
      requires Valid()
      modifies this
      ensures Valid()
      ensures !old(dragActive) ==> unchanged(this)
      ensures old(dragActive) ==>
        && brush == mouse && previousMouse == Some(mouse)
        && strokes == old(strokes) + [(old(previousMouse).value, mouse)]
        && pendingVictoryCheck && dragActive
      ensures victory == old(victory) && scene == old(scene) && needRedraw == old(needRedraw)
    {
      if !dragActive {
        return;
      }
      strokes := strokes + [(previousMouse.value, mouse)];
      brush := mouse;
      TriggerCheckVictory();
      previousMouse := Some(mouse);
    }

    /** `startDragging`: there is no guard against a drag already under way;
        the drag starts at the pointer, which strokes a dot there. */
    method StartDragging(mouse: Vec)
      requires Valid()
      modifies this
      ensures Valid() && dragActive && pendingVictoryCheck
      ensures brush == mouse && previousMouse == Some(mouse)
      ensures strokes == old(strokes) + [(mouse, mouse)]
      ensures victory == old(victory) && scene == old(scene) && needRedraw == old(needRedraw)
    {
      dragActive := true;
      previousMouse := Some(mouse);
      UpdateDragging(mouse);
    }

    /** `stopDragging`. */
    method StopDragging()
      modifies this
      ensures !dragActive && (old(Valid()) ==> Valid())
      ensures previousMouse == old(previousMouse) && brush == old(brush) && strokes == old(strokes)
      ensures victory == old(victory) && pendingVictoryCheck == old(pendingVictoryCheck)
      ensures scheduledChecks == old(scheduledChecks)
      ensures scene == old(scene) && needRedraw == old(needRedraw)
    {
      dragActive := false;
    }

    /** `onMouseDown`: the left button starts a drag, in `GAME` only. */
    method MouseDown(button: int, mouse: Vec)
      requires Valid()
      modifies this
      ensures Valid()
      ensures !(button == 0 && old(scene) == Scenes.Game) ==> unchanged(this)
      ensures button == 0 && old(scene) == Scenes.Game ==>
        && dragActive && pendingVictoryCheck && brush == mouse && previousMouse == Some(mouse)
        && strokes == old(strokes) + [(mouse, mouse)]
        && victory == old(victory) && scene == old(scene) && needRedraw == old(needRedraw)
    {
      if button == 0 && scene == Scenes.Game {
        StartDragging(mouse);
      }
    }

    /** `setScene`, which knows `GAME` and `END` only and writes the scene
        before running the enter hook. */
    method SetScene(next: string)
      modifies this
      ensures var t := Scenes.SetScene(Scenes.WriteFirst, Scenes.EiffelScenes, old(scene), next, old(needRedraw));
        scene == t.scene && needRedraw == t.needRedraw
      ensures victory == old(victory) && pendingVictoryCheck == old(pendingVictoryCheck)
      ensures scheduledChecks == old(scheduledChecks) && dragActive == old(dragActive)
      ensures previousMouse == old(previousMouse) && brush == old(brush) && strokes == old(strokes)
    {
      if scene !in Scenes.EiffelScenes {
        return;
      }
      scene := next;
      if scene != Scenes.Game && scene != Scenes.End {
        return;
      }
      needRedraw := true;
    }

    /** The back button asks for `MENU`, a scene Eiffel does not know: from
        `GAME` or `END` the scene becomes `MENU` without a redraw, and any
        later `setScene` then leaves the scene as it is. */
    method BackButton()
      requires scene in Scenes.EiffelScenes
      modifies this
      ensures scene == Scenes.Menu && needRedraw == old(needRedraw)
      ensures forall later: seq<string> ::
        Scenes.Run(Scenes.WriteFirst, Scenes.EiffelScenes, scene, later, needRedraw) == Scenes.Step([], Scenes.Menu, needRedraw)
      ensures victory == old(victory) && pendingVictoryCheck == old(pendingVictoryCheck)
      ensures scheduledChecks == old(scheduledChecks) && dragActive == old(dragActive)
      ensures previousMouse == old(previousMouse) && brush == old(brush) && strokes == old(strokes)
    {
      SetScene(Scenes.Menu);
      forall later: seq<string>
        ensures Scenes.Run(Scenes.WriteFirst, Scenes.EiffelScenes, scene, later, needRedraw)
             == Scenes.Step([], Scenes.Menu, needRedraw)
      {
        Scenes.UnknownSceneIsStuck(Scenes.WriteFirst, Scenes.EiffelScenes, scene, later, needRedraw);
      }
    }
  }
}
