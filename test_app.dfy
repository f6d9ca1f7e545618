/** The walking prototype Test (Test/app.js): a click or tap that is not a
    drag sets a target the character walks to, leaving footprints that fade
    out and are then removed; a drag pans the camera. The walking geometry
    (`atan2`, `sqrt`, `cos`, `sin`) is computed outside the model: its
    results, the distance to the target, the new heading and the new position,
    are parameters of the frame update. Each footprint carries an identity so
    that the timers that fade and destroy it act on that footprint. */
module TestApp {
  import opened Common
  import opened Geometry
  import Scenes
  import CameraDrag

  /** `config.character` and `config.camera`. */
  const MaxSpeed := 0.2
  const FootprintPeriod := 0.1
  const FadeoutStart := 3.0
  const FadeoutDuration := 5.0
  const CameraSmoothness := 0.7

  datatype Action = Idle | Walk

  datatype Character = Character(position: Vec, angle: real, action: Action, lastFootprint: real)

  datatype Target = Target(active: bool, position: Vec)

  /** One footprint effect: `fadeoutStartTime` is null until its first timer
      fires, and `isDestroyed` is set by the second one. */
  datatype Footprint = Footprint(id: nat, position: Vec, angle: real, fadeoutStartTime: Option<real>, isDestroyed: bool)

  /** The footprints the sweep keeps. */
  predicate Live(f: Footprint) {
    !f.isDestroyed
  }

  /** `getOpacity` at time t: 1 until the fade starts, then falling linearly
      over the fade duration, never below 0. */
  function Opacity(fadeoutStartTime: Option<real>, t: real): (o: real)
    ensures o >= 0.0
    ensures fadeoutStartTime.None? ==> o == 1.0
    ensures fadeoutStartTime.Some? && t >= fadeoutStartTime.value ==> o <= 1.0
    ensures fadeoutStartTime.Some? && t >= fadeoutStartTime.value + FadeoutDuration ==> o == 0.0
    ensures fadeoutStartTime.Some? && fadeoutStartTime.value <= t <= fadeoutStartTime.value + FadeoutDuration ==>
      o == 1.0 - (t - fadeoutStartTime.value) / FadeoutDuration
  {
    match fadeoutStartTime
    case None => 1.0
    case Some(start) =>
      var tt := (t - start) / FadeoutDuration;
      if 1.0 - tt > 0.0 then 1.0 - tt else 0.0
  }

  /** Once the fade has started the opacity never increases. Before the fade
      start time the formula exceeds 1, which the timer avoids by storing the
      time it fires at. */
  lemma OpacityNeverRises(start: real, t1: real, t2: real)
    requires t1 <= t2
    ensures Opacity(Some(start), t2) <= Opacity(Some(start), t1)
    ensures t1 < start ==> Opacity(Some(start), t1) > 1.0
  {
  }

  /** The footprints after the fade timer of footprint `id` fires at `now`. */
  function StartFadeout(fx: seq<Footprint>, id: nat, now: real): (r: seq<Footprint>)
    ensures |r| == |fx|
    ensures forall i :: 0 <= i < |fx| && fx[i].id != id ==> r[i] == fx[i]
    ensures forall i :: 0 <= i < |fx| && fx[i].id == id ==> r[i] == fx[i].(fadeoutStartTime := Some(now))
  {
    seq(|fx|, i requires 0 <= i < |fx| => if fx[i].id == id then fx[i].(fadeoutStartTime := Some(now)) else fx[i])
  }

  /** The footprints after the destroy timer of footprint `id` fires. */
  function Destroy(fx: seq<Footprint>, id: nat): (r: seq<Footprint>)
    ensures |r| == |fx|
    ensures forall i :: 0 <= i < |fx| && fx[i].id != id ==> r[i] == fx[i]
    ensures forall i :: 0 <= i < |fx| && fx[i].id == id ==> r[i] == fx[i].(isDestroyed := true)
  {
    seq(|fx|, i requires 0 <= i < |fx| => if fx[i].id == id then fx[i].(isDestroyed := true) else fx[i])
  }

  /** A destroyed footprint is gone after the next sweep, and every other
      live footprint stays. */
  lemma {:induction false} SweepRemovesDestroyed(fx: seq<Footprint>, id: nat, f: Footprint)
    ensures f in Filter(Destroy(fx, id), Live) ==> f.id != id
    ensures f in fx && Live(f) && f.id != id ==> f in Filter(Destroy(fx, id), Live)
  {
    var d := Destroy(fx, id);
    FilterMembership(d, Live, f);
    if f in d && Live(f) {
      var i :| 0 <= i < |d| && d[i] == f;
      assert fx[i].id != id;
    }
    if f in fx && Live(f) && f.id != id {
      var i :| 0 <= i < |fx| && fx[i] == f;
      assert d[i] == f;
    }
  }

  /** The walk stops when the step the character may take this frame,
      `min(distance / dt, maxSpeed)`, is below the maximum speed; with
      `dt == 0` the quotient is infinite or NaN and the walk goes on. */
  predicate Arrives(dt: real, distance: real) {
    dt > 0.0 && distance / dt < MaxSpeed
  }

  /** The character arrives exactly when the frame is not empty and the
      remaining distance is shorter than one full-speed step. */
  lemma ArrivesWithinOneStep(dt: real, distance: real)
    requires dt >= 0.0
    ensures Arrives(dt, distance) <==> dt > 0.0 && distance < MaxSpeed * dt
  {
    if dt > 0.0 {
      var q := distance / dt;
      assert q * dt == distance;
      if q < MaxSpeed {
        MulStrict(q, MaxSpeed, dt);
      } else {
        MulMono(MaxSpeed, q, dt);
      }
    }
  }

  /** The Test application's state that the model keeps. */
  class TestGame {
    var scene: string
    var needRedraw: bool
    var smoothCamera: Vec
    var character: Character
    var target: Target
    var fx: seq<Footprint>
    var nextFootprint: nat
    var transitionToGameStartTime: Option<real>
    const drag: CameraDrag.CameraDrag

    /** The constructor's state: `GAME`, the character idle in the middle of
        the 720 by 380 scene, no target and no footprints. */
    constructor (now: real)
      ensures scene == Scenes.Game && needRedraw && smoothCamera == Vec(0.0, 0.0)
      ensures character == Character(Vec(360.0, 190.0), 0.0, Idle, now)
      ensures !target.active && fx == [] && transitionToGameStartTime == None
      ensures fresh(drag) && drag.Valid() && !drag.active && drag.camera == Vec(0.0, 0.0)
    {
      scene := Scenes.Game;
      needRedraw := true;
      smoothCamera := Vec(0.0, 0.0);
      character := Character(Vec(360.0, 190.0), 0.0, Idle, now);
      target := Target(false, Vec(0.0, 0.0));
      fx := [];
      nextFootprint := 0;
      transitionToGameStartTime := None;
      drag := new CameraDrag.CameraDrag();
    }

    /** `onClick` with the pointer already in scene coordinates: the target
        becomes active at that point. */
    method Click(scenePos: Vec)
      modifies this
      ensures target == Target(true, scenePos)
      ensures character == old(character) && fx == old(fx) && scene == old(scene)
      ensures needRedraw == old(needRedraw) && smoothCamera == old(smoothCamera)
      ensures nextFootprint == old(nextFootprint) && transitionToGameStartTime == old(transitionToGameStartTime)
    {
      target := Target(true, scenePos);
    }

    /** `onMouseUp`: only the left button ends a drag, and a release that
        ended no drag that moved is a click at `scenePos`. */
    method MouseUp(button: int, scenePos: Vec) returns (isClick: bool)
      requires drag.Valid()
      modifies this, drag
      ensures drag.Valid()
      ensures button != 0 ==> !isClick && unchanged(drag) && target == old(target)
      ensures button == 0 ==> !drag.active && drag.camera == old(drag.camera)
      ensures button == 0 ==>
        (isClick <==> !old(drag.active) || forall i :: 0 <= i < |old(drag.trail)| ==> !CameraDrag.Far(old(drag.startMouse), old(drag.trail)[i]))
      ensures target == if isClick then Target(true, scenePos) else old(target)
      ensures character == old(character) && fx == old(fx) && scene == old(scene)
      ensures needRedraw == old(needRedraw) && smoothCamera == old(smoothCamera)
      ensures nextFootprint == old(nextFootprint) && transitionToGameStartTime == old(transitionToGameStartTime)
    {
      isClick := false;
      if button == 0 {
        isClick := drag.PointerUp();
        if isClick {
          Click(scenePos);
        }
      }
    }

    /** `onTouchEnd`: every release ends the drag and may be a click. */
    method TouchEnd(scenePos: Vec) returns (isClick: bool)
      requires drag.Valid()
      modifies this, drag
      ensures drag.Valid() && !drag.active && drag.camera == old(drag.camera)
      ensures isClick <==> !old(drag.active) || forall i :: 0 <= i < |old(drag.trail)| ==> !CameraDrag.Far(old(drag.startMouse), old(drag.trail)[i])
      ensures target == if isClick then Target(true, scenePos) else old(target)
      ensures character == old(character) && fx == old(fx) && scene == old(scene)
      ensures needRedraw == old(needRedraw) && smoothCamera == old(smoothCamera)
      ensures nextFootprint == old(nextFootprint) && transitionToGameStartTime == old(transitionToGameStartTime)
    {
      isClick := drag.PointerUp();
      if isClick {
        Click(scenePos);
      }
    }

    /** `onMouseDown`: the left button starts a drag, in `GAME` only. */
    method MouseDown(button: int, pos: Vec)
      requires drag.Valid()
      modifies drag
      ensures drag.Valid()
      ensures !(button == 0 && scene == Scenes.Game) || old(drag.active) ==> unchanged(drag)
      ensures button == 0 && scene == Scenes.Game && !old(drag.active) ==>
        drag.active && !drag.moved && drag.startMouse == pos && drag.startCamera == old(drag.camera)
    {
      if button == 0 && scene == Scenes.Game {
        drag.StartDragging(pos);
      }
    }

    /** `emitFootprints` at time `now`: a new footprint under the character,
        turned a quarter, not fading. */
    method EmitFootprint(now: real)
      modifies this
      ensures fx == old(fx) + [Footprint(old(nextFootprint), character.position, character.angle + 90.0, None, false)]
      ensures character == old(character).(lastFootprint := now)
      ensures nextFootprint == old(nextFootprint) + 1
      ensures target == old(target) && scene == old(scene) && needRedraw == old(needRedraw)
      ensures smoothCamera == old(smoothCamera) && transitionToGameStartTime == old(transitionToGameStartTime)
    {
      character := character.(lastFootprint := now);
      fx := fx + [Footprint(nextFootprint, character.position, character.angle + 90.0, None, false)];
      nextFootprint := nextFootprint + 1;
    }

    /** `updateGame`: the smoothed camera follows the dragged one; an active
        target moves the character to `stepTo` with heading `heading`, drops a
        footprint once per period, and is released when the character
        arrives; the action says whether a target remains; destroyed
        footprints are swept, in order. */
    method UpdateGame(dt: real, now: real, distance: real, heading: real, stepTo: Vec)
      requires dt >= 0.0 && distance >= 0.0
      modifies this
      ensures smoothCamera == Vec(Lerp(drag.camera.x, old(smoothCamera).x, CameraSmoothness),
                                  Lerp(drag.camera.y, old(smoothCamera).y, CameraSmoothness))
      ensures old(target.active) ==> character.position == stepTo && character.angle == heading
      ensures !old(target.active) ==> character.position == old(character).position && character.angle == old(character).angle
      ensures target.active <==> old(target.active) && !Arrives(dt, distance)
      ensures target.position == old(target.position)
      ensures character.action == if target.active then Walk else Idle
      ensures var emits := old(target.active) && now - old(character).lastFootprint > FootprintPeriod;
        && character.lastFootprint == (if emits then now else old(character).lastFootprint)
        && fx == Filter(old(fx) + (if emits then [Footprint(old(nextFootprint), stepTo, heading + 90.0, None, false)] else []), Live)
        && nextFootprint == old(nextFootprint) + (if emits then 1 else 0)
      ensures forall i :: 0 <= i < |fx| ==> Live(fx[i])
      ensures needRedraw && scene == old(scene) && transitionToGameStartTime == old(transitionToGameStartTime)
    {
      assert fx + [] == fx;
      smoothCamera := Vec(Lerp(drag.camera.x, smoothCamera.x, CameraSmoothness),
                          Lerp(drag.camera.y, smoothCamera.y, CameraSmoothness));
      if target.active {
        character := character.(position := stepTo, angle := heading);
        if now - character.lastFootprint > FootprintPeriod {
          EmitFootprint(now);
        }
        if Arrives(dt, distance) {
          target := target.(active := false);
        }
      }
      character := character.(action := if target.active then Walk else Idle);
      fx := Filter(fx, Live);
      needRedraw := true;
    }

    /** The first timer of footprint `id`, firing at `now`. */
    method FadeFootprint(id: nat, now: real)
      modifies this
      ensures fx == StartFadeout(old(fx), id, now)
      ensures character == old(character) && target == old(target) && scene == old(scene)
      ensures needRedraw == old(needRedraw) && nextFootprint == old(nextFootprint)
      ensures smoothCamera == old(smoothCamera) && transitionToGameStartTime == old(transitionToGameStartTime)
    {
      fx := StartFadeout(fx, id, now);
    }

    /** The second timer of footprint `id`, `fadeout.duration` later. */
    method DestroyFootprint(id: nat)
      modifies this
      ensures fx == Destroy(old(fx), id)
      ensures character == old(character) && target == old(target) && scene == old(scene)
      ensures needRedraw == old(needRedraw) && nextFootprint == old(nextFootprint)
      ensures smoothCamera == old(smoothCamera) && transitionToGameStartTime == old(transitionToGameStartTime)
    {
      fx := Destroy(fx, id);
    }

    /** `startMenu`: no transition under way. */
    method StartMenu()
      modifies this
      ensures transitionToGameStartTime == None
      ensures scene == old(scene) && needRedraw == old(needRedraw) && target == old(target)
      ensures character == old(character) && fx == old(fx)
      ensures smoothCamera == old(smoothCamera) && nextFootprint == old(nextFootprint)
    {
      transitionToGameStartTime := None;
    }

    /** `setScene`, which writes the scene before running the enter hook. */
    method SetScene(next: string)
      modifies this
      ensures var t := Scenes.SetScene(Scenes.WriteFirst, Scenes.ThreeScenes, old(scene), next, old(needRedraw));
        scene == t.scene && needRedraw == t.needRedraw
      ensures transitionToGameStartTime ==
        if old(scene) in Scenes.ThreeScenes && next == Scenes.Menu then None else old(transitionToGameStartTime)
      ensures target == old(target) && character == old(character) && fx == old(fx)
      ensures smoothCamera == old(smoothCamera) && nextFootprint == old(nextFootprint)
    {
      if scene !in Scenes.ThreeScenes {
        return;
      }
      scene := next;
      if scene == Scenes.Menu {
        StartMenu();
      } else if scene != Scenes.Game && scene != Scenes.End {
        return;
      }
      needRedraw := true;
    }
  }
}
