/** The camera drag of Train and Test (the same code at Train/app.js:442-482
    and Test/app.js:429-469): the pointer pans the camera while a button or a
    finger is down, and a release that never strayed more than 2 pixels from
    where it started counts as a click. */
module CameraDrag {
  import opened Common

  /** The pointer at p has moved more than 2 pixels from `start` on some axis. */
  predicate Far(start: Vec, p: Vec) {
    Abs(p.x - start.x) > 2.0 || Abs(p.y - start.y) > 2.0
  }

  /** `state.drag` together with `state.camera.position`. */
  class CameraDrag {
    var active: bool
    var moved: bool
    var startMouse: Vec
    var startCamera: Vec
    var camera: Vec
    /** The pointer positions seen by `updateDragging` since the drag began. */
    ghost var trail: seq<Vec>

    /** While a drag is active, `moved` records whether some pointer position
        since the start was far from it, and the camera sits at its start
        position shifted by the latest pointer delta. */
    ghost predicate Valid()
      reads this
    {
      active ==>
        && (moved <==> exists i :: 0 <= i < |trail| && Far(startMouse, trail[i]))
        && (trail != [] ==> camera == Vec(startCamera.x + (trail[|trail| - 1].x - startMouse.x),
                                          startCamera.y + (trail[|trail| - 1].y - startMouse.y)))
        && (trail == [] ==> camera == startCamera)
    }

    /** The initial state: no drag, camera at the origin. */
    constructor ()
      ensures Valid() && !active && camera == Vec(0.0, 0.0)
    {
      active := false;
      moved := false;
      startMouse := Vec(0.0, 0.0);
      startCamera := Vec(0.0, 0.0);
      camera := Vec(0.0, 0.0);
      trail := [];
    }

    /** `startDragging`: ignored while a drag is active; otherwise records the
        pointer and camera positions and clears `moved`. */
    method StartDragging(pos: Vec)
      requires Valid()
      modifies this
      ensures Valid()
      ensures old(active) ==> unchanged(this)
      ensures !old(active) ==>
        active && !moved && startMouse == pos && startCamera == old(camera)
        && camera == old(camera) && trail == []
    {
      if active {
        return;
      }
      active := true;
      moved := false;
      startCamera := camera;
      startMouse := pos;
      trail := [];
    }

    /** `updateDragging`: a no-op without a drag; otherwise the camera follows
        the pointer delta and `moved` is set once the pointer is far. */
    method UpdateDragging(pos: Vec)
      requires Valid()
      modifies this
      ensures Valid()
      ensures !old(active) ==> unchanged(this)
      ensures old(active) ==>
        active && startMouse == old(startMouse) && startCamera == old(startCamera)
        && camera == Vec(startCamera.x + (pos.x - startMouse.x), startCamera.y + (pos.y - startMouse.y))
        && moved == (old(moved) || Far(startMouse, pos))
        && trail == old(trail) + [pos]
    {
      if !active {
        return;
      }
      var dx := pos.x - startMouse.x;
      var dy := pos.y - startMouse.y;
      camera := Vec(startCamera.x + dx, startCamera.y + dy);
      if Abs(dx) > 2.0 || Abs(dy) > 2.0 {
        moved := true;
      }
      trail := trail + [pos];
      assert trail[|trail| - 1] == pos;
      assert forall i :: 0 <= i < |old(trail)| ==> trail[i] == old(trail)[i];
    }

    /** `stopDragging`: false when no drag was active, otherwise ends the drag
        and reports whether it moved. */
    method StopDragging() returns (ended: bool)
      requires Valid()
      modifies this
      ensures Valid() && !active
      ensures ended <==> old(active) && exists i :: 0 <= i < |old(trail)| && Far(old(startMouse), old(trail)[i])
      ensures camera == old(camera) && moved == old(moved) && trail == old(trail)
      ensures startMouse == old(startMouse) && startCamera == old(startCamera)
    {
      if !active {
        return false;
      }
      active := false;
      return moved;
    }

    /** `cancelDragging`: a no-op without a drag; otherwise ends it and puts
        the camera back where the drag started. */
    method CancelDragging()
      requires Valid()
      modifies this
      ensures Valid() && !active
      ensures !old(active) ==> unchanged(this)
      ensures old(active) ==>
        camera == old(startCamera) && moved == old(moved) && trail == old(trail)
        && startMouse == old(startMouse) && startCamera == old(startCamera)
    {
      if !active {
        return;
      }
      active := false;
      camera := startCamera;
    }

    /** `onMouseUp` (left button) and `onTouchEnd`: the release is a click
        exactly when no drag was active or the pointer never went far. */
    method PointerUp() returns (isClick: bool)
      requires Valid()
      modifies this
      ensures Valid() && !active && camera == old(camera)
      ensures isClick <==> !old(active) || forall i :: 0 <= i < |old(trail)| ==> !Far(old(startMouse), old(trail)[i])
    {
      var ended := StopDragging();
      isClick := !ended;
    }
  }
}
