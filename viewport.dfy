/**
 * The pan and zoom handlers that `App`'s effect installs on the viewport
 * (src/app.jsx).  The effect runs again whenever `isDraggingElement` changes,
 * so each run is one `PanZoom` object: it starts from the transform last
 * published, with panning off, and keeps the drag flag it saw.
 */
module Viewport {
  import opened Geometry

  class PanZoom {
    /** The `isDraggingElement` value the effect's handlers closed over. */
    const dragging: bool
    var isPanning: bool
    var start: Point
    var tx: real
    var ty: real
    var scale: real

    /** The transform the handlers publish. */
    function Current(): Transform
      reads this
    {
      Transform(scale, tx, ty)
    }

    predicate Valid()
      reads this
    {
      ScaleInRange(Current())
    }

    /** The effect's set-up: translation and scale from the last published transform. */
    constructor (published: Transform, dragging: bool)
      requires ScaleInRange(published)
      ensures Valid() && Current() == published && this.dragging == dragging
      ensures !isPanning && start == Point(0.0, 0.0)
    {
      this.dragging := dragging;
      isPanning := false;
      start := Point(0.0, 0.0);
      tx := published.tx;
      ty := published.ty;
      scale := published.scale;
    }

    /** `mousedown`: ignored during a node drag; otherwise panning starts at the pointer. */
    method MouseDown(pointer: Point)
      requires Valid()
      modifies this
      ensures Valid() && Current() == old(Current())
      ensures dragging ==> isPanning == old(isPanning) && start == old(start)
      ensures !dragging ==> isPanning && start == pointer
    {
      if dragging {
        return;
      }
      isPanning := true;
      start := pointer;
    }

    /** `mouseup`: panning stops. */
    method MouseUp()
      requires Valid()
      modifies this
      ensures Valid() && Current() == old(Current())
      ensures !isPanning && start == old(start)
    {
      isPanning := false;
    }

    /**
     * `mousemove`: while panning and not dragging a node, the translation
     * moves by the pointer's motion since the last event and the pointer
     * becomes the new start; otherwise nothing changes.
     */
    method MouseMove(pointer: Point)
      requires Valid()
      modifies this
      ensures Valid() && isPanning == old(isPanning)
      ensures old(isPanning) && !dragging ==>
        Current() == Pan(old(Current()), Sub(pointer, old(start))) && start == pointer
      ensures !(old(isPanning) && !dragging) ==> Current() == old(Current()) && start == old(start)
    {
      if !isPanning || dragging {
        return;
      }
      var dx := pointer.x - start.x;
      var dy := pointer.y - start.y;
      tx := tx + dx;
      ty := ty + dy;
      start := pointer;
    }

    /**
     * `wheel`: zoom by 0.9 (deltaY > 0) or 1.1, clamped to [0.1, 10], about
     * the pointer taken relative to the viewport's origin.
     */
    method Wheel(deltaY: real, pointer: Point, viewportOrigin: Point)
      requires Valid()
      modifies this
      ensures Valid() && isPanning == old(isPanning) && start == old(start)
      ensures Current() == Zoom(old(Current()), Sub(pointer, viewportOrigin), deltaY)
    {
      var delta := if deltaY > 0.0 then 0.9 else 1.1;
      var mouseX := pointer.x - viewportOrigin.x;
      var mouseY := pointer.y - viewportOrigin.y;
      var canvasMouseX := (mouseX - tx) / scale;
      var canvasMouseY := (mouseY - ty) / scale;
      var newScale := ClampScale(scale * delta);
      assert delta == ZoomFactor(deltaY) && Point(mouseX, mouseY) == Sub(pointer, viewportOrigin);
      assert Point(canvasMouseX, canvasMouseY) == ToCanvas(Current(), Point(mouseX, mouseY));
      tx := mouseX - canvasMouseX * newScale;
      ty := mouseY - canvasMouseY * newScale;
      scale := newScale;
    }
  }
}
