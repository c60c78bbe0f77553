/**
 * `App` of src/app.jsx as an object: its state hooks are fields, and each
 * handler is a method that updates them in place.  Every method is specified
 * by the matching state change of EditorModel and keeps EditorModel.Valid.
 * A node drag is a `DragSession`, the closure that a node's mouse-down
 * creates, with its mouse-move, animation-frame and mouse-up steps.
 */
module Editor {
  import opened Options
  import opened Geometry
  import opened Diagram
  import M = EditorModel

  /**
   * The closure of one node drag: the dragged id, the transform snapshot and
   * pointer-to-node offset captured at mouse-down, the `isDragging` flag and
   * the pointer position of the animation frame that is scheduled, if any.
   */
  class DragSession {
    const elementId: int
    const snapshot: Transform
    const offset: Point
    var isDragging: bool
    var pending: Option<Point>

    constructor (elementId: int, snapshot: Transform, offset: Point)
      ensures this.elementId == elementId && this.snapshot == snapshot && this.offset == offset
      ensures isDragging && pending.None?
    {
      this.elementId := elementId;
      this.snapshot := snapshot;
      this.offset := offset;
      isDragging := true;
      pending := None;
    }

    /**
     * The document's `mousemove` listener: while dragging, the scheduled frame
     * is cancelled and a new one scheduled for this pointer position.
     */
    method MouseMove(pointer: Point)
      modifies this
      ensures isDragging == old(isDragging)
      ensures pending == if isDragging then Some(pointer) else old(pending)
    {
      if !isDragging {
        return;
      }
      pending := Some(pointer);
    }
  }

  class App {
    var elements: seq<Element>
    var connections: seq<Connection>
    var selected: Option<int>
    var hovered: Option<int>
    var isConnecting: bool
    var connectionStart: Option<Endpoint>
    var isDraggingElement: bool

    /** The state these fields hold. */
    function Model(): M.State
      reads this
    {
      M.State(elements, connections, selected, hovered, isConnecting, connectionStart, isDraggingElement)
    }

    predicate Valid()
      reads this
    {
      M.Valid(Model())
    }

    constructor ()
      ensures Model() == M.Initial && Valid()
    {
      elements := [];
      connections := [];
      selected := None;
      hovered := None;
      isConnecting := false;
      connectionStart := None;
      isDraggingElement := false;
    }

    method AddElement(rx: real, ry: real)
      requires Valid() && 0.0 <= rx < 1.0 && 0.0 <= ry < 1.0
      modifies this
      ensures Model() == M.AddElement(old(Model()), rx, ry) && Valid()
    {
      M.AddElementSpec(Model(), rx, ry);
      var id := if |elements| > 0 then elements[|elements| - 1].id + 1 else 1;
      var e := Element(id, "Element " + NatToString(|elements| + 1), Placement(rx), Placement(ry), "", "");
      elements := elements + [e];
    }

    method DeleteSelectedElement()
      requires Valid()
      modifies this
      ensures Model() == M.DeleteSelected(old(Model())) && Valid()
    {
      if selected.None? {
        return;
      }
      M.DeleteSelectedKeepsValid(Model());
      var id := selected.value;
      elements := WithoutElement(elements, id);
      connections := WithoutIncident(connections, id);
      if connectionStart.Some? && connectionStart.value.elementId == id {
        isConnecting := false;
        connectionStart := None;
        hovered := None;
      }
      selected := None;
    }

    method DeleteElementConnections(id: int)
      requires Valid()
      modifies this
      ensures Model() == M.DeleteElementConnections(old(Model()), id) && Valid()
    {
      M.DeleteElementConnectionsSpec(Model(), id, connections, []);
      connections := WithoutIncident(connections, id);
    }

    method ClearAllConnections()
      requires Valid()
      modifies this
      ensures Model() == M.ClearAllConnections(old(Model())) && Valid()
    {
      connections := [];
    }

    method CanvasClick()
      requires Valid()
      modifies this
      ensures Model() == M.CanvasClick(old(Model())) && Valid()
    {
      if isConnecting {
        isConnecting := false;
        connectionStart := None;
        hovered := None;
      }
      selected := None;
    }

    method ElementClick(id: int)
      requires Valid() && HasElement(elements, id)
      modifies this
      ensures Model() == M.ElementClick(old(Model()), id) && Valid()
    {
      if !isDraggingElement && !isConnecting {
        selected := Some(id);
      } else {
        CanvasClick();
      }
    }

    method MouseEnter(id: int)
      requires Valid()
      modifies this
      ensures Model() == M.HoverEnter(old(Model()), id) && Valid()
    {
      hovered := Some(id);
    }

    method MouseLeave()
      requires Valid()
      modifies this
      ensures Model() == M.HoverLeave(old(Model())) && Valid()
    {
      if !isConnecting {
        hovered := None;
      }
    }

    method PortClick(id: int, side: string, now: int)
      requires Valid() && M.PortsShown(Model(), id) && HasElement(elements, id) && IsPortSide(side)
      modifies this
      ensures Model() == M.PortClick(old(Model()), id, side, now) && Valid()
    {
      M.PortClickKeepsValid(Model(), id, side, now);
      if !isConnecting {
        isConnecting := true;
        connectionStart := Some(Endpoint(id, side));
      } else if connectionStart.Some? && connectionStart.value.elementId != id {
        var c := Connection(now, connectionStart.value, Endpoint(id, side), "#666", 2, "solid", "arrow");
        connections := connections + [c];
        isConnecting := false;
        connectionStart := None;
        hovered := None;
      }
    }

    method EditElement(id: int, edit: ElementEdit)
      requires Valid()
      modifies this
      ensures Model() == M.EditElement(old(Model()), id, edit) && Valid()
    {
      M.EditElementKeepsValid(Model(), id, edit);
      elements := UpdateElements(elements, id, edit);
    }

    method EditConnection(id: int, edit: ConnectionEdit)
      requires Valid()
      modifies this
      ensures Model() == M.EditConnection(old(Model()), id, edit) && Valid()
    {
      M.EditConnectionKeepsValid(Model(), id, edit);
      connections := UpdateConnections(connections, id, edit);
    }

    method DeleteConnection(id: int)
      requires Valid()
      modifies this
      ensures Model() == M.DeleteConnection(old(Model()), id) && Valid()
    {
      connections := WithoutConnection(connections, id);
    }

    /**
     * A node's `onMouseDown`: the drag flag is raised and a drag session
     * captures the pointer-to-node offset through the transform in effect;
     * `pointer` is the pointer relative to the viewport.
     */
    method ElementMouseDown(id: int, snapshot: Transform, pointer: Point) returns (d: DragSession)
      requires Valid() && HasElement(elements, id) && snapshot.scale != 0.0
      modifies this
      ensures Model() == M.SetDragging(old(Model()), true) && Valid()
      ensures fresh(d) && d.elementId == id && d.snapshot == snapshot && d.isDragging && d.pending.None?
      ensures exists e :: e in elements && e.id == id && d.offset == DragOffset(snapshot, pointer, Point(e.x, e.y))
    {
      var e := FindElement(elements, id).value;
      var startCanvas := ToCanvas(snapshot, pointer);
      d := new DragSession(id, snapshot, Point(startCanvas.x - e.x, startCanvas.y - e.y));
      isDraggingElement := true;
    }

    /**
     * The scheduled animation frame of a drag: the pointer position, taken
     * relative to the viewport's origin at frame time, is mapped through the
     * snapshot and the offset, and only the dragged element moves there.
     */
    method DragFrame(d: DragSession, viewportOrigin: Point)
      requires Valid() && d.pending.Some? && d.snapshot.scale != 0.0
      modifies this, d
      ensures d.pending.None? && d.isDragging == old(d.isDragging)
      ensures Model() == M.EditElement(old(Model()), d.elementId,
        MoveTo(DragTarget(d.snapshot, d.offset, Sub(old(d.pending.value), viewportOrigin)).x,
               DragTarget(d.snapshot, d.offset, Sub(old(d.pending.value), viewportOrigin)).y))
      ensures Valid()
    {
      var pointer := d.pending.value;
      var target := DragTarget(d.snapshot, d.offset, Sub(pointer, viewportOrigin));
      var edit := MoveTo(target.x, target.y);
      M.EditElementKeepsValid(Model(), d.elementId, edit);
      elements := UpdateElements(elements, d.elementId, edit);
      d.pending := None;
    }

    /** The drag's `mouseup`: the drag ends, the flag is lowered and a scheduled frame is cancelled. */
    method DragMouseUp(d: DragSession)
      requires Valid()
      modifies this, d
      ensures !d.isDragging && d.pending.None?
      ensures Model() == M.SetDragging(old(Model()), false) && Valid()
    {
      d.isDragging := false;
      isDraggingElement := false;
      d.pending := None;
    }
  }
}
