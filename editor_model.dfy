/**
 * The editor's document and interaction state (the `useState` hooks of `App`
 * in src/app.jsx) and the state change of each handler, as functions on that
 * state.  The class in editor.dfy performs the same changes in place; the
 * lemmas here are what the handlers keep: ids increase along the element list,
 * no connection refers to a missing element or loops to its own element, and
 * a pending connection starts at a live element.
 */
module EditorModel {
  import opened Options
  import opened Geometry
  import opened Diagram

  /**
   * The state the handlers read and write.  `selected` holds the id of the
   * selected element (the source keeps the element record, of which only the
   * id is ever read); `hovered` is `hoveredElement`.
   */
  datatype State = State(
    elements: seq<Element>,
    connections: seq<Connection>,
    selected: Option<int>,
    hovered: Option<int>,
    isConnecting: bool,
    connectionStart: Option<Endpoint>,
    isDraggingElement: bool)

  /** The state `App` starts with: nothing on the canvas, nothing selected, idle. */
  const Initial: State := State([], [], None, None, false, None, false)

  /** What the handlers keep true of every state they produce. */
  predicate Valid(s: State)
  {
    && IdsIncreasing(s.elements)
    && NoDangling(s.elements, s.connections)
    && NoSelfLoops(s.connections)
    && PortSides(s.connections)
    && (s.isConnecting <==> s.connectionStart.Some?)
    && (s.connectionStart.Some? ==>
          HasElement(s.elements, s.connectionStart.value.elementId) && IsPortSide(s.connectionStart.value.side))
    && (s.selected.Some? ==> HasElement(s.elements, s.selected.value))
  }

  lemma InitialValid()
    ensures Valid(Initial)
  {
  }

  // ------------------------------------------------------------ element store

  /** `addElement`: append a new element; rx and ry are the two `Math.random()` draws. */
  function AddElement(s: State, rx: real, ry: real): (r: State)
    requires 0.0 <= rx < 1.0 && 0.0 <= ry < 1.0
    ensures |r.elements| == |s.elements| + 1 && r.elements[..|s.elements|] == s.elements
    ensures r == s.(elements := r.elements)
  {
    s.(elements := s.elements + [NewElement(s.elements, rx, ry)])
  }

  /**
   * The new element is appended last with id 1 on an empty list and the last
   * id + 1 otherwise, titled after the new length, placed within 200 of
   * (5000, 5000); its id is fresh and the state stays valid.
   */
  lemma AddElementSpec(s: State, rx: real, ry: real)
    requires Valid(s) && 0.0 <= rx < 1.0 && 0.0 <= ry < 1.0
    ensures var e := AddElement(s, rx, ry).elements[|s.elements|];
      && e.id == (if s.elements == [] then 1 else s.elements[|s.elements| - 1].id + 1)
      && e.text == "Element " + NatToString(|s.elements| + 1)
      && 4800.0 <= e.x < 5200.0 && 4800.0 <= e.y < 5200.0
      && !HasElement(s.elements, e.id)
    ensures Valid(AddElement(s, rx, ry))
  {
    var r := AddElement(s, rx, ry);
    var e := NewElement(s.elements, rx, ry);
    assert r.elements == s.elements + [e];
    AppendNextKeepsIncreasing(s.elements, e);
  }

  /**
   * `deleteSelectedElement` as the source writes it: with a selection, the
   * element and its incident connections are removed and the selection is
   * cleared; the connection builder is left as it was.
   */
  function DeleteSelectedAsWritten(s: State): (r: State)
    ensures s.selected.None? ==> r == s
    ensures s.selected.Some? ==> r.selected.None? && r.isConnecting == s.isConnecting && r.connectionStart == s.connectionStart
    ensures s.selected.Some? ==> r == s.(elements := r.elements, connections := r.connections, selected := None)
    ensures s.selected.Some? ==> forall e :: e in r.elements <==> e in s.elements && e.id != s.selected.value
    ensures s.selected.Some? ==> forall c :: c in r.connections <==> c in s.connections && !Incident(c, s.selected.value)
  {
    match s.selected
    case None => s
    case Some(id) =>
      s.(elements := WithoutElement(s.elements, id),
         connections := WithoutIncident(s.connections, id),
         selected := None)
  }

  /**
   * `deleteSelectedElement` as the model uses it: as written, and in addition
   * a pending connection that starts at the deleted element is cancelled the
   * way a background click cancels it.
   */
  function DeleteSelected(s: State): (r: State)
    ensures s.selected.None? ==> r == s
    ensures s.selected.Some? ==> r.selected.None?
  {
    match s.selected
    case None => s
    case Some(id) =>
      var r := DeleteSelectedAsWritten(s);
      if s.connectionStart.Some? && s.connectionStart.value.elementId == id
      then r.(isConnecting := false, connectionStart := None, hovered := None)
      else r
  }

  /**
   * Deleting the selected element removes exactly that element and exactly
   * the connections incident to it, keeps every other element and connection
   * and clears the selection.  The drag flag is kept; the builder and the
   * hover are reset exactly when the pending connection starts at the deleted
   * element, and are kept otherwise.
   */
  lemma DeleteSelectedSpec(s: State)
    requires IdsIncreasing(s.elements) && s.selected.Some?
    ensures var id, r := s.selected.value, DeleteSelected(s);
      && (forall e :: e in r.elements <==> e in s.elements && e.id != id)
      && (forall c :: c in r.connections <==> c in s.connections && !Incident(c, id))
      && !HasElement(r.elements, id)
      && r.selected.None?
      && r.isDraggingElement == s.isDraggingElement
      && (s.connectionStart.Some? && s.connectionStart.value.elementId == id ==>
            !r.isConnecting && r.connectionStart.None? && r.hovered.None?)
      && (!(s.connectionStart.Some? && s.connectionStart.value.elementId == id) ==>
            r.isConnecting == s.isConnecting && r.connectionStart == s.connectionStart && r.hovered == s.hovered)
  {
    var id := s.selected.value;
    WithoutElementSpec(s.elements, id);
    WithoutIncidentSpec(s.connections, [], id);
  }

  /** Deleting the selected element keeps the state valid; in particular the cascade leaves nothing dangling. */
  lemma DeleteSelectedKeepsValid(s: State)
    requires Valid(s) && s.selected.Some?
    ensures Valid(DeleteSelected(s))
  {
    var id, r := s.selected.value, DeleteSelected(s);
    WithoutElementSpec(s.elements, id);
    WithoutIncidentSpec(s.connections, [], id);
    CascadeKeepsNoDangling(s.elements, s.connections, id);
    assert IdsIncreasing(r.elements) && NoDangling(r.elements, r.connections);
    assert NoSelfLoops(r.connections) && PortSides(r.connections) by {
      forall c | c in r.connections ensures c in s.connections { }
    }
    if r.connectionStart.Some? {
      assert r.connectionStart == s.connectionStart;
      assert s.connectionStart.value.elementId != id;
    }
  }

  /** Without a selection the toolbar's delete changes nothing. */
  lemma DeleteSelectedNoSelection(s: State)
    requires s.selected.None?
    ensures DeleteSelected(s) == s && DeleteSelectedAsWritten(s) == s
  {
  }

  /** `deleteElementConnections(id)`: drop the connections incident to the element. */
  function DeleteElementConnections(s: State, id: int): (r: State)
    ensures r == s.(connections := r.connections)
    ensures forall c :: c in r.connections <==> c in s.connections && !Incident(c, id)
  {
    WithoutIncidentSpec(s.connections, [], id);
    s.(connections := WithoutIncident(s.connections, id))
  }

  /** The connections kept are the non-incident ones in their original order, and the state stays valid. */
  lemma DeleteElementConnectionsSpec(s: State, id: int, before: seq<Connection>, after: seq<Connection>)
    requires s.connections == before + after
    ensures DeleteElementConnections(s, id).connections == WithoutIncident(before, id) + WithoutIncident(after, id)
    ensures (forall c :: c in s.connections ==> !Incident(c, id)) ==> DeleteElementConnections(s, id) == s
    ensures Valid(s) ==> Valid(DeleteElementConnections(s, id))
  {
    WithoutIncidentSpec(before, after, id);
    WithoutIncidentSpec(s.connections, [], id);
  }

  /** `clearAllConnections`: no connection is left; nothing else changes. */
  function ClearAllConnections(s: State): (r: State)
    ensures r.connections == [] && r == s.(connections := [])
    ensures Valid(s) ==> Valid(r)
  {
    s.(connections := [])
  }

  // ------------------------------------------------------ connection builder

  /**
   * The canvas `onClick` (also reached by a click on an element while
   * connecting or dragging, which the element does not stop): a pending
   * connection is cancelled and the hover cleared; the selection is always
   * cleared.
   */
  function CanvasClick(s: State): (r: State)
    ensures r.selected.None?
    ensures r.elements == s.elements && r.connections == s.connections
    ensures r.isDraggingElement == s.isDraggingElement
    ensures s.isConnecting ==> !r.isConnecting && r.connectionStart.None? && r.hovered.None?
    ensures !s.isConnecting ==> r == s.(selected := None)
  {
    var r := if s.isConnecting then s.(isConnecting := false, connectionStart := None, hovered := None) else s;
    r.(selected := None)
  }

  /** A background click leaves the builder idle, and a second one changes nothing. */
  lemma CanvasClickSpec(s: State)
    requires Valid(s)
    ensures var r := CanvasClick(s);
      !r.isConnecting && r.connectionStart.None? && Valid(r) && CanvasClick(r) == r
  {
  }

  /**
   * An element's `onClick`: when neither dragging nor connecting it selects
   * the element (and stops the click); otherwise the click reaches the canvas.
   */
  function ElementClick(s: State, id: int): (r: State)
    ensures r.elements == s.elements && r.connections == s.connections
    ensures r.isDraggingElement == s.isDraggingElement
    ensures r.selected.Some? <==> !s.isDraggingElement && !s.isConnecting
    ensures r.selected.Some? ==> r.selected == Some(id)
  {
    if !s.isDraggingElement && !s.isConnecting then s.(selected := Some(id)) else CanvasClick(s)
  }

  /**
   * Clicking a live element selects it exactly when no drag and no connection
   * is in progress, and then changes nothing else; otherwise the click cancels
   * a pending connection and clears the selection, exactly as a background
   * click does.  The state stays valid.
   */
  lemma ElementClickSpec(s: State, id: int)
    requires Valid(s) && HasElement(s.elements, id)
    ensures var r := ElementClick(s, id);
      && Valid(r)
      && (r.selected == Some(id) <==> !s.isDraggingElement && !s.isConnecting)
      && (r.selected == Some(id) ==> r == s.(selected := Some(id)))
      && (r.selected != Some(id) ==>
            r.selected.None? && !r.isConnecting && r.elements == s.elements && r.connections == s.connections)
    ensures s.isDraggingElement || s.isConnecting ==> ElementClick(s, id) == CanvasClick(s)
  {
  }

  /**
   * `onMouseEnter`: the element becomes the hovered one, so its ports are
   * shown; hovering is not part of validity and nothing else changes.
   */
  function HoverEnter(s: State, id: int): (r: State)
    ensures r.hovered == Some(id) && PortsShown(r, id)
    ensures r == s.(hovered := r.hovered)
    ensures Valid(r) <==> Valid(s)
  {
    s.(hovered := Some(id))
  }

  /** `onMouseLeave`: the hover is cleared unless a connection is pending. */
  function HoverLeave(s: State): (r: State)
    ensures r == s.(hovered := r.hovered)
    ensures r.hovered.None? <==> !s.isConnecting || s.hovered.None?
    ensures s.isConnecting ==> r == s
    ensures !s.isConnecting ==> r.hovered.None?
  {
    if !s.isConnecting then s.(hovered := None) else s
  }

  /** The ports of an element are rendered, hence clickable, while it is hovered or a connection is pending. */
  predicate PortsShown(s: State, id: int)
  {
    s.hovered == Some(id) || s.isConnecting
  }

  /** The connection a port click completes: from the pending start to the clicked port, with the default style. */
  function NewConnection(now: int, start: Endpoint, id: int, side: string): Connection
  {
    Connection(now, start, Endpoint(id, side), "#666", 2, "solid", "arrow")
  }

  /**
   * A port `onClick` on side `side` of element `id`; `now` is `Date.now()`.
   * Idle: start a connection here.  Pending from another element: append the
   * connection and return to idle.  Pending from this element: nothing.
   */
  function PortClick(s: State, id: int, side: string, now: int): (r: State)
    requires PortsShown(s, id)
    ensures r.elements == s.elements && r.selected == s.selected && r.isDraggingElement == s.isDraggingElement
  {
    if !s.isConnecting then
      s.(isConnecting := true, connectionStart := Some(Endpoint(id, side)))
    else if s.connectionStart.Some? && s.connectionStart.value.elementId != id then
      s.(connections := s.connections + [NewConnection(now, s.connectionStart.value, id, side)],
         isConnecting := false, connectionStart := None, hovered := None)
    else s
  }

  /** The three transitions of the connection builder. */
  lemma PortClickCases(s: State, id: int, side: string, now: int)
    requires Valid(s) && PortsShown(s, id)
    ensures var r := PortClick(s, id, side, now);
      && (!s.isConnecting ==>
            r.isConnecting && r.connectionStart == Some(Endpoint(id, side)) && r.connections == s.connections)
      && (s.isConnecting && s.connectionStart.value.elementId != id ==>
            && r.connections == s.connections + [NewConnection(now, s.connectionStart.value, id, side)]
            && !r.isConnecting && r.connectionStart.None? && r.hovered.None?)
      && (s.isConnecting && s.connectionStart.value.elementId == id ==> r == s)
    ensures |PortClick(s, id, side, now).connections| == |s.connections| + 1
      <==> s.isConnecting && s.connectionStart.value.elementId != id
  {
  }

  /** A port click on a live element's port side keeps the state valid: in particular no self-loop is ever added. */
  lemma PortClickKeepsValid(s: State, id: int, side: string, now: int)
    requires Valid(s) && PortsShown(s, id) && HasElement(s.elements, id) && IsPortSide(side)
    ensures Valid(PortClick(s, id, side, now))
  {
    var r := PortClick(s, id, side, now);
    if s.isConnecting && s.connectionStart.value.elementId != id {
      var c := NewConnection(now, s.connectionStart.value, id, side);
      assert r.connections == s.connections + [c];
      forall d | d in r.connections ensures d in s.connections || d == c { }
    }
  }

  // ----------------------------------------------------------------- editors

  /** One of the element editor's edits (title, colour, size) or a drag's move, applied to element `id`. */
  function EditElement(s: State, id: int, edit: ElementEdit): (r: State)
    ensures r == s.(elements := r.elements)
    ensures |r.elements| == |s.elements|
    ensures forall i :: 0 <= i < |s.elements| ==>
      r.elements[i] == if s.elements[i].id == id then ApplyElementEdit(s.elements[i], edit) else s.elements[i]
  {
    s.(elements := UpdateElements(s.elements, id, edit))
  }

  lemma EditElementKeepsValid(s: State, id: int, edit: ElementEdit)
    requires Valid(s)
    ensures Valid(EditElement(s, id, edit))
  {
    UpdateElementsKeepsIds(s.elements, id, edit);
  }

  /** One of the connection menu's edits (line type, arrow type, stroke width, colour) applied to connection `id`. */
  function EditConnection(s: State, id: int, edit: ConnectionEdit): (r: State)
    ensures r == s.(connections := r.connections)
    ensures |r.connections| == |s.connections|
    ensures forall i :: 0 <= i < |s.connections| ==>
      r.connections[i] == if s.connections[i].id == id then ApplyConnectionEdit(s.connections[i], edit) else s.connections[i]
  {
    s.(connections := UpdateConnections(s.connections, id, edit))
  }

  lemma EditConnectionKeepsValid(s: State, id: int, edit: ConnectionEdit)
    requires Valid(s)
    ensures Valid(EditConnection(s, id, edit))
  {
    UpdateConnectionsKeepsEnds(s.elements, s.connections, id, edit);
  }

  /** The connection menu's delete: every connection with that id goes, every other stays. */
  function DeleteConnection(s: State, id: int): (r: State)
    ensures r == s.(connections := r.connections)
    ensures forall c :: c in r.connections <==> c in s.connections && c.id != id
  {
    WithoutConnectionSpec(s.connections, [], id);
    s.(connections := WithoutConnection(s.connections, id))
  }

  lemma DeleteConnectionKeepsValid(s: State, id: int)
    requires Valid(s)
    ensures Valid(DeleteConnection(s, id))
  {
  }

  /**
   * `setIsDraggingElement`, called at a node's mouse-down (true) and at the
   * drag's mouse-up (false).  Only the flag changes; while it is raised an
   * element click acts as a background click.
   */
  function SetDragging(s: State, dragging: bool): (r: State)
    ensures r.isDraggingElement == dragging
    ensures r == s.(isDraggingElement := r.isDraggingElement)
    ensures Valid(r) <==> Valid(s)
    ensures dragging ==> forall id :: ElementClick(r, id) == CanvasClick(r)
  {
    s.(isDraggingElement := dragging)
  }

  // ------------------------------------------------------------ reachability

  /** One user action, with the inputs the handler receives. */
  datatype Action =
    | Add(rx: real, ry: real)
    | DeleteSelectedElement
    | DeleteIncident(elementId: int)
    | ClearConnections
    | ClickCanvas
    | ClickElement(id: int)
    | Enter(id: int)
    | Leave
    | ClickPort(portOf: int, side: string, now: int)
    | ChangeElement(target: int, edit: ElementEdit)
    | ChangeConnection(connection: int, change: ConnectionEdit)
    | RemoveConnection(connectionId: int)
    | Dragging(on: bool)

  /** Whether the user can perform the action: the element or the port it targets is on screen, and the draws are in [0, 1). */
  predicate Enabled(s: State, a: Action)
  {
    match a
    case Add(rx, ry) => 0.0 <= rx < 1.0 && 0.0 <= ry < 1.0
    case ClickElement(id) => HasElement(s.elements, id)
    case Enter(id) => HasElement(s.elements, id)
    case ClickPort(id, side, _) => HasElement(s.elements, id) && IsPortSide(side) && PortsShown(s, id)
    case _ => true
  }

  /**
   * The state change of one enabled action.  Only adding grows the element
   * list, only a port click grows the connection list, and the drag flag moves
   * only with a drag.
   */
  function Step(s: State, a: Action): (r: State)
    requires Enabled(s, a)
    ensures !a.Add? ==> |r.elements| <= |s.elements|
    ensures !a.ClickPort? ==> |r.connections| <= |s.connections|
    ensures !a.Dragging? ==> r.isDraggingElement == s.isDraggingElement
  {
    match a
    case Add(rx, ry) => AddElement(s, rx, ry)
    case DeleteSelectedElement => DeleteSelected(s)
    case DeleteIncident(id) => DeleteElementConnections(s, id)
    case ClearConnections => ClearAllConnections(s)
    case ClickCanvas => CanvasClick(s)
    case ClickElement(id) => ElementClick(s, id)
    case Enter(id) => HoverEnter(s, id)
    case Leave => HoverLeave(s)
    case ClickPort(id, side, now) => PortClick(s, id, side, now)
    case ChangeElement(id, edit) => EditElement(s, id, edit)
    case ChangeConnection(id, edit) => EditConnection(s, id, edit)
    case RemoveConnection(id) => DeleteConnection(s, id)
    case Dragging(on) => SetDragging(s, on)
  }

  /** Every enabled action keeps the state valid. */
  lemma StepKeepsValid(s: State, a: Action)
    requires Valid(s) && Enabled(s, a)
    ensures Valid(Step(s, a))
  {
    match a
    case Add(rx, ry) => AddElementSpec(s, rx, ry);
    case DeleteSelectedElement =>
      if s.selected.Some? { DeleteSelectedKeepsValid(s); }
    case DeleteIncident(id) => DeleteElementConnectionsSpec(s, id, s.connections, []);
    case ClearConnections =>
    case ClickCanvas =>
    case ClickElement(id) =>
    case Enter(id) =>
    case Leave =>
    case ClickPort(id, side, now) => PortClickKeepsValid(s, id, side, now);
    case ChangeElement(id, edit) => EditElementKeepsValid(s, id, edit);
    case ChangeConnection(id, edit) => EditConnectionKeepsValid(s, id, edit);
    case RemoveConnection(id) => DeleteConnectionKeepsValid(s, id);
    case Dragging(on) =>
  }

  /** The state after a run of actions, or None when one of them is not enabled when it comes. */
  function Run(s: State, actions: seq<Action>): Option<State>
    decreases |actions|
  {
    if actions == [] then Some(s)
    else if Enabled(s, actions[0]) then Run(Step(s, actions[0]), actions[1..])
    else None
  }

  /**
   * Every state reachable from a valid one is valid: whatever the user does,
   * no connection refers to a missing element or loops back to its element.
   */
  lemma {:induction false} RunKeepsValid(s: State, actions: seq<Action>)
    requires Valid(s) && Run(s, actions).Some?
    ensures Valid(Run(s, actions).value)
    decreases |actions|
  {
    if actions != [] {
      StepKeepsValid(s, actions[0]);
      RunKeepsValid(Step(s, actions[0]), actions[1..]);
    }
  }

  /** In particular every state the editor can reach from its initial state has no dangling connection. */
  lemma ReachableNoDangling(actions: seq<Action>)
    requires Run(Initial, actions).Some?
    ensures NoDangling(Run(Initial, actions).value.elements, Run(Initial, actions).value.connections)
  {
    RunKeepsValid(Initial, actions);
  }

  /**
   * Ids are the last id + 1, not the largest id ever used + 1: after the only
   * element is deleted the next element gets id 1 again, while deleting an
   * element that is not last does not make its id come back.
   */
  lemma IdsAfterDeletion()
    ensures var s1 := AddElement(Initial, 0.5, 0.5);
      var s2 := DeleteSelected(ElementClick(s1, 1));
      && s1.elements[0].id == 1 && s2.elements == []
      && AddElement(s2, 0.5, 0.5).elements[0].id == 1
    ensures var s1 := AddElement(AddElement(Initial, 0.5, 0.5), 0.5, 0.5);
      var s2 := DeleteSelected(ElementClick(s1, 1));
      && |s2.elements| == 1 && s2.elements[0].id == 2
      && AddElement(s2, 0.5, 0.5).elements[1].id == 3
  {
    var a := NewElement([], 0.5, 0.5);
    var b := NewElement([a], 0.5, 0.5);
    assert a.id == 1 && b.id == 2;
    var t1 := AddElement(Initial, 0.5, 0.5);
    assert t1.elements == [a];
    WithoutElementSpec(t1.elements, 1);
    var u1 := AddElement(t1, 0.5, 0.5);
    assert u1.elements == [a, b];
    var u2 := DeleteSelected(ElementClick(u1, 1));
    assert u2.elements == Filter([a, b], (e: Element) => e.id != 1);
    assert u2.elements == Filter([b], (e: Element) => e.id != 1);
    assert u2.elements == [b];
  }

  // ------------------------------------------------------------------ finding

  /**
   * With the delete as written, a connection can be created to an element
   * that no longer exists: add two elements, select the first, start a
   * connection at its top port, delete it from the toolbar, and click the
   * second element's left port.
   */
  lemma DeleteAsWrittenLeavesDangling()
    ensures
      var s1 := AddElement(AddElement(Initial, 0.5, 0.5), 0.25, 0.75);
      var s2 := HoverEnter(ElementClick(s1, 1), 1);
      var s3 := PortClick(s2, 1, "top", 100);
      var s4 := DeleteSelectedAsWritten(s3);
      && Valid(s3) && PortsShown(s4, 2) && HasElement(s4.elements, 2)
      && !NoDangling(PortClick(s4, 2, "left", 200).elements, PortClick(s4, 2, "left", 200).connections)
  {
    var s0 := AddElement(Initial, 0.5, 0.5);
    var s1 := AddElement(s0, 0.25, 0.75);
    var a := NewElement([], 0.5, 0.5);
    var b := NewElement([a], 0.25, 0.75);
    assert a.id == 1 && b.id == 2;
    assert s1.elements == [a, b];
    var s2 := HoverEnter(ElementClick(s1, 1), 1);
    var s3 := PortClick(s2, 1, "top", 100);
    assert s3.connectionStart == Some(Endpoint(1, "top"));
    assert a in s3.elements && b in s3.elements;
    var s4 := DeleteSelectedAsWritten(s3);
    WithoutElementSpec(s3.elements, 1);
    assert b in s4.elements;
    var s5 := PortClick(s4, 2, "left", 200);
    var c := NewConnection(200, Endpoint(1, "top"), 2, "left");
    assert s5.connections == [c];
    assert c in s5.connections && !HasElement(s5.elements, 1);
  }
}
