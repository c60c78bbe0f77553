# MindWeaver diagram editor — verified model of the editor core

MindWeaver is a browser diagram editor. Its `App` component (src/app.jsx)
holds a list of elements (labelled boxes on a 10000 × 10000 canvas) and a
list of connections between element sides. It also holds a pan/zoom transform
for the canvas, a two-step connection builder driven by clicks on port
handles, and a node drag.

This project models that core in Dafny:

- `Options` (options.dfy): the optional value used where the source stores `null`.
- `Geometry` (geometry.dfy): the canvas transform and the maps between viewport and canvas coordinates. It also holds the wheel zoom with its clamp to [0.1, 10], the pan step and the drag-offset arithmetic. Numbers are reals.
- `Diagram` (diagram.dfy): element and connection records and the `filter`/`map` array updates the handlers apply. It also holds the new-element id and the consistency conditions: no dangling connection, no self-loop, and ids increasing along the list.
- `Projector` (projector.dfy): the size-class table and the anchor point of each element side, its projection into the viewport, and the segments drawn for the connection list.
- `EditorModel` (editor_model.dfy): the editor state as a value and each handler's state change as a function. It has lemmas that every handler keeps the state valid and that every reachable state has no dangling connection, both with the corrected delete of the finding below; it also holds the delete as written.
- `Editor` (editor.dfy): `App` as an object whose handlers update its fields in place, each method specified by the matching `EditorModel` function. It also holds `DragSession`, the closure of one node drag.
- `Viewport` (viewport.dfy): the pan/zoom handlers of the viewport effect, as an object over the effect's closure variables.

Behaviour of the code worth noting, which the model keeps:

- A new element's id is the last element's id + 1, so an id comes back once the element holding it, being last, is deleted (`EditorModel.IdsAfterDeletion`).
- A drag maps the pointer through the transform captured at mouse-down, not the live transform.
- The drag's mouse-up cancels a scheduled animation frame, so the last pointer position of a drag can be dropped.
- A port click on the element a pending connection starts from changes nothing.

## Model

| member | source | states |
|---|---|---|
| `Geometry.ToScreen` | src/app.jsx:491-492 | with transform origin `0 0` the canvas origin is drawn at the translation, and at scale 1 the map is a pure shift |
| `Geometry.ToCanvas` | src/app.jsx:108-111 | the canvas point `(q - translate) / scale` is drawn at q: mapping it back to the viewport gives q |
| `Geometry.CanvasScreenInverse` | src/app.jsx:491-492 | the canvas-to-viewport map `p * scale + translate` and the pointer-to-canvas map are inverse bijections while the scale is not zero |
| `Geometry.ZoomFactor` | src/app.jsx:105 | the wheel factor is 0.9 or 1.1, and below 1 exactly when deltaY is positive |
| `Geometry.ClampScale` | src/app.jsx:112 | `min(max(s, 0.1), 10)` lies in [0.1, 10], is s when s is in range and the nearer bound otherwise |
| `Geometry.Zoom` | src/app.jsx:103-117 | a wheel event sets the scale to the clamped product, keeps it in [0.1, 10], and keeps the canvas point under the pointer under the pointer |
| `Geometry.ZoomSteps` | src/app.jsx:105-115 | after any positive number of wheel events, or from an in-range scale, the scale is in [0.1, 10] |
| `Geometry.ZoomOutClosedForm` | src/app.jsx:105-115 | n zoom-outs from an in-range scale s give max(s · 0.9ⁿ, 0.1) |
| `Geometry.ZoomInClosedForm` | src/app.jsx:105-115 | n zoom-ins from an in-range scale s give min(s · 1.1ⁿ, 10) |
| `Geometry.ZoomOutFromOneReachesMin` | src/app.jsx:23 | from the initial scale 1, every zoom-out before the 22nd stays above 0.1, and the 22nd and every later one are exactly 0.1 |
| `Geometry.ZoomInFromOneReachesMax` | src/app.jsx:23 | from the initial scale 1, every zoom-in before the 25th stays below 10, and the 25th and every later one are exactly 10 |
| `Geometry.Pan` | src/app.jsx:94-97 | a pan step keeps the scale and moves every canvas point's viewport position by the pointer delta |
| `Geometry.PanKeepsGrabbedPoint` | src/app.jsx:92-101 | panning by the pointer's motion keeps the scale and keeps the grabbed canvas point under the pointer |
| `Geometry.PanAlongTelescopes` | src/app.jsx:92-101 | a run of pan moves, each measured from the previous pointer position, amounts to one pan by the total displacement |
| `Geometry.DragOffset` | src/app.jsx:290-293 | the captured offset, added to the node's position, is the canvas point drawn under the pointer at mouse-down |
| `Geometry.DragTarget` | src/app.jsx:308-311 | the node's new position plus the offset is the canvas point drawn under the pointer |
| `Geometry.DragKeepsOffset` | src/app.jsx:284-311 | a drag keeps the pointer-to-node offset; the node moves by the pointer's motion divided by the scale and returns home when the pointer does |
| `Geometry.DragExample` | src/app.jsx:284-311 | a node at (100, 100) pressed at canvas (110, 105) and moved to canvas (200, 205) lands at (190, 200) under any transform |
| `Diagram.Filter` | src/app.jsx:42-45 | `filter` keeps exactly the members the predicate accepts and never lengthens the list |
| `Diagram.FilterConcat` | src/app.jsx:42-45 | `filter` distributes over concatenation, so it keeps the original order |
| `Diagram.NextId` | src/app.jsx:31 | when ids increase along the list, the new id exceeds every id and is fresh |
| `Diagram.Placement` | src/app.jsx:33-34 | a new element's coordinate lies in [4800, 5200) |
| `Diagram.NewElement` | src/app.jsx:30-35 | a new element's id is fresh and above every id, its position is in [4800, 5200)², and its size and colour are unset |
| `Diagram.AppendNextKeepsIncreasing` | src/app.jsx:29-37 | appending an element with the next id keeps ids increasing, and the live ids grow by exactly the new one |
| `Diagram.IncreasingIdsUnique` | src/app.jsx:29-37 | increasing ids name at most one element each |
| `Diagram.FindElement` | src/app.jsx:457-458 | `find` by id succeeds exactly when an element has that id, and returns such an element |
| `Diagram.FilterKeepsIncreasing` | src/app.jsx:42 | any filter of an id-increasing list is id-increasing |
| `Diagram.WithoutElement` | src/app.jsx:42 | deleting an id keeps exactly the elements with another id |
| `Diagram.WithoutIncident` | src/app.jsx:44-45 | the cascade keeps exactly the connections with neither end at the id |
| `Diagram.WithoutConnection` | src/app.jsx:819 | the menu's delete keeps exactly the connections with another id |
| `Diagram.WithoutElementSpec` | src/app.jsx:42 | deleting an id removes exactly the elements with that id and keeps every other id |
| `Diagram.WithoutIncidentSpec` | src/app.jsx:51-55 | the cascade keeps exactly the non-incident connections, in order, and changes nothing when none is incident |
| `Diagram.WithoutConnectionSpec` | src/app.jsx:819 | the menu's delete keeps exactly the connections with another id, in order |
| `Diagram.CascadeKeepsNoDangling` | src/app.jsx:39-49 | for any element list, deleting an element with its incident connections leaves no dangling connection |
| `Diagram.ApplyElementEdit` | src/app.jsx:609-613 | an element edit never changes the element's id |
| `Diagram.UpdateElements` | src/app.jsx:313-317 | an id-targeted `map` changes only the elements with that id, keeps length and ids, and applies the edit to the targets |
| `Diagram.UpdateElementsKeepsIds` | src/app.jsx:668-672 | element edits keep ids increasing and the set of live ids unchanged |
| `Diagram.UpdateElementsIdempotent` | src/app.jsx:640-644 | applying the same element edit twice is applying it once |
| `Diagram.ApplyConnectionEdit` | src/app.jsx:737-741 | a connection edit never changes the connection's id or endpoints |
| `Diagram.UpdateConnections` | src/app.jsx:778-782 | a connection edit changes only the connections with that id and applies the edit to them |
| `Diagram.UpdateConnectionsKeepsEnds` | src/app.jsx:801-805 | style edits keep "no dangling", "no self-loop" and "port sides only" |
| `Projector.Dimensions` | src/app.jsx:464-468 | every size class has a positive width and height |
| `Projector.DimensionsMatchLayout` | src/app.jsx:242-249 | the anchor table is four times the rendered `min-w`/`min-h` of every size class |
| `Projector.EdgePoint` | src/app.jsx:469-490 | top is (centre x, top edge), right is (right edge, centre y), bottom is (centre x, bottom edge), left is (left edge, centre y), and any other side name gives the centre; every anchor lies in the box |
| `Projector.OppositeAnchorsAroundCentre` | src/app.jsx:470-485 | the top/bottom and left/right anchors are symmetric about the centre |
| `Projector.AnchorsFollowElement` | src/app.jsx:461-494 | moving an element moves each of its anchors by the same displacement |
| `Projector.ConnectionPoint` | src/app.jsx:491-493 | the projected anchor maps back to the canvas anchor |
| `Projector.Segments` | src/app.jsx:456-459 | at most one segment per connection, only for connections whose two elements exist |
| `Projector.SegmentsStep` | src/app.jsx:456-497 | a connection whose two elements exist contributes its segment first, drawn from its anchors |
| `Projector.SegmentsOfDrawable` | src/app.jsx:456-497 | for any connection list, the segments are exactly the connections whose two elements exist, in order, each drawn between the projected anchors of its elements |
| `Projector.SegmentsComplete` | src/app.jsx:456-497 | without dangling connections every connection is drawn, in order, between the projected anchors of its elements |
| `EditorModel.InitialValid` | src/app.jsx:16-27 | the initial state is valid |
| `EditorModel.AddElement` | src/app.jsx:29-37 | `addElement` appends exactly one element and changes nothing else |
| `EditorModel.AddElementSpec` | src/app.jsx:29-37 | the new id is 1 or last + 1 and fresh; the title is "Element n+1", the position within 200 of (5000, 5000), and the state stays valid |
| `EditorModel.IdsAfterDeletion` | src/app.jsx:31 | after the only element is deleted, the next id is 1 again; deleting the first of two does not bring its id back |
| `EditorModel.DeleteSelectedAsWritten` | src/app.jsx:39-49 | with no selection nothing changes; otherwise exactly the selected element and exactly its incident connections are removed, the selection is cleared, and the builder, hover and drag flag are left as they were |
| `EditorModel.DeleteSelected` | src/app.jsx:39-49 | with no selection nothing changes; otherwise the selection is cleared |
| `EditorModel.DeleteSelectedSpec` | src/app.jsx:39-49 | deleting removes exactly the selected element and exactly its incident connections and clears the selection; the drag flag is kept, and the builder and hover are reset exactly when the pending connection starts at the deleted element |
| `EditorModel.DeleteSelectedKeepsValid` | src/app.jsx:39-49 | deleting the selected element keeps every invariant, including "a pending connection starts at a live element" |
| `EditorModel.DeleteSelectedNoSelection` | src/app.jsx:40 | without a selection the delete is a no-op |
| `EditorModel.DeleteElementConnections` | src/app.jsx:51-55 | exactly the connections not incident to the id remain; elements and everything else are unchanged |
| `EditorModel.DeleteElementConnectionsSpec` | src/app.jsx:688-690 | the kept connections are in their original order, nothing changes when none is incident, and the state stays valid |
| `EditorModel.ClearAllConnections` | src/app.jsx:57-59 | no connection remains, nothing else changes, and the state stays valid |
| `EditorModel.CanvasClick` | src/app.jsx:232-239 | a background click always clears the selection, cancels a pending connection with its hover, and leaves elements and connections alone |
| `EditorModel.CanvasClickSpec` | src/app.jsx:232-239 | after a background click the builder is idle, the state is valid, and a second click changes nothing |
| `EditorModel.ElementClick` | src/app.jsx:270-275 | an element click leaves the document and drag flag alone, and selects exactly this element when no drag or connection is in progress |
| `EditorModel.ElementClickSpec` | src/app.jsx:270-275 | an element click selects it exactly when no drag or connection is in progress, keeping the state valid; otherwise its result is exactly that of a background click |
| `EditorModel.HoverEnter` | src/app.jsx:268 | entering an element always makes it the hovered one, so its ports are shown, and changes nothing else |
| `EditorModel.HoverLeave` | src/app.jsx:269 | leaving an element clears the hover when no connection is pending; while one is pending nothing changes |
| `EditorModel.PortClick` | src/app.jsx:347-368 | a port click never changes elements, selection or the drag flag |
| `EditorModel.PortClickCases` | src/app.jsx:347-368 | idle: start at this port; pending from another element: append from-start-to-port with #666 / 2 / solid / arrow and go idle; pending from this element: no change |
| `EditorModel.PortClickKeepsValid` | src/app.jsx:373-393 | a port click keeps the state valid, so no self-loop or dangling connection is created |
| `EditorModel.EditElement` | src/app.jsx:609-613 | an element-editor edit rewrites only the elements with the target id |
| `EditorModel.EditElementKeepsValid` | src/app.jsx:640-644 | element edits keep the state valid |
| `EditorModel.EditConnection` | src/app.jsx:757-761 | a connection-menu edit rewrites only the connections with the target id |
| `EditorModel.EditConnectionKeepsValid` | src/app.jsx:737-741 | connection edits keep the state valid |
| `EditorModel.DeleteConnection` | src/app.jsx:818-822 | deleting a connection removes exactly the connections with that id |
| `EditorModel.DeleteConnectionKeepsValid` | src/app.jsx:819 | deleting a connection keeps the state valid |
| `EditorModel.SetDragging` | src/app.jsx:276-278 | only the drag flag changes, validity is unaffected, and while it is raised an element click acts as a background click |
| `EditorModel.Step` | src/app.jsx:29-59 | one enabled action: only adding grows the element list, only a port click grows the connection list, only a drag moves the drag flag |
| `EditorModel.StepKeepsValid` | src/app.jsx:29-59 | with the corrected delete, every enabled user action keeps the state valid |
| `EditorModel.RunKeepsValid` | src/app.jsx:29-59 | with the corrected delete, every state reached from a valid state by any run of actions is valid |
| `EditorModel.ReachableNoDangling` | src/app.jsx:456-459 | with the corrected delete, no state reachable from the initial one has a dangling connection |
| `EditorModel.DeleteAsWrittenLeavesDangling` | src/app.jsx:39-49 | with the delete as written, add, select, start a connection, delete and click another port yields a dangling connection |
| `Editor.App.constructor` | src/app.jsx:16-27 | the editor starts empty, idle and valid |
| `Editor.App.AddElement` | src/app.jsx:29-37 | `addElement` in place, as `EditorModel.AddElement`, keeping the state valid |
| `Editor.App.DeleteSelectedElement` | src/app.jsx:39-49 | the toolbar delete in place, as the corrected `EditorModel.DeleteSelected`, keeping the state valid |
| `Editor.App.DeleteElementConnections` | src/app.jsx:51-55 | the cascade in place, keeping the state valid |
| `Editor.App.ClearAllConnections` | src/app.jsx:57-59 | clearing in place, keeping the state valid |
| `Editor.App.CanvasClick` | src/app.jsx:232-239 | the background click in place, keeping the state valid |
| `Editor.App.ElementClick` | src/app.jsx:270-275 | the element click in place, falling through to the background click |
| `Editor.App.MouseEnter` | src/app.jsx:268 | hovering an element records it |
| `Editor.App.MouseLeave` | src/app.jsx:269 | the hover is cleared unless connecting |
| `Editor.App.PortClick` | src/app.jsx:398-419 | the connection builder in place, keeping the state valid |
| `Editor.App.EditElement` | src/app.jsx:668-672 | element edits in place, keeping the state valid |
| `Editor.App.EditConnection` | src/app.jsx:801-805 | connection edits in place, keeping the state valid |
| `Editor.App.DeleteConnection` | src/app.jsx:819 | connection delete in place, keeping the state valid |
| `Editor.App.ElementMouseDown` | src/app.jsx:276-293 | mouse-down on a node raises the drag flag and returns a fresh session whose offset is the pointer's canvas position minus the node's position |
| `Editor.App.DragFrame` | src/app.jsx:304-318 | the animation frame moves only the dragged element to the canvas pointer minus the offset and empties the pending slot |
| `Editor.App.DragMouseUp` | src/app.jsx:321-331 | mouse-up ends the session, lowers the drag flag and drops a scheduled frame |
| `Editor.DragSession.constructor` | src/app.jsx:294-295 | a drag session starts dragging, with the element, snapshot and offset captured and no frame scheduled |
| `Editor.DragSession.MouseMove` | src/app.jsx:298-319 | while dragging, the newest pointer position replaces any scheduled one; after mouse-up nothing changes |
| `Viewport.PanZoom.constructor` | src/app.jsx:67-70 | the effect starts from the published transform with panning off |
| `Viewport.PanZoom.MouseDown` | src/app.jsx:79-85 | mouse-down is ignored during a node drag, otherwise panning starts at the pointer; the transform is unchanged |
| `Viewport.PanZoom.MouseUp` | src/app.jsx:87-90 | mouse-up stops panning |
| `Viewport.PanZoom.MouseMove` | src/app.jsx:92-101 | a move pans by the pointer delta only while panning and not dragging, and keeps the scale in range |
| `Viewport.PanZoom.Wheel` | src/app.jsx:103-117 | a wheel event applies `Geometry.Zoom` about the viewport-relative pointer and keeps the scale in [0.1, 10] |

## Left out

- Rendering is not modelled: the JSX/SVG markup, Tailwind class strings, arrow marker definitions and icon buttons. Undo, Redo, Copy, Save and Settings have no handlers.
- src/home.jsx is not part of this model: it is a landing page with no editor logic.
- DOM plumbing is not modelled: element lookup, reading the computed `DOMMatrix`, listener registration and cursor styles. The transform snapshot and the viewport's origin are parameters.
- `requestAnimationFrame`/`cancelAnimationFrame` are a pending slot in `DragSession`: a newer move replaces the scheduled one, a frame applies it, and mouse-up empties it. When a frame fires relative to other events is not modelled.
- `Math.random()` and `Date.now()` are parameters. The draws are taken in [0, 1); the clock value is any integer, so two connections may share an id.
- Numbers are reals, not IEEE doubles, so anchoring and the clamp bounds hold exactly.
- React scheduling is not modelled: each handler is one atomic state update, and closure staleness is left out. The `setCanvasTransform`/`transformRef` mirroring becomes `PanZoom.Current()`.
- The effect re-runs when `isDraggingElement` changes. That is modelled only as constructing a new `PanZoom` from the published transform. The order in which the native viewport listener and React's handlers see the same mouse-down is not modelled.
- The editor panels' own copies (`editingElement`, `editingConnection`), their opening and closing, and the connection menu position are not modelled. Their writes to the element and connection lists are modelled as `EditElement`/`EditConnection`/`DeleteConnection`.
- An element's rendered box can grow past its minimum with long text. The anchor table uses the minimum box (`Projector.DimensionsMatchLayout`), as the source does.
- Unset `size`/`color` are the empty string, which behaves as `undefined` in every comparison and `||` default of the source.
- `EditorModel.StepKeepsValid` is proved for the corrected delete; with `EditorModel.DeleteSelectedAsWritten` a valid state can become invalid (`EditorModel.DeleteAsWrittenLeavesDangling`).
- `EditorModel.RunKeepsValid` is proved for the corrected delete; with the delete as written a run can reach an invalid state.
- `EditorModel.ReachableNoDangling` is proved for the corrected delete; with the delete as written a reachable state has a dangling connection (`EditorModel.DeleteAsWrittenLeavesDangling`).
- `Editor.App.DeleteSelectedElement` follows the corrected delete (see Findings); the as-written behaviour is `EditorModel.DeleteSelectedAsWritten`.

## Findings

| source | as written | input that shows it | evidently intended | confidence | as-written member | corrected member |
|---|---|---|---|---|---|---|
| src/app.jsx:39-49 | deleting the selected element leaves `isConnecting`/`connectionStart` untouched, even when the pending connection starts at that element | add two elements, click element 1, click its top port, press the toolbar Delete, click element 2's left port: the connection 1→2 is stored although element 1 is gone | a pending connection from the deleted element is cancelled, as a background click cancels it, so no connection can refer to a deleted element | not executed | `EditorModel.DeleteAsWrittenLeavesDangling` | `EditorModel.DeleteSelectedKeepsValid` |
