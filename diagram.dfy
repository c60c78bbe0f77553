/**
 * The records of the diagram editor (src/app.jsx) and the pure array
 * transformations its handlers apply to them: the `filter`s that delete
 * elements and connections, the id-targeted `map`s of the editor panels and of
 * a drag, the id of a new element and the consistency conditions between the
 * element list and the connection list.
 */
module Diagram {
  import opened Options

  /**
   * A node.  `size` and `color` are "" until the element editor sets them: the
   * source leaves them undefined, and "" behaves the same in every comparison
   * and every `||` default the source applies to them.
   */
  datatype Element = Element(id: int, text: string, x: real, y: real, size: string, color: string)

  /** One end of a connection: an element id and the side of that element. */
  datatype Endpoint = Endpoint(elementId: int, side: string)

  /** A connection; `lineType` is the source's `type` field ("solid" or "dashed"). */
  datatype Connection = Connection(
    id: int, from: Endpoint, to: Endpoint,
    color: string, strokeWidth: int, lineType: string, arrowType: string)

  /** The four port sides an element exposes. */
  predicate IsPortSide(side: string)
  {
    side == "top" || side == "right" || side == "bottom" || side == "left"
  }

  // ------------------------------------------------------------- filter

  /** `Array.prototype.filter`: the elements of s that `keep` accepts, in order. */
  function Filter<T(!new)>(s: seq<T>, keep: T -> bool): (r: seq<T>)
    ensures |r| <= |s|
    ensures forall x :: x in r <==> x in s && keep(x)
    decreases |s|
  {
    if s == [] then []
    else if keep(s[0]) then [s[0]] + Filter(s[1..], keep)
    else Filter(s[1..], keep)
  }

  /** Filtering a concatenation filters each part in place, so the kept items keep their relative order. */
  lemma {:induction false} FilterConcat<T(!new)>(a: seq<T>, b: seq<T>, keep: T -> bool)
    ensures Filter(a + b, keep) == Filter(a, keep) + Filter(b, keep)
    decreases |a|
  {
    if a != [] {
      assert (a + b)[1..] == a[1..] + b;
      FilterConcat(a[1..], b, keep);
    } else {
      assert a + b == b;
    }
  }

  /** A filter that rejects nothing leaves the sequence as it was. */
  lemma {:induction false} FilterKeepsAll<T(!new)>(s: seq<T>, keep: T -> bool)
    requires forall x :: x in s ==> keep(x)
    ensures Filter(s, keep) == s
    decreases |s|
  {
    if s != [] {
      FilterKeepsAll(s[1..], keep);
    }
  }

  // ------------------------------------------------------------ elements

  /** Element ids strictly increase along the list. */
  predicate IdsIncreasing(els: seq<Element>)
  {
    forall i, j :: 0 <= i < j < |els| ==> els[i].id < els[j].id
  }

  predicate HasElement(els: seq<Element>, id: int)
  {
    exists e :: e in els && e.id == id
  }

  /** The id `addElement` gives a new element: 1 for an empty list, else the last element's id + 1. */
  function NextId(els: seq<Element>): (id: int)
    ensures IdsIncreasing(els) ==> forall e :: e in els ==> e.id < id
    ensures IdsIncreasing(els) ==> !HasElement(els, id)
  {
    if |els| == 0 then 1 else els[|els| - 1].id + 1
  }

  /** `5000 + (Math.random() * 400 - 200)` for a draw r in [0, 1). */
  function Placement(r: real): (c: real)
    requires 0.0 <= r < 1.0
    ensures 4800.0 <= c < 5200.0
  {
    5000.0 + (r * 400.0 - 200.0)
  }

  /** The decimal notation of n. */
  function NatToString(n: nat): string
    decreases n
  {
    var digit := ['0' + (n % 10) as char];
    if n < 10 then digit else NatToString(n / 10) + digit
  }

  /** The element `addElement` appends; rx and ry are the two `Math.random()` draws. */
  function NewElement(els: seq<Element>, rx: real, ry: real): (r: Element)
    requires 0.0 <= rx < 1.0 && 0.0 <= ry < 1.0
    ensures IdsIncreasing(els) ==> !HasElement(els, r.id) && forall e :: e in els ==> e.id < r.id
    ensures 4800.0 <= r.x < 5200.0 && 4800.0 <= r.y < 5200.0
    ensures r.size == "" && r.color == ""
  {
    Element(NextId(els), "Element " + NatToString(|els| + 1), Placement(rx), Placement(ry), "", "")
  }

  /** Appending an element with the next id keeps the ids increasing, and the new id is fresh. */
  lemma AppendNextKeepsIncreasing(els: seq<Element>, e: Element)
    requires IdsIncreasing(els) && e.id == NextId(els)
    ensures IdsIncreasing(els + [e])
    ensures !HasElement(els, e.id)
    ensures forall id :: HasElement(els + [e], id) <==> HasElement(els, id) || id == e.id
  {
    var r := els + [e];
    forall i, j | 0 <= i < j < |r| ensures r[i].id < r[j].id {
      if j == |els| {
        assert r[i] in els;
      }
    }
    forall id | HasElement(r, id) ensures HasElement(els, id) || id == e.id {
      var x :| x in r && x.id == id;
      if x != e { assert x in els; }
    }
    assert e in r;
  }

  /** Ids are unique when they increase, so an id names at most one element. */
  lemma IncreasingIdsUnique(els: seq<Element>, a: Element, b: Element)
    requires IdsIncreasing(els) && a in els && b in els && a.id == b.id
    ensures a == b
  {
    var i :| 0 <= i < |els| && els[i] == a;
    var j :| 0 <= j < |els| && els[j] == b;
    assert !(i < j) && !(j < i);
  }

  /** `elements.find(el => el.id === id)`: the first element with that id, if any. */
  function FindElement(els: seq<Element>, id: int): (r: Option<Element>)
    ensures r.Some? <==> HasElement(els, id)
    ensures r.Some? ==> r.value in els && r.value.id == id
    decreases |els|
  {
    if els == [] then None
    else if els[0].id == id then Some(els[0])
    else
      var r := FindElement(els[1..], id);
      assert forall e :: e in els && e != els[0] ==> e in els[1..];
      r
  }

  /** Deleting an element: `elements.filter(el => el.id !== id)`. */
  function WithoutElement(els: seq<Element>, id: int): (r: seq<Element>)
    ensures |r| <= |els|
    ensures forall e :: e in r <==> e in els && e.id != id
  {
    Filter(els, (e: Element) => e.id != id)
  }

  lemma TailIncreasing(els: seq<Element>)
    requires IdsIncreasing(els) && els != []
    ensures IdsIncreasing(els[1..])
    ensures forall e :: e in els[1..] ==> els[0].id < e.id
  {
    forall i, j | 0 <= i < j < |els| - 1 ensures els[1..][i].id < els[1..][j].id {
      assert els[1..][i] == els[i + 1] && els[1..][j] == els[j + 1];
    }
    forall e | e in els[1..] ensures els[0].id < e.id {
      var k :| 0 <= k < |els| - 1 && els[1..][k] == e;
      assert els[k + 1] == e;
    }
  }

  /** An element whose id is below every id of an id-increasing list may be put in front of it. */
  lemma ConsIncreasing(e: Element, rest: seq<Element>)
    requires IdsIncreasing(rest)
    requires forall x :: x in rest ==> e.id < x.id
    ensures IdsIncreasing([e] + rest)
  {
    var r := [e] + rest;
    forall i, j | 0 <= i < j < |r| ensures r[i].id < r[j].id {
      assert r[j] == rest[j - 1];
      if i == 0 {
        assert rest[j - 1] in rest;
      } else {
        assert r[i] == rest[i - 1];
      }
    }
  }

  /** Any filter of an id-increasing list is id-increasing. */
  lemma {:induction false} FilterKeepsIncreasing(els: seq<Element>, keep: Element -> bool)
    requires IdsIncreasing(els)
    ensures IdsIncreasing(Filter(els, keep))
    decreases |els|
  {
    if els != [] {
      TailIncreasing(els);
      var rest := Filter(els[1..], keep);
      FilterKeepsIncreasing(els[1..], keep);
      if keep(els[0]) {
        assert forall x :: x in rest ==> x in els[1..];
        ConsIncreasing(els[0], rest);
        assert [els[0]] + rest == Filter(els, keep);
      }
    }
  }

  /** Deletion removes exactly the elements with that id, keeps the rest in order and keeps the ids increasing. */
  lemma WithoutElementSpec(els: seq<Element>, id: int)
    requires IdsIncreasing(els)
    ensures IdsIncreasing(WithoutElement(els, id))
    ensures forall e :: e in WithoutElement(els, id) <==> e in els && e.id != id
    ensures !HasElement(WithoutElement(els, id), id)
    ensures forall k :: k != id ==> (HasElement(WithoutElement(els, id), k) <==> HasElement(els, k))
  {
    var r := WithoutElement(els, id);
    FilterKeepsIncreasing(els, (e: Element) => e.id != id);
    forall k | k != id && HasElement(els, k) ensures HasElement(r, k) {
      var e :| e in els && e.id == k;
      assert e in r;
    }
  }

  // --------------------------------------------------------- connections

  /** A connection is incident to an element when either end refers to it. */
  predicate Incident(c: Connection, id: int)
  {
    c.from.elementId == id || c.to.elementId == id
  }

  /** `deleteElementConnections` and the cascade of deleting an element. */
  function WithoutIncident(conns: seq<Connection>, id: int): (r: seq<Connection>)
    ensures |r| <= |conns|
    ensures forall c :: c in r <==> c in conns && !Incident(c, id)
  {
    Filter(conns, (c: Connection) => !Incident(c, id))
  }

  /** The connection menu's delete: `connections.filter(conn => conn.id !== id)`. */
  function WithoutConnection(conns: seq<Connection>, id: int): (r: seq<Connection>)
    ensures |r| <= |conns|
    ensures forall c :: c in r <==> c in conns && c.id != id
  {
    Filter(conns, (c: Connection) => c.id != id)
  }

  /** The cascade keeps exactly the connections not incident to the id, in their order. */
  lemma WithoutIncidentSpec(a: seq<Connection>, b: seq<Connection>, id: int)
    ensures forall c :: c in WithoutIncident(a, id) <==> c in a && !Incident(c, id)
    ensures WithoutIncident(a + b, id) == WithoutIncident(a, id) + WithoutIncident(b, id)
    ensures (forall c :: c in a ==> !Incident(c, id)) ==> WithoutIncident(a, id) == a
  {
    FilterConcat(a, b, (c: Connection) => !Incident(c, id));
    if forall c :: c in a ==> !Incident(c, id) {
      FilterKeepsAll(a, (c: Connection) => !Incident(c, id));
    }
  }

  /** Deleting a connection keeps exactly those with another id, in their order. */
  lemma WithoutConnectionSpec(a: seq<Connection>, b: seq<Connection>, id: int)
    ensures forall c :: c in WithoutConnection(a, id) <==> c in a && c.id != id
    ensures WithoutConnection(a + b, id) == WithoutConnection(a, id) + WithoutConnection(b, id)
    ensures (forall c :: c in a ==> c.id != id) ==> WithoutConnection(a, id) == a
  {
    FilterConcat(a, b, (c: Connection) => c.id != id);
    if forall c :: c in a ==> c.id != id {
      FilterKeepsAll(a, (c: Connection) => c.id != id);
    }
  }

  /** Every connection's ends refer to live elements. */
  predicate NoDangling(els: seq<Element>, conns: seq<Connection>)
  {
    forall c :: c in conns ==> HasElement(els, c.from.elementId) && HasElement(els, c.to.elementId)
  }

  predicate NoSelfLoops(conns: seq<Connection>)
  {
    forall c :: c in conns ==> c.from.elementId != c.to.elementId
  }

  predicate PortSides(conns: seq<Connection>)
  {
    forall c :: c in conns ==> IsPortSide(c.from.side) && IsPortSide(c.to.side)
  }

  /** Deleting an element together with its incident connections leaves no dangling connection. */
  lemma CascadeKeepsNoDangling(els: seq<Element>, conns: seq<Connection>, id: int)
    requires NoDangling(els, conns)
    ensures NoDangling(WithoutElement(els, id), WithoutIncident(conns, id))
  {
    var r := WithoutElement(els, id);
    forall c, k | c in WithoutIncident(conns, id) && (k == c.from.elementId || k == c.to.elementId)
      ensures HasElement(r, k)
    {
      var e :| e in els && e.id == k;
      assert e in r;
    }
  }

  // ------------------------------------------------------------- updates

  /** The element editor's edits and a drag's move. */
  datatype ElementEdit = SetText(text: string) | SetColor(color: string) | SetSize(size: string) | MoveTo(x: real, y: real)

  function ApplyElementEdit(e: Element, edit: ElementEdit): (r: Element)
    ensures r.id == e.id
  {
    match edit
    case SetText(t) => e.(text := t)
    case SetColor(c) => e.(color := c)
    case SetSize(s) => e.(size := s)
    case MoveTo(x, y) => e.(x := x, y := y)
  }

  /** `elements.map(el => el.id === id ? {...el, <edit>} : el)`. */
  function UpdateElements(els: seq<Element>, id: int, edit: ElementEdit): (r: seq<Element>)
    ensures |r| == |els|
    ensures forall i :: 0 <= i < |els| ==> r[i].id == els[i].id
    ensures forall i :: 0 <= i < |els| && els[i].id != id ==> r[i] == els[i]
    ensures forall i :: 0 <= i < |els| && els[i].id == id ==> r[i] == ApplyElementEdit(els[i], edit)
    decreases |els|
  {
    if els == [] then []
    else
      var head := if els[0].id == id then ApplyElementEdit(els[0], edit) else els[0];
      [head] + UpdateElements(els[1..], id, edit)
  }

  /** An update keeps the set of live ids and their order, so it keeps every id-based invariant. */
  lemma UpdateElementsKeepsIds(els: seq<Element>, id: int, edit: ElementEdit)
    ensures IdsIncreasing(els) ==> IdsIncreasing(UpdateElements(els, id, edit))
    ensures forall k :: HasElement(UpdateElements(els, id, edit), k) <==> HasElement(els, k)
  {
    var r := UpdateElements(els, id, edit);
    forall k ensures HasElement(r, k) <==> HasElement(els, k) {
      if HasElement(r, k) {
        var e :| e in r && e.id == k;
        var i :| 0 <= i < |r| && r[i] == e;
        assert els[i] in els;
      }
      if HasElement(els, k) {
        var e :| e in els && e.id == k;
        var i :| 0 <= i < |els| && els[i] == e;
        assert r[i] in r;
      }
    }
  }

  /** Editing an element twice with the same edit is the same as editing it once. */
  lemma UpdateElementsIdempotent(els: seq<Element>, id: int, edit: ElementEdit)
    ensures UpdateElements(UpdateElements(els, id, edit), id, edit) == UpdateElements(els, id, edit)
  {
    var once := UpdateElements(els, id, edit);
    var twice := UpdateElements(once, id, edit);
    forall i | 0 <= i < |els| ensures twice[i] == once[i] {
      if els[i].id == id {
        match edit
        case SetText(_) =>
        case SetColor(_) =>
        case SetSize(_) =>
        case MoveTo(_, _) =>
      }
    }
  }

  /** The connection menu's edits. */
  datatype ConnectionEdit = SetLineType(lineType: string) | SetArrowType(arrowType: string) | SetStrokeWidth(width: int) | SetLineColor(color: string)

  function ApplyConnectionEdit(c: Connection, edit: ConnectionEdit): (r: Connection)
    ensures r.id == c.id && r.from == c.from && r.to == c.to
  {
    match edit
    case SetLineType(t) => c.(lineType := t)
    case SetArrowType(a) => c.(arrowType := a)
    case SetStrokeWidth(w) => c.(strokeWidth := w)
    case SetLineColor(col) => c.(color := col)
  }

  /** `connections.map(conn => conn.id === id ? {...conn, <edit>} : conn)`. */
  function UpdateConnections(conns: seq<Connection>, id: int, edit: ConnectionEdit): (r: seq<Connection>)
    ensures |r| == |conns|
    ensures forall i :: 0 <= i < |conns| ==> r[i].id == conns[i].id && r[i].from == conns[i].from && r[i].to == conns[i].to
    ensures forall i :: 0 <= i < |conns| && conns[i].id != id ==> r[i] == conns[i]
    ensures forall i :: 0 <= i < |conns| && conns[i].id == id ==> r[i] == ApplyConnectionEdit(conns[i], edit)
    decreases |conns|
  {
    if conns == [] then []
    else
      var head := if conns[0].id == id then ApplyConnectionEdit(conns[0], edit) else conns[0];
      [head] + UpdateConnections(conns[1..], id, edit)
  }

  /** A style edit changes no endpoint, so it keeps every endpoint invariant. */
  lemma UpdateConnectionsKeepsEnds(els: seq<Element>, conns: seq<Connection>, id: int, edit: ConnectionEdit)
    ensures NoDangling(els, conns) ==> NoDangling(els, UpdateConnections(conns, id, edit))
    ensures NoSelfLoops(conns) ==> NoSelfLoops(UpdateConnections(conns, id, edit))
    ensures PortSides(conns) ==> PortSides(UpdateConnections(conns, id, edit))
  {
    var r := UpdateConnections(conns, id, edit);
    forall c | c in r ensures exists d :: d in conns && d.from == c.from && d.to == c.to {
      var i :| 0 <= i < |r| && r[i] == c;
      assert conns[i] in conns;
    }
  }
}
