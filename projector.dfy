/**
 * The anchor projector of the editor (src/app.jsx): the size-class table, the
 * edge midpoint a connection attaches to, its projection into the viewport,
 * and the line segments drawn for the connection list.
 */
module Projector {
  import opened Geometry
  import opened Diagram

  /** Width and height, in pixels, of an element of the given size class. */
  datatype Box = Box(width: real, height: real)

  /** The projector's table: small 96x32, large 192x80, xlarge 256x96, anything else 144x48. */
  function Dimensions(size: string): (b: Box)
    ensures b.width > 0.0 && b.height > 0.0
  {
    if size == "small" then Box(96.0, 32.0)
    else if size == "large" then Box(192.0, 80.0)
    else if size == "xlarge" then Box(256.0, 96.0)
    else Box(144.0, 48.0)
  }

  /**
   * The layout's minimum box for a size class, in Tailwind spacing units of
   * 4 pixels: `min-w-24 min-h-8` for small, `min-w-48 min-h-20` for large,
   * `min-w-64 min-h-24` for xlarge and `min-w-36 min-h-12` otherwise.
   */
  function LayoutMinimum(size: string): (int, int)
  {
    match size
    case "small" => (24, 8)
    case "large" => (48, 20)
    case "xlarge" => (64, 24)
    case _ => (36, 12)
  }

  /** The projector's table agrees with the rendered minimum box for every size class. */
  lemma DimensionsMatchLayout(size: string)
    ensures Dimensions(size).width == 4.0 * LayoutMinimum(size).0 as real
    ensures Dimensions(size).height == 4.0 * LayoutMinimum(size).1 as real
  {
  }

  function Centre(e: Element): Point
  {
    var b := Dimensions(e.size);
    Point(e.x + b.width / 2.0, e.y + b.height / 2.0)
  }

  /**
   * The canvas point a connection end attaches to: the midpoint of the named
   * edge of the element's box, or the box's centre for any other side name.
   */
  function EdgePoint(e: Element, side: string): (p: Point)
    ensures var b := Dimensions(e.size);
      && e.x <= p.x <= e.x + b.width && e.y <= p.y <= e.y + b.height
      && (IsPortSide(side) <==> p != Centre(e))
      && (IsPortSide(side) ==> p.x == e.x || p.x == e.x + b.width || p.y == e.y || p.y == e.y + b.height)
      && (!IsPortSide(side) ==> p == Centre(e))
      && (side == "top" ==> p == Point(Centre(e).x, e.y))
      && (side == "right" ==> p == Point(e.x + b.width, Centre(e).y))
      && (side == "bottom" ==> p == Point(Centre(e).x, e.y + b.height))
      && (side == "left" ==> p == Point(e.x, Centre(e).y))
  {
    var b := Dimensions(e.size);
    match side
    case "top" => Point(e.x + b.width / 2.0, e.y)
    case "right" => Point(e.x + b.width, e.y + b.height / 2.0)
    case "bottom" => Point(e.x + b.width / 2.0, e.y + b.height)
    case "left" => Point(e.x, e.y + b.height / 2.0)
    case _ => Point(e.x + b.width / 2.0, e.y + b.height / 2.0)
  }

  /** Opposite anchors are symmetric about the centre of the box. */
  lemma OppositeAnchorsAroundCentre(e: Element)
    ensures var t, b := EdgePoint(e, "top"), EdgePoint(e, "bottom");
      t.x == b.x == Centre(e).x && (t.y + b.y) / 2.0 == Centre(e).y
    ensures var l, r := EdgePoint(e, "left"), EdgePoint(e, "right");
      l.y == r.y == Centre(e).y && (l.x + r.x) / 2.0 == Centre(e).x
  {
  }

  /** Anchors carry no geometry of their own: moving an element moves all its anchors by the same amount. */
  lemma AnchorsFollowElement(e: Element, side: string, x: real, y: real)
    ensures EdgePoint(ApplyElementEdit(e, MoveTo(x, y)), side)
         == Add(EdgePoint(e, side), Point(x - e.x, y - e.y))
  {
  }

  /** `getConnectionPoint`: the anchor projected into the viewport with the live transform. */
  function ConnectionPoint(e: Element, side: string, t: Transform): (q: Point)
    ensures t.scale != 0.0 ==> ToCanvas(t, q) == EdgePoint(e, side)
  {
    ToScreen(t, EdgePoint(e, side))
  }

  /** One drawn connection: the connection and its two viewport end points. */
  datatype Segment = Segment(connection: Connection, start: Point, end: Point)

  /**
   * The lines drawn for the connection list, in order: each connection whose
   * two elements are found by id gives one segment between the projected
   * anchors; a connection with a missing element is skipped.
   */
  function Segments(els: seq<Element>, conns: seq<Connection>, t: Transform): (r: seq<Segment>)
    ensures |r| <= |conns|
    ensures forall sg :: sg in r ==>
      sg.connection in conns && HasElement(els, sg.connection.from.elementId) && HasElement(els, sg.connection.to.elementId)
    decreases |conns|
  {
    if conns == [] then []
    else
      var c := conns[0];
      var rest := Segments(els, conns[1..], t);
      var from, to := FindElement(els, c.from.elementId), FindElement(els, c.to.elementId);
      if from.Some? && to.Some? then
        [Segment(c, ConnectionPoint(from.value, c.from.side, t), ConnectionPoint(to.value, c.to.side, t))] + rest
      else rest
  }

  /** Both ends of `c` name an element of `els`: the condition under which the source draws `c`. */
  predicate Drawable(els: seq<Element>, c: Connection)
  {
    HasElement(els, c.from.elementId) && HasElement(els, c.to.elementId)
  }

  /** `Drawable` as the test of a `filter`. */
  function DrawableIn(els: seq<Element>): Connection -> bool
  {
    (c: Connection) => Drawable(els, c)
  }

  /** `sg` is `c` drawn between the projected anchors of elements of `els` named by its ends. */
  predicate DrawnFrom(els: seq<Element>, t: Transform, c: Connection, sg: Segment)
  {
    && sg.connection == c
    && (exists a :: a in els && a.id == c.from.elementId && sg.start == ConnectionPoint(a, c.from.side, t))
    && (exists b :: b in els && b.id == c.to.elementId && sg.end == ConnectionPoint(b, c.to.side, t))
  }

  /** A connection whose two elements are found contributes its segment in front of the rest. */
  lemma SegmentsStep(els: seq<Element>, conns: seq<Connection>, t: Transform)
    requires conns != []
    requires HasElement(els, conns[0].from.elementId) && HasElement(els, conns[0].to.elementId)
    ensures |Segments(els, conns, t)| == 1 + |Segments(els, conns[1..], t)|
    ensures DrawnFrom(els, t, conns[0], Segments(els, conns, t)[0])
    ensures forall i :: 0 < i < |Segments(els, conns, t)| ==>
      Segments(els, conns, t)[i] == Segments(els, conns[1..], t)[i - 1]
  {
    var c := conns[0];
    var fa := FindElement(els, c.from.elementId);
    var fb := FindElement(els, c.to.elementId);
    var head := Segment(c, ConnectionPoint(fa.value, c.from.side, t), ConnectionPoint(fb.value, c.to.side, t));
    assert Segments(els, conns, t) == [head] + Segments(els, conns[1..], t);
    assert fa.value in els && fa.value.id == c.from.elementId;
    assert fb.value in els && fb.value.id == c.to.elementId;
  }

  /**
   * Without dangling connections nothing is skipped: the i-th segment is the
   * i-th connection, drawn between the anchors of the elements its ends name.
   */
  lemma {:induction false} SegmentsComplete(els: seq<Element>, conns: seq<Connection>, t: Transform)
    requires NoDangling(els, conns)
    ensures |Segments(els, conns, t)| == |conns|
    ensures forall i :: 0 <= i < |conns| ==> DrawnFrom(els, t, conns[i], Segments(els, conns, t)[i])
    decreases |conns|
  {
    if conns != [] {
      var tail := conns[1..];
      assert conns[0] in conns;
      assert NoDangling(els, tail) by {
        forall d | d in tail ensures d in conns { }
      }
      SegmentsComplete(els, tail, t);
      SegmentsStep(els, conns, t);
      forall i | 0 < i < |conns|
        ensures DrawnFrom(els, t, conns[i], Segments(els, conns, t)[i])
      {
        assert conns[i] == tail[i - 1];
      }
    }
  }

  /** A connection with a missing element contributes nothing. */
  lemma SegmentsSkip(els: seq<Element>, conns: seq<Connection>, t: Transform)
    requires conns != [] && !Drawable(els, conns[0])
    ensures Segments(els, conns, t) == Segments(els, conns[1..], t)
  {
  }

  /**
   * For any connection list, dangling or not, the segments are the drawable
   * connections in their order, the i-th drawn between the anchors of the
   * elements its ends name.
   */
  lemma {:induction false} SegmentsOfDrawable(els: seq<Element>, conns: seq<Connection>, t: Transform)
    ensures |Segments(els, conns, t)| == |Filter(conns, DrawableIn(els))|
    ensures forall i :: 0 <= i < |Filter(conns, DrawableIn(els))| ==>
      DrawnFrom(els, t, Filter(conns, DrawableIn(els))[i], Segments(els, conns, t)[i])
    decreases |conns|
  {
    if conns != [] {
      var keep := DrawableIn(els);
      var f, rest := Filter(conns, keep), Filter(conns[1..], keep);
      SegmentsOfDrawable(els, conns[1..], t);
      if Drawable(els, conns[0]) {
        SegmentsStep(els, conns, t);
        assert f == [conns[0]] + rest;
        forall i | 0 < i < |f|
          ensures DrawnFrom(els, t, f[i], Segments(els, conns, t)[i])
        {
          assert f[i] == rest[i - 1];
        }
      } else {
        SegmentsSkip(els, conns, t);
        assert f == rest;
      }
    }
  }
}
