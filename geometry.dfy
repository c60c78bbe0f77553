/**
 * The canvas transform of the editor (src/app.jsx): the canvas element is drawn
 * with `translate(tx, ty) scale(scale)` and transform origin `0 0`, so a canvas
 * point p appears in the viewport at p * scale + (tx, ty).  This module holds the
 * two coordinate maps, the pan and zoom steps of the viewport's handlers and the
 * pointer-to-node offset arithmetic of a node drag.  Numbers are `real`s.
 */
module Geometry {

  /** A point, in viewport coordinates or in canvas coordinates. */
  datatype Point = Point(x: real, y: real)

  function Add(a: Point, b: Point): Point { Point(a.x + b.x, a.y + b.y) }

  function Sub(a: Point, b: Point): Point { Point(a.x - b.x, a.y - b.y) }

  /** The canvas transform: uniform scale, then translation. */
  datatype Transform = Transform(scale: real, tx: real, ty: real)

  /** The bounds of the zoom clamp. */
  const MinScale: real := 0.1
  const MaxScale: real := 10.0

  /** The transform the editor starts with (scale 1, translated by -5000 on both axes). */
  const InitialTransform: Transform := Transform(1.0, -5000.0, -5000.0)

  predicate ScaleInRange(t: Transform) { MinScale <= t.scale <= MaxScale }

  /**
   * Canvas point to viewport point.  With transform origin `0 0` the canvas
   * origin is drawn at the translation, and at scale 1 the map is a shift.
   */
  function ToScreen(t: Transform, p: Point): (r: Point)
    ensures p == Point(0.0, 0.0) ==> r == Point(t.tx, t.ty)
    ensures t.scale == 1.0 ==> r == Add(p, Point(t.tx, t.ty))
  {
    Point(p.x * t.scale + t.tx, p.y * t.scale + t.ty)
  }

  /** Division by a non-zero scale is undone by multiplying by it, and conversely. */
  lemma DivMulCancel(a: real, s: real)
    requires s != 0.0
    ensures (a / s) * s == a
    ensures (a * s) / s == a
  {
  }

  /** Viewport point to canvas point: the canvas point drawn under q. */
  function ToCanvas(t: Transform, q: Point): (p: Point)
    requires t.scale != 0.0
    ensures ToScreen(t, p) == q
  {
    DivMulCancel(q.x - t.tx, t.scale);
    DivMulCancel(q.y - t.ty, t.scale);
    Point((q.x - t.tx) / t.scale, (q.y - t.ty) / t.scale)
  }

  /** The two maps are inverse bijections while the scale is not zero. */
  lemma CanvasScreenInverse(t: Transform, p: Point, q: Point)
    requires t.scale != 0.0
    ensures ToCanvas(t, ToScreen(t, p)) == p
    ensures ToScreen(t, q) == p <==> q == ToCanvas(t, p)
  {
    DivMulCancel(p.x, t.scale);
    DivMulCancel(p.y, t.scale);
    DivMulCancel(q.x, t.scale);
    DivMulCancel(q.y, t.scale);
  }

  // ---------------------------------------------------------------- zoom

  /** The wheel's zoom factor: 0.9 when deltaY is positive, 1.1 otherwise (a zero delta zooms in). */
  function ZoomFactor(deltaY: real): (f: real)
    ensures f == 0.9 || f == 1.1
    ensures f < 1.0 <==> deltaY > 0.0
  {
    if deltaY > 0.0 then 0.9 else 1.1
  }

  /** `Math.min(Math.max(s, 0.1), 10)`. */
  function ClampScale(s: real): (r: real)
    ensures MinScale <= r <= MaxScale
    ensures MinScale <= s <= MaxScale ==> r == s
    ensures s < MinScale ==> r == MinScale
    ensures s > MaxScale ==> r == MaxScale
  {
    var lower := if s > MinScale then s else MinScale;
    if lower < MaxScale then lower else MaxScale
  }

  /**
   * One wheel event at viewport point `mouse`: the canvas point under the
   * pointer is computed with the current transform, the scale is multiplied by
   * the zoom factor and clamped, and the translation is re-derived so that the
   * same canvas point stays under the pointer.
   */
  function Zoom(t: Transform, mouse: Point, deltaY: real): (r: Transform)
    requires t.scale != 0.0
    ensures r.scale == ClampScale(t.scale * ZoomFactor(deltaY))
    ensures ScaleInRange(r)
    ensures ToCanvas(r, mouse) == ToCanvas(t, mouse)
  {
    var anchor := ToCanvas(t, mouse);
    var scale := ClampScale(t.scale * ZoomFactor(deltaY));
    DivMulCancel(anchor.x, scale);
    DivMulCancel(anchor.y, scale);
    Transform(scale, mouse.x - anchor.x * scale, mouse.y - anchor.y * scale)
  }

  /** The scale after n wheel events with the same sign of deltaY. */
  function ZoomSteps(s: real, deltaY: real, n: nat): (r: real)
    ensures n > 0 || (MinScale <= s <= MaxScale) ==> MinScale <= r <= MaxScale
    decreases n
  {
    if n == 0 then s else ZoomSteps(ClampScale(s * ZoomFactor(deltaY)), deltaY, n - 1)
  }

  function Max(a: real, b: real): real { if a < b then b else a }

  function Min(a: real, b: real): real { if a < b then a else b }

  /** s * 0.9^n: n zoom-outs without the clamp. */
  function Shrink(s: real, n: nat): real
    decreases n
  {
    if n == 0 then s else Shrink(s * 0.9, n - 1)
  }

  /** s * 1.1^n: n zoom-ins without the clamp. */
  function Grow(s: real, n: nat): real
    decreases n
  {
    if n == 0 then s else Grow(s * 1.1, n - 1)
  }

  lemma {:induction false} ShrinkBounds(a: real, b: real, n: nat)
    requires 0.0 <= a <= b
    ensures 0.0 <= Shrink(a, n) <= Shrink(b, n) <= b
    decreases n
  {
    if n > 0 { ShrinkBounds(a * 0.9, b * 0.9, n - 1); }
  }

  lemma {:induction false} GrowBounds(a: real, b: real, n: nat)
    requires 0.0 <= a <= b
    ensures a <= Grow(a, n) <= Grow(b, n)
    decreases n
  {
    if n > 0 { GrowBounds(a * 1.1, b * 1.1, n - 1); }
  }

  /** Zooming out n times from an in-range scale gives max(s * 0.9^n, 0.1). */
  lemma {:induction false} ZoomOutClosedForm(s: real, deltaY: real, n: nat)
    requires MinScale <= s <= MaxScale && deltaY > 0.0
    ensures ZoomSteps(s, deltaY, n) == Max(Shrink(s, n), MinScale)
    decreases n
  {
    if n > 0 {
      var next := ClampScale(s * 0.9);
      ZoomOutClosedForm(next, deltaY, n - 1);
      if s * 0.9 < MinScale {
        ShrinkBounds(s * 0.9, next, n - 1);
      }
    }
  }

  /** Zooming in n times from an in-range scale gives min(s * 1.1^n, 10). */
  lemma {:induction false} ZoomInClosedForm(s: real, deltaY: real, n: nat)
    requires MinScale <= s <= MaxScale && deltaY <= 0.0
    ensures ZoomSteps(s, deltaY, n) == Min(Grow(s, n), MaxScale)
    decreases n
  {
    if n > 0 {
      var next := ClampScale(s * 1.1);
      ZoomInClosedForm(next, deltaY, n - 1);
      if s * 1.1 > MaxScale {
        GrowBounds(next, s * 1.1, n - 1);
      }
    }
  }

  /**
   * From the initial scale 1, the 22nd zoom-out is the first to reach 0.1:
   * every earlier one stays above it, and none goes below it.
   */
  lemma ZoomOutFromOneReachesMin(deltaY: real, n: nat)
    requires deltaY > 0.0
    ensures InitialTransform.scale == 1.0
    ensures ZoomSteps(InitialTransform.scale, deltaY, 22) == MinScale
    ensures n < 22 ==> ZoomSteps(InitialTransform.scale, deltaY, n) > MinScale
    ensures n >= 22 ==> ZoomSteps(InitialTransform.scale, deltaY, n) == MinScale
  {
    ZoomOutClosedForm(1.0, deltaY, 22);
    ZoomOutClosedForm(1.0, deltaY, n);
    ShrinkFromOne();
    if n < 22 {
      ShrinkBounds(0.0, 1.0, n);
      ShrinkSplit(1.0, n, 21 - n);
      ShrinkBounds(Shrink(1.0, n), Shrink(1.0, n), 21 - n);
    } else {
      ShrinkBounds(0.0, 1.0, 22);
      ShrinkSplit(1.0, 22, n - 22);
      ShrinkBounds(Shrink(1.0, 22), Shrink(1.0, 22), n - 22);
    }
  }

  /**
   * From the initial scale 1, the 25th zoom-in is the first to reach 10:
   * every earlier one stays below it, and none goes above it.
   */
  lemma ZoomInFromOneReachesMax(deltaY: real, n: nat)
    requires deltaY <= 0.0
    ensures InitialTransform.scale == 1.0
    ensures ZoomSteps(InitialTransform.scale, deltaY, 25) == MaxScale
    ensures n < 25 ==> ZoomSteps(InitialTransform.scale, deltaY, n) < MaxScale
    ensures n >= 25 ==> ZoomSteps(InitialTransform.scale, deltaY, n) == MaxScale
  {
    ZoomInClosedForm(1.0, deltaY, 25);
    ZoomInClosedForm(1.0, deltaY, n);
    GrowFromOne();
    if n < 25 {
      GrowBounds(1.0, 1.0, n);
      GrowSplit(1.0, n, 24 - n);
      GrowBounds(Grow(1.0, n), Grow(1.0, n), 24 - n);
    } else {
      GrowSplit(1.0, 25, n - 25);
      GrowBounds(Grow(1.0, 25), Grow(1.0, 25), n - 25);
    }
  }

  lemma {:induction false} ShrinkSplit(s: real, m: nat, k: nat)
    ensures Shrink(s, m + k) == Shrink(Shrink(s, m), k)
    decreases m
  {
    if m > 0 { ShrinkSplit(s * 0.9, m - 1, k); }
  }

  lemma {:induction false} GrowSplit(s: real, m: nat, k: nat)
    ensures Grow(s, m + k) == Grow(Grow(s, m), k)
    decreases m
  {
    if m > 0 { GrowSplit(s * 1.1, m - 1, k); }
  }

  /** 0.9^21 is just above 0.1 and 0.9^22 just below it. */
  lemma ShrinkFromOne()
    ensures Shrink(1.0, 21) > MinScale
    ensures Shrink(1.0, 22) < MinScale
  {
    ShrinkSplit(1.0, 11, 10);
    ShrinkSplit(1.0, 11, 11);
    assert Shrink(1.0, 11) == 0.31381059609;
  }

  lemma GrowFromOne()
    ensures Grow(1.0, 24) < MaxScale
    ensures Grow(1.0, 25) > MaxScale
  {
    GrowSplit(1.0, 12, 12);
    GrowSplit(1.0, 24, 1);
    assert Grow(1.0, 12) == 3.138428376721;
    assert Grow(1.0, 24) == 9.849732675807611094711841;
  }

  // ----------------------------------------------------------------- pan

  /** One pan step: the raw pointer delta is added to the translation; the scale is kept. */
  function Pan(t: Transform, delta: Point): (r: Transform)
    ensures r.scale == t.scale
    ensures forall p :: ToScreen(r, p) == Add(ToScreen(t, p), delta)
  {
    PanShiftsScreen(t, delta);
    Transform(t.scale, t.tx + delta.x, t.ty + delta.y)
  }

  lemma PanShiftsScreen(t: Transform, delta: Point)
    ensures forall p :: ToScreen(Transform(t.scale, t.tx + delta.x, t.ty + delta.y), p) == Add(ToScreen(t, p), delta)
  {
    forall p ensures ToScreen(Transform(t.scale, t.tx + delta.x, t.ty + delta.y), p) == Add(ToScreen(t, p), delta) {
      var a, b := p.x * t.scale, p.y * t.scale;
      assert ToScreen(t, p) == Point(a + t.tx, b + t.ty);
    }
  }

  /** Panning by the pointer's motion keeps the grabbed canvas point under the pointer. */
  lemma PanKeepsGrabbedPoint(t: Transform, from: Point, to: Point)
    requires t.scale != 0.0
    ensures Pan(t, Sub(to, from)).scale == t.scale
    ensures ToCanvas(Pan(t, Sub(to, from)), to) == ToCanvas(t, from)
  {
  }

  /**
   * The translation after a run of pointer moves while panning: each move pans
   * by its distance from the previous pointer position, which then becomes the
   * new start.
   */
  function PanAlong(t: Transform, start: Point, moves: seq<Point>): Transform
    decreases |moves|
  {
    if moves == [] then t else PanAlong(Pan(t, Sub(moves[0], start)), moves[0], moves[1..])
  }

  /** A run of pan moves amounts to one pan by the pointer's total displacement. */
  lemma {:induction false} PanAlongTelescopes(t: Transform, start: Point, moves: seq<Point>)
    requires moves != []
    ensures PanAlong(t, start, moves) == Pan(t, Sub(moves[|moves| - 1], start))
    decreases |moves|
  {
    if |moves| > 1 {
      PanAlongTelescopes(Pan(t, Sub(moves[0], start)), moves[0], moves[1..]);
    }
  }

  // ---------------------------------------------------------------- drag

  /**
   * The offset captured at mouse-down on a node: the pointer's canvas position
   * (through the transform snapshot taken then) minus the node's position.
   */
  function DragOffset(snapshot: Transform, pointer: Point, position: Point): (r: Point)
    requires snapshot.scale != 0.0
    ensures ToScreen(snapshot, Add(position, r)) == pointer
  {
    Sub(ToCanvas(snapshot, pointer), position)
  }

  /** The node position written for a pointer move: canvas pointer minus the captured offset. */
  function DragTarget(snapshot: Transform, offset: Point, pointer: Point): (r: Point)
    requires snapshot.scale != 0.0
    ensures ToScreen(snapshot, Add(r, offset)) == pointer
  {
    Sub(ToCanvas(snapshot, pointer), offset)
  }

  /**
   * A drag keeps the pointer-to-node offset: the node moves by the pointer's
   * viewport motion divided by the scale, and a move back to the mouse-down
   * point puts the node back where it was.
   */
  lemma DragKeepsOffset(snapshot: Transform, down: Point, position: Point, pointer: Point)
    requires snapshot.scale != 0.0
    ensures var target := DragTarget(snapshot, DragOffset(snapshot, down, position), pointer);
      && Sub(ToCanvas(snapshot, pointer), target) == Sub(ToCanvas(snapshot, down), position)
      && target.x == position.x + (pointer.x - down.x) / snapshot.scale
      && target.y == position.y + (pointer.y - down.y) / snapshot.scale
      && (pointer == down ==> target == position)
  {
  }

  /**
   * A node at canvas (100, 100), pressed at canvas (110, 105) and moved to
   * canvas (200, 205), lands at (190, 200), whatever the transform.
   */
  lemma DragExample(snapshot: Transform)
    requires snapshot.scale != 0.0
    ensures var down := ToScreen(snapshot, Point(110.0, 105.0));
      var offset := DragOffset(snapshot, down, Point(100.0, 100.0));
      && offset == Point(10.0, 5.0)
      && DragTarget(snapshot, offset, ToScreen(snapshot, Point(200.0, 205.0))) == Point(190.0, 200.0)
  {
    CanvasScreenInverse(snapshot, Point(110.0, 105.0), Point(0.0, 0.0));
    CanvasScreenInverse(snapshot, Point(200.0, 205.0), Point(0.0, 0.0));
  }
}
