/**
 * Logical coordinates of the compositing space. Window and output geometry is
 * integral (smithay's `Point<i32, Logical>`, `Size<i32, Logical>`); pointer
 * positions are fractional (`Point<f64, Logical>`), modelled as `real` without
 * floating-point rounding.
 */
module Geometry {
  import opened Options

  datatype Point = Point(x: int, y: int)
  {
    function Add(o: Point): Point { Point(x + o.x, y + o.y) }

    /** `Point::to_f64`. */
    function ToF64(): PointF { PointF(x as real, y as real) }
  }

  datatype PointF = PointF(x: real, y: real)
  {
    function Sub(o: PointF): PointF { PointF(x - o.x, y - o.y) }
  }

  datatype Size = Size(w: int, h: int)

  datatype Rect = Rect(loc: Point, size: Size)
  {
    /** Half-open containment, as `Rectangle::contains` on the rectangle converted to f64. */
    predicate Contains(p: PointF)
    {
      && loc.x as real <= p.x < (loc.x + size.w) as real
      && loc.y as real <= p.y < (loc.y + size.h) as real
    }
  }

  /** Index `i` holds the topmost (last) rectangle of `rects` containing `p`. */
  predicate TopmostHit(rects: seq<Rect>, i: int, p: PointF)
  {
    && 0 <= i < |rects|
    && rects[i].Contains(p)
    && forall j :: i < j < |rects| ==> !rects[j].Contains(p)
  }

  /** Walks `rects` from the top (the end) down and returns the first hit. */
  function LastContaining(rects: seq<Rect>, p: PointF): (r: Option<nat>)
    ensures r.Some? ==> TopmostHit(rects, r.value, p)
    ensures r.None? <==> forall j :: 0 <= j < |rects| ==> !rects[j].Contains(p)
  {
    if rects == [] then None
    else if rects[|rects| - 1].Contains(p) then Some(|rects| - 1)
    else LastContaining(rects[..|rects| - 1], p)
  }

  /** Moving a rectangle by `d` and moving the point by `d` keep containment. */
  lemma ContainsTranslated(r: Rect, d: Point, p: PointF)
    ensures Rect(r.loc.Add(d), r.size).Contains(p) <==> r.Contains(p.Sub(d.ToF64()))
  {
  }
}
