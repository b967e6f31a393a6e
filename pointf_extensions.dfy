/** PointF and RectangleF, and the PointfExtensions helpers over them. */
module PointfExtensions {
  datatype Point = Point(x: real, y: real)

  /** A RectangleF given by its left/top corner and its size. */
  datatype Rect = Rect(left: real, top: real, width: real, height: real)
  {
    function Right(): real { left + width }
    function Bottom(): real { top + height }
  }

  /** Wrap(float): a value below the range re-enters at max, one above it at min. */
  function Wrap(f: real, minValue: real, maxValue: real): real
  {
    if f < minValue then maxValue
    else if f > maxValue then minValue
    else f
  }

  /** Wrap(PointF, RectangleF): each coordinate wrapped independently. */
  function WrapPoint(p: Point, rect: Rect): Point
  {
    Point(Wrap(p.x, rect.left, rect.Right()), Wrap(p.y, rect.top, rect.Bottom()))
  }

  function Multiply(p: Point, factor: real): Point
  {
    Point(p.x * factor, p.y * factor)
  }

  function Add(p: Point, q: Point): Point
  {
    Point(p.x + q.x, p.y + q.y)
  }

  /** The Add(p, x, y) overload. */
  function AddXY(p: Point, x: real, y: real): Point
  {
    Point(p.x + x, p.y + y)
  }

  /** With a non-empty range the wrapped value lies in it, and values inside are kept. */
  lemma WrapInRange(f: real, minValue: real, maxValue: real)
    requires minValue <= maxValue
    ensures minValue <= Wrap(f, minValue, maxValue) <= maxValue
    ensures minValue <= f <= maxValue ==> Wrap(f, minValue, maxValue) == f
    ensures f < minValue ==> Wrap(f, minValue, maxValue) == maxValue
    ensures f > maxValue ==> Wrap(f, minValue, maxValue) == minValue
  {
  }

  /** A point with a non-negative-sized rectangle ends inside it, each axis on its own. */
  lemma WrapPointInside(p: Point, rect: Rect)
    requires rect.width >= 0.0 && rect.height >= 0.0
    ensures rect.left <= WrapPoint(p, rect).x <= rect.Right()
    ensures rect.top <= WrapPoint(p, rect).y <= rect.Bottom()
    ensures WrapPoint(p, rect).x == Wrap(p.x, rect.left, rect.Right())
    ensures WrapPoint(p, rect).y == Wrap(p.y, rect.top, rect.Bottom())
  {
  }

  /** Add(p, x, y) is Add(p, (x, y)); Add is commutative and has the origin as unit. */
  lemma AddProperties(p: Point, q: Point, x: real, y: real)
    ensures AddXY(p, x, y) == Add(p, Point(x, y))
    ensures Add(p, q) == Add(q, p)
    ensures Add(p, Point(0.0, 0.0)) == p
  {
  }

  /** Multiply scales both components; factor 1 keeps the point and 0 gives the origin. */
  lemma MultiplyProperties(p: Point, k: real)
    ensures Multiply(p, k).x == k * p.x && Multiply(p, k).y == k * p.y
    ensures Multiply(p, 1.0) == p
    ensures Multiply(p, 0.0) == Point(0.0, 0.0)
  {
  }
}
