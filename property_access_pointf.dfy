/** PropertyAccessPointF: the componentwise arithmetic of point-valued properties. */
module PropertyAccessPointF {
  import opened PointfExtensions

  function Scale(value: Point, scale: real): Point
  {
    Point(value.x * scale, value.y * scale)
  }

  function Sum(v1: Point, v2: Point): Point
  {
    Point(v1.x + v2.x, v1.y + v2.y)
  }

  /** Each output component depends only on the same component of the inputs. */
  lemma ComponentsIndependent(p: Point, q: Point, p': Point, q': Point, s: real)
    ensures p.x == p'.x && q.x == q'.x ==> Sum(p, q).x == Sum(p', q').x && Scale(p, s).x == Scale(p', s).x
    ensures p.y == p'.y && q.y == q'.y ==> Sum(p, q).y == Sum(p', q').y && Scale(p, s).y == Scale(p', s).y
  {
  }
}
