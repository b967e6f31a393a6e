/**
 * PropertyAccess: a getter/setter pair over one property of a render object,
 * with the Scale/Sum/Difference algebra the animators use. A property value is
 * either a float or a point; the six accessors of ARenderObject fix which.
 */
module PropertyAccess {
  import opened PointfExtensions
  import F = PropertyAccessFloat
  import P = PropertyAccessPointF

  datatype Value = FloatValue(f: real) | PointValue(p: Point)

  predicate SameKind(v1: Value, v2: Value)
  {
    v1.FloatValue? <==> v2.FloatValue?
  }

  /** Scale dispatches to the float or the point implementation. */
  function Scale(value: Value, scale: real): (r: Value)
    ensures SameKind(r, value)
  {
    match value
    case FloatValue(f) => FloatValue(F.Scale(f, scale))
    case PointValue(p) => PointValue(P.Scale(p, scale))
  }

  /** Sum of two values of the same kind (the generic parameter of the C# class fixes it). */
  function Sum(v1: Value, v2: Value): (r: Value)
    requires SameKind(v1, v2)
    ensures SameKind(r, v1)
  {
    match v1
    case FloatValue(a) => FloatValue(F.Sum(a, v2.f))
    case PointValue(p) => PointValue(P.Sum(p, v2.p))
  }

  /** The default Difference: v1 plus v2 scaled by -1. */
  function Difference(v1: Value, v2: Value): (r: Value)
    requires SameKind(v1, v2)
    ensures SameKind(r, v1)
  {
    Sum(v1, Scale(v2, -1.0))
  }

  /** Over reals the inherited Difference is subtraction, componentwise for points. */
  lemma DifferenceIsSubtraction(v1: Value, v2: Value)
    requires SameKind(v1, v2)
    ensures v1.FloatValue? ==> Difference(v1, v2) == FloatValue(v1.f - v2.f)
    ensures v1.PointValue? ==> Difference(v1, v2) == PointValue(Point(v1.p.x - v2.p.x, v1.p.y - v2.p.y))
  {
  }

  /**
   * The interpolation start + (target - start) * factor used by the animator
   * hits the start at factor 0 and the target at factor 1.
   */
  function Interpolate(start: Value, target: Value, factor: real): (r: Value)
    requires SameKind(start, target)
    ensures SameKind(r, start)
  {
    Sum(start, Scale(Difference(target, start), factor))
  }

  lemma InterpolationEndpoints(start: Value, target: Value)
    requires SameKind(start, target)
    ensures Interpolate(start, target, 0.0) == start
    ensures Interpolate(start, target, 1.0) == target
  {
  }

  /** Scaling any difference by 0 and adding it changes nothing. */
  lemma SumScaledByZero(a: Value, d: Value)
    requires SameKind(a, d)
    ensures Sum(a, Scale(d, 0.0)) == a
  {
  }

  /** Adding delta n times is adding delta scaled by n. */
  function SumRepeated(v: Value, delta: Value, n: nat): (r: Value)
    requires SameKind(v, delta)
    ensures SameKind(r, v)
  {
    if n == 0 then v else Sum(SumRepeated(v, delta, n - 1), delta)
  }

  lemma {:induction false} SumRepeatedIsScaled(v: Value, delta: Value, n: nat)
    requires SameKind(v, delta)
    ensures SumRepeated(v, delta, n) == Sum(v, Scale(delta, n as real))
  {
    if n > 0 {
      SumRepeatedIsScaled(v, delta, n - 1);
    }
  }

  // ---------------------------------------------------------------------------
  // The six accessors of ARenderObject over its animatable properties.

  datatype Accessor =
    | RotationAccess | ScaleAccess | OpacityAccess | RotationSpeedAccess
    | PositionAccess | SpeedAccess

  /** The animatable properties of a render object. */
  datatype Properties = Properties(
    position: Point, speed: Point,
    rotation: real, rotationSpeed: real, scale: real, opacity: real)

  /** Position and Speed are points, the other four floats. */
  predicate HasKind(a: Accessor, v: Value)
  {
    if a == PositionAccess || a == SpeedAccess then v.PointValue? else v.FloatValue?
  }

  /** GetValue: the accessor's getter applied to the object. */
  function GetValue(a: Accessor, obj: Properties): (v: Value)
    ensures HasKind(a, v)
  {
    match a
    case RotationAccess => FloatValue(obj.rotation)
    case ScaleAccess => FloatValue(obj.scale)
    case OpacityAccess => FloatValue(obj.opacity)
    case RotationSpeedAccess => FloatValue(obj.rotationSpeed)
    case PositionAccess => PointValue(obj.position)
    case SpeedAccess => PointValue(obj.speed)
  }

  /** SetValue: the accessor's setter; nothing else is written. */
  function SetValue(a: Accessor, obj: Properties, v: Value): Properties
    requires HasKind(a, v)
  {
    match a
    case RotationAccess => obj.(rotation := v.f)
    case ScaleAccess => obj.(scale := v.f)
    case OpacityAccess => obj.(opacity := v.f)
    case RotationSpeedAccess => obj.(rotationSpeed := v.f)
    case PositionAccess => obj.(position := v.p)
    case SpeedAccess => obj.(speed := v.p)
  }

  /** Set-then-get returns the value set, and the other five properties are unchanged. */
  lemma SetThenGet(a: Accessor, obj: Properties, v: Value)
    requires HasKind(a, v)
    ensures GetValue(a, SetValue(a, obj, v)) == v
    ensures forall b :: b != a ==> GetValue(b, SetValue(a, obj, v)) == GetValue(b, obj)
  {
  }

  /** Writing back what was read changes nothing. */
  lemma SetOwnValue(a: Accessor, obj: Properties)
    ensures SetValue(a, obj, GetValue(a, obj)) == obj
  {
  }

  /** Values of an accessor's kind are closed under the algebra. */
  lemma KindIsSharedWithinAccessor(a: Accessor, v1: Value, v2: Value)
    requires HasKind(a, v1) && HasKind(a, v2)
    ensures SameKind(v1, v2)
  {
  }
}
