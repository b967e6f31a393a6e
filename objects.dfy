/**
 * The falling-blocks pieces: a Shape owns four Cubes. An attached cube stores its
 * offset from the shape's position; a cube split from its shape stores its absolute
 * cell. Grid coordinates are whole cells.
 */
module Objects {
  import opened Wrappers
  import FloatHelper
  import opened GameParameters

  datatype ShapeStyle = I | L | J | O | S | T | Z

  /** The enum's underlying values: I = 1 up to Z = 7. */
  function StyleCode(s: ShapeStyle): int
  {
    match s
    case I => 1 case L => 2 case J => 3 case O => 4 case S => 5 case T => 6 case Z => 7
  }

  /** Enum.GetValues in declaration order. */
  const AllStyleValues: seq<ShapeStyle> := [I, L, J, O, S, T, Z]

  datatype Colour = Cyan | Orange | Blue | Yellow | Lime | Magenta | Red

  /** Cube.CreateImage: the colour resource per style value; any other value throws. */
  function CreateImage(code: int): (r: Result<Colour>)
    ensures r.Success? <==> 1 <= code <= 7
  {
    if code == 1 then Success(Cyan)
    else if code == 2 then Success(Orange)
    else if code == 3 then Success(Blue)
    else if code == 4 then Success(Yellow)
    else if code == 5 then Success(Lime)
    else if code == 6 then Success(Magenta)
    else if code == 7 then Success(Red)
    else Failure("ArgumentOutOfRangeException: shapeStyle")
  }

  /** Every style has an image, and different styles have different colours. */
  lemma EveryStyleHasItsOwnColour(a: ShapeStyle, b: ShapeStyle)
    ensures CreateImage(StyleCode(a)).Success?
    ensures a != b ==> CreateImage(StyleCode(a)) != CreateImage(StyleCode(b))
  {
  }

  datatype Cell = Cell(x: int, y: int)

  function AddCell(p: Cell, q: Cell): Cell
  {
    Cell(p.x + q.x, p.y + q.y)
  }

  /** A quarter turn clockwise on screen (y grows downwards): (x, y) becomes (-y, x). */
  function RotR(p: Cell): (r: Cell)
    ensures r == Cell(-p.y, p.x)
  {
    Cell(-p.y, p.x)
  }

  /** A quarter turn the other way: (x, y) becomes (y, -x). */
  function RotL(p: Cell): (r: Cell)
    ensures r == Cell(p.y, -p.x)
  {
    Cell(p.y, -p.x)
  }

  function MapRotR(ps: seq<Cell>): (r: seq<Cell>)
    ensures |r| == |ps| && forall i :: 0 <= i < |ps| ==> r[i] == RotR(ps[i])
  {
    seq(|ps|, i requires 0 <= i < |ps| => RotR(ps[i]))
  }

  function MapRotL(ps: seq<Cell>): (r: seq<Cell>)
    ensures |r| == |ps| && forall i :: 0 <= i < |ps| ==> r[i] == RotL(ps[i])
  {
    seq(|ps|, i requires 0 <= i < |ps| => RotL(ps[i]))
  }

  /** The offsets a style's constructor lays out. */
  function Layout(s: ShapeStyle): (r: seq<Cell>)
    ensures |r| == 4
  {
    match s
    case I => [Cell(-2, 0), Cell(-1, 0), Cell(0, 0), Cell(1, 0)]
    case L => [Cell(1, 0), Cell(0, 0), Cell(-1, 0), Cell(-1, 1)]
    case J => [Cell(-1, 0), Cell(0, 0), Cell(1, 0), Cell(1, 1)]
    case O => [Cell(0, 0), Cell(1, 0), Cell(0, 1), Cell(1, 1)]
    case S => [Cell(0, 0), Cell(1, 0), Cell(0, 1), Cell(-1, 1)]
    case T => [Cell(-1, 0), Cell(0, 0), Cell(1, 0), Cell(0, 1)]
    case Z => [Cell(-1, 0), Cell(0, 0), Cell(0, 1), Cell(1, 1)]
  }

  /** Every layout has four different cells. */
  lemma LayoutCellsDistinct(s: ShapeStyle)
    ensures forall i, j :: 0 <= i < j < 4 ==> Layout(s)[i] != Layout(s)[j]
  {
  }

  // ---------------------------------------------------------------------------
  // The rotation index of I pieces and the shift each turn applies.

  /** RotateRight on an I piece: the index steps up, wrapping from 3 to 0. */
  function NextIndexRight(i: int): int
  {
    if i + 1 > 3 then 0 else i + 1
  }

  /** RotateLeft on an I piece: the index steps down, wrapping from 0 to 3. */
  function NextIndexLeft(i: int): int
  {
    if i - 1 < 0 then 3 else i - 1
  }

  /** The shift RotateRight applies for the new index. */
  function ShiftRight(index: int): Cell
  {
    if index == 0 then Cell(1, 0)
    else if index == 1 then Cell(0, 1)
    else if index == 2 then Cell(-1, 0)
    else if index == 3 then Cell(0, -1)
    else Cell(0, 0)
  }

  /** The shift RotateLeft applies for the new index. */
  function ShiftLeft(index: int): Cell
  {
    if index == 0 then Cell(0, -1)
    else if index == 1 then Cell(1, 0)
    else if index == 2 then Cell(0, 1)
    else if index == 3 then Cell(-1, 0)
    else Cell(0, 0)
  }

  /** The state a rotation changes: the offsets, the rotation index and the position. */
  datatype Pose = Pose(offsets: seq<Cell>, index: int, position: Cell)

  function TurnRight(style: ShapeStyle, p: Pose): (r: Pose)
    ensures |r.offsets| == |p.offsets|
    ensures style == O ==> r == p
    ensures style != I ==> r.index == p.index && r.position == p.position
  {
    var offsets := if style != O then MapRotR(p.offsets) else p.offsets;
    if style == I then
      var index := NextIndexRight(p.index);
      Pose(offsets, index, AddCell(p.position, ShiftRight(index)))
    else Pose(offsets, p.index, p.position)
  }

  function TurnLeft(style: ShapeStyle, p: Pose): (r: Pose)
    ensures |r.offsets| == |p.offsets|
    ensures style == O ==> r == p
    ensures style != I ==> r.index == p.index && r.position == p.position
  {
    var offsets := if style != O then MapRotL(p.offsets) else p.offsets;
    if style == I then
      var index := NextIndexLeft(p.index);
      Pose(offsets, index, AddCell(p.position, ShiftLeft(index)))
    else Pose(offsets, p.index, p.position)
  }

  /** For I pieces the index stays in 0..3 under both turns. */
  lemma IndexStaysInRange(style: ShapeStyle, p: Pose)
    requires 0 <= p.index <= 3
    ensures 0 <= TurnRight(style, p).index <= 3 && 0 <= TurnLeft(style, p).index <= 3
  {
  }

  /** A left turn undoes a right turn, and a right turn undoes a left turn. */
  lemma TurnsAreInverse(style: ShapeStyle, p: Pose)
    requires 0 <= p.index <= 3
    ensures TurnLeft(style, TurnRight(style, p)) == p
    ensures TurnRight(style, TurnLeft(style, p)) == p
  {
    assert MapRotL(MapRotR(p.offsets)) == p.offsets;
    assert MapRotR(MapRotL(p.offsets)) == p.offsets;
  }

  /** Four right turns give back the original pose. */
  lemma FourRightTurnsAreIdentity(style: ShapeStyle, p: Pose)
    requires 0 <= p.index <= 3
    ensures TurnRight(style, TurnRight(style, TurnRight(style, TurnRight(style, p)))) == p
  {
    var r4 := TurnRight(style, TurnRight(style, TurnRight(style, TurnRight(style, p))));
    if style != O {
      assert r4.offsets == p.offsets;
    }
  }

  /** k left turns and k right turns, in either order: the rollback of a rotation attempt. */
  function TurnsLeft(style: ShapeStyle, p: Pose, k: nat): Pose
    decreases k
  {
    if k == 0 then p else TurnLeft(style, TurnsLeft(style, p, k - 1))
  }

  function TurnsRight(style: ShapeStyle, p: Pose, k: nat): Pose
    decreases k
  {
    if k == 0 then p else TurnRight(style, TurnsRight(style, p, k - 1))
  }

  lemma {:induction false} TurnsKeepIndexInRange(style: ShapeStyle, p: Pose, k: nat)
    requires 0 <= p.index <= 3
    ensures 0 <= TurnsLeft(style, p, k).index <= 3 && 0 <= TurnsRight(style, p, k).index <= 3
    ensures |TurnsLeft(style, p, k).offsets| == |p.offsets| == |TurnsRight(style, p, k).offsets|
    decreases k
  {
    if k > 0 {
      TurnsKeepIndexInRange(style, p, k - 1);
      IndexStaysInRange(style, TurnsLeft(style, p, k - 1));
      IndexStaysInRange(style, TurnsRight(style, p, k - 1));
    }
  }

  /** Undoing k left turns by k right turns restores offsets, index and position. */
  lemma {:induction false} RollbackRestores(style: ShapeStyle, p: Pose, k: nat)
    requires 0 <= p.index <= 3
    ensures TurnsRight(style, TurnsLeft(style, p, k), k) == p
    ensures TurnsLeft(style, TurnsRight(style, p, k), k) == p
    decreases k
  {
    if k > 0 {
      TurnsKeepIndexInRange(style, p, k - 1);
      RollbackRestores(style, p, k - 1);
      var q := TurnsLeft(style, p, k - 1);
      TurnsAreInverse(style, q);
      TurnsPeel(style, TurnLeft(style, q), k - 1, true);
      var q2 := TurnsRight(style, p, k - 1);
      TurnsAreInverse(style, q2);
      TurnsPeel(style, TurnRight(style, q2), k - 1, false);
    }
  }

  /** One turn followed by k - 1 turns the other way is k - 1 turns of a turned pose. */
  lemma {:induction false} TurnsPeel(style: ShapeStyle, p: Pose, k: nat, right: bool)
    ensures right ==> TurnsRight(style, p, k + 1) == TurnsRight(style, TurnRight(style, p), k)
    ensures !right ==> TurnsLeft(style, p, k + 1) == TurnsLeft(style, TurnLeft(style, p), k)
    decreases k
  {
    if k > 0 {
      TurnsPeel(style, p, k - 1, right);
    }
  }

  // ---------------------------------------------------------------------------
  // Bounding boxes and overlap.

  /** A RectangleF on whole cells: Right = Left + Width and Bottom = Top + Height. */
  datatype CellRect = CellRect(left: int, top: int, width: int, height: int)
  {
    function Right(): int { left + width }
    function Bottom(): int { top + height }
  }

  function MinX(cs: seq<Cell>): int
    requires |cs| > 0
    decreases |cs|
  {
    if |cs| == 1 then cs[0].x
    else
      var rest := MinX(cs[..|cs| - 1]);
      if cs[|cs| - 1].x < rest then cs[|cs| - 1].x else rest
  }

  function MaxX(cs: seq<Cell>): int
    requires |cs| > 0
    decreases |cs|
  {
    if |cs| == 1 then cs[0].x
    else
      var rest := MaxX(cs[..|cs| - 1]);
      if cs[|cs| - 1].x > rest then cs[|cs| - 1].x else rest
  }

  function MinY(cs: seq<Cell>): int
    requires |cs| > 0
    decreases |cs|
  {
    if |cs| == 1 then cs[0].y
    else
      var rest := MinY(cs[..|cs| - 1]);
      if cs[|cs| - 1].y < rest then cs[|cs| - 1].y else rest
  }

  function MaxY(cs: seq<Cell>): int
    requires |cs| > 0
    decreases |cs|
  {
    if |cs| == 1 then cs[0].y
    else
      var rest := MaxY(cs[..|cs| - 1]);
      if cs[|cs| - 1].y > rest then cs[|cs| - 1].y else rest
  }

  /** MinX, MaxX, MinY and MaxY bound every cell and are each attained by one. */
  lemma {:induction false} ExtremesAttained(cs: seq<Cell>)
    requires |cs| > 0
    ensures (forall i :: 0 <= i < |cs| ==> MinX(cs) <= cs[i].x <= MaxX(cs) && MinY(cs) <= cs[i].y <= MaxY(cs))
    ensures (exists i :: 0 <= i < |cs| && cs[i].x == MinX(cs)) && (exists i :: 0 <= i < |cs| && cs[i].x == MaxX(cs))
    ensures (exists i :: 0 <= i < |cs| && cs[i].y == MinY(cs)) && (exists i :: 0 <= i < |cs| && cs[i].y == MaxY(cs))
    decreases |cs|
  {
    if |cs| > 1 {
      var init := cs[..|cs| - 1];
      ExtremesAttained(init);
      assert forall i :: 0 <= i < |init| ==> init[i] == cs[i];
    }
  }

  /** The rectangle from the smallest to the largest X and Y of the cells. */
  function BoundingBox(cs: seq<Cell>): CellRect
    requires |cs| > 0
  {
    var x, y, x2, y2 := MinX(cs), MinY(cs), MaxX(cs), MaxY(cs);
    CellRect(x, y, x2 - x, y2 - y)
  }

  /** Every cell lies in the bounding box, and each of its four edges touches a cell. */
  lemma BoundingBoxTight(cs: seq<Cell>)
    requires |cs| > 0
    ensures var r := BoundingBox(cs);
            forall i :: 0 <= i < |cs| ==> r.left <= cs[i].x <= r.Right() && r.top <= cs[i].y <= r.Bottom()
    ensures var r := BoundingBox(cs);
            (exists i :: 0 <= i < |cs| && cs[i].x == r.left) && (exists i :: 0 <= i < |cs| && cs[i].x == r.Right())
    ensures var r := BoundingBox(cs);
            (exists i :: 0 <= i < |cs| && cs[i].y == r.top) && (exists i :: 0 <= i < |cs| && cs[i].y == r.Bottom())
  {
    ExtremesAttained(cs);
  }

  /** Some cell of a and some cell of b are FloatEquals in X and in Y. */
  predicate BlockedBy(a: seq<Cell>, b: seq<Cell>)
  {
    exists i, j :: 0 <= i < |a| && 0 <= j < |b| &&
      FloatHelper.FloatEquals(a[i].x as real, b[j].x as real) &&
      FloatHelper.FloatEquals(a[i].y as real, b[j].y as real)
  }

  /** On whole cells the tolerance test is exact: blocked iff the two share a cell. */
  lemma BlockedIffShared(a: seq<Cell>, b: seq<Cell>)
    ensures BlockedBy(a, b) <==> exists i, j :: 0 <= i < |a| && 0 <= j < |b| && a[i] == b[j]
  {
    if BlockedBy(a, b) {
      var i, j :| 0 <= i < |a| && 0 <= j < |b| &&
        FloatHelper.FloatEquals(a[i].x as real, b[j].x as real) &&
        FloatHelper.FloatEquals(a[i].y as real, b[j].y as real);
      FloatHelper.FloatEqualsOnIntegers(a[i].x, b[j].x);
      FloatHelper.FloatEqualsOnIntegers(a[i].y, b[j].y);
    }
    if exists i, j :: 0 <= i < |a| && 0 <= j < |b| && a[i] == b[j] {
      var i, j :| 0 <= i < |a| && 0 <= j < |b| && a[i] == b[j];
      FloatHelper.FloatEqualsReflexive(a[i].x as real);
      FloatHelper.FloatEqualsReflexive(a[i].y as real);
    }
  }

  // ---------------------------------------------------------------------------
  // Cube and Shape.

  class Cube {
    const style: ShapeStyle
    /** The offset from the shape while attached, the absolute cell once split. */
    var position: Cell
    var shape: Shape?
    /** The opacity of the cube's image. */
    var opacity: real
    /** The pixel position of the cube's image. */
    var imagePosition: Cell

    /** A new cube attached to a shape at its start offset, with a fully opaque image. */
    constructor(shape: Shape?, style: ShapeStyle, startPosition: Cell)
      ensures this.shape == shape && this.style == style && position == startPosition
      ensures opacity == FullOpacity && imagePosition == Cell(0, 0)
    {
      this.shape := shape;
      this.style := style;
      position := startPosition;
      opacity := FullOpacity;
      imagePosition := Cell(0, 0);
    }

    /** The Position getter: shape position plus the offset while attached, the stored cell otherwise. */
    function Position(): Cell
      reads this, shape
    {
      if shape != null then AddCell(shape.shapePosition, position) else position
    }

    /** The Position setter writes the stored cell; on a split cube it reads back as set. */
    method SetPosition(value: Cell)
      modifies this
      ensures position == value && shape == old(shape) && opacity == old(opacity) && imagePosition == old(imagePosition)
      ensures shape == null ==> Position() == value
    {
      position := value;
    }

    function RelativePosition(): Cell
      reads this
    {
      position
    }

    /** The RelativePosition setter writes the same stored cell as the Position setter. */
    method SetRelativePosition(value: Cell)
      modifies this
      ensures position == value && shape == old(shape) && opacity == old(opacity) && imagePosition == old(imagePosition)
      ensures RelativePosition() == value
    {
      position := value;
    }

    method SetOpacity(value: real)
      modifies this
      ensures opacity == value && position == old(position) && shape == old(shape) && imagePosition == old(imagePosition)
    {
      opacity := value;
    }

    /** SplitFromShape: the cube keeps its absolute cell and leaves its shape. */
    method SplitFromShape()
      modifies this
      ensures shape == null && Position() == old(Position())
      ensures opacity == old(opacity) && imagePosition == old(imagePosition)
    {
      position := Position();
      shape := null;
    }

    /** The image goes to the game field's corner plus 32 pixels per cell. */
    method UpdateImagePositions()
      modifies this
      ensures imagePosition == Cell(GameFieldLeft + old(Position()).x * ImageSize, GameFieldTop + old(Position()).y * ImageSize)
      ensures position == old(position) && shape == old(shape) && opacity == old(opacity)
    {
      var cubePosition := Position();
      imagePosition := Cell(GameFieldLeft + cubePosition.x * ImageSize, GameFieldTop + cubePosition.y * ImageSize);
    }
  }

  /** The absolute cells of a list of cubes. */
  function PositionsOf(cs: seq<Cube>): (r: seq<Cell>)
    reads set c | c in cs, set c | c in cs :: c.shape
    ensures |r| == |cs| && forall i :: 0 <= i < |cs| ==> r[i] == cs[i].Position()
  {
    seq(|cs|, i requires 0 <= i < |cs| reads set c | c in cs, set c | c in cs :: c.shape => cs[i].Position())
  }

  /** The stored cells of a list of cubes. */
  function StoredOf(cs: seq<Cube>): (r: seq<Cell>)
    reads cs
    ensures |r| == |cs| && forall i {:trigger r[i]} :: 0 <= i < |cs| ==> r[i] == cs[i].position
  {
    seq(|cs|, i requires 0 <= i < |cs| reads cs => cs[i].position)
  }

  class Shape {
    const style: ShapeStyle
    var shapePosition: Cell
    var cubes: seq<Cube>
    var ghostShape: Shape?
    var rotationIndex: int

    /** Four different cubes, and a rotation index in 0..3. */
    ghost predicate Valid()
      reads this`cubes, this`rotationIndex
    {
      |cubes| == 4 &&
      cubes[0] != cubes[1] && cubes[0] != cubes[2] && cubes[0] != cubes[3] &&
      cubes[1] != cubes[2] && cubes[1] != cubes[3] && cubes[2] != cubes[3] &&
      0 <= rotationIndex <= 3
    }

    /** Cube i of a valid shape is none of the other three. */
    lemma OthersDiffer(i: int)
      requires Valid() && 0 <= i < |cubes|
      ensures forall k :: 0 <= k < |cubes| && k != i ==> cubes[k] != cubes[i]
    {
    }

    /** Every cube still belongs to this shape. */
    predicate Attached()
      reads this`cubes, cubes
    {
      forall c :: c in cubes ==> c.shape == this
    }

    function Offsets(): seq<Cell>
      reads this`cubes, cubes
    {
      StoredOf(cubes)
    }

    function CurrentPose(): Pose
      reads this, cubes
    {
      Pose(Offsets(), rotationIndex, shapePosition)
    }

    /** The cubes' absolute cells. */
    function Cells(): seq<Cell>
      reads this, cubes, set c | c in cubes :: c.shape
    {
      PositionsOf(cubes)
    }

    /** The constructor lays out the style's four cubes, all at the given opacity. */
    constructor(style: ShapeStyle, opacity: real)
      ensures Valid() && Attached() && this.style == style
      ensures forall i :: 0 <= i < |cubes| ==> cubes[i].position == Layout(style)[i]
      ensures rotationIndex == 0 && shapePosition == Cell(0, 0) && ghostShape == null
      ensures forall c :: c in cubes ==> fresh(c) && c.opacity == opacity && c.style == style
    {
      this.style := style;
      shapePosition := Cell(0, 0);
      ghostShape := null;
      rotationIndex := 0;
      cubes := [];
      new;
      var layout := Layout(style);
      var c0 := new Cube(this, style, layout[0]);
      c0.opacity := opacity;
      var c1 := new Cube(this, style, layout[1]);
      c1.opacity := opacity;
      var c2 := new Cube(this, style, layout[2]);
      c2.opacity := opacity;
      var c3 := new Cube(this, style, layout[3]);
      c3.opacity := opacity;
      cubes := [c0, c1, c2, c3];
    }

    /** BoundingRectangle: min..max of the cubes' absolute X and Y. */
    function BoundingRectangle(): (r: CellRect)
      requires |cubes| > 0
      reads this, cubes, set c | c in cubes :: c.shape
      ensures forall i :: 0 <= i < |cubes| ==>
                r.left <= cubes[i].Position().x <= r.Right() && r.top <= cubes[i].Position().y <= r.Bottom()
    {
      BoundingBoxTight(Cells());
      BoundingBox(Cells())
    }

    /** Some cube of this shape and some static cube agree, within FloatEquals, in X and in Y. */
    predicate IsCurrentPositionBlocked(currentStaticCubes: seq<Cube>)
      reads this, cubes, set c | c in cubes :: c.shape
      reads set c | c in currentStaticCubes, set c | c in currentStaticCubes :: c.shape
    {
      BlockedBy(Cells(), PositionsOf(currentStaticCubes))
    }

    /** The foreach loop of RotateLeft: each cube's stored offset (x, y) becomes (y, -x). */
    method TurnCubesLeft()
      requires Valid()
      modifies cubes
      ensures Offsets() == MapRotL(old(Offsets()))
      ensures forall k :: 0 <= k < |cubes| ==> cubes[k].shape == old(cubes[k].shape) && cubes[k].opacity == old(cubes[k].opacity) && cubes[k].imagePosition == old(cubes[k].imagePosition)
    {
      ghost var before := Offsets();
      var i := 0;
      while i < |cubes|
        invariant 0 <= i <= |cubes|
        invariant forall k :: 0 <= k < |cubes| ==> cubes[k].position == if k < i then RotL(before[k]) else before[k]
        invariant forall k :: 0 <= k < |cubes| ==> cubes[k].shape == old(cubes[k].shape) && cubes[k].opacity == old(cubes[k].opacity) && cubes[k].imagePosition == old(cubes[k].imagePosition)
      {
        OthersDiffer(i);
        var x := cubes[i].RelativePosition().x;
        var y := cubes[i].RelativePosition().y;
        cubes[i].position := Cell(y, -x);
        i := i + 1;
      }
      assert forall k :: 0 <= k < |cubes| ==> Offsets()[k] == MapRotL(before)[k];
    }

    /** The foreach loop of RotateRight: each cube's stored offset (x, y) becomes (-y, x). */
    method TurnCubesRight()
      requires Valid()
      modifies cubes
      ensures Offsets() == MapRotR(old(Offsets()))
      ensures forall k :: 0 <= k < |cubes| ==> cubes[k].shape == old(cubes[k].shape) && cubes[k].opacity == old(cubes[k].opacity) && cubes[k].imagePosition == old(cubes[k].imagePosition)
    {
      ghost var before := Offsets();
      var i := 0;
      while i < |cubes|
        invariant 0 <= i <= |cubes|
        invariant forall k :: 0 <= k < |cubes| ==> cubes[k].position == if k < i then RotR(before[k]) else before[k]
        invariant forall k :: 0 <= k < |cubes| ==> cubes[k].shape == old(cubes[k].shape) && cubes[k].opacity == old(cubes[k].opacity) && cubes[k].imagePosition == old(cubes[k].imagePosition)
      {
        OthersDiffer(i);
        var x := cubes[i].RelativePosition().x;
        var y := cubes[i].RelativePosition().y;
        cubes[i].position := Cell(-y, x);
        i := i + 1;
      }
      assert forall k :: 0 <= k < |cubes| ==> Offsets()[k] == MapRotR(before)[k];
    }

    /** RotateLeft: (x, y) becomes (y, -x) unless O; I pieces step their index down and shift. */
    method RotateLeft()
      requires Valid()
      modifies this, cubes
      ensures Valid() && cubes == old(cubes) && ghostShape == old(ghostShape)
      ensures CurrentPose() == TurnLeft(style, old(CurrentPose()))
      ensures forall k :: 0 <= k < |cubes| ==> cubes[k].shape == old(cubes[k].shape) && cubes[k].opacity == old(cubes[k].opacity) && cubes[k].imagePosition == old(cubes[k].imagePosition)
    {
      if style != O {
        TurnCubesLeft();
      }
      if style == I {
        rotationIndex := rotationIndex - 1;
        if rotationIndex < 0 {
          rotationIndex := 3;
        }
        shapePosition := AddCell(shapePosition, ShiftLeft(rotationIndex));
      }
    }

    /** RotateRight: (x, y) becomes (-y, x) unless O; I pieces step their index up and shift. */
    method RotateRight()
      requires Valid()
      modifies this, cubes
      ensures Valid() && cubes == old(cubes) && ghostShape == old(ghostShape)
      ensures CurrentPose() == TurnRight(style, old(CurrentPose()))
      ensures forall k :: 0 <= k < |cubes| ==> cubes[k].shape == old(cubes[k].shape) && cubes[k].opacity == old(cubes[k].opacity) && cubes[k].imagePosition == old(cubes[k].imagePosition)
    {
      if style != O {
        TurnCubesRight();
      }
      if style == I {
        rotationIndex := rotationIndex + 1;
        if rotationIndex > 3 {
          rotationIndex := 0;
        }
        shapePosition := AddCell(shapePosition, ShiftRight(rotationIndex));
      }
    }

    /** SetOpacity: every cube's image gets the opacity; nothing else changes. */
    method SetOpacity(opacity: real)
      requires forall i, j :: 0 <= i < j < |cubes| ==> cubes[i] != cubes[j]
      modifies cubes
      ensures forall c :: c in cubes ==> c.opacity == opacity
      ensures forall c :: c in cubes ==> c.position == old(c.position) && c.shape == old(c.shape) && c.imagePosition == old(c.imagePosition)
    {
      var i := 0;
      while i < |cubes|
        invariant 0 <= i <= |cubes|
        invariant forall k :: 0 <= k < i ==> cubes[k].opacity == opacity
        invariant forall c :: c in cubes ==> c.position == old(c.position) && c.shape == old(c.shape) && c.imagePosition == old(c.imagePosition)
      {
        cubes[i].SetOpacity(opacity);
        i := i + 1;
      }
    }

    /** Split: every cube leaves the shape at its absolute cell; the shape's own list is returned. */
    method Split() returns (result: seq<Cube>)
      requires Valid() && Attached()
      modifies cubes
      ensures result == cubes
      ensures forall c :: c in cubes ==> c.shape == null && c.opacity == old(c.opacity)
      ensures StoredOf(cubes) == old(Cells()) && PositionsOf(cubes) == old(Cells())
    {
      ghost var before := Cells();
      var i := 0;
      while i < |cubes|
        invariant 0 <= i <= |cubes|
        invariant forall k :: 0 <= k < i ==> cubes[k].shape == null && cubes[k].position == before[k]
        invariant forall k :: i <= k < |cubes| ==> cubes[k].shape == this && cubes[k].position == old(cubes[k].position)
        invariant forall c :: c in cubes ==> c.opacity == old(c.opacity)
      {
        cubes[i].SplitFromShape();
        i := i + 1;
      }
      result := cubes;
    }

    /** Every cube's image is placed at its cell. */
    method UpdateImagePositions()
      requires forall i, j :: 0 <= i < j < |cubes| ==> cubes[i] != cubes[j]
      modifies cubes
      ensures forall k :: 0 <= k < |cubes| ==>
                cubes[k].imagePosition == Cell(GameFieldLeft + old(cubes[k].Position()).x * ImageSize,
                                               GameFieldTop + old(cubes[k].Position()).y * ImageSize)
      ensures forall c :: c in cubes ==> c.position == old(c.position) && c.shape == old(c.shape) && c.opacity == old(c.opacity)
    {
      var i := 0;
      while i < |cubes|
        invariant 0 <= i <= |cubes|
        invariant forall k :: 0 <= k < i ==>
                    cubes[k].imagePosition == Cell(GameFieldLeft + old(cubes[k].Position()).x * ImageSize,
                                                   GameFieldTop + old(cubes[k].Position()).y * ImageSize)
        invariant forall c :: c in cubes ==> c.position == old(c.position) && c.shape == old(c.shape) && c.opacity == old(c.opacity)
      {
        cubes[i].UpdateImagePositions();
        i := i + 1;
      }
    }
  }

  /** An attached shape's cells are its position plus its offsets. */
  lemma AttachedCells(s: Shape)
    requires s.Attached()
    ensures |s.Cells()| == |s.cubes| == |s.Offsets()|
    ensures forall i :: 0 <= i < |s.cubes| ==> s.Cells()[i] == AddCell(s.shapePosition, s.Offsets()[i])
  {
  }
}
