/**
 * FallingBlocksGameScene: the game field, the moving shape, its ghost and the next
 * shape, the automatic step, the key handling and the line clearing.
 *
 * The field (currentGameField) is a 12 x 22 array indexed [x, y]. It holds the
 * landed cubes by value (style, cell, image opacity). The list of static cubes the
 * scene keeps beside it (currentStaticCubes) names the same cubes at the same cells, so the model reads
 * it off the field (see StaticCubesAgree).
 */
module GameScene {
  import opened Wrappers
  import Events
  import opened Objects
  import opened GameParameters
  import opened GameField
  import opened GameRules
  import opened GameGrid
  import FloatHelper
  import ListExtensions
  import SceneGraph

  // ---------------------------------------------------------------------------
  // Shapes as the scene uses them.

  /** The shape each cube of the list belongs to; null once split. */
  function ShapesOf(cubes: seq<Cube>): (r: seq<Shape?>)
    reads cubes
    ensures |r| == |cubes| && forall i {:trigger r[i]} :: 0 <= i < |cubes| ==> r[i] == cubes[i].shape
  {
    seq(|cubes|, i requires 0 <= i < |cubes| reads cubes => cubes[i].shape)
  }

  /** Four different cubes, each still attached to the shape or split from it. */
  ghost predicate ShapeParts(s: Shape)
    reads s`cubes, s`rotationIndex, s.cubes
  {
    s.Valid() && Owned(s, s.cubes)
  }

  /** Every cube of the list belongs to s or to no shape. */
  predicate Owned(s: Shape, cubes: seq<Cube>)
    reads cubes
  {
    forall i :: 0 <= i < |cubes| ==> ShapesOf(cubes)[i] == s || ShapesOf(cubes)[i] == null
  }

  /** Every owner in the list is s. */
  predicate AllOf(s: Shape, shapes: seq<Shape?>)
  {
    forall i :: 0 <= i < |shapes| ==> shapes[i] == s
  }

  /** Every cube of the list belongs to s: Shape.Attached, with a frame of the cubes alone. */
  predicate Joined(s: Shape, cubes: seq<Cube>)
    reads cubes
  {
    AllOf(s, ShapesOf(cubes))
  }

  /** Every cube of the list has been split off, as after Split. */
  predicate Detached(cubes: seq<Cube>)
    reads cubes
  {
    forall i :: 0 <= i < |cubes| ==> ShapesOf(cubes)[i] == null
  }

  /** Some cube of the list has been split off: it is then one of the static cubes itself. */
  predicate SomeDetached(cubes: seq<Cube>)
    reads cubes
  {
    null in ShapesOf(cubes)
  }

  /** The cells of cubes with the given owners and stored cells, their shape s standing at p. */
  function CellsFrom(s: Shape, shapes: seq<Shape?>, stored: seq<Cell>, p: Cell): (r: seq<Cell>)
    requires |shapes| == |stored|
    ensures |r| == |stored|
    ensures forall i {:trigger r[i]} :: 0 <= i < |stored| ==> r[i] == if shapes[i] == s then AddCell(p, stored[i]) else stored[i]
  {
    seq(|stored|, i requires 0 <= i < |stored| => if shapes[i] == s then AddCell(p, stored[i]) else stored[i])
  }

  /** The cells of a shape's cubes if the shape stood at p: attached cubes move with it. */
  function CellsAt(s: Shape, cubes: seq<Cube>, p: Cell): (r: seq<Cell>)
    reads cubes
    ensures |r| == |cubes|
  {
    CellsFrom(s, ShapesOf(cubes), StoredOf(cubes), p)
  }

  /** The cells the shape covers where it stands. */
  function Placed(s: Shape): seq<Cell>
    reads s`cubes, s`shapePosition, s.cubes
  {
    CellsAt(s, s.cubes, s.shapePosition)
  }

  /** For a shape whose cubes are its own or split, Cells (the cubes' Position getters) is Placed. */
  lemma CellsArePlaced(s: Shape)
    requires ShapeParts(s)
    ensures s.Cells() == Placed(s)
  {
  }

  /** An attached shape covers its offsets moved to its position, and moves with it. */
  lemma AttachedCellsAt(s: Shape, cubes: seq<Cube>, p: Cell, q: Cell)
    requires Joined(s, cubes)
    ensures CellsAt(s, cubes, p) == Shifted(StoredOf(cubes), p)
    ensures CellsAt(s, cubes, AddCell(p, q)) == Shifted(CellsAt(s, cubes, p), q)
  {
  }

  /** A shape in play: attached, with offsets within two cells, every cube inside the field. */
  ghost predicate InPlay(s: Shape)
    reads s`cubes, s`shapePosition, s.cubes
  {
    InPlayAt(s, s.cubes, s.shapePosition)
  }

  /** The shape's cubes, attached and small, lie inside the field with the shape at p. */
  ghost predicate InPlayAt(s: Shape, cubes: seq<Cube>, p: Cell)
    reads cubes
  {
    InPlayFrom(s, ShapesOf(cubes), StoredOf(cubes), p)
  }

  /** InPlayAt on the owners and stored cells of the cubes. */
  ghost predicate InPlayFrom(s: Shape, shapes: seq<Shape?>, stored: seq<Cell>, p: Cell)
    requires |shapes| == |stored|
  {
    AllOf(s, shapes) && Small(stored) && AllInField(CellsFrom(s, shapes, stored, p))
  }

  /** A ghost shape as the scene keeps it: four cubes, all attached, with small offsets. */
  ghost predicate GhostParts(g: Shape)
    reads g`cubes, g`rotationIndex, g.cubes
  {
    ShapeParts(g) && Joined(g, g.cubes) && Small(StoredOf(g.cubes))
  }

  /** The shape waiting as the next one: attached at the start point, unturned, without a ghost. */
  ghost predicate Spare(s: Shape)
    reads s`cubes, s`rotationIndex, s`ghostShape, s.cubes
  {
    ShapeParts(s) && Joined(s, s.cubes) && InPlayAt(s, s.cubes, ShapesStartPoint) &&
    s.rotationIndex == 0 && s.ghostShape == null
  }

  /** A shape that has just become the moving shape: all its cubes attached, in play, without a ghost yet. */
  ghost predicate Entered(s: Shape)
    reads s`cubes, s`rotationIndex, s`shapePosition, s`ghostShape, s.cubes
  {
    ShapeParts(s) && InPlay(s) && s.ghostShape == null && forall c :: c in s.cubes ==> c.shape == s
  }

  function CubeSet(s: Shape): set<object>
    reads s`cubes
  {
    set c | c in s.cubes
  }

  /** Two different shapes that share no cube. */
  ghost predicate Separate(a: Shape, b: Shape)
    reads a`cubes, b`cubes
  {
    a != b && Apart(a.cubes, b.cubes)
  }

  /** cubes[i], named so that Apart is used only where a proof asks for it (see ApartCubes). */
  function CubeAt(cubes: seq<Cube>, i: int): Cube
    requires 0 <= i < |cubes|
  {
    cubes[i]
  }

  /** No cube of one list is a cube of the other. */
  ghost predicate Apart(x: seq<Cube>, y: seq<Cube>)
  {
    forall i, j {:trigger CubeAt(x, i), CubeAt(y, j)} :: 0 <= i < |x| && 0 <= j < |y| ==> CubeAt(x, i) != CubeAt(y, j)
  }

  /** Apart, cube by cube. */
  lemma ApartCubes(x: seq<Cube>, y: seq<Cube>)
    requires Apart(x, y)
    ensures forall i, j :: 0 <= i < |x| && 0 <= j < |y| ==> x[i] != y[j]
  {
    forall i, j | 0 <= i < |x| && 0 <= j < |y|
      ensures x[i] != y[j]
    {
      assert CubeAt(x, i) != CubeAt(y, j);
    }
  }

  /** Apart, as membership: no cube of y is in x. */
  lemma ApartFrom(x: seq<Cube>, y: seq<Cube>)
    requires Apart(x, y)
    ensures forall j :: 0 <= j < |y| ==> y[j] !in x
  {
    forall j | 0 <= j < |y|
      ensures y[j] !in x
    {
      forall i | 0 <= i < |x|
        ensures x[i] != y[j]
      {
        assert CubeAt(x, i) != CubeAt(y, j);
      }
    }
  }

  /** The cubes of the shape's ghost, if it has one. */
  function GhostCubes(s: Shape): seq<Cube>
    reads s`ghostShape, {s.ghostShape}`cubes
  {
    if s.ghostShape != null then s.ghostShape.cubes else []
  }

  /** The shape and its ghost as a rotation needs them: the ghost attached and sharing no cube. */
  ghost predicate Rig(s: Shape)
    reads s`cubes, s`rotationIndex, s`ghostShape, s.cubes, {s.ghostShape}`cubes, {s.ghostShape}`rotationIndex, GhostCubes(s)
  {
    ShapeParts(s) &&
    (s.ghostShape != null ==> s.ghostShape.Valid() && Joined(s.ghostShape, s.ghostShape.cubes) && Separate(s, s.ghostShape))
  }

  /** The ghost's pose, or a fixed pose when there is no ghost. */
  function GhostPose(s: Shape): Pose
    reads s, s.ghostShape, GhostCubes(s)
  {
    if s.ghostShape != null then s.ghostShape.CurrentPose() else Pose([], 0, Cell(0, 0))
  }

  function Turned(style: ShapeStyle, p: Pose, left: bool): (r: Pose)
    ensures |r.offsets| == |p.offsets|
  {
    if left then TurnLeft(style, p) else TurnRight(style, p)
  }

  /** k turns in one direction; the ghost's pose stays as it is without a ghost. */
  function Turns(style: ShapeStyle, p: Pose, k: nat, left: bool): Pose
  {
    if left then TurnsLeft(style, p, k) else TurnsRight(style, p, k)
  }

  function GhostTurns(s: Shape, p: Pose, k: nat, left: bool): Pose
    reads s, s.ghostShape
  {
    if s.ghostShape != null then Turns(s.ghostShape.style, p, k, left) else p
  }

  /** One more turn of the ghost after k of them is k + 1 turns. */
  lemma TurnsStep(s: Shape, g: Pose, k: nat, left: bool)
    ensures s.ghostShape != null ==> GhostTurns(s, g, k + 1, left) == Turned(s.ghostShape.style, GhostTurns(s, g, k, left), left)
  {
  }

  /** A pose without its place: what a rotation changes besides the position. */
  function Orient(p: Pose): Pose
  {
    p.(position := Cell(0, 0))
  }

  /** Turns act on offsets and index alone, so poses that differ only in place stay so. */
  lemma OrientTurns(style: ShapeStyle, p: Pose, q: Pose)
    requires Orient(p) == Orient(q)
    ensures Orient(TurnLeft(style, p)) == Orient(TurnLeft(style, q))
    ensures Orient(TurnRight(style, p)) == Orient(TurnRight(style, q))
  {
  }

  /** One pass of TryRotate: turn, then MoveIntoView by the turned shape's box. */
  function Attempt(s: Shape, shapes: seq<Shape?>, p: Pose, left: bool): (r: Pose)
    requires |shapes| == |p.offsets| > 0
    ensures |r.offsets| == |p.offsets|
    ensures Orient(r) == Orient(Turned(s.style, p, left))
  {
    var t := Turned(s.style, p, left);
    t.(position := AddCell(t.position, IntoViewShift(BoundingBox(CellsFrom(s, shapes, t.offsets, t.position)))))
  }

  /** The pose after k passes of TryRotate. */
  function Attempts(s: Shape, shapes: seq<Shape?>, p: Pose, k: nat, left: bool): (r: Pose)
    requires |shapes| == |p.offsets| > 0
    ensures |r.offsets| == |p.offsets|
    decreases k
  {
    if k == 0 then p else Attempt(s, shapes, Attempts(s, shapes, p, k - 1, left), left)
  }

  /** k passes turn the shape as k plain turns do; only the place differs. */
  lemma {:induction false} AttemptsOrient(s: Shape, shapes: seq<Shape?>, p: Pose, k: nat, left: bool)
    requires |shapes| == |p.offsets| > 0
    ensures Orient(Attempts(s, shapes, p, k, left)) == Orient(Turns(s.style, p, k, left))
    decreases k
  {
    if k > 0 {
      AttemptsOrient(s, shapes, p, k - 1, left);
      OrientTurns(s.style, Attempts(s, shapes, p, k - 1, left), Turns(s.style, p, k - 1, left));
    }
  }

  /** A cell inside the field that holds a landed cube, on the field's rows of tiles. */
  predicate Taken(rows: seq<Row>, c: Cell)
  {
    InField(c) && c.y < |rows| && c.x < |rows[c.y]| && rows[c.y][c.x].Filled?
  }

  /** IsCurrentPositionBlocked on the field's tiles: a split cube, or a covered cell that is taken. */
  predicate BlockedIn(rows: seq<Row>, shapes: seq<Shape?>, cells: seq<Cell>)
  {
    null in shapes || exists i :: 0 <= i < |cells| && Taken(rows, cells[i])
  }

  /** Whether pass k of a rotation that starts from pose p is blocked on the given field. */
  predicate AttemptBlocked(rows: seq<Row>, s: Shape, shapes: seq<Shape?>, p: Pose, k: nat, left: bool)
    requires |shapes| == |p.offsets| > 0
  {
    var a := Attempts(s, shapes, p, k, left);
    BlockedIn(rows, shapes, CellsFrom(s, shapes, a.offsets, a.position))
  }

  /** Which of passes 1..n of a rotation are blocked: entry i tells of pass i + 1. */
  function PassesBlocked(rows: seq<Row>, s: Shape, shapes: seq<Shape?>, p: Pose, n: nat, left: bool): (r: seq<bool>)
    requires |shapes| == |p.offsets| > 0
    ensures |r| == n
  {
    seq(n, i requires 0 <= i < n => AttemptBlocked(rows, s, shapes, p, i + 1, left))
  }

  /** Entry k of PassesBlocked tells whether the shape, turned and moved into view from pass k, is blocked. */
  lemma PassBlockedAt(rows: seq<Row>, s: Shape, shapes: seq<Shape?>, p: Pose, n: nat, left: bool, k: nat)
    requires |shapes| == |p.offsets| > 0 && k < n
    ensures var a := Attempt(s, shapes, Attempts(s, shapes, p, k, left), left);
            PassesBlocked(rows, s, shapes, p, n, left)[k] == BlockedIn(rows, shapes, CellsFrom(s, shapes, a.offsets, a.position))
  {
    hide Attempt, BlockedIn, CellsFrom;
    assert Attempts(s, shapes, p, k + 1, left) == Attempt(s, shapes, Attempts(s, shapes, p, k, left), left);
    assert PassesBlocked(rows, s, shapes, p, n, left)[k] == AttemptBlocked(rows, s, shapes, p, k + 1, left);
  }

  /** Entry i - 1 of PassesBlocked is pass i. */
  lemma PassesBlockedEntry(rows: seq<Row>, s: Shape, shapes: seq<Shape?>, p: Pose, n: nat, left: bool, i: nat)
    requires |shapes| == |p.offsets| > 0 && 1 <= i <= n
    ensures PassesBlocked(rows, s, shapes, p, n, left)[i - 1] == AttemptBlocked(rows, s, shapes, p, i, left)
  {
  }

  /** The number of the first pass after the first j whose entry is false, or 0 when there is none. */
  function FirstFree(bs: seq<bool>, j: nat): (k: nat)
    ensures k == 0 || j < k <= |bs|
    decreases |bs| - j
  {
    if j >= |bs| then 0
    else if !bs[j] then j + 1
    else FirstFree(bs, j + 1)
  }

  /** FirstFree from entry j: 0 exactly when entries j.. are all true, else a false entry after true ones. */
  lemma {:induction false} FirstFreeFrom(bs: seq<bool>, j: nat)
    ensures var k := FirstFree(bs, j);
            (k == 0 <==> forall i :: j <= i < |bs| ==> bs[i]) &&
            (k > 0 ==> !bs[k - 1] && forall i :: j <= i < k - 1 ==> bs[i])
    decreases |bs| - j
  {
    if j < |bs| && bs[j] {
      FirstFreeFrom(bs, j + 1);
    }
  }

  /** A rotation ends on no pass, and rolls back, exactly when every pass it may make is blocked. */
  lemma FirstFreeNone(rows: seq<Row>, s: Shape, shapes: seq<Shape?>, p: Pose, n: nat, left: bool)
    requires |shapes| == |p.offsets| > 0
    ensures FirstFree(PassesBlocked(rows, s, shapes, p, n, left), 0) == 0 <==>
            forall i :: 1 <= i <= n ==> AttemptBlocked(rows, s, shapes, p, i, left)
  {
    var bs := PassesBlocked(rows, s, shapes, p, n, left);
    FirstFreeFrom(bs, 0);
    forall i | 1 <= i <= n
      ensures bs[i - 1] == AttemptBlocked(rows, s, shapes, p, i, left)
    {
      PassesBlockedEntry(rows, s, shapes, p, n, left, i);
    }
  }

  /** Otherwise it ends on a pass it may make that is not blocked, ... */
  lemma FirstFreeFree(rows: seq<Row>, s: Shape, shapes: seq<Shape?>, p: Pose, n: nat, left: bool)
    requires |shapes| == |p.offsets| > 0
    ensures var k := FirstFree(PassesBlocked(rows, s, shapes, p, n, left), 0);
            k > 0 ==> k <= n && !AttemptBlocked(rows, s, shapes, p, k, left)
  {
    var bs := PassesBlocked(rows, s, shapes, p, n, left);
    FirstFreeFrom(bs, 0);
    var k := FirstFree(bs, 0);
    if k > 0 {
      PassesBlockedEntry(rows, s, shapes, p, n, left, k);
    }
  }

  /** ... and every pass before that one is blocked. */
  lemma FirstFreeFirst(rows: seq<Row>, s: Shape, shapes: seq<Shape?>, p: Pose, n: nat, left: bool, k: nat)
    requires |shapes| == |p.offsets| > 0 && k == FirstFree(PassesBlocked(rows, s, shapes, p, n, left), 0)
    ensures forall i :: 1 <= i < k ==> AttemptBlocked(rows, s, shapes, p, i, left)
  {
    var bs := PassesBlocked(rows, s, shapes, p, n, left);
    FirstFreeFrom(bs, 0);
    forall i | 1 <= i < k
      ensures AttemptBlocked(rows, s, shapes, p, i, left)
    {
      PassesBlockedEntry(rows, s, shapes, p, n, left, i);
    }
  }

  /** Turning keeps offsets within two cells of the pivot, however many turns are made. */
  lemma {:induction false} TurnsStaySmall(style: ShapeStyle, p: Pose, k: nat, left: bool)
    requires Small(p.offsets)
    ensures Small(Turns(style, p, k, left).offsets)
  {
    if k > 0 {
      TurnsStaySmall(style, p, k - 1, left);
      TurnsKeepSmall(style, Turns(style, p, k - 1, left));
    }
  }

  /** A ghost turned k times from a pose with small offsets, or left where it was, still has small offsets. */
  lemma GhostStaysSmall(s: Shape, g0: Pose, k: nat, left: bool)
    requires s.ghostShape != null && Small(g0.offsets)
    requires GhostPose(s) == (if k == 0 then g0 else GhostTurns(s, g0, k, left))
    ensures Small(StoredOf(s.ghostShape.cubes))
  {
    if k > 0 {
      TurnsStaySmall(s.ghostShape.style, g0, k, left);
    }
  }

  /** A shape with a split cube is blocked wherever it turns, so a rotation of it always rolls back. */
  lemma SplitStaysPut(rows: seq<Row>, s: Shape, shapes: seq<Shape?>, p: Pose, n: nat, left: bool)
    requires |shapes| == |p.offsets| > 0 && null in shapes
    ensures FirstFree(PassesBlocked(rows, s, shapes, p, n, left), 0) == 0
  {
    FirstFreeNone(rows, s, shapes, p, n, left);
  }

  /** Move(shape, 0, 1) from a box that does not reach below the field: one row down, or none at the bottom row. */
  lemma DownStep(b: CellRect)
    requires b.Bottom() <= MaxCubeIndexVertical
    ensures ClampOffset(b, 0, 1).0 == (if b.Bottom() == MaxCubeIndexVertical then Cell(0, 0) else Cell(0, 1))
    ensures ClampOffset(b, 0, 1).1 <==> b.Bottom() < MaxCubeIndexVertical
  {
  }

  /** Offsets within two cells, laid out on row 0, do not reach below the field. */
  lemma TopRowBottom(offsets: seq<Cell>, x: int)
    requires |offsets| > 0 && Small(offsets)
    ensures BoundingBox(Shifted(offsets, Cell(x, 0))).Bottom() <= 2
  {
    var cs := Shifted(offsets, Cell(x, 0));
    BoundingBoxTight(cs);
    var i :| 0 <= i < |cs| && cs[i].y == BoundingBox(cs).Bottom();
    assert cs[i] == AddCell(offsets[i], Cell(x, 0));
  }

  /** An offset that keeps the box of a shape in play inside the field keeps the shape in play. */
  lemma StepStaysInField(s: Shape, cubes: seq<Cube>, p: Cell, o: Cell)
    requires |cubes| > 0 && InPlayAt(s, cubes, p)
    requires var b := BoundingBox(CellsAt(s, cubes, p)); BoxInField(b) ==> BoxInField(ShiftedBox(b, o))
    ensures InPlayAt(s, cubes, AddCell(p, o))
  {
    var here := CellsAt(s, cubes, p);
    assert CellsAt(s, cubes, AddCell(p, o)) == Shifted(here, o);
    BoxInFieldIffAllInField(here);
    BoundingBoxShifted(here, o);
    BoxInFieldIffAllInField(Shifted(here, o));
  }

  /** Small offsets, all attached, moved by IntoViewShift of their box lie inside the field. */
  lemma LandsInView(s: Shape, shapes: seq<Shape?>, stored: seq<Cell>, p: Cell)
    requires |shapes| == |stored| > 0 && AllOf(s, shapes) && Small(stored)
    ensures InPlayFrom(s, shapes, stored, AddCell(p, IntoViewShift(BoundingBox(CellsFrom(s, shapes, stored, p)))))
  {
    var here := CellsFrom(s, shapes, stored, p);
    var o := IntoViewShift(BoundingBox(here));
    assert here == Shifted(stored, p);
    SmallBox(p, stored);
    assert CellsFrom(s, shapes, stored, AddCell(p, o)) == Shifted(here, o);
    BoundingBoxShifted(here, o);
    BoxInFieldIffAllInField(Shifted(here, o));
  }

  /** A pass of a rotation keeps a shape in play. */
  lemma AttemptInPlay(s: Shape, shapes: seq<Shape?>, p: Pose, left: bool)
    requires |shapes| == |p.offsets| > 0 && InPlayFrom(s, shapes, p.offsets, p.position)
    ensures var a := Attempt(s, shapes, p, left); InPlayFrom(s, shapes, a.offsets, a.position)
  {
    var t := Turned(s.style, p, left);
    TurnsKeepSmall(s.style, p);
    LandsInView(s, shapes, t.offsets, t.position);
  }

  /** However many passes a rotation makes, a shape in play stays in play. */
  lemma {:induction false} AttemptsInPlay(s: Shape, shapes: seq<Shape?>, p: Pose, k: nat, left: bool)
    requires |shapes| == |p.offsets| > 0 && InPlayFrom(s, shapes, p.offsets, p.position)
    ensures var a := Attempts(s, shapes, p, k, left); InPlayFrom(s, shapes, a.offsets, a.position)
    decreases k
  {
    if k > 0 {
      AttemptsInPlay(s, shapes, p, k - 1, left);
      AttemptInPlay(s, shapes, Attempts(s, shapes, p, k - 1, left), left);
    }
  }

  /** A shape laid out by its style would be in play at the start point. */
  lemma Spawned(s: Shape)
    requires Joined(s, s.cubes) && StoredOf(s.cubes) == Layout(s.style)
    ensures InPlayAt(s, s.cubes, ShapesStartPoint)
  {
    AttachedCellsAt(s, s.cubes, ShapesStartPoint, Cell(0, 0));
    SpawnInField(s.style);
    LayoutIsSmall(s.style);
  }

  /** Two different shapes, the cubes of b outside a's list, share no cube. */
  lemma NewCubes(a: Shape, b: Shape)
    requires a != b && forall c :: c in b.cubes ==> c !in a.cubes
    ensures Separate(a, b) && Separate(b, a)
  {
    forall i, j | 0 <= i < |a.cubes| && 0 <= j < |b.cubes|
      ensures CubeAt(a.cubes, i) != CubeAt(b.cubes, j) && CubeAt(b.cubes, j) != CubeAt(a.cubes, i)
    {
      assert b.cubes[j] in b.cubes;
    }
  }

  /** A new shape laid out by its style, every cube its own, has its parts in order and would be in play at the start point. */
  lemma FreshParts(s: Shape)
    requires s.Valid() && s.Attached() && StoredOf(s.cubes) == Layout(s.style)
    ensures ShapeParts(s) && Joined(s, s.cubes) && Small(StoredOf(s.cubes)) && InPlayAt(s, s.cubes, ShapesStartPoint)
  {
    LayoutIsSmall(s.style);
    assert forall i :: 0 <= i < |s.cubes| ==> s.cubes[i] in s.cubes;
    Spawned(s);
  }

  /** new Shape(style, opacity) as the scene uses it: laid out by its style, in play once at the start point. */
  method NewShape(style: ShapeStyle, opacity: real) returns (s: Shape)
    ensures fresh(s) && s.style == style && s.rotationIndex == 0 && s.ghostShape == null
    ensures StoredOf(s.cubes) == Layout(style)
    ensures forall c :: c in s.cubes ==> fresh(c) && c.opacity == opacity
    ensures ShapeParts(s) && Joined(s, s.cubes) && InPlayAt(s, s.cubes, ShapesStartPoint)
  {
    s := new Shape(style, opacity);
    LaidOut(s);
    FreshParts(s);
  }

  /** A shape whose cubes stand at its style's layout, one by one, has the layout as its offsets. */
  lemma LaidOut(s: Shape)
    requires |s.cubes| == |Layout(s.style)| && forall i :: 0 <= i < |s.cubes| ==> s.cubes[i].position == Layout(s.style)[i]
    ensures StoredOf(s.cubes) == Layout(s.style)
  {
  }

  // ---------------------------------------------------------------------------
  // The bag of styles.

  /** prevShapeStyles.LastOrDefault() as the enum's value: 0 for an empty list. */
  function LastCode(styles: seq<ShapeStyle>): int
  {
    if |styles| == 0 then 0 else StyleCode(styles[|styles| - 1])
  }

  lemma StyleCodeInjective(a: ShapeStyle, b: ShapeStyle)
    ensures StyleCode(a) == StyleCode(b) <==> a == b
  {
  }

  /** Every style occurs once among the style values. */
  lemma AllStylesOnce(v: ShapeStyle)
    ensures multiset(AllStyleValues)[v] == 1
  {
  }

  /** A permutation of the seven style values lists seven different styles. */
  lemma {:induction false} PermutationDistinct(s: seq<ShapeStyle>)
    requires multiset(s) == multiset(AllStyleValues)
    ensures SevenDifferent(s)
  {
    assert |multiset(s)| == |s|;
    forall i, j | 0 <= i < j < |s|
      ensures StyleAt(s, i) != StyleAt(s, j)
    {
      if s[i] == s[j] {
        assert s == s[..j] + s[j..];
        assert s[i] in s[..j];
        assert s[j] in s[j..];
        assert multiset(s)[s[i]] == multiset(s[..j])[s[i]] + multiset(s[j..])[s[i]];
        AllStylesOnce(s[i]);
        assert false;
      }
    }
  }

  /** Picks that swap each index with itself leave the list as it is. */
  lemma {:induction false} NoOpPicks<T>(s: seq<T>, picks: seq<int>)
    requires |picks| < |s| && forall m :: 0 <= m < |picks| ==> picks[m] == |s| - 1 - m
    ensures ListExtensions.PicksInRange(picks, |s|)
    ensures ListExtensions.ShuffleSteps(s, picks) == s
    decreases |picks|
  {
    if |picks| > 0 {
      NoOpPicks(s, picks[..|picks| - 1]);
    }
  }

  /** After no-op picks, a last pick k in {0, 1} swaps index 1 with k: index 0 then holds s[1 - k]. */
  lemma LastPick<T>(s: seq<T>, keep: seq<int>, k: int)
    requires |keep| == |s| - 2 && (forall m :: 0 <= m < |keep| ==> keep[m] == |s| - 1 - m) && 0 <= k <= 1
    ensures ListExtensions.ValidPicks(keep + [k], |s|)
    ensures ListExtensions.ShuffleSteps(s, keep + [k])[0] == s[1 - k]
  {
    NoOpPicks(s, keep);
    var picks := keep + [k];
    assert picks[..|picks| - 1] == keep;
  }

  /** Some complete shuffle of seven styles, the first two different, starts with a style other than the one to avoid. */
  lemma FrontWitness(s: seq<ShapeStyle>, avoid: int)
    requires |s| == 7 && s[0] != s[1]
    ensures exists picks :: ListExtensions.ValidPicks(picks, |s|) && StyleCode(ListExtensions.ShuffleSteps(s, picks)[0]) != avoid
  {
    var keep := [6, 5, 4, 3, 2];
    var k := if StyleCode(s[0]) != avoid then 1 else 0;
    LastPick(s, keep, k);
    StyleCodeInjective(s[0], s[1]);
    assert StyleCode(ListExtensions.ShuffleSteps(s, keep + [k])[0]) != avoid;
  }

  /** Some complete shuffle of a permutation of the styles starts with a style other than the one to avoid. */
  lemma AcceptedShuffleExists(s: seq<ShapeStyle>, avoid: int)
    requires multiset(s) == multiset(AllStyleValues)
    ensures exists picks :: ListExtensions.ValidPicks(picks, |s|) && StyleCode(ListExtensions.ShuffleSteps(s, picks)[0]) != avoid
  {
    PermutationDistinct(s);
    assert StyleAt(s, 0) != StyleAt(s, 1);
    FrontWitness(s, avoid);
  }

  /**
   * The bag after a draw: prev is the last shuffle of the seven styles (prevShapeStyles),
   * rest the part of it not drawn yet (nextShapeStyles); the last style drawn is
   * prev[6 - |rest|].
   */
  ghost predicate BagDrawn(prev: seq<ShapeStyle>, rest: seq<ShapeStyle>)
  {
    SevenDifferent(prev) && |rest| < 7 && rest == prev[7 - |rest|..]
  }

  /** Seven different styles: there being seven styles, a shuffle of all of them. */
  predicate SevenDifferent(s: seq<ShapeStyle>)
  {
    |s| == 7 && forall i, j {:trigger StyleAt(s, i), StyleAt(s, j)} :: 0 <= i < j < |s| ==> StyleAt(s, i) != StyleAt(s, j)
  }

  /** s[i], named so that the distinctness above is used only where a proof asks for it. */
  function StyleAt(s: seq<ShapeStyle>, i: int): ShapeStyle
    requires 0 <= i < |s|
  {
    s[i]
  }

  /** The bag as Reset leaves it, or after a draw. */
  ghost predicate BagReady(prev: seq<ShapeStyle>, rest: seq<ShapeStyle>)
  {
    (prev == [] && rest == []) || BagDrawn(prev, rest)
  }

  /**
   * One draw from the bag, from (prev, rest) to (prev', rest'): an empty bag is refilled
   * with a shuffle of the seven styles that does not start with the last style of the
   * previous bag, and the first style of the bag is taken. The bag is then after a draw,
   * and the style drawn differs from the one drawn before it.
   */
  ghost predicate Draw(prev: seq<ShapeStyle>, rest: seq<ShapeStyle>, style: ShapeStyle,
                       prev': seq<ShapeStyle>, rest': seq<ShapeStyle>)
  {
    BagDrawn(prev', rest') && style == prev'[6 - |rest'|] &&
    (rest != [] ==> style == rest[0] && rest' == rest[1..] && prev' == prev) &&
    (rest == [] ==> StyleCode(style) != LastCode(prev) && style == prev'[0]) &&
    (BagDrawn(prev, rest) ==> style != prev[6 - |rest|])
  }

  /**
   * The first two draws from an empty bag: a fresh shuffle, whose first style is the
   * moving shape's and whose second is the next shape's, five styles left; so the two
   * shapes a game starts with are of different styles.
   */
  lemma FirstTwoDraws(s1: ShapeStyle, p1: seq<ShapeStyle>, r1: seq<ShapeStyle>,
                      s2: ShapeStyle, p2: seq<ShapeStyle>, r2: seq<ShapeStyle>)
    requires Draw([], [], s1, p1, r1) && Draw(p1, r1, s2, p2, r2)
    ensures BagDrawn(p2, r2) && |r2| == 5 && s1 == p2[0] && s2 == p2[1] && s1 != s2
  {
    assert StyleAt(p1, 6 - |r1|) == StyleAt(p1, 0);
    assert r1 == p1[1..];
  }

  /**
   * The bag part of CreateNextShape on prevShapeStyles (prev) and nextShapeStyles (rest).
   * The refill shuffles the seven styles in enum order, and shuffles again while the
   * first style is the last one of the previous bag; that repeated shuffle is modelled
   * by its outcome, some further shuffle that is accepted.
   */
  method DrawStyle(prev: seq<ShapeStyle>, rest: seq<ShapeStyle>) returns (style: ShapeStyle, prev': seq<ShapeStyle>, rest': seq<ShapeStyle>)
    requires BagReady(prev, rest)
    ensures Draw(prev, rest, style, prev', rest')
    ensures rest == [] ==> multiset(prev') == multiset(AllStyleValues)
  {
    prev', rest' := prev, rest;
    if rest' == [] {
      var list := new ShapeStyle[7](i requires 0 <= i < 7 => AllStyleValues[i]);
      assert list[..] == AllStyleValues;
      var picks := ListExtensions.Shuffle(list);
      ListExtensions.ShuffleIsPermutation(AllStyleValues, picks);
      var shuffled := list[..];
      if StyleCode(shuffled[0]) == LastCode(prev) {
        AcceptedShuffleExists(shuffled, LastCode(prev));
        var again :| ListExtensions.ValidPicks(again, |shuffled|) &&
                     StyleCode(ListExtensions.ShuffleSteps(shuffled, again)[0]) != LastCode(prev);
        ListExtensions.ShuffleIsPermutation(shuffled, again);
        shuffled := ListExtensions.ShuffleSteps(shuffled, again);
      }
      PermutationDistinct(shuffled);
      rest' := shuffled;
      prev' := shuffled;
    }
    DrawDiffers(prev, rest, prev', rest');
    style := rest'[0];
    rest' := rest'[1..];
  }

  /** The step of a draw that the bag's order gives: the style drawn differs from the one before. */
  lemma DrawDiffers(prev: seq<ShapeStyle>, rest: seq<ShapeStyle>, prev': seq<ShapeStyle>, rest': seq<ShapeStyle>)
    requires BagReady(prev, rest)
    requires rest != [] ==> prev' == prev && rest' == rest
    requires rest == [] ==> SevenDifferent(prev') && rest' == prev' && StyleCode(prev'[0]) != LastCode(prev)
    ensures |rest'| > 0 && BagDrawn(prev', rest'[1..]) && rest'[0] == prev'[6 - |rest'[1..]|]
    ensures BagDrawn(prev, rest) ==> rest'[0] != prev[6 - |rest|]
  {
    if rest != [] {
      assert rest'[0] == prev[7 - |rest|];
      assert StyleAt(prev, 6 - |rest|) != StyleAt(prev, 7 - |rest|);
    } else if BagDrawn(prev, rest) {
      StyleCodeInjective(prev'[0], prev[6]);
    }
  }

  // ---------------------------------------------------------------------------
  // Rotation. The scene's isDown flag and its static cubes, as the field's tiles,
  // come in as values: a rotation changes neither.

  /** MoveIntoView: shift the shape by the amounts its box sticks out of the field. */
  method MoveIntoView(s: Shape)
    requires |s.cubes| > 0 && Owned(s, s.cubes)
    modifies s`shapePosition
    ensures s.shapePosition == AddCell(old(s.shapePosition), IntoViewShift(BoundingBox(old(Placed(s)))))
    ensures Joined(s, s.cubes) && Small(StoredOf(s.cubes)) ==> InPlay(s)
  {
    var rect := BoundingBox(Placed(s));
    var position := s.shapePosition;
    if rect.left < 0 {
      position := AddCell(position, Cell(0 - rect.left, 0));
    }
    if rect.Right() > MaxCubeIndexHorizontal {
      position := AddCell(position, Cell(MaxCubeIndexHorizontal - rect.Right(), 0));
    }
    assert position == Cell(s.shapePosition.x + IntoViewShift(rect).x, s.shapePosition.y);
    if rect.top < 0 {
      position := AddCell(position, Cell(0, 0 - rect.top));
    }
    if rect.Bottom() > MaxCubeIndexVertical {
      position := AddCell(position, Cell(0, MaxCubeIndexVertical - rect.Bottom()));
    }
    assert position == AddCell(s.shapePosition, IntoViewShift(rect));
    assert Joined(s, s.cubes) && Small(StoredOf(s.cubes)) ==> InPlayAt(s, s.cubes, position) by {
      if Joined(s, s.cubes) && Small(StoredOf(s.cubes)) {
        LandsInView(s, ShapesOf(s.cubes), StoredOf(s.cubes), s.shapePosition);
      }
    }
    s.shapePosition := position;
  }

  /** RotateLeft or RotateRight of one shape, with what the scene relies on. */
  method TurnOne(x: Shape, left: bool)
    requires x.Valid()
    modifies x, x.cubes
    ensures x.Valid() && x.cubes == old(x.cubes) && x.ghostShape == old(x.ghostShape)
    ensures ShapesOf(x.cubes) == old(ShapesOf(x.cubes))
    ensures x.CurrentPose() == Turned(x.style, old(x.CurrentPose()), left)
  {
    ghost var owners := ShapesOf(x.cubes);
    if left {
      x.RotateLeft();
    } else {
      x.RotateRight();
    }
    assert ShapesOf(x.cubes) == owners;
  }

  /** The two turns of a rotation step: the shape's, then its ghost's, in the same direction. */
  method Turn(s: Shape, left: bool)
    requires Rig(s)
    modifies s, s.cubes, s.ghostShape, GhostCubes(s)
    ensures Rig(s) && s.cubes == old(s.cubes) && s.ghostShape == old(s.ghostShape) && GhostCubes(s) == old(GhostCubes(s))
    ensures ShapesOf(s.cubes) == old(ShapesOf(s.cubes))
    ensures s.CurrentPose() == Turned(s.style, old(s.CurrentPose()), left)
    ensures s.ghostShape != null ==> s.ghostShape.CurrentPose() == Turned(s.ghostShape.style, old(GhostPose(s)), left)
  {
    if s.ghostShape != null {
      ApartCubes(s.cubes, s.ghostShape.cubes);
    }
    TurnOne(s, left);
    var g := s.ghostShape;
    if g != null {
      TurnOne(g, left);
    }
  }

  /** The moves of one pass: turn, then MoveIntoView; the shape takes the pose Attempt gives. */
  method TurnIntoView(s: Shape, left: bool)
    requires Rig(s)
    modifies s, s.cubes, s.ghostShape, GhostCubes(s)
    ensures Rig(s) && s.cubes == old(s.cubes) && s.ghostShape == old(s.ghostShape) && GhostCubes(s) == old(GhostCubes(s))
    ensures ShapesOf(s.cubes) == old(ShapesOf(s.cubes))
    ensures |ShapesOf(s.cubes)| == |old(s.CurrentPose()).offsets| > 0
    ensures s.CurrentPose() == Attempt(s, ShapesOf(s.cubes), old(s.CurrentPose()), left)
    ensures s.ghostShape != null ==> GhostPose(s) == Turned(s.ghostShape.style, old(GhostPose(s)), left)
  {
    Turn(s, left);
    ghost var turned := s.CurrentPose();
    MoveIntoView(s);
    assert s.CurrentPose() == turned.(position := s.shapePosition);
  }

  /** One pass of a rotation: turn the shape and its ghost, move into view, and check for a block. */
  method Pass(s: Shape, left: bool, tiles: seq<Row>) returns (blocked: bool)
    requires Rig(s)
    modifies s, s.cubes, s.ghostShape, GhostCubes(s)
    ensures Rig(s) && s.cubes == old(s.cubes) && s.ghostShape == old(s.ghostShape) && GhostCubes(s) == old(GhostCubes(s))
    ensures ShapesOf(s.cubes) == old(ShapesOf(s.cubes))
    ensures var shapes, p := ShapesOf(s.cubes), s.CurrentPose();
            |shapes| == |p.offsets| > 0 &&
            p == Attempt(s, shapes, old(s.CurrentPose()), left) &&
            blocked == BlockedIn(tiles, shapes, CellsFrom(s, shapes, p.offsets, p.position))
    ensures s.ghostShape != null ==> GhostPose(s) == Turned(s.ghostShape.style, old(GhostPose(s)), left)
  {
    TurnIntoView(s, left);
    hide Attempt, Rig, GhostPose, Turned;
    blocked := BlockedIn(tiles, ShapesOf(s.cubes), Placed(s));
  }

  /** Where a rotation from pose p0, its ghost from g0, stands after k passes. */
  ghost predicate Progress(s: Shape, left: bool, shapes: seq<Shape?>, p0: Pose, g0: Pose, k: nat)
    reads s, s.cubes, s.ghostShape, GhostCubes(s)
  {
    Rig(s) && ShapesOf(s.cubes) == shapes && |shapes| == |p0.offsets| > 0 &&
    s.CurrentPose() == Attempts(s, shapes, p0, k, left) &&
    (s.ghostShape != null ==> GhostPose(s) == GhostTurns(s, g0, k, left))
  }

  /** Pass k + 1 of a rotation that makes n passes at most, and whether it is blocked. */
  method NextPass(s: Shape, left: bool, tiles: seq<Row>, ghost shapes: seq<Shape?>, ghost p0: Pose, ghost g0: Pose, ghost k: nat, ghost n: nat)
    returns (blocked: bool)
    requires Progress(s, left, shapes, p0, g0, k) && k < n
    modifies s, s.cubes, s.ghostShape, GhostCubes(s)
    ensures s.cubes == old(s.cubes) && s.ghostShape == old(s.ghostShape) && GhostCubes(s) == old(GhostCubes(s))
    ensures Progress(s, left, shapes, p0, g0, k + 1)
    ensures blocked == PassesBlocked(tiles, s, shapes, p0, n, left)[k]
  {
    TurnsStep(s, g0, k, left);
    blocked := Pass(s, left, tiles);
    PassBlockedAt(tiles, s, shapes, p0, n, left, k);
  }

  /**
   * The passes of TryRotateLeft (left) and TryRotateRight from pose p0: one pass, then,
   * while the result is blocked and the shape is down, another, three passes at most.
   * The last pass made is reported, and whether it is blocked.
   */
  method RotatePasses(s: Shape, left: bool, isDown: bool, tiles: seq<Row>, ghost shapes: seq<Shape?>, ghost p0: Pose, ghost g0: Pose)
    returns (count: nat, blocked: bool)
    requires Progress(s, left, shapes, p0, g0, 0)
    modifies s, s.cubes, s.ghostShape, GhostCubes(s)
    ensures s.cubes == old(s.cubes) && s.ghostShape == old(s.ghostShape) && GhostCubes(s) == old(GhostCubes(s))
    ensures 1 <= count <= (if isDown then 3 else 1)
    ensures Progress(s, left, shapes, p0, g0, count)
    ensures FirstFree(PassesBlocked(tiles, s, shapes, p0, if isDown then 3 else 1, left), 0) == (if blocked then 0 else count)
  {
    assert |shapes| == |p0.offsets| > 0;
    hide Progress, Rig, Attempts, GhostTurns, Attempt;
    var n := if isDown then 3 else 1;
    ghost var bs := PassesBlocked(tiles, s, shapes, p0, n, left);
    count, blocked := 0, true;
    while blocked && count < n
      invariant s.cubes == old(s.cubes) && s.ghostShape == old(s.ghostShape) && GhostCubes(s) == old(GhostCubes(s))
      invariant 0 <= count <= n
      invariant Progress(s, left, shapes, p0, g0, count)
      invariant count == 0 ==> blocked
      invariant count > 0 ==> blocked == bs[count - 1] && FirstFree(bs, 0) == FirstFree(bs, count - 1)
    {
      blocked := NextPass(s, left, tiles, shapes, p0, g0, count, n);
      count := count + 1;
    }
  }

  /** The turns of a rollback: count turns the other way, for the shape and its ghost. */
  method TurnBack(s: Shape, left: bool, count: nat, ghost p: Pose, ghost g: Pose)
    requires Rig(s) && Orient(s.CurrentPose()) == Orient(p)
    requires s.ghostShape != null ==> GhostPose(s) == g
    modifies s, s.cubes, s.ghostShape, GhostCubes(s)
    ensures Rig(s) && s.cubes == old(s.cubes) && s.ghostShape == old(s.ghostShape) && GhostCubes(s) == old(GhostCubes(s))
    ensures ShapesOf(s.cubes) == old(ShapesOf(s.cubes))
    ensures Orient(s.CurrentPose()) == Orient(Turns(s.style, p, count, !left))
    ensures s.ghostShape != null ==> GhostPose(s) == Turns(s.ghostShape.style, g, count, !left)
  {
    var i := 0;
    while i < count
      invariant 0 <= i <= count
      invariant Rig(s) && s.cubes == old(s.cubes) && s.ghostShape == old(s.ghostShape) && GhostCubes(s) == old(GhostCubes(s))
      invariant ShapesOf(s.cubes) == old(ShapesOf(s.cubes))
      invariant Orient(s.CurrentPose()) == Orient(Turns(s.style, p, i, !left))
      invariant s.ghostShape != null ==> GhostPose(s) == Turns(s.ghostShape.style, g, i, !left)
    {
      ghost var before := s.CurrentPose();
      Turn(s, !left);
      OrientTurns(s.style, before, Turns(s.style, p, i, !left));
      i := i + 1;
    }
  }

  /** The rollback of a rotation: count turns the other way for the shape and its ghost, then the old position. */
  method Unturn(s: Shape, left: bool, count: nat, oldPosition: Cell, ghost p0: Pose, ghost g0: Pose)
    requires Rig(s) && 0 <= p0.index <= 3 && p0.position == oldPosition
    requires Orient(s.CurrentPose()) == Orient(Turns(s.style, p0, count, left))
    requires s.ghostShape != null ==> 0 <= g0.index <= 3 && GhostPose(s) == GhostTurns(s, g0, count, left)
    modifies s, s.cubes, s.ghostShape, GhostCubes(s)
    ensures Rig(s) && s.cubes == old(s.cubes) && s.ghostShape == old(s.ghostShape) && GhostCubes(s) == old(GhostCubes(s))
    ensures ShapesOf(s.cubes) == old(ShapesOf(s.cubes))
    ensures s.CurrentPose() == p0
    ensures s.ghostShape != null ==> GhostPose(s) == g0
  {
    ghost var g := if s.ghostShape != null then Turns(s.ghostShape.style, g0, count, left) else g0;
    TurnBack(s, left, count, Turns(s.style, p0, count, left), g);
    RollbackRestores(s.style, p0, count);
    if s.ghostShape != null {
      RollbackRestores(s.ghostShape.style, g0, count);
    }
    s.shapePosition := oldPosition;
  }

  /**
   * TryRotateLeft (left) and TryRotateRight: the shape ends on the first pass that is
   * not blocked, or, when every pass allowed is blocked, where it started, its ghost too.
   */
  method TryRotate(s: Shape, left: bool, isDown: bool, tiles: seq<Row>)
    requires Rig(s)
    modifies s, s.cubes, s.ghostShape, GhostCubes(s)
    ensures Rig(s) && s.cubes == old(s.cubes) && s.ghostShape == old(s.ghostShape) && GhostCubes(s) == old(GhostCubes(s))
    ensures ShapesOf(s.cubes) == old(ShapesOf(s.cubes))
    ensures var shapes, p0 := ShapesOf(s.cubes), old(s.CurrentPose());
            |shapes| == |p0.offsets| > 0 &&
            var k := FirstFree(PassesBlocked(tiles, s, shapes, p0, if isDown then 3 else 1, left), 0);
            if k == 0 then s.CurrentPose() == p0 && GhostPose(s) == old(GhostPose(s))
            else s.CurrentPose() == Attempts(s, shapes, p0, k, left) && GhostPose(s) == GhostTurns(s, old(GhostPose(s)), k, left)
    ensures old(InPlay(s)) ==> InPlay(s)
  {
    ghost var shapes, p0, g0 := ShapesOf(s.cubes), s.CurrentPose(), GhostPose(s);
    var oldPosition := s.shapePosition;
    ghost var wasInPlay := InPlay(s);
    var count, blocked := RotatePasses(s, left, isDown, tiles, shapes, p0, g0);
    assert Progress(s, left, shapes, p0, g0, count);
    if blocked {
      AttemptsOrient(s, shapes, p0, count, left);
      Unturn(s, left, count, oldPosition, p0, g0);
      assert StoredOf(s.cubes) == p0.offsets && s.shapePosition == p0.position;
    } else if wasInPlay {
      AttemptsInPlay(s, shapes, p0, count, left);
    }
  }

  // ---------------------------------------------------------------------------
  // The blink of full lines.

  /**
   * One BlinkLines step of (currentBlinkCount, currentBlinkStatus): a full-opacity
   * status fades, a faded one comes back and counts a blink.
   */
  function BlinkStep(count: int, status: real): (int, real)
  {
    if FloatHelper.FloatEquals(status, FullOpacity) then (count, LineDestroyBlinkOpacity)
    else (count + 1, FullOpacity)
  }

  /** The blink state after k steps from (count, status). */
  function BlinkSteps(count: int, status: real, k: nat): (int, real)
  {
    if k == 0 then (count, status)
    else var s := BlinkSteps(count, status, k - 1); BlinkStep(s.0, s.1)
  }

  /**
   * From FindFullLines' state, the blink count first reaches LineDestroyBlinkCount on
   * the fourth step: the lines fade and come back twice, one step per
   * LineDestroyBlinkInterval, before they are destroyed.
   */
  lemma BlinkTwice()
    ensures forall k :: 0 <= k < 2 * LineDestroyBlinkCount ==> BlinkSteps(0, FullOpacity, k).0 < LineDestroyBlinkCount
    ensures BlinkSteps(0, FullOpacity, 2 * LineDestroyBlinkCount) == (LineDestroyBlinkCount, FullOpacity)
  {
    assert BlinkSteps(0, FullOpacity, 1) == (0, LineDestroyBlinkOpacity);
    assert BlinkSteps(0, FullOpacity, 2) == (1, FullOpacity);
    assert BlinkSteps(0, FullOpacity, 3) == (1, LineDestroyBlinkOpacity);
  }

  // ---------------------------------------------------------------------------
  // The scene.

  /** The keys that move the shape or start a drop, in the order ProcessKeyEvents reads them. */
  const MoveKeyOrder: seq<Events.EventType> := [Events.Left, Events.Right, Events.Down]

  /** The keys that turn the shape, in the order ProcessKeyEvents reads them. */
  const TurnKeyOrder: seq<Events.EventType> := [Events.Up, Events.Fire]

  /** The keys for the sound, the ghost and the volume, in the order ProcessKeyEvents reads them. */
  const OptionKeyOrder: seq<Events.EventType> := [Events.S, Events.G, Events.Add, Events.Subtract]

  /** The keys ProcessKeyEvents debounces, each with its own nextAcceptTime. */
  const KeyOrder: seq<Events.EventType> := MoveKeyOrder + TurnKeyOrder + OptionKeyOrder

  /** The nextAcceptTime of key e in a table of them; a key not in the table reads as 0. */
  function TimeOf(times: map<Events.EventType, int>, e: Events.EventType): int
  {
    if e in times then times[e] else 0
  }

  /** The table after the gate of key e: KeyGate's new time, stored unless the key is held back. */
  function Gated(times: map<Events.EventType, int>, e: Events.EventType, pressed: bool, now: int): map<Events.EventType, int>
  {
    if KeyGate(pressed, now, TimeOf(times, e)).1 == TimeOf(times, e) && pressed then times
    else times[e := KeyGate(pressed, now, TimeOf(times, e)).1]
  }

  /** The table after the gates of keys, one after the other. */
  function GatedAll(times: map<Events.EventType, int>, keys: seq<Events.EventType>, pressed: set<Events.EventType>, now: int)
    : map<Events.EventType, int>
    decreases |keys|
  {
    if keys == [] then times
    else GatedAll(Gated(times, keys[0], keys[0] in pressed, now), keys[1..], pressed, now)
  }

  /** A gate changes the time of its own key only. */
  lemma GatedKeepsOthers(times: map<Events.EventType, int>, e: Events.EventType, k: Events.EventType, pressed: bool, now: int)
    requires k != e
    ensures TimeOf(Gated(times, e, pressed, now), k) == TimeOf(times, k)
  {
  }

  /** The gates of MoveKeyOrder, one after the other. */
  lemma MoveKeyGates(times: map<Events.EventType, int>, pressed: set<Events.EventType>, now: int)
    ensures GatedAll(times, MoveKeyOrder, pressed, now) ==
            var t1 := Gated(times, Events.Left, Events.Left in pressed, now);
            var t2 := Gated(t1, Events.Right, Events.Right in pressed, now);
            Gated(t2, Events.Down, Events.Down in pressed, now)
  {
    assert MoveKeyOrder[1..][1..][1..] == [];
  }

  /** The gates of TurnKeyOrder, one after the other. */
  lemma TurnKeyGates(times: map<Events.EventType, int>, pressed: set<Events.EventType>, now: int)
    ensures GatedAll(times, TurnKeyOrder, pressed, now) ==
            Gated(Gated(times, Events.Up, Events.Up in pressed, now), Events.Fire, Events.Fire in pressed, now)
  {
    assert TurnKeyOrder[1..][1..] == [];
  }

  /** The option keys are four different keys. */
  lemma OptionKeysDiffer()
    ensures Events.S != Events.G && Events.S != Events.Add && Events.S != Events.Subtract
    ensures Events.G != Events.Add && Events.G != Events.Subtract
  {
  }

  /** The gates of OptionKeyOrder, one after the other. */
  lemma OptionKeyGates(times: map<Events.EventType, int>, pressed: set<Events.EventType>, now: int)
    ensures GatedAll(times, OptionKeyOrder, pressed, now) ==
            var t1 := Gated(times, Events.S, Events.S in pressed, now);
            var t2 := Gated(t1, Events.G, Events.G in pressed, now);
            var t3 := Gated(t2, Events.Add, Events.Add in pressed, now);
            Gated(t3, Events.Subtract, Events.Subtract in pressed, now)
  {
    var t1 := Gated(times, Events.S, Events.S in pressed, now);
    var t2 := Gated(t1, Events.G, Events.G in pressed, now);
    assert OptionKeyOrder[1..] == [Events.G, Events.Add, Events.Subtract];
    assert GatedAll(times, OptionKeyOrder, pressed, now) == GatedAll(t2, [Events.Add, Events.Subtract], pressed, now);
    assert [Events.Add, Events.Subtract][1..][1..] == [];
  }

  /** The gates of KeyOrder are those of the move keys, then the turn keys, then the option keys. */
  lemma KeyGatesInGroups(times: map<Events.EventType, int>, pressed: set<Events.EventType>, now: int)
    ensures GatedAll(GatedAll(GatedAll(times, MoveKeyOrder, pressed, now), TurnKeyOrder, pressed, now), OptionKeyOrder, pressed, now)
            == GatedAll(times, KeyOrder, pressed, now)
  {
    GatedAllAppend(times, MoveKeyOrder, TurnKeyOrder, pressed, now);
    GatedAllAppend(times, MoveKeyOrder + TurnKeyOrder, OptionKeyOrder, pressed, now);
  }

  /** The move and turn keys leave the option keys' times alone. */
  lemma OptionTimesKept(times: map<Events.EventType, int>, pressed: set<Events.EventType>, now: int)
    ensures var t2 := GatedAll(GatedAll(times, MoveKeyOrder, pressed, now), TurnKeyOrder, pressed, now);
            TimeOf(t2, Events.S) == TimeOf(times, Events.S) && TimeOf(t2, Events.G) == TimeOf(times, Events.G) &&
            TimeOf(t2, Events.Add) == TimeOf(times, Events.Add) && TimeOf(t2, Events.Subtract) == TimeOf(times, Events.Subtract)
  {
    var t1 := GatedAll(times, MoveKeyOrder, pressed, now);
    forall k | k in OptionKeyOrder
      ensures TimeOf(GatedAll(t1, TurnKeyOrder, pressed, now), k) == TimeOf(times, k)
    {
      GatedAllKeepsOthers(times, MoveKeyOrder, k, pressed, now);
      GatedAllKeepsOthers(t1, TurnKeyOrder, k, pressed, now);
    }
    assert Events.S in OptionKeyOrder && Events.G in OptionKeyOrder;
  }

  /** A pass over keys that does not include k leaves k's time as it was. */
  lemma {:induction false} GatedAllKeepsOthers(times: map<Events.EventType, int>, keys: seq<Events.EventType>,
                                               k: Events.EventType, pressed: set<Events.EventType>, now: int)
    requires k !in keys
    ensures TimeOf(GatedAll(times, keys, pressed, now), k) == TimeOf(times, k)
    decreases |keys|
  {
    if keys != [] {
      assert keys[0] in keys;
      assert k !in keys[1..] by {
        forall j | 0 <= j < |keys[1..]| ensures keys[1..][j] != k {
          assert keys[1..][j] == keys[j + 1];
        }
      }
      GatedKeepsOthers(times, keys[0], k, keys[0] in pressed, now);
      GatedAllKeepsOthers(Gated(times, keys[0], keys[0] in pressed, now), keys[1..], k, pressed, now);
    }
  }

  /** Each key of KeyOrder goes through its gate once, from its own earlier time; every other key keeps its time. */
  lemma KeyOrderTimes(times: map<Events.EventType, int>, pressed: set<Events.EventType>, now: int)
    ensures forall e :: TimeOf(GatedAll(times, KeyOrder, pressed, now), e) ==
                        if e in KeyOrder then KeyGate(e in pressed, now, TimeOf(times, e)).1 else TimeOf(times, e)
  {
    assert KeyOrder == [Events.Left, Events.Right, Events.Down, Events.Up, Events.Fire,
                        Events.Letter('S'), Events.Letter('G'), Events.Add, Events.Subtract];
    GatedAllTimes(times, KeyOrder, pressed, now);
  }

  /** The gates of a + b are those of a, then those of b. */
  lemma {:induction false} GatedAllAppend(times: map<Events.EventType, int>, a: seq<Events.EventType>, b: seq<Events.EventType>,
                                          pressed: set<Events.EventType>, now: int)
    ensures GatedAll(times, a + b, pressed, now) == GatedAll(GatedAll(times, a, pressed, now), b, pressed, now)
    decreases |a|
  {
    if a != [] {
      assert (a + b)[0] == a[0] && (a + b)[1..] == a[1..] + b;
      GatedAllAppend(Gated(times, a[0], a[0] in pressed, now), a[1..], b, pressed, now);
    } else {
      assert a + b == b;
    }
  }

  /**
   * Each key of distinct keys goes through its own gate once, from its own earlier time;
   * every other key keeps its time.
   */
  lemma {:induction false} GatedAllTimes(times: map<Events.EventType, int>, keys: seq<Events.EventType>,
                                         pressed: set<Events.EventType>, now: int)
    requires forall i, j :: 0 <= i < j < |keys| ==> keys[i] != keys[j]
    ensures forall e :: TimeOf(GatedAll(times, keys, pressed, now), e) ==
                        if e in keys then KeyGate(e in pressed, now, TimeOf(times, e)).1 else TimeOf(times, e)
    decreases |keys|
  {
    if keys != [] {
      var t1 := Gated(times, keys[0], keys[0] in pressed, now);
      assert forall i, j :: 0 <= i < j < |keys[1..]| ==> keys[1..][i] != keys[1..][j] by {
        forall i, j | 0 <= i < j < |keys[1..]| ensures keys[1..][i] != keys[1..][j] {
          assert keys[1..][i] == keys[i + 1] && keys[1..][j] == keys[j + 1];
        }
      }
      GatedAllTimes(t1, keys[1..], pressed, now);
      forall e ensures TimeOf(GatedAll(times, keys, pressed, now), e) ==
                       if e in keys then KeyGate(e in pressed, now, TimeOf(times, e)).1 else TimeOf(times, e)
      {
        if e == keys[0] {
          assert e !in keys[1..] by {
            forall j | 0 <= j < |keys[1..]| ensures keys[1..][j] != e {
              assert keys[1..][j] == keys[j + 1];
            }
          }
        } else {
          assert e in keys <==> e in keys[1..] by {
            if e in keys {
              var i :| 0 <= i < |keys| && keys[i] == e;
              assert keys[1..][i - 1] == e;
            }
          }
        }
      }
    }
  }

  /**
   * The game's own GameOver call adds "Cleared Lines" to the statistics. That key is
   * neither of the fixed ones, so the dictionary never throws for it.
   */
  lemma ClearedLinesNeverClashes(level: int, points: int, lines: int)
    ensures var call := SceneGraph.GameOverCall(level, points, Some([SceneGraph.Stat("Cleared Lines", lines)]));
            SceneGraph.CallOk(call) && SceneGraph.HookError(Some(call)).None?
  {
    var extras := Some([SceneGraph.Stat("Cleared Lines", lines)]);
    assert !SceneGraph.ClashesWithFixedKey(extras) by {
      assert "Cleared Lines"[0] != SceneGraph.ReachedLevel[0] && "Cleared Lines"[0] != SceneGraph.EarnedPoints[0];
    }
  }

  class FallingBlocksGame {
    /** The engine's scene graph this scene is: it owns the game-over state. */
    const graph: SceneGraph.SceneGraph
    var field: array2<Option<Block>>
    var current: Shape
    var next: Shape
    var ghostShape: Shape?
    var nextShapeStyles: seq<ShapeStyle>
    var prevShapeStyles: seq<ShapeStyle>
    var currentInterval: int
    var nextMoveTimestamp: int
    /** The nextAcceptTime fields, one per key; a key not in the map reads as 0. */
    var nextAccept: map<Events.EventType, int>
    var currentLevel: int
    var currentLineCount: int
    var currentPoints: int
    var isDropping: bool
    var isDown: bool
    var currentDropPoints: int
    var isDestroyMode: bool
    var linesToDestroy: seq<int>
    var currentBlinkCount: int
    var currentBlinkStatus: real
    var soundEnabled: bool
    var ghostEnabled: bool
    /** Whether the ghost shape's cubes are in the scene (AddToScene / RemoveFromScene). */
    var ghostShown: bool
    var mediaPlayerVolume: real

    predicate FieldOk()
      reads this`field
    {
      GridOk(field)
    }

    /** The field as rows of tiles: Rows()[y][x] shows field[x, y]. */
    function Rows(): seq<Row>
      reads this`field, field
      requires FieldOk()
    {
      GridRows(field)
    }

    /** Every landed cube sits at the cell that holds it. */
    ghost predicate BlocksInPlace()
      reads this`field, field
      requires FieldOk()
    {
      InPlace(field)
    }

    predicate FilledAt(c: Cell)
      reads this`field, field
      requires FieldOk()
    {
      InField(c) && field[c.x, c.y].Some?
    }

    /** IsCurrentPositionBlocked against the static cubes: a split cube, or a covered cell that is taken. */
    predicate Blocked(shapes: seq<Shape?>, cells: seq<Cell>)
      reads this`field, field
      requires FieldOk()
    {
      null in shapes || exists i :: 0 <= i < |cells| && FilledAt(cells[i])
    }

    /** Blocked reads the field as its rows of tiles do. */
    lemma BlockedOnRows(shapes: seq<Shape?>, cells: seq<Cell>)
      requires FieldOk()
      ensures Blocked(shapes, cells) <==> BlockedIn(Rows(), shapes, cells)
    {
    }

    /** The field, and the lines to destroy, which are its full rows. */
    ghost predicate FieldInv()
      reads this`field, this`linesToDestroy, this`isDestroyMode, field
    {
      FieldOk() && BlocksInPlace() && FullLinesOf(Rows(), linesToDestroy) &&
      (!isDestroyMode ==> linesToDestroy == [])
    }

    ghost predicate Counters()
      reads this`currentLineCount, this`currentLevel, this`currentDropPoints
    {
      currentLineCount >= 0 && currentLevel >= StartLevel && currentDropPoints >= 0
    }

    /**
     * The bag: prevShapeStyles is the last shuffle of the seven styles, nextShapeStyles
     * the part not yet drawn, and the next shape is the last one drawn.
     */
    ghost predicate BagOk()
      reads this`prevShapeStyles, this`nextShapeStyles, this`next
    {
      BagDrawn(prevShapeStyles, nextShapeStyles) && next.style == prevShapeStyles[6 - |nextShapeStyles|]
    }

    /** The next shape as created, and the ghost shape. */
    ghost predicate SpareOk()
      reads this`prevShapeStyles, this`nextShapeStyles, this`next, this`ghostShape, this`ghostEnabled
      reads next`cubes, next`rotationIndex, next`ghostShape, next.cubes, {ghostShape}`cubes, {ghostShape}`rotationIndex
      reads if ghostShape != null then ghostShape.cubes else []
    {
      BagOk() &&
      Spare(next) &&
      (ghostEnabled ==> ghostShape != null) &&
      (ghostShape != null ==> GhostParts(ghostShape) &&
                              Separate(next, ghostShape))
    }

    /**
     * The moving shape with its neighbours: a shape of its own cubes, sharing none with
     * the next shape or the ghost, of another style than the next shape.
     */
    ghost predicate Paired()
      reads this`current, this`next, this`ghostShape
      reads current`cubes, current`rotationIndex, current`ghostShape, next`cubes, {ghostShape}`cubes
      reads current.cubes
    {
      ShapeParts(current) && Separate(current, next) && current.style != next.style &&
      (ghostShape != null ==> Separate(current, ghostShape)) &&
      (current.ghostShape == null || current.ghostShape == ghostShape)
    }

    /** The moving shape: in play while it falls, or split. */
    ghost predicate CurrentShape()
      reads this`current, this`next, this`ghostShape, this`isDestroyMode, this`linesToDestroy
      reads current`cubes, current`rotationIndex, current`shapePosition, current`ghostShape, next`cubes, {ghostShape}`cubes
      reads current.cubes
    {
      Paired() &&
      (!isDestroyMode ==> InPlay(current)) &&
      (Detached(current.cubes) || InPlay(current)) &&
      (linesToDestroy != [] ==> Detached(current.cubes))
    }

    /** The cubes split off the moving shape lie in the field. */
    ghost predicate CubesLanded()
      reads this`field, this`current, field, current`cubes, current.cubes
      requires FieldOk()
    {
      forall c :: c in current.cubes && c.shape == null ==> FilledAt(c.position)
    }

    /** The moving shape, and its split cubes in the field. */
    ghost predicate CurrentOk()
      reads this`field, this`current, this`next, this`ghostShape, this`isDestroyMode, this`linesToDestroy
      reads field, current`cubes, current`rotationIndex, current`shapePosition, current`ghostShape, next`cubes, {ghostShape}`cubes
      reads current.cubes
    {
      FieldOk() && CurrentShape() && CubesLanded()
    }

    ghost predicate Valid()
      reads this`field, this`current, this`next, this`ghostShape, this`isDestroyMode, this`linesToDestroy
      reads this`currentLineCount, this`currentLevel, this`currentDropPoints
      reads this`prevShapeStyles, this`nextShapeStyles, this`ghostEnabled
      reads field, current`cubes, current`rotationIndex, current`shapePosition, current`ghostShape
      reads next`cubes, next`rotationIndex, next`ghostShape, {ghostShape}`cubes, {ghostShape}`rotationIndex
      reads current.cubes, next.cubes, if ghostShape != null then ghostShape.cubes else []
    {
      FieldInv() && Counters() && SpareOk() && CurrentOk()
    }

    /** Shape.IsCurrentPositionBlocked(currentStaticCubes) is Blocked when the static cubes are the field. */
    lemma StaticCubesAgree(s: Shape, statics: seq<Cube>)
      requires FieldOk() && ShapeParts(s)
      requires forall c :: c in PositionsOf(statics) <==> FilledAt(c)
      requires forall c :: c in s.cubes && c.shape == null ==> FilledAt(c.position)
      ensures s.IsCurrentPositionBlocked(statics) <==> Blocked(ShapesOf(s.cubes), Placed(s))
    {
      CellsArePlaced(s);
      var a, b := s.Cells(), PositionsOf(statics);
      BlockedIffShared(a, b);
      if null in ShapesOf(s.cubes) {
        var i :| 0 <= i < |s.cubes| && s.cubes[i].shape == null;
        assert a[i] == s.cubes[i].position && FilledAt(a[i]);
        var j :| 0 <= j < |b| && b[j] == a[i];
      }
      if exists i :: 0 <= i < |a| && FilledAt(a[i]) {
        var i :| 0 <= i < |a| && FilledAt(a[i]);
        var j :| 0 <= j < |b| && b[j] == a[i];
      }
    }

    // -------------------------------------------------------------------------
    // Collision and movement.

    /**
     * Move: the offset is clamped so that the box stays in the field; if the shape
     * then overlaps the static cubes it goes back. True only if the full offset was
     * applied without a block.
     */
    method Move(s: Shape, dx: int, dy: int) returns (moved: bool)
      requires FieldOk() && |s.cubes| > 0 && Owned(s, s.cubes)
      modifies s`shapePosition
      ensures var clamp := ClampOffset(BoundingBox(old(Placed(s))), dx, dy);
              var tried := CellsAt(s, s.cubes, AddCell(old(s.shapePosition), clamp.0));
              s.shapePosition == (if Blocked(ShapesOf(s.cubes), tried) then old(s.shapePosition) else AddCell(old(s.shapePosition), clamp.0)) &&
              moved == (clamp.1 && !Blocked(ShapesOf(s.cubes), tried))
      ensures old(InPlay(s)) ==> InPlay(s)
    {
      var rect := BoundingBox(Placed(s));
      var currentPos := s.shapePosition;
      ghost var cubes := s.cubes;
      var clamp := ClampOffset(rect, dx, dy);
      var canMoveOffset := clamp.1;
      var offsetX, offsetY := clamp.0.x, clamp.0.y;
      var target := Cell(currentPos.x + offsetX, currentPos.y + offsetY);
      var blocked := Blocked(ShapesOf(s.cubes), CellsAt(s, s.cubes, target));
      if InPlay(s) {
        StepStaysInField(s, s.cubes, currentPos, clamp.0);
      }
      if blocked {
        canMoveOffset := false;
      } else {
        s.shapePosition := target;
      }
      moved := canMoveOffset;
    }

    // -------------------------------------------------------------------------
    // The field: landing, full lines, blinking, destroying and scoring.

    /** AddStaticCubes: each cube's block is written at its cell, in list order. */
    method AddStaticCubes(cubes: seq<Cube>)
      requires FieldOk() && forall i :: 0 <= i < |cubes| ==> InField(cubes[i].Position())
      modifies field
      ensures forall x, y {:trigger field[x, y]} :: 0 <= x < CubeCountHorizontal && 0 <= y < CubeCountVertical ==>
                field[x, y] == (var b := LastAt(BlocksOf(cubes), Cell(x, y)); if b.Some? then b else old(field[x, y]))
      ensures forall i :: 0 <= i < |cubes| ==> FilledAt(cubes[i].Position())
      ensures forall c: Cell :: FilledAt(c) <==> old(FilledAt(c)) || c in old(PositionsOf(cubes))
      ensures old(BlocksInPlace()) ==> BlocksInPlace()
    {
      hide LastAt, InPlace;
      ghost var positions := PositionsOf(cubes);
      AddBlocks(field, BlocksOf(cubes));
      assert PositionsOf(cubes) == positions;
      forall c: Cell | InField(c) && !old(FilledAt(c)) && c !in positions
        ensures !FilledAt(c)
      {
        assert field[c.x, c.y] == LastAt(BlocksOf(cubes), c);
      }
      forall c: Cell | c in positions
        ensures FilledAt(c)
      {
        var i :| 0 <= i < |cubes| && positions[i] == c;
      }
    }

    /** FindFullLines: the full rows, bottom-up; destroy mode starts when there is one. */
    method FindFullLines()
      requires FieldOk()
      modifies this`linesToDestroy, this`isDestroyMode, this`currentBlinkCount, this`currentBlinkStatus
      ensures linesToDestroy == FullLines(old(Rows()))
      ensures isDestroyMode <==> linesToDestroy != []
      ensures currentBlinkCount == 0 && currentBlinkStatus == FullOpacity
    {
      var filledLines := FullRows(field);
      MarkLines(filledLines);
    }

    /** The end of FindFullLines: destroy mode starts exactly when some line is full. */
    method MarkLines(filledLines: seq<int>)
      modifies this`linesToDestroy, this`isDestroyMode, this`currentBlinkCount, this`currentBlinkStatus
      ensures linesToDestroy == filledLines && (isDestroyMode <==> filledLines != [])
      ensures currentBlinkCount == 0 && currentBlinkStatus == FullOpacity
    {
      if |filledLines| > 0 {
        linesToDestroy := filledLines;
        isDestroyMode := true;
      } else {
        linesToDestroy := [];
        isDestroyMode := false;
      }
      currentBlinkCount := 0;
      currentBlinkStatus := FullOpacity;
    }

    /** BlinkLines: the blink state steps, and the rows to destroy show its opacity. */
    method BlinkLines()
      requires FieldOk()
      modifies field, this`currentBlinkCount, this`currentBlinkStatus
      ensures (currentBlinkCount, currentBlinkStatus) == BlinkStep(old(currentBlinkCount), old(currentBlinkStatus))
      ensures Rows() == Blinked(old(Rows()), linesToDestroy, currentBlinkStatus)
      ensures old(BlocksInPlace()) ==> BlocksInPlace()
    {
      if FloatHelper.FloatEquals(currentBlinkStatus, FullOpacity) {
        currentBlinkStatus := LineDestroyBlinkOpacity;
      } else {
        currentBlinkStatus := FullOpacity;
        currentBlinkCount := currentBlinkCount + 1;
      }
      FadeRows(field, linesToDestroy, currentBlinkStatus);
    }

    /** DestroyLines: the listed rows go, the rows above them move down, empty rows come in on top. */
    method DestroyLines()
      requires FieldOk() && Distinct(linesToDestroy) && InRows(linesToDestroy, CubeCountVertical)
      modifies field
      ensures Rows() == Cleared(old(Rows()), linesToDestroy, EmptyRow())
      ensures old(BlocksInPlace()) ==> BlocksInPlace()
    {
      DestroyRows(field, linesToDestroy);
    }

    /**
     * ScoreFullLines: the destroyed lines count towards the line total and earn the
     * points for that many lines at once, times the level; destroy mode ends.
     */
    method ScoreFullLines()
      requires FieldOk()
      modifies this`currentLineCount, this`currentPoints, this`linesToDestroy, this`isDestroyMode,
               this`currentBlinkCount, this`currentBlinkStatus
      ensures currentLineCount == old(currentLineCount) + |old(linesToDestroy)|
      ensures currentPoints == old(currentPoints) + PointsForLines(|old(linesToDestroy)|) * currentLevel
      ensures linesToDestroy == [] && !isDestroyMode && currentBlinkCount == 0 && currentBlinkStatus == FullOpacity
    {
      var filledLines := |linesToDestroy|;
      if filledLines > 0 {
        var allEmpty := FieldIsEmpty(field);
        var pointsForTheRows := PointsForLines(filledLines);
        var pointsToAdd := pointsForTheRows * currentLevel;
        currentLineCount := currentLineCount + filledLines;
        currentPoints := currentPoints + pointsToAdd;
      }
      linesToDestroy := [];
      isDestroyMode := false;
      currentBlinkCount := 0;
      currentBlinkStatus := FullOpacity;
    }

    /** CalcNextMoveTimestamp: the next automatic step comes after the delay of the current state. */
    method CalcNextMoveTimestamp(timestamp: int)
      modifies this`nextMoveTimestamp
      ensures nextMoveTimestamp == timestamp + NextMoveDelay(isDropping, isDown, isDestroyMode, currentInterval)
    {
      if isDropping {
        nextMoveTimestamp := timestamp + DropShapeInterval;
      } else if isDown {
        nextMoveTimestamp := timestamp + MoveWhenDownInterval;
      } else if isDestroyMode {
        nextMoveTimestamp := timestamp + LineDestroyBlinkInterval;
      } else {
        nextMoveTimestamp := timestamp + currentInterval;
      }
    }

    // -------------------------------------------------------------------------
    // The next shape and the ghost shape.

    /** CreateNextShape: the next style drawn from the bag, laid out as a new, fully opaque shape. */
    method CreateNextShape() returns (shape: Shape)
      requires BagReady(prevShapeStyles, nextShapeStyles)
      modifies this`nextShapeStyles, this`prevShapeStyles
      ensures Draw(old(prevShapeStyles), old(nextShapeStyles), shape.style, prevShapeStyles, nextShapeStyles)
      ensures fresh(shape)
      ensures shape.rotationIndex == 0 && shape.ghostShape == null
      ensures forall c :: c in shape.cubes ==> fresh(c) && c.opacity == FullOpacity
      ensures Separate(current, shape) && Separate(next, shape) && (ghostShape != null ==> Separate(shape, ghostShape))
      ensures ShapeParts(shape) && Joined(shape, shape.cubes) && InPlayAt(shape, shape.cubes, ShapesStartPoint)
    {
      var newShapeStyle, prev, rest := DrawStyle(prevShapeStyles, nextShapeStyles);
      prevShapeStyles, nextShapeStyles := prev, rest;
      shape := NewShape(newShapeStyle, FullOpacity);
      NewCubes(current, shape);
      NewCubes(next, shape);
      if ghostShape != null {
        NewCubes(ghostShape, shape);
      }
    }

    /** DestroyGhostShape: the ghost leaves the scene; the field keeps pointing at it. */
    method DestroyGhostShape()
      modifies this`ghostShown
      ensures ghostShown == (old(ghostShown) && ghostShape == null)
    {
      if ghostShape != null {
        ghostShown := false;
      }
    }

    /**
     * CreateGhostShape: with the ghost enabled, a new faint shape of the moving shape's
     * style replaces the old ghost in the scene and becomes the moving shape's ghost.
     */
    method CreateGhostShape()
      modifies this`ghostShape, this`ghostShown, current`ghostShape
      ensures !ghostEnabled ==> ghostShape == old(ghostShape) && ghostShown == old(ghostShown) && current.ghostShape == old(current.ghostShape)
      ensures ghostEnabled ==> fresh(ghostShape) && ghostShown && current.ghostShape == ghostShape && ghostShape.style == current.style
      ensures ghostEnabled ==> StoredOf(ghostShape.cubes) == Layout(ghostShape.style)
      ensures ghostEnabled ==> ghostShape.rotationIndex == 0 && ghostShape.ghostShape == null
      ensures ghostEnabled ==> forall c :: c in ghostShape.cubes ==> fresh(c) && c.opacity == GhostShapeOpacity
      ensures ghostEnabled ==> Separate(current, ghostShape) && Separate(next, ghostShape)
      ensures ghostEnabled ==> GhostParts(ghostShape)
    {
      if !ghostEnabled {
        return;
      }
      // DestroyGhostShape hides the old ghost; the new one is shown in its place at once.
      var shadow := NewShape(current.style, GhostShapeOpacity);
      NewCubes(current, shadow);
      NewCubes(next, shadow);
      ghostShape, ghostShown, current.ghostShape := shadow, true, shadow;
    }

    /** ToggleGhostShape: the ghost is switched; switched on it is created anew, switched off it leaves the scene. */
    method ToggleGhostShape()
      modifies this`ghostEnabled, this`ghostShape, this`ghostShown, current`ghostShape
      ensures ghostEnabled == !old(ghostEnabled)
      ensures !ghostEnabled ==> ghostShape == old(ghostShape) && current.ghostShape == old(current.ghostShape) &&
                                ghostShown == (old(ghostShown) && ghostShape == null)
      ensures ghostEnabled ==> fresh(ghostShape) && ghostShown && current.ghostShape == ghostShape && ghostShape.style == current.style
      ensures ghostEnabled ==> StoredOf(ghostShape.cubes) == Layout(ghostShape.style)
      ensures ghostEnabled ==> ghostShape.rotationIndex == 0 && ghostShape.ghostShape == null
      ensures ghostEnabled ==> forall c :: c in ghostShape.cubes ==> fresh(c) && c.opacity == GhostShapeOpacity
      ensures ghostEnabled ==> Separate(current, ghostShape) && Separate(next, ghostShape) && GhostParts(ghostShape)
    {
      ghostEnabled := !ghostEnabled;
      if ghostEnabled {
        CreateGhostShape();
      } else {
        DestroyGhostShape();
      }
    }

    /**
     * Move(s, 0, 1) would take s, standing at p with these cubes, one row down: its box
     * is above the bottom row and the cells one row lower are free.
     */
    predicate CanDrop(s: Shape, cubes: seq<Cube>, p: Cell)
      reads this`field, field, cubes
      requires FieldOk() && |cubes| > 0
    {
      BoundingBox(CellsAt(s, cubes, p)).Bottom() < MaxCubeIndexVertical &&
      !Blocked(ShapesOf(cubes), CellsAt(s, cubes, AddCell(p, Cell(0, 1))))
    }

    /** What Move(s, 0, 1) does to an attached shape inside the field, told by CanDrop. */
    lemma DropStep(s: Shape, cubes: seq<Cube>, p: Cell)
      requires FieldOk() && |cubes| > 0 && Joined(s, cubes)
      requires BoundingBox(CellsAt(s, cubes, p)).Bottom() <= MaxCubeIndexVertical
      ensures var clamp := ClampOffset(BoundingBox(CellsAt(s, cubes, p)), 0, 1);
              var tried := CellsAt(s, cubes, AddCell(p, clamp.0));
              (clamp.1 && !Blocked(ShapesOf(cubes), tried)) == CanDrop(s, cubes, p) &&
              (if Blocked(ShapesOf(cubes), tried) then p else AddCell(p, clamp.0)) ==
                (if CanDrop(s, cubes, p) then AddCell(p, Cell(0, 1)) else p)
      ensures CanDrop(s, cubes, p) ==>
                BoundingBox(CellsAt(s, cubes, AddCell(p, Cell(0, 1)))).Bottom() == BoundingBox(CellsAt(s, cubes, p)).Bottom() + 1
    {
      var here := CellsAt(s, cubes, p);
      DownStep(BoundingBox(here));
      AttachedCellsAt(s, cubes, p, Cell(0, 1));
      BoundingBoxShifted(here, Cell(0, 1));
      assert AddCell(p, Cell(0, 0)) == p;
    }

    /** From every row above y, the shape in column x could drop one row. */
    ghost predicate DropsTo(s: Shape, cubes: seq<Cube>, x: int, y: int)
      reads this`field, field, cubes
      requires FieldOk() && |cubes| > 0
    {
      forall k :: 0 <= k < y ==> CanDrop(s, cubes, Cell(x, k))
    }

    lemma DropsFurther(s: Shape, cubes: seq<Cube>, x: int, y: int)
      requires FieldOk() && |cubes| > 0 && y >= 0
      requires DropsTo(s, cubes, x, y) && CanDrop(s, cubes, Cell(x, y))
      ensures DropsTo(s, cubes, x, y + 1)
    {
    }

    /**
     * Move(s, 0, 1) for an attached shape in column x, row y, inside the field: one row
     * down exactly when it can drop, and then it has dropped from every row down to y.
     * The ghost results are the new row and the new bottom of its box.
     */
    method Drop(s: Shape, x: int, ghost y: int, ghost bottom: int) returns (moved: bool, ghost y': int, ghost bottom': int)
      requires FieldOk() && |s.cubes| > 0 && Joined(s, s.cubes) && s.shapePosition == Cell(x, y) && y >= 0
      requires bottom == BoundingBox(CellsAt(s, s.cubes, Cell(x, y))).Bottom() <= MaxCubeIndexVertical
      requires DropsTo(s, s.cubes, x, y)
      modifies s`shapePosition
      ensures moved == CanDrop(s, s.cubes, Cell(x, y))
      ensures y' == (if moved then y + 1 else y) && bottom' == (if moved then bottom + 1 else bottom)
      ensures s.shapePosition == Cell(x, y') && DropsTo(s, s.cubes, x, y')
      ensures bottom' == BoundingBox(CellsAt(s, s.cubes, Cell(x, y'))).Bottom() <= MaxCubeIndexVertical
    {
      DropStep(s, s.cubes, s.shapePosition);
      moved := Move(s, 0, 1);
      if moved {
        DropsFurther(s, s.cubes, x, y);
        y', bottom' := y + 1, bottom + 1;
      } else {
        y', bottom' := y, bottom;
      }
    }

    /**
     * The loop of CalcGhostShapePosition: from the top row of column x, the shape moves
     * down while Move(shape, 0, 1) succeeds.
     */
    method DropAll(g: Shape, x: int)
      requires FieldOk() && |g.cubes| > 0 && Joined(g, g.cubes) && g.shapePosition == Cell(x, 0)
      requires BoundingBox(CellsAt(g, g.cubes, Cell(x, 0))).Bottom() <= MaxCubeIndexVertical
      modifies g`shapePosition
      ensures g.shapePosition.x == x && g.shapePosition.y >= 0
      ensures !CanDrop(g, g.cubes, g.shapePosition) && DropsTo(g, g.cubes, x, g.shapePosition.y)
    {
      var moved, y, bottom := Drop(g, x, 0, BoundingBox(CellsAt(g, g.cubes, Cell(x, 0))).Bottom());
      while moved
        invariant Joined(g, g.cubes) && g.shapePosition == Cell(x, y) && y >= 0
        invariant bottom == BoundingBox(CellsAt(g, g.cubes, Cell(x, y))).Bottom() <= MaxCubeIndexVertical
        invariant DropsTo(g, g.cubes, x, y)
        invariant !moved ==> !CanDrop(g, g.cubes, Cell(x, y))
        decreases MaxCubeIndexVertical - bottom, moved
      {
        moved, y, bottom := Drop(g, x, y, bottom);
      }
    }

    /**
     * CalcGhostShapePosition: with the ghost enabled, the ghost goes to the moving
     * shape's column on the top row and moves down while it can. It ends on the first
     * row, from the top, from which it cannot drop, having dropped from every row above.
     */
    method CalcGhostShapePosition()
      requires FieldOk()
      requires ghostEnabled ==> ghostShape != null && ghostShape != current && |ghostShape.cubes| > 0 &&
                                Joined(ghostShape, ghostShape.cubes) && Small(StoredOf(ghostShape.cubes))
      modifies {ghostShape}`shapePosition
      ensures ghostEnabled ==>
                var p := ghostShape.shapePosition;
                p.x == current.shapePosition.x && p.y >= 0 &&
                !CanDrop(ghostShape, ghostShape.cubes, p) &&
                forall y :: 0 <= y < p.y ==> CanDrop(ghostShape, ghostShape.cubes, Cell(p.x, y))
    {
      if !ghostEnabled {
        return;
      }
      var g := ghostShape;
      var x := current.shapePosition.x;
      g.shapePosition := Cell(x, 0);
      AttachedCellsAt(g, g.cubes, Cell(x, 0), Cell(0, 0));
      TopRowBottom(StoredOf(g.cubes), x);
      DropAll(g, x);
    }

    /** The first step of AddNextShape: the next shape becomes the moving shape, at the start point. */
    method TakeNext()
      requires FieldInv() && Counters() && SpareOk() && !isDestroyMode
      modifies this`current, next`shapePosition
      ensures current == next == old(next) && current.shapePosition == ShapesStartPoint
      ensures unchanged(this`ghostShape, this`ghostShown, this`ghostEnabled)
      ensures FieldInv() && Counters() && BagOk() && BagReady(prevShapeStyles, nextShapeStyles)
      ensures Entered(current)
      ensures ghostShape != null ==> GhostParts(ghostShape) &&
                                     Separate(current, ghostShape)
    {
      current := next;
      current.shapePosition := ShapesStartPoint;
      forall c | c in current.cubes
        ensures c.shape == current
      {
        var i :| 0 <= i < |current.cubes| && current.cubes[i] == c;
        assert ShapesOf(current.cubes)[i] == current;
      }
    }

    /** The second step of AddNextShape: a new next shape is drawn from the bag. */
    method DrawNext()
      requires current == next && FieldInv() && Counters() && BagOk() && BagReady(prevShapeStyles, nextShapeStyles)
      requires Entered(current)
      requires ghostShape != null ==> GhostParts(ghostShape) &&
                                      Separate(current, ghostShape)
      modifies this`next, this`nextShapeStyles, this`prevShapeStyles
      ensures unchanged(this`ghostShape, this`ghostShown, this`ghostEnabled, this`current)
      ensures Draw(old(prevShapeStyles), old(nextShapeStyles), next.style, prevShapeStyles, nextShapeStyles)
      ensures fresh(next) && Spare(next)
      ensures FieldInv() && Counters() && BagOk()
      ensures Entered(current)
      ensures Separate(current, next) && current.style != next.style
      ensures ghostShape != null ==> GhostParts(ghostShape) &&
                                     Separate(next, ghostShape) && Separate(current, ghostShape)
    {
      hide FieldInv, Counters, Entered, GhostParts;
      next := CreateNextShape();
    }

    /**
     * The second half of AddNextShape: CreateGhostShape for the moving shape just taken
     * from the next shape, which restores the invariant.
     */
    method GhostForNewShape()
      requires Spare(next)
      requires FieldInv() && Counters() && BagOk() && !isDestroyMode
      requires Entered(current)
      requires Separate(current, next) && current.style != next.style
      requires ghostShape != null ==> GhostParts(ghostShape) &&
                                      Separate(next, ghostShape) && Separate(current, ghostShape)
      modifies this`ghostShape, this`ghostShown, current`ghostShape
      ensures ghostEnabled ==> fresh(ghostShape) && ghostShown && current.ghostShape == ghostShape && ghostShape.style == current.style
      ensures !ghostEnabled ==> ghostShape == old(ghostShape) && ghostShown == old(ghostShown) && current.ghostShape == null
      ensures Valid()
    {
      assert FieldOk() && linesToDestroy == [];
      hide FieldInv, Counters, BagOk, Spare, GhostParts, InPlay, ShapeParts, FieldOk;
      CreateGhostShape();
    }

    /**
     * AddNextShape: the next shape becomes the moving shape at the start point, a new
     * next shape is drawn from the bag and the ghost is made for the moving shape.
     */
    method AddNextShape()
      requires FieldInv() && Counters() && SpareOk() && !isDestroyMode
      modifies this`current, this`next, this`nextShapeStyles, this`prevShapeStyles, this`ghostShape, this`ghostShown
      modifies next`shapePosition, next`ghostShape
      ensures current == old(next) && current.shapePosition == ShapesStartPoint && fresh(next)
      ensures ghostEnabled ==> fresh(ghostShape) && ghostShown && current.ghostShape == ghostShape && ghostShape.style == current.style
      ensures !ghostEnabled ==> ghostShape == old(ghostShape) && ghostShown == old(ghostShown) && current.ghostShape == null
      ensures Valid()
    {
      hide *;
      TakeNext();
      DrawNext();
      GhostForNewShape();
    }

    // -------------------------------------------------------------------------
    // The automatic move.

    /** The moving shape stands on the top row over a static cube, or with a split cube. */
    predicate SpawnBlocked()
      reads this`field, field, this`current, current`cubes, current`shapePosition, current.cubes
      requires FieldOk()
    {
      current.shapePosition.y <= 0 && Blocked(ShapesOf(current.cubes), Placed(current))
    }

    /**
     * The game-over test of ProcessAutomaticMove: a moving shape that is blocked on the
     * top row ends the game, with the cleared lines as the extra statistic. The move
     * goes on after it.
     */
    method CheckSpawn()
      requires FieldOk()
      modifies graph`isGameOver, graph`gameOverText
      ensures graph.isGameOver == (old(graph.isGameOver) || SpawnBlocked())
      ensures SpawnBlocked() ==> graph.gameOverText.Some?
      ensures !SpawnBlocked() ==> graph.gameOverText == old(graph.gameOverText)
    {
      if current.shapePosition.y <= 0 && Blocked(ShapesOf(current.cubes), Placed(current)) {
        var call := SceneGraph.GameOverCall(currentLevel, currentPoints, Some([SceneGraph.Stat("Cleared Lines", currentLineCount)]));
        ClearedLinesNeverClashes(call.level, call.points, currentLineCount);
        var error := graph.GameOver(call.level, call.points, call.extras);
      }
    }

    /** Move(current, 0, 1) on a moving shape in play: one row down exactly when it can drop. */
    method StepDown() returns (moved: bool)
      requires Valid() && !isDestroyMode
      modifies current`shapePosition
      ensures moved == old(CanDrop(current, current.cubes, current.shapePosition))
      ensures current.shapePosition == if moved then AddCell(old(current.shapePosition), Cell(0, 1)) else old(current.shapePosition)
      ensures Valid() && !isDestroyMode
    {
      hide FieldInv, Counters, SpareOk;
      BoxInFieldIffAllInField(Placed(current));
      DropStep(current, current.cubes, current.shapePosition);
      moved := Move(current, 0, 1);
    }

    /** Split on the moving shape, whose cubes are none of the next shape's or the ghost's. */
    method SplitCurrent() returns (cubes: seq<Cube>)
      requires SpareOk() && current.Valid() && current.Attached()
      requires forall j :: 0 <= j < |next.cubes| ==> next.cubes[j] !in current.cubes
      requires ghostShape != null ==> forall j :: 0 <= j < |ghostShape.cubes| ==> ghostShape.cubes[j] !in current.cubes
      modifies current.cubes
      ensures cubes == current.cubes && SpareOk()
      ensures unchanged(this, field, current, next) && (ghostShape != null ==> unchanged(ghostShape))
      ensures forall c :: c in cubes ==> c.shape == null
      ensures StoredOf(cubes) == old(current.Cells()) && PositionsOf(cubes) == old(current.Cells())
    {
      hide *;
      cubes := current.Split();
    }

    /** The moving shape, in play, is split: its cubes become static cubes, each on the cell it covered. */
    method Detach() returns (cubes: seq<Cube>)
      requires SpareOk() && Paired() && InPlay(current)
      modifies current.cubes
      ensures cubes == current.cubes && Detached(cubes) && PositionsOf(cubes) == old(Placed(current))
      ensures forall i :: 0 <= i < |cubes| ==> InField(cubes[i].Position())
      ensures SpareOk() && Paired() && unchanged(this, field)
    {
      hide SpareOk;
      ApartFrom(current.cubes, next.cubes);
      if ghostShape != null {
        ApartFrom(current.cubes, ghostShape.cubes);
      }
      CellsArePlaced(current);
      forall c | c in current.cubes
        ensures c.shape == current
      {
        var i :| 0 <= i < |current.cubes| && current.cubes[i] == c;
        assert ShapesOf(current.cubes)[i] == current;
      }
      cubes := SplitCurrent();
      forall i | 0 <= i < |cubes|
        ensures ShapesOf(cubes)[i] == null
      {
        assert cubes[i] in cubes;
      }
      assert Owned(current, cubes);
    }

    /**
     * The state between the landing and the next shape: the moving shape is split and
     * its cubes lie in the field; the rest of the invariant holds.
     */
    ghost predicate Landed()
      reads this`field, this`current, this`next, this`ghostShape
      reads this`currentLineCount, this`currentLevel, this`currentDropPoints
      reads this`prevShapeStyles, this`nextShapeStyles, this`ghostEnabled
      reads field, current`cubes, current`rotationIndex, current`ghostShape
      reads next`cubes, next`rotationIndex, next`ghostShape, {ghostShape}`cubes, {ghostShape}`rotationIndex
      reads current.cubes, next.cubes, if ghostShape != null then ghostShape.cubes else []
    {
      FieldOk() && BlocksInPlace() && Counters() && SpareOk() && Paired() &&
      Detached(current.cubes) && CubesLanded()
    }

    /** What a rotation of the moving shape needs from Valid: its rig, and which objects are apart. */
    lemma RotationParts()
      requires Valid()
      ensures FieldOk() && Rig(current) && (current.ghostShape == null || current.ghostShape == ghostShape)
      ensures current.ghostShape != null ==> Small(GhostPose(current).offsets)
      ensures Detached(current.cubes) ==> null in ShapesOf(current.cubes)
      ensures current != next && (ghostShape != null ==> ghostShape != next && ghostShape != current)
      ensures forall j :: 0 <= j < |next.cubes| ==> next.cubes[j] !in current.cubes
      ensures forall j :: 0 <= j < |next.cubes| ==> next.cubes[j] !in GhostCubes(current)
      ensures current.ghostShape == null ==> GhostCubes(current) == []
      ensures ghostShape != null ==> forall j :: 0 <= j < |ghostShape.cubes| ==> ghostShape.cubes[j] !in current.cubes
    {
      if Detached(current.cubes) {
        assert ShapesOf(current.cubes)[0] == null;
      }
      ApartFrom(current.cubes, next.cubes);
      if ghostShape != null {
        ApartFrom(ghostShape.cubes, next.cubes);
        ApartFrom(current.cubes, ghostShape.cubes);
      }
    }

    /** A rotation of the moving shape, which changes only its pose and its ghost's, keeps Valid. */
    twostate lemma RotationKeepsValid()
      requires old(Valid()) && unchanged(this) && unchanged(field) && unchanged(next) && unchanged(old(next.cubes))
      requires ghostShape != null && current.ghostShape == null ==> unchanged(ghostShape) && unchanged(old(ghostShape.cubes))
      requires Rig(current) && current.cubes == old(current.cubes) && current.ghostShape == old(current.ghostShape)
      requires GhostCubes(current) == old(GhostCubes(current)) && ShapesOf(current.cubes) == old(ShapesOf(current.cubes))
      requires old(Detached(current.cubes)) ==> current.CurrentPose() == old(current.CurrentPose())
      requires old(InPlay(current)) ==> InPlay(current)
      requires current.ghostShape != null ==> Small(StoredOf(current.ghostShape.cubes))
      ensures Valid()
    {
      assert FieldInv() && Counters() && BagOk() && Spare(next);
      if ghostShape != null {
        assert GhostParts(ghostShape) && Separate(next, ghostShape) && Separate(current, ghostShape);
      }
      assert Paired();
      assert Detached(current.cubes) == old(Detached(current.cubes));
      assert CurrentShape();
      assert CubesLanded() by {
        if Detached(current.cubes) {
          forall c | c in current.cubes && c.shape == null
            ensures FilledAt(c.position)
          {
            var i :| 0 <= i < |current.cubes| && current.cubes[i] == c;
            assert StoredOf(current.cubes)[i] == old(StoredOf(current.cubes))[i];
            assert old(ShapesOf(current.cubes))[i] == null;
            assert old(FilledAt(current.cubes[i].position));
          }
        } else {
          forall c | c in current.cubes
            ensures c.shape != null
          {
            var i :| 0 <= i < |current.cubes| && current.cubes[i] == c;
            assert ShapesOf(current.cubes)[i] == current;
          }
        }
      }
    }

    /** The parts of Valid that the step after the second blink needs. */
    lemma DestroyModeParts()
      requires Valid()
      ensures FieldInv() && Counters() && SpareOk()
    {
    }

    /** Valid includes a well-formed field. */
    lemma InValidFieldOk()
      requires Valid()
      ensures FieldOk()
    {
    }

    /** The parts of Valid that Detach and PlaceCubes need while the shape is in play. */
    lemma InPlayParts()
      requires Valid() && !isDestroyMode
      ensures FieldOk() && BlocksInPlace() && Counters() && SpareOk() && Paired() && InPlay(current)
    {
    }

    /** The parts of Landed that hold whatever the lines to destroy are. */
    lemma LandedParts()
      requires Landed()
      ensures FieldOk() && BlocksInPlace() && Counters() && SpareOk()
    {
    }

    /** After a landing that found full rows, the game is back in a valid state, in destroy mode. */
    lemma LandedValid()
      requires Landed() && FieldInv() && isDestroyMode
      ensures Valid()
    {
    }

    /** AddStaticCubes on the split cubes of the moving shape, which it leaves as they are. */
    method PlaceCubes(cubes: seq<Cube>)
      requires FieldOk() && BlocksInPlace() && forall i :: 0 <= i < |cubes| ==> InField(cubes[i].Position())
      requires SpareOk() && Paired() && Counters() && cubes == current.cubes && Detached(cubes)
      modifies field
      ensures Landed() && cubes == current.cubes && unchanged(this)
      ensures forall c: Cell :: FilledAt(c) <==> old(FilledAt(c)) || c in old(PositionsOf(cubes))
    {
      hide FieldInv, Counters, SpareOk, Paired;
      AddStaticCubes(cubes);
      forall c | c in current.cubes && c.shape == null
        ensures FilledAt(c.position)
      {
        var i :| 0 <= i < |cubes| && cubes[i] == c;
      }
    }

    /** FindFullLines keeps the field invariant: the lines to destroy are the full rows of the field. */
    method MarkFullLines()
      requires FieldOk() && BlocksInPlace()
      modifies this`linesToDestroy, this`isDestroyMode, this`currentBlinkCount, this`currentBlinkStatus
      ensures FieldInv()
      ensures linesToDestroy == FullLines(Rows()) && (isDestroyMode <==> linesToDestroy != [])
      ensures currentBlinkCount == 0 && currentBlinkStatus == FullOpacity
    {
      FindFullLines();
      FullLinesOfIsFullLines(Rows(), linesToDestroy);
    }

    /**
     * The landing: the moving shape is split, its cubes are written into the field
     * (AddStaticCubes) and the full rows are looked for (FindFullLines).
     */
    method Settle()
      requires Valid() && !isDestroyMode
      modifies current.cubes, field, this`linesToDestroy, this`isDestroyMode, this`currentBlinkCount, this`currentBlinkStatus
      ensures forall c: Cell :: FilledAt(c) <==> old(FilledAt(c)) || c in old(Placed(current))
      ensures linesToDestroy == FullLines(Rows()) && (isDestroyMode <==> linesToDestroy != [])
      ensures currentBlinkCount == 0 && currentBlinkStatus == FullOpacity
      ensures FieldInv() && Counters() && SpareOk()
      ensures isDestroyMode ==> Valid()
    {
      hide *;
      InPlayParts();
      var cubes := Detach();
      PlaceCubes(cubes);
      LandedParts();
      MarkFullLines();
      if isDestroyMode {
        LandedValid();
      }
    }

    /** The drop points earned during a drop are added to the points and start again from zero. */
    method BankDropPoints()
      requires Valid()
      modifies this`currentPoints, this`currentDropPoints
      ensures currentPoints == old(currentPoints) + old(currentDropPoints) && currentDropPoints == 0
      ensures Valid()
    {
      hide FieldInv, SpareOk, CurrentOk;
      currentPoints := currentPoints + currentDropPoints;
      currentDropPoints := 0;
    }

    /** The first half of a landing: everything up to the choice of the next shape. */
    method Touchdown()
      requires Valid() && !isDestroyMode
      modifies this`isDropping, this`isDown, this`ghostShown, this`currentPoints, this`currentDropPoints
      modifies current.cubes, field, this`linesToDestroy, this`isDestroyMode, this`currentBlinkCount, this`currentBlinkStatus
      ensures !isDropping && !isDown && currentDropPoints == 0 && currentPoints == old(currentPoints) + old(currentDropPoints)
      ensures ghostShown == (old(ghostShown) && ghostShape == null)
      ensures forall c: Cell :: FilledAt(c) <==> old(FilledAt(c)) || c in old(Placed(current))
      ensures linesToDestroy == FullLines(Rows()) && (isDestroyMode <==> linesToDestroy != [])
      ensures currentBlinkCount == 0 && currentBlinkStatus == FullOpacity
      ensures FieldInv() && Counters() && SpareOk()
      ensures isDestroyMode ==> Valid()
    {
      hide *;
      InPlayParts();
      isDropping := false;
      isDown := false;
      DestroyGhostShape();
      BankDropPoints();
      Settle();
    }

    /**
     * The shape is down: the flags drop, the drop points are added to the points, the
     * shape's cubes land, and without a full row the next shape comes in.
     */
    method Land()
      requires Valid() && !isDestroyMode
      modifies this`isDropping, this`isDown, this`ghostShown, this`currentPoints, this`currentDropPoints
      modifies current.cubes, field, this`linesToDestroy, this`isDestroyMode, this`currentBlinkCount, this`currentBlinkStatus
      modifies this`current, this`next, this`nextShapeStyles, this`prevShapeStyles, this`ghostShape
      modifies next`shapePosition, next`ghostShape
      ensures Valid()
      ensures !isDropping && !isDown && currentDropPoints == 0 && currentPoints == old(currentPoints) + old(currentDropPoints)
      ensures forall c: Cell :: FilledAt(c) <==> old(FilledAt(c)) || c in old(Placed(current))
      ensures linesToDestroy == FullLines(Rows()) && (isDestroyMode <==> linesToDestroy != [])
      ensures isDestroyMode ==> current == old(current)
      ensures !isDestroyMode ==> current == old(next) && current.shapePosition == ShapesStartPoint
    {
      hide *;
      Touchdown();
      if !isDestroyMode {
        AddNextShape();
      }
    }

    /** BlinkLines on the field: the full rows stay the lines to destroy, and no cell fills or empties. */
    method BlinkField()
      requires FieldInv() && isDestroyMode
      modifies field, this`currentBlinkCount, this`currentBlinkStatus
      ensures FieldInv() && isDestroyMode
      ensures (currentBlinkCount, currentBlinkStatus) == BlinkStep(old(currentBlinkCount), old(currentBlinkStatus))
      ensures Rows() == Blinked(old(Rows()), linesToDestroy, currentBlinkStatus)
      ensures forall c: Cell :: old(FilledAt(c)) ==> FilledAt(c)
    {
      ghost var rows: seq<Row> := Rows();
      BlinkLines();
      BlinkKeepsFullLinesOf(rows, linesToDestroy, currentBlinkStatus);
    }

    /** BlinkLines keeps the invariant: blinking changes opacities, never which cells are filled. */
    method BlinkFullLines()
      requires Valid() && isDestroyMode
      modifies field, this`currentBlinkCount, this`currentBlinkStatus
      ensures Valid() && isDestroyMode && linesToDestroy == old(linesToDestroy)
      ensures (currentBlinkCount, currentBlinkStatus) == BlinkStep(old(currentBlinkCount), old(currentBlinkStatus))
      ensures Rows() == Blinked(old(Rows()), linesToDestroy, currentBlinkStatus)
    {
      hide FieldInv, Counters, SpareOk, CurrentShape;
      BlinkField();
    }

    /** DestroyLines on the field: the full rows go and no full row is left. */
    method DestroyField()
      requires FieldInv() && isDestroyMode
      modifies field
      ensures FieldOk() && BlocksInPlace() && FullLinesOf(Rows(), [])
      ensures Rows() == Cleared(old(Rows()), linesToDestroy, EmptyRow())
    {
      ClearingFullLines(Rows(), linesToDestroy);
      DestroyLines();
    }

    /**
     * The first part of the step after the second blink: DestroyLines and then
     * ScoreFullLines. The field then has no full row.
     */
    method DestroyFullLines()
      requires FieldInv() && Counters() && isDestroyMode
      modifies field, this`currentLineCount, this`currentPoints, this`linesToDestroy, this`isDestroyMode,
               this`currentBlinkCount, this`currentBlinkStatus
      ensures FieldInv() && Counters() && !isDestroyMode
      ensures Rows() == Cleared(old(Rows()), old(linesToDestroy), EmptyRow())
      ensures currentLineCount == old(currentLineCount) + |old(linesToDestroy)|
      ensures currentPoints == old(currentPoints) + PointsForLines(|old(linesToDestroy)|) * currentLevel
    {
      hide FullLinesOf, Rows, BlocksInPlace, FieldOk, Cleared, PointsForLines;
      DestroyField();
      ScoreFullLines();
    }

    /**
     * The step after the second blink: the full lines go, they are scored, and the next
     * shape comes in.
     */
    method ClearFullLines()
      requires Valid() && isDestroyMode
      modifies field, this`currentLineCount, this`currentPoints, this`linesToDestroy, this`isDestroyMode,
               this`currentBlinkCount, this`currentBlinkStatus
      modifies this`current, this`next, this`nextShapeStyles, this`prevShapeStyles, this`ghostShape, this`ghostShown
      modifies next`shapePosition, next`ghostShape
      ensures Valid() && !isDestroyMode
      ensures Rows() == Cleared(old(Rows()), old(linesToDestroy), EmptyRow())
      ensures currentLineCount == old(currentLineCount) + |old(linesToDestroy)|
      ensures currentPoints == old(currentPoints) + PointsForLines(|old(linesToDestroy)|) * currentLevel
      ensures current == old(next) && current.shapePosition == ShapesStartPoint
    {
      hide *;
      DestroyModeParts();
      DestroyFullLines();
      AddNextShape();
    }

    /** The shape moved down: it is no longer down, and a drop earns a point per row. */
    method KeepFalling()
      requires Valid()
      modifies this`isDown, this`currentDropPoints
      ensures !isDown && currentDropPoints == old(currentDropPoints) + (if isDropping then 1 else 0)
      ensures Valid()
    {
      hide FieldInv, SpareOk, CurrentOk;
      isDown := false;
      if isDropping {
        currentDropPoints := currentDropPoints + 1;
      }
    }

    /** A dropped shape that can go no further stops dropping and is down for one more interval. */
    method StopDrop()
      requires Valid()
      modifies this`isDropping, this`isDown, this`ghostShown
      ensures !isDropping && isDown && ghostShown == (old(ghostShown) && ghostShape == null)
      ensures Valid()
    {
      hide *;
      isDropping := false;
      isDown := true;
      DestroyGhostShape();
    }

    /**
     * The automatic move outside destroy mode: one row down; a dropped shape that cannot
     * move stops dropping; any other shape that cannot move lands.
     */
    method Fall() returns (moved: bool)
      requires Valid() && !isDestroyMode
      modifies current`shapePosition
      modifies this`isDropping, this`isDown, this`ghostShown, this`currentPoints, this`currentDropPoints
      modifies current.cubes, field, this`linesToDestroy, this`isDestroyMode, this`currentBlinkCount, this`currentBlinkStatus
      modifies this`current, this`next, this`nextShapeStyles, this`prevShapeStyles, this`ghostShape
      modifies next`shapePosition, next`ghostShape
      ensures Valid()
      ensures moved == old(CanDrop(current, current.cubes, current.shapePosition))
      ensures moved ==>
                current == old(current) && current.shapePosition == AddCell(old(current.shapePosition), Cell(0, 1)) &&
                !isDown && isDropping == old(isDropping) && !isDestroyMode && unchanged(field) &&
                currentDropPoints == old(currentDropPoints) + (if isDropping then 1 else 0)
      ensures !moved && old(isDropping) ==>
                current == old(current) && current.shapePosition == old(current.shapePosition) &&
                !isDropping && isDown && !isDestroyMode && unchanged(field) && currentDropPoints == old(currentDropPoints)
      ensures !moved && !old(isDropping) ==>
                !isDropping && !isDown && currentDropPoints == 0 && currentPoints == old(currentPoints) + old(currentDropPoints) &&
                (forall c: Cell :: FilledAt(c) <==> old(FilledAt(c)) || c in old(Placed(current))) &&
                linesToDestroy == FullLines(Rows()) && (isDestroyMode <==> linesToDestroy != []) &&
                (isDestroyMode ==> current == old(current)) &&
                (!isDestroyMode ==> current == old(next) && current.shapePosition == ShapesStartPoint)
    {
      hide *;
      moved := StepDown();
      if moved {
        KeepFalling();
      } else if isDropping {
        StopDrop();
      } else {
        Land();
      }
    }

    /**
     * The move itself: destroy mode blinks the full lines or, after the second blink,
     * clears them and brings the next shape in; otherwise the shape falls.
     */
    method Advance()
      requires Valid()
      modifies current`shapePosition
      modifies this`isDropping, this`isDown, this`ghostShown, this`currentPoints, this`currentDropPoints, this`currentLineCount
      modifies current.cubes, field, this`linesToDestroy, this`isDestroyMode, this`currentBlinkCount, this`currentBlinkStatus
      modifies this`current, this`next, this`nextShapeStyles, this`prevShapeStyles, this`ghostShape
      modifies next`shapePosition, next`ghostShape
      ensures Valid()
      ensures old(isDestroyMode) && old(currentBlinkCount) >= LineDestroyBlinkCount ==>
                !isDestroyMode && current == old(next) && Rows() == Cleared(old(Rows()), old(linesToDestroy), EmptyRow()) &&
                currentLineCount == old(currentLineCount) + |old(linesToDestroy)|
      ensures old(isDestroyMode) && old(currentBlinkCount) < LineDestroyBlinkCount ==>
                isDestroyMode && current == old(current) && linesToDestroy == old(linesToDestroy) &&
                (currentBlinkCount, currentBlinkStatus) == BlinkStep(old(currentBlinkCount), old(currentBlinkStatus))
      ensures !old(isDestroyMode) ==> currentLineCount == old(currentLineCount)
    {
      hide *;
      if isDestroyMode {
        if currentBlinkCount >= LineDestroyBlinkCount {
          ClearFullLines();
        } else {
          BlinkFullLines();
        }
      } else {
        var moved := Fall();
      }
    }

    /** The due move: the game-over test, the move, and the time of the next move. */
    method MoveDue(timestamp: int)
      requires Valid()
      modifies graph`isGameOver, graph`gameOverText, this`nextMoveTimestamp
      modifies current`shapePosition
      modifies this`isDropping, this`isDown, this`ghostShown, this`currentPoints, this`currentDropPoints, this`currentLineCount
      modifies current.cubes, field, this`linesToDestroy, this`isDestroyMode, this`currentBlinkCount, this`currentBlinkStatus
      modifies this`current, this`next, this`nextShapeStyles, this`prevShapeStyles, this`ghostShape
      modifies next`shapePosition, next`ghostShape
      ensures Valid()
      ensures graph.isGameOver == (old(graph.isGameOver) || old(SpawnBlocked()))
      ensures nextMoveTimestamp == timestamp + NextMoveDelay(isDropping, isDown, isDestroyMode, currentInterval)
    {
      hide *;
      InValidFieldOk();
      CheckSpawn();
      Advance();
      CalcNextMoveTimestamp(timestamp);
    }

    /**
     * ProcessAutomaticMove: nothing happens before the next move is due; when it is due,
     * a shape blocked on the top row ends the game, the move is made, and the next move
     * is timed from the current timestamp.
     */
    method ProcessAutomaticMove(timestamp: int)
      requires Valid()
      modifies graph`isGameOver, graph`gameOverText, this`nextMoveTimestamp
      modifies current`shapePosition
      modifies this`isDropping, this`isDown, this`ghostShown, this`currentPoints, this`currentDropPoints, this`currentLineCount
      modifies current.cubes, field, this`linesToDestroy, this`isDestroyMode, this`currentBlinkCount, this`currentBlinkStatus
      modifies this`current, this`next, this`nextShapeStyles, this`prevShapeStyles, this`ghostShape
      modifies next`shapePosition, next`ghostShape
      ensures Valid()
      ensures timestamp < old(nextMoveTimestamp) ==> unchanged(this) && unchanged(graph) && unchanged(field) && unchanged(current)
      ensures timestamp >= old(nextMoveTimestamp) ==>
                graph.isGameOver == (old(graph.isGameOver) || old(SpawnBlocked())) &&
                nextMoveTimestamp == timestamp + NextMoveDelay(isDropping, isDown, isDestroyMode, currentInterval)
    {
      if timestamp >= nextMoveTimestamp {
        MoveDue(timestamp);
      }
    }

    /** TryRotate on the moving shape against the static cubes, with the frame the scene needs. */
    method TurnCurrent(left: bool)
      requires FieldOk() && Rig(current)
      modifies current, current.cubes, current.ghostShape, GhostCubes(current)
      ensures Rig(current) && current.cubes == old(current.cubes) && current.ghostShape == old(current.ghostShape)
      ensures GhostCubes(current) == old(GhostCubes(current)) && ShapesOf(current.cubes) == old(ShapesOf(current.cubes))
      ensures old(InPlay(current)) ==> InPlay(current)
      ensures var shapes, p0 := ShapesOf(current.cubes), old(current.CurrentPose());
              |shapes| == |p0.offsets| > 0 &&
              var k := FirstFree(PassesBlocked(old(Rows()), current, shapes, p0, if isDown then 3 else 1, left), 0);
              if k == 0 then current.CurrentPose() == p0 && GhostPose(current) == old(GhostPose(current))
              else current.CurrentPose() == Attempts(current, shapes, p0, k, left) &&
                   GhostPose(current) == GhostTurns(current, old(GhostPose(current)), k, left)
    {
      hide *;
      var tiles := Rows();
      TryRotate(current, left, isDown, tiles);
    }

    /**
     * TryRotateLeft (left) or TryRotateRight on the moving shape, against the static
     * cubes. A split shape is blocked wherever it turns and always rolls back.
     */
    method RotateCurrent(left: bool)
      requires Valid()
      modifies current, current.cubes, current.ghostShape, GhostCubes(current)
      ensures Valid()
      ensures current.cubes == old(current.cubes) && ShapesOf(current.cubes) == old(ShapesOf(current.cubes))
      ensures current.ghostShape == old(current.ghostShape) && GhostCubes(current) == old(GhostCubes(current))
      ensures var shapes, p0 := ShapesOf(current.cubes), old(current.CurrentPose());
              |shapes| == |p0.offsets| > 0 &&
              var k := FirstFree(PassesBlocked(old(Rows()), current, shapes, p0, if isDown then 3 else 1, left), 0);
              if k == 0 then current.CurrentPose() == p0 && GhostPose(current) == old(GhostPose(current))
              else current.CurrentPose() == Attempts(current, shapes, p0, k, left) &&
                   GhostPose(current) == GhostTurns(current, old(GhostPose(current)), k, left)
    {
      hide *;
      RotationParts();
      ghost var g0 := GhostPose(current);
      ghost var shapes, p0 := ShapesOf(current.cubes), current.CurrentPose();
      ghost var tiles := Rows();
      ghost var wasDetached := Detached(current.cubes);
      TurnCurrent(left);
      ghost var k := FirstFree(PassesBlocked(tiles, current, shapes, p0, if isDown then 3 else 1, left), 0);
      if wasDetached {
        SplitStaysPut(tiles, current, shapes, p0, if isDown then 3 else 1, left);
      }
      if current.ghostShape != null {
        GhostStaysSmall(current, g0, k, left);
      }
      RotationKeepsValid();
    }

    // -------------------------------------------------------------------------
    // The keys.

    /**
     * The gate of key e in ProcessKeyEvents: a held key passes once its nextAcceptTime
     * has come and is then held back EventResetTime ms; a released key re-arms at 0.
     */
    method Gate(e: Events.EventType, pressed: set<Events.EventType>, now: int) returns (accepted: bool)
      modifies this`nextAccept
      ensures accepted == KeyGate(e in pressed, now, TimeOf(old(nextAccept), e)).0
      ensures nextAccept == Gated(old(nextAccept), e, e in pressed, now)
    {
      accepted := false;
      if e in pressed {
        if now >= TimeOf(nextAccept, e) {
          nextAccept := nextAccept[e := now + EventResetTime];
          accepted := true;
        }
      } else {
        nextAccept := nextAccept[e := 0];
      }
    }

    /** Where Move(current, dx, 0) leaves the moving shape: the clamped column, unless that is blocked. */
    function ShiftedTo(dx: int): Cell
      reads this`field, field, this`current, current`cubes, current`shapePosition, current.cubes
      requires FieldOk() && |current.cubes| > 0
    {
      var clamp := ClampOffset(BoundingBox(Placed(current)), dx, 0);
      var target := AddCell(current.shapePosition, clamp.0);
      if Blocked(ShapesOf(current.cubes), CellsAt(current, current.cubes, target)) then current.shapePosition else target
    }

    /** Move(current, dx, 0) for the arrow keys: Valid holds whether or not the shape moves. */
    method Shift(dx: int)
      requires Valid()
      modifies current`shapePosition
      ensures Valid() && current.shapePosition == old(ShiftedTo(dx))
    {
      hide FieldInv, Counters, SpareOk;
      var moved := Move(current, dx, 0);
    }

    /** ToggleGhostShape keeps the scene valid: a ghost switched on is a new one, joined and apart. */
    method SwitchGhost()
      requires Valid()
      modifies this`ghostEnabled, this`ghostShape, this`ghostShown, current`ghostShape
      ensures Valid() && ghostEnabled == !old(ghostEnabled)
      ensures ghostEnabled ==> fresh(ghostShape) && current.ghostShape == ghostShape && ghostShape.style == current.style
      ensures !ghostEnabled ==> ghostShape == old(ghostShape) && current.ghostShape == old(current.ghostShape)
    {
      hide FieldInv, Counters, BagOk, InPlay, ShapeParts, CubesLanded;
      ToggleGhostShape();
    }

    /** After a move or a turn by key, a shape that is down waits the full delay again. */
    method Rearm(now: int)
      modifies this`nextMoveTimestamp
      ensures isDown ==> nextMoveTimestamp == now + NextMoveDelay(isDropping, isDown, isDestroyMode, currentInterval)
      ensures !isDown ==> nextMoveTimestamp == old(nextMoveTimestamp)
    {
      if isDown {
        CalcNextMoveTimestamp(now);
      }
    }

    /** The left or right arrow: its gate, then Move(current, dx, 0) and a re-timed move when down. */
    method ShiftKey(e: Events.EventType, dx: int, pressed: set<Events.EventType>, now: int) returns (accepted: bool)
      requires Valid()
      modifies this`nextAccept, this`nextMoveTimestamp, current`shapePosition
      ensures Valid()
      ensures accepted == KeyGate(e in pressed, now, TimeOf(old(nextAccept), e)).0
      ensures nextAccept == Gated(old(nextAccept), e, e in pressed, now)
      ensures current.shapePosition == if accepted then old(ShiftedTo(dx)) else old(current.shapePosition)
      ensures nextMoveTimestamp == if accepted && isDown then now + NextMoveDelay(isDropping, isDown, isDestroyMode, currentInterval)
                                   else old(nextMoveTimestamp)
    {
      hide *;
      accepted := Gate(e, pressed, now);
      if accepted {
        Shift(dx);
        Rearm(now);
      }
    }

    /** The down arrow: a shape that is neither dropping nor down starts to drop. */
    method DropKey(pressed: set<Events.EventType>, now: int) returns (accepted: bool)
      modifies this`nextAccept, this`isDropping, this`nextMoveTimestamp
      ensures accepted == KeyGate(Events.Down in pressed, now, TimeOf(old(nextAccept), Events.Down)).0
      ensures nextAccept == Gated(old(nextAccept), Events.Down, Events.Down in pressed, now)
      ensures isDropping == (old(isDropping) || (accepted && !isDown))
      ensures nextMoveTimestamp == if accepted && !old(isDropping) && !isDown then now + DropShapeInterval
                                   else old(nextMoveTimestamp)
    {
      accepted := Gate(Events.Down, pressed, now);
      if accepted && !isDropping && !isDown {
        isDropping := true;
        CalcNextMoveTimestamp(now);
      }
    }

    /** The up arrow (TryRotateRight, left false) or fire (TryRotateLeft, left true). */
    method TurnKey(e: Events.EventType, left: bool, pressed: set<Events.EventType>, now: int) returns (accepted: bool)
      requires Valid()
      modifies this`nextAccept, this`nextMoveTimestamp, current, current.cubes, current.ghostShape, GhostCubes(current)
      ensures Valid()
      ensures accepted == KeyGate(e in pressed, now, TimeOf(old(nextAccept), e)).0
      ensures nextAccept == Gated(old(nextAccept), e, e in pressed, now)
      ensures current.cubes == old(current.cubes) && current.ghostShape == old(current.ghostShape)
      ensures GhostCubes(current) == old(GhostCubes(current))
      ensures !accepted ==> current.CurrentPose() == old(current.CurrentPose())
      ensures accepted ==>
                var shapes, p0 := ShapesOf(current.cubes), old(current.CurrentPose());
                |shapes| == |p0.offsets| > 0 &&
                var k := FirstFree(PassesBlocked(old(Rows()), current, shapes, p0, if isDown then 3 else 1, left), 0);
                current.CurrentPose() == if k == 0 then p0 else Attempts(current, shapes, p0, k, left)
      ensures nextMoveTimestamp == if accepted && isDown then now + NextMoveDelay(isDropping, isDown, isDestroyMode, currentInterval)
                                   else old(nextMoveTimestamp)
    {
      hide *;
      accepted := Gate(e, pressed, now);
      if accepted {
        RotateCurrent(left);
        Rearm(now);
      }
    }

    /** The S key, ToggleThemeSound: the sound flag flips (the theme itself is not modelled). */
    method SoundKey(pressed: set<Events.EventType>, now: int) returns (accepted: bool)
      modifies this`nextAccept, this`soundEnabled
      ensures accepted == KeyGate(Events.S in pressed, now, TimeOf(old(nextAccept), Events.S)).0
      ensures nextAccept == Gated(old(nextAccept), Events.S, Events.S in pressed, now)
      ensures soundEnabled == (old(soundEnabled) != accepted)
    {
      accepted := Gate(Events.S, pressed, now);
      if accepted {
        soundEnabled := !soundEnabled;
      }
    }

    /** The G key, ToggleGhostShape. */
    method GhostKey(pressed: set<Events.EventType>, now: int) returns (accepted: bool)
      requires Valid()
      modifies this`nextAccept, this`ghostEnabled, this`ghostShape, this`ghostShown, current`ghostShape
      ensures Valid()
      ensures accepted == KeyGate(Events.G in pressed, now, TimeOf(old(nextAccept), Events.G)).0
      ensures nextAccept == Gated(old(nextAccept), Events.G, Events.G in pressed, now)
      ensures ghostEnabled == (old(ghostEnabled) != accepted)
    {
      hide *;
      accepted := Gate(Events.G, pressed, now);
      if accepted {
        SwitchGhost();
      }
    }

    /** The + key (MediaPlayerVolumeUp, step > 0) or the - key (MediaPlayerVolumeDown, step < 0). */
    method VolumeKey(e: Events.EventType, step: real, pressed: set<Events.EventType>, now: int) returns (accepted: bool)
      modifies this`nextAccept, this`mediaPlayerVolume
      ensures accepted == KeyGate(e in pressed, now, TimeOf(old(nextAccept), e)).0
      ensures nextAccept == Gated(old(nextAccept), e, e in pressed, now)
      ensures mediaPlayerVolume == if accepted then ClampedVolume(old(mediaPlayerVolume), step) else old(mediaPlayerVolume)
    {
      accepted := Gate(e, pressed, now);
      if accepted {
        mediaPlayerVolume := ClampedVolume(mediaPlayerVolume, step);
      }
    }

    /** The keys that move the shape or start a drop, in ProcessKeyEvents' order: left, right, down. */
    method MoveKeys(pressed: set<Events.EventType>, now: int)
      requires Valid()
      modifies this`nextAccept, this`isDropping, this`nextMoveTimestamp, current`shapePosition
      ensures Valid()
      ensures nextAccept == GatedAll(old(nextAccept), MoveKeyOrder, pressed, now)
      ensures var drop := KeyGate(Events.Down in pressed, now, TimeOf(old(nextAccept), Events.Down)).0 && !old(isDropping) && !isDown;
              isDropping == (old(isDropping) || drop) &&
              (drop ==> nextMoveTimestamp == now + DropShapeInterval) &&
              (!drop && !isDown ==> nextMoveTimestamp == old(nextMoveTimestamp))
    {
      hide *;
      ghost var t0 := nextAccept;
      var _ := ShiftKey(Events.Left, -1, pressed, now);
      GatedKeepsOthers(t0, Events.Left, Events.Down, Events.Left in pressed, now);
      ghost var t1 := nextAccept;
      var _ := ShiftKey(Events.Right, 1, pressed, now);
      GatedKeepsOthers(t1, Events.Right, Events.Down, Events.Right in pressed, now);
      var _ := DropKey(pressed, now);
      MoveKeyGates(t0, pressed, now);
    }

    /** The keys that turn the shape, in ProcessKeyEvents' order: up (TryRotateRight), fire (TryRotateLeft). */
    method TurnKeys(pressed: set<Events.EventType>, now: int)
      requires Valid()
      modifies this`nextAccept, this`nextMoveTimestamp, current, current.cubes, current.ghostShape, GhostCubes(current)
      ensures Valid()
      ensures nextAccept == GatedAll(old(nextAccept), TurnKeyOrder, pressed, now)
      ensures !isDown ==> nextMoveTimestamp == old(nextMoveTimestamp)
    {
      hide *;
      ghost var t0 := nextAccept;
      var _ := TurnKey(Events.Up, false, pressed, now);
      var _ := TurnKey(Events.Fire, true, pressed, now);
      TurnKeyGates(t0, pressed, now);
    }

    /** The keys for the options, in ProcessKeyEvents' order: S (sound), G (ghost), + and - (volume). */
    method OptionKeys(pressed: set<Events.EventType>, now: int)
      requires Valid()
      modifies this`nextAccept, this`soundEnabled, this`mediaPlayerVolume, this`ghostEnabled, this`ghostShape, this`ghostShown
      modifies current`ghostShape
      ensures Valid()
      ensures nextAccept == GatedAll(old(nextAccept), OptionKeyOrder, pressed, now)
      ensures soundEnabled == (old(soundEnabled) != KeyGate(Events.S in pressed, now, TimeOf(old(nextAccept), Events.S)).0)
      ensures ghostEnabled == (old(ghostEnabled) != KeyGate(Events.G in pressed, now, TimeOf(old(nextAccept), Events.G)).0)
      ensures var up := KeyGate(Events.Add in pressed, now, TimeOf(old(nextAccept), Events.Add)).0;
              var down := KeyGate(Events.Subtract in pressed, now, TimeOf(old(nextAccept), Events.Subtract)).0;
              var raised := if up then ClampedVolume(old(mediaPlayerVolume), MediaPlayerVolumeStep) else old(mediaPlayerVolume);
              mediaPlayerVolume == if down then ClampedVolume(raised, -MediaPlayerVolumeStep) else raised
    {
      hide *;
      OptionKeysDiffer();
      ghost var t0 := nextAccept;
      var _ := SoundKey(pressed, now);
      GatedKeepsOthers(t0, Events.S, Events.G, Events.S in pressed, now);
      GatedKeepsOthers(t0, Events.S, Events.Add, Events.S in pressed, now);
      GatedKeepsOthers(t0, Events.S, Events.Subtract, Events.S in pressed, now);
      ghost var t1 := nextAccept;
      var _ := GhostKey(pressed, now);
      GatedKeepsOthers(t1, Events.G, Events.Add, Events.G in pressed, now);
      GatedKeepsOthers(t1, Events.G, Events.Subtract, Events.G in pressed, now);
      ghost var t2 := nextAccept;
      var _ := VolumeKey(Events.Add, MediaPlayerVolumeStep, pressed, now);
      GatedKeepsOthers(t2, Events.Add, Events.Subtract, Events.Add in pressed, now);
      var _ := VolumeKey(Events.Subtract, -MediaPlayerVolumeStep, pressed, now);
      OptionKeyGates(t0, pressed, now);
    }

    /**
     * ProcessKeyEvents: each key goes through its gate, in this order: left, right, down,
     * up (TryRotateRight), fire (TryRotateLeft), S, G, + and -. A key that passes moves,
     * drops or turns the shape, toggles the sound or the ghost, or changes the volume;
     * a move or a turn of a shape that is down re-times the next move.
     */
    method ProcessKeyEvents(pressed: set<Events.EventType>, now: int)
      requires Valid()
      modifies this`nextAccept, this`isDropping, this`nextMoveTimestamp, this`soundEnabled, this`mediaPlayerVolume
      modifies this`ghostEnabled, this`ghostShape, this`ghostShown
      modifies current, current.cubes, current.ghostShape, GhostCubes(current)
      ensures Valid()
      ensures nextAccept == GatedAll(old(nextAccept), KeyOrder, pressed, now)
      ensures forall e :: TimeOf(nextAccept, e) == if e in KeyOrder then KeyGate(e in pressed, now, TimeOf(old(nextAccept), e)).1 else TimeOf(old(nextAccept), e)
      ensures var drop := KeyGate(Events.Down in pressed, now, TimeOf(old(nextAccept), Events.Down)).0 && !old(isDropping) && !isDown;
              isDropping == (old(isDropping) || drop) &&
              (drop ==> nextMoveTimestamp == now + DropShapeInterval) &&
              (!drop && !isDown ==> nextMoveTimestamp == old(nextMoveTimestamp))
      ensures soundEnabled == (old(soundEnabled) != KeyGate(Events.S in pressed, now, TimeOf(old(nextAccept), Events.S)).0)
      ensures ghostEnabled == (old(ghostEnabled) != KeyGate(Events.G in pressed, now, TimeOf(old(nextAccept), Events.G)).0)
      ensures var up := KeyGate(Events.Add in pressed, now, TimeOf(old(nextAccept), Events.Add)).0;
              var down := KeyGate(Events.Subtract in pressed, now, TimeOf(old(nextAccept), Events.Subtract)).0;
              var raised := if up then ClampedVolume(old(mediaPlayerVolume), MediaPlayerVolumeStep) else old(mediaPlayerVolume);
              mediaPlayerVolume == if down then ClampedVolume(raised, -MediaPlayerVolumeStep) else raised
    {
      hide *;
      ghost var t0 := nextAccept;
      MoveKeys(pressed, now);
      TurnKeys(pressed, now);
      OptionKeys(pressed, now);
      OptionTimesKept(t0, pressed, now);
      KeyGatesInGroups(t0, pressed, now);
      KeyOrderTimes(t0, pressed, now);
    }

    /**
     * The level computation of UpdateOneFrame: after the moves of the frame, the level
     * and the move interval follow the number of cleared lines.
     */
    method Relevel()
      requires Valid()
      modifies this`currentLevel, this`currentInterval
      ensures Valid()
      ensures currentLevel == LevelFor(currentLineCount) && currentInterval == IntervalFor(currentLineCount)
    {
      hide Valid, FieldInv, SpareOk, CurrentOk;
      LevelParts();
      var levelups := currentLineCount / LinesNeededForLevelup;
      currentLevel := StartLevel + levelups;
      currentInterval := StartInterval - SpeedupPerLevelup * levelups;
      currentInterval := Max(MinInterval, currentInterval);
      LevelParts();
    }

    /** Valid, apart from the level: the level is the only part of Valid that Relevel writes. */
    lemma LevelParts()
      ensures Valid() <==> FieldInv() && SpareOk() && CurrentOk() && currentLineCount >= 0 &&
                           currentDropPoints >= 0 && currentLevel >= StartLevel
    {
    }

    // -------------------------------------------------------------------------
    // Starting a game.

    /** Reset's first part: a new empty field, empty bags and lines, the counters at their start values. */
    method ClearCounters()
      modifies this`field, this`nextShapeStyles, this`prevShapeStyles, this`linesToDestroy, this`currentInterval
      modifies this`currentLevel, this`currentLineCount, this`currentPoints, this`isDropping, this`isDown
      modifies this`nextMoveTimestamp
      ensures fresh(field) && GridOk(field) && InPlace(field) && FullLinesOf(GridRows(field), [])
      ensures forall y :: 0 <= y < CubeCountVertical ==> GridRows(field)[y] == EmptyRow()
      ensures nextShapeStyles == [] && prevShapeStyles == [] && linesToDestroy == []
      ensures currentInterval == StartInterval && currentLevel == StartLevel && currentLineCount == 0 && currentPoints == 0
      ensures !isDropping && !isDown && nextMoveTimestamp == 0
    {
      hide *;
      nextShapeStyles, prevShapeStyles, linesToDestroy := [], [], [];
      currentInterval, currentLevel, currentLineCount, currentPoints := StartInterval, StartLevel, 0, 0;
      isDropping, isDown, nextMoveTimestamp := false, false, 0;
      field := NewGrid();
    }

    /**
     * Reset's second part, from empty bags: the moving shape drawn first and placed at
     * the start point, its ghost, then the next shape drawn.
     */
    method StartShapes()
      requires nextShapeStyles == [] && prevShapeStyles == []
      requires ghostShape != null ==> GhostParts(ghostShape)
      modifies this`nextShapeStyles, this`prevShapeStyles, this`current, this`next, this`ghostShape, this`ghostShown
      ensures fresh(current) && fresh(next) && current.shapePosition == ShapesStartPoint && current.rotationIndex == 0
      ensures BagDrawn(prevShapeStyles, nextShapeStyles) && |nextShapeStyles| == 5
      ensures current.style == prevShapeStyles[0] && next.style == prevShapeStyles[1] && current.style != next.style
      ensures ShapeParts(current) && Joined(current, current.cubes) && InPlayAt(current, current.cubes, ShapesStartPoint)
      ensures Separate(current, next) && ShapeParts(next) && Joined(next, next.cubes)
      ensures InPlayAt(next, next.cubes, ShapesStartPoint) && next.rotationIndex == 0 && next.ghostShape == null
      ensures ghostEnabled ==> fresh(ghostShape) && current.ghostShape == ghostShape && ghostShape.style == current.style
      ensures !ghostEnabled ==> ghostShape == old(ghostShape) && current.ghostShape == null
      ensures ghostShape != null ==> GhostParts(ghostShape) && Separate(next, ghostShape) && Separate(current, ghostShape)
    {
      hide *;
      current := CreateNextShape();
      current.shapePosition := ShapesStartPoint;
      CreateGhostShape();
      ghost var p1, r1 := prevShapeStyles, nextShapeStyles;
      next := CreateNextShape();
      FirstTwoDraws(current.style, p1, r1, next.style, prevShapeStyles, nextShapeStyles);
    }

    /** The state Reset leaves is valid: an empty field, a moving shape at the start point, the next shape apart. */
    lemma FreshStartIsValid()
      requires GridOk(field) && InPlace(field) && FullLinesOf(GridRows(field), []) && linesToDestroy == []
      requires currentLineCount == 0 && currentLevel == StartLevel && currentDropPoints >= 0
      requires BagDrawn(prevShapeStyles, nextShapeStyles) && |nextShapeStyles| == 5
      requires current.style == prevShapeStyles[0] && next.style == prevShapeStyles[1] && current.style != next.style
      requires ShapeParts(current) && Joined(current, current.cubes) && InPlayAt(current, current.cubes, ShapesStartPoint)
      requires current.shapePosition == ShapesStartPoint && Separate(current, next) && ShapeParts(next) && Joined(next, next.cubes)
      requires InPlayAt(next, next.cubes, ShapesStartPoint) && next.rotationIndex == 0 && next.ghostShape == null
      requires ghostEnabled ==> ghostShape != null && current.ghostShape == ghostShape
      requires !ghostEnabled ==> current.ghostShape == null
      requires ghostShape != null ==> GhostParts(ghostShape) && Separate(next, ghostShape) && Separate(current, ghostShape)
      ensures Valid()
    {
      assert CubesLanded() by {
        forall c | c in current.cubes ensures c.shape != null {
          var i :| 0 <= i < |current.cubes| && current.cubes[i] == c;
          assert ShapesOf(current.cubes)[i] == current;
        }
      }
    }

    /**
     * Reset (run by Init): a new empty field, empty bags and lines, the start interval
     * and level, no lines or points, and a new moving shape at the start point with its
     * ghost, then a new next shape. The drop points, the destroy mode and the key gates
     * are left as they were.
     */
    method Reset()
      requires currentDropPoints >= 0 && (ghostShape != null ==> GhostParts(ghostShape))
      modifies this`field, this`nextShapeStyles, this`prevShapeStyles, this`linesToDestroy, this`currentInterval
      modifies this`currentLevel, this`currentLineCount, this`currentPoints, this`isDropping, this`isDown
      modifies this`nextMoveTimestamp, this`current, this`next, this`ghostShape, this`ghostShown
      ensures Valid()
      ensures fresh(field) && forall y :: 0 <= y < CubeCountVertical ==> GridRows(field)[y] == EmptyRow()
      ensures linesToDestroy == [] && currentInterval == StartInterval && currentLevel == StartLevel
      ensures currentLineCount == 0 && currentPoints == 0 && !isDropping && !isDown && nextMoveTimestamp == 0
      ensures fresh(current) && fresh(next) && current.shapePosition == ShapesStartPoint && current.rotationIndex == 0
      ensures |nextShapeStyles| == 5 && current.style == prevShapeStyles[0] && next.style == prevShapeStyles[1]
      ensures ghostEnabled ==> fresh(ghostShape) && current.ghostShape == ghostShape && ghostShape.style == current.style
      ensures !ghostEnabled ==> ghostShape == old(ghostShape) && current.ghostShape == null
    {
      hide *;
      ClearCounters();
      StartShapes();
      FreshStartIsValid();
    }

    /**
     * The scene as constructed, before Init: the options at their defaults (sound and
     * ghost on, volume 0.5), no ghost, empty bags, no drop points, not destroying.
     */
    constructor(sceneId: nat, topId: nat, gameOverData: nat, pauseData: nat)
      ensures fresh(graph) && fresh(field) && FieldOk()
      ensures ghostShape == null && soundEnabled && ghostEnabled && !ghostShown && mediaPlayerVolume == MediaPlayerVolumeInitial
      ensures nextShapeStyles == [] && prevShapeStyles == [] && nextAccept == map[]
      ensures currentDropPoints == 0 && !isDestroyMode && linesToDestroy == []
    {
      graph := new SceneGraph.SceneGraph(sceneId, topId, gameOverData, pauseData);
      field := new Option<Block>[CubeCountHorizontal, CubeCountVertical]((x, y) => None);
      current := new Shape(I, FullOpacity);
      next := new Shape(L, FullOpacity);
      ghostShape := null;
      nextShapeStyles, prevShapeStyles, nextAccept := [], [], map[];
      currentInterval, nextMoveTimestamp := 0, 0;
      currentLevel, currentLineCount, currentPoints := 0, 0, 0;
      isDropping, isDown, currentDropPoints := false, false, 0;
      isDestroyMode, linesToDestroy, currentBlinkCount, currentBlinkStatus := false, [], 0, 0.0;
      soundEnabled, ghostEnabled, ghostShown := true, true, false;
      mediaPlayerVolume := MediaPlayerVolumeInitial;
    }
  }
}
