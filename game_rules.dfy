/**
 * The arithmetic of FallingBlocksGameScene that does not touch the field: the
 * level and move interval, the score table, the move-timing priority, the key
 * debounce gates, the volume clamp, and the clamping of moves to the field.
 */
module GameRules {
  import opened Objects
  import opened GameParameters

  function Max(a: int, b: int): int { if a >= b then a else b }

  // ---------------------------------------------------------------------------
  // Level and move interval, recomputed every frame from the cleared lines.

  /** StartLevel plus one level per LinesNeededForLevelup cleared lines. */
  function LevelFor(lineCount: nat): (level: int)
    ensures level >= StartLevel
    ensures (level - StartLevel) * LinesNeededForLevelup <= lineCount < (level - StartLevel + 1) * LinesNeededForLevelup
  {
    StartLevel + lineCount / LinesNeededForLevelup
  }

  /** StartInterval shortened by SpeedupPerLevelup per level-up, never below MinInterval. */
  function IntervalFor(lineCount: nat): (interval: int)
    ensures MinInterval <= interval <= StartInterval
    ensures interval == Max(MinInterval, StartInterval - SpeedupPerLevelup * (LevelFor(lineCount) - StartLevel))
  {
    var levelups := lineCount / LinesNeededForLevelup;
    Max(MinInterval, StartInterval - SpeedupPerLevelup * levelups)
  }

  /** Clearing more lines never slows the game down. */
  lemma IntervalNeverIncreases(a: nat, b: nat)
    requires a <= b
    ensures IntervalFor(b) <= IntervalFor(a) && LevelFor(a) <= LevelFor(b)
  {
    LevelupsMonotone(a, b);
  }

  lemma LevelupsMonotone(a: nat, b: nat)
    requires a <= b
    ensures a / LinesNeededForLevelup <= b / LinesNeededForLevelup
  {
  }

  /** From 50 cleared lines on (level 11), the interval is the minimum, 100 ms. */
  lemma IntervalBottomsOut(lineCount: nat)
    ensures IntervalFor(lineCount) == MinInterval <==> lineCount >= LinesNeededForLevelup * MaxSpeedupLevels
  {
    var levelups := lineCount / LinesNeededForLevelup;
    assert SpeedupPerLevelup == 90;
    if lineCount >= LinesNeededForLevelup * MaxSpeedupLevels {
      LevelupsMonotone(LinesNeededForLevelup * MaxSpeedupLevels, lineCount);
    } else {
      assert levelups < MaxSpeedupLevels;
    }
  }

  // ---------------------------------------------------------------------------
  // Scoring.

  /** The points per level for clearing n lines at once: 40, 100, 300, 1200, otherwise 0. */
  function PointsForLines(n: int): (p: int)
    ensures p > 0 <==> 1 <= n <= 4
  {
    if n == 1 then PointsForLines1
    else if n == 2 then PointsForLines2
    else if n == 3 then PointsForLines3
    else if n == 4 then PointsForLines4
    else 0
  }

  /** Clearing more lines at once is worth more. */
  lemma PointsGrowWithLines(n: int)
    requires 1 <= n <= 3
    ensures PointsForLines(n) < PointsForLines(n + 1)
  {
  }

  /** Four lines at once score more than four single lines, and more than any split of four. */
  lemma TetrisPaysMost(level: nat)
    requires level >= 1
    ensures PointsForLines(4) * level > 4 * PointsForLines(1) * level
    ensures PointsForLines(4) * level > (PointsForLines(3) + PointsForLines(1)) * level
    ensures PointsForLines(4) * level > 2 * PointsForLines(2) * level
  {
  }

  // ---------------------------------------------------------------------------
  // Move timing.

  /**
   * CalcNextMoveTimestamp: the delay to the next automatic step. Dropping wins over
   * a shape that is down, which wins over blinking lines, which wins over the level interval.
   */
  function NextMoveDelay(isDropping: bool, isDown: bool, isDestroyMode: bool, interval: int): (d: int)
    ensures isDropping ==> d == DropShapeInterval
    ensures !isDropping && isDown ==> d == MoveWhenDownInterval
    ensures !isDropping && !isDown && isDestroyMode ==> d == LineDestroyBlinkInterval
    ensures !isDropping && !isDown && !isDestroyMode ==> d == interval
  {
    if isDropping then DropShapeInterval
    else if isDown then MoveWhenDownInterval
    else if isDestroyMode then LineDestroyBlinkInterval
    else interval
  }

  /** With any level's interval, the next step is 1 to 1000 ms ahead, and dropping is the fastest. */
  lemma NextMoveIsAhead(isDropping: bool, isDown: bool, isDestroyMode: bool, lineCount: nat)
    ensures var d := NextMoveDelay(isDropping, isDown, isDestroyMode, IntervalFor(lineCount));
            DropShapeInterval <= d <= StartInterval && (isDropping <==> d == DropShapeInterval)
  {
  }

  /** A shape that is down gets longer than the key repeat time to be moved before it is fixed. */
  lemma DownOutlastsKeyRepeat()
    ensures NextMoveDelay(false, true, false, 0) > EventResetTime
  {
  }

  // ---------------------------------------------------------------------------
  // The per-key debounce gates of ProcessKeyEvents.

  /**
   * One gate: (accepted, the new nextAcceptTime). A held key is accepted again only
   * EventResetTime ms later; releasing the key resets the gate to 0.
   */
  function KeyGate(pressed: bool, now: int, nextAccept: int): (r: (bool, int))
    ensures r.0 <==> pressed && now >= nextAccept
    ensures r.0 ==> r.1 == now + EventResetTime
    ensures !pressed ==> r.1 == 0
    ensures pressed && now < nextAccept ==> r.1 == nextAccept
  {
    if pressed then
      if now >= nextAccept then (true, now + EventResetTime) else (false, nextAccept)
    else (false, 0)
  }

  /** A key held down is accepted at most once per EventResetTime ms. */
  lemma HeldKeyIsDebounced(t1: int, t2: int, nextAccept: int)
    requires KeyGate(true, t1, nextAccept).0 && t1 <= t2 < t1 + EventResetTime
    ensures !KeyGate(true, t2, KeyGate(true, t1, nextAccept).1).0
  {
  }

  /** After a frame without the key, a press is accepted at once (any timestamp >= 0). */
  lemma ReleasedKeyIsAcceptedAtOnce(t1: int, t2: int, nextAccept: int)
    requires t2 >= 0
    ensures KeyGate(true, t2, KeyGate(false, t1, nextAccept).1).0
  {
  }

  // ---------------------------------------------------------------------------
  // Volume.

  /** IncreaseMediaPlayerVolumeInternal: the new volume, clamped into [0, 1]. */
  function ClampedVolume(volume: real, step: real): (v: real)
    ensures 0.0 <= v <= 1.0
    ensures 0.0 <= volume + step <= 1.0 ==> v == volume + step
    ensures volume + step < 0.0 ==> v == 0.0
    ensures volume + step > 1.0 ==> v == 1.0
  {
    var raised := if 1.0 <= volume + step then 1.0 else volume + step;
    if 0.0 >= raised then 0.0 else raised
  }

  // ---------------------------------------------------------------------------
  // Cells, boxes and the field.

  predicate InField(c: Cell)
  {
    0 <= c.x <= MaxCubeIndexHorizontal && 0 <= c.y <= MaxCubeIndexVertical
  }

  predicate AllInField(cs: seq<Cell>)
  {
    forall i :: 0 <= i < |cs| ==> InField(cs[i])
  }

  predicate BoxInField(b: CellRect)
  {
    0 <= b.left && b.Right() <= MaxCubeIndexHorizontal && 0 <= b.top && b.Bottom() <= MaxCubeIndexVertical
  }

  function ShiftedBox(b: CellRect, o: Cell): CellRect
  {
    CellRect(b.left + o.x, b.top + o.y, b.width, b.height)
  }

  function Shifted(cs: seq<Cell>, o: Cell): (r: seq<Cell>)
    ensures |r| == |cs| && forall i {:trigger r[i]} :: 0 <= i < |cs| ==> r[i] == AddCell(cs[i], o)
  {
    seq(|cs|, i requires 0 <= i < |cs| => AddCell(cs[i], o))
  }

  /** The box lies in the field exactly when every cell does. */
  lemma BoxInFieldIffAllInField(cs: seq<Cell>)
    requires |cs| > 0
    ensures BoxInField(BoundingBox(cs)) <==> AllInField(cs)
  {
    BoundingBoxTight(cs);
    var b := BoundingBox(cs);
    if AllInField(cs) {
      var i1 :| 0 <= i1 < |cs| && cs[i1].x == b.left;
      var i2 :| 0 <= i2 < |cs| && cs[i2].x == b.Right();
      var i3 :| 0 <= i3 < |cs| && cs[i3].y == b.top;
      var i4 :| 0 <= i4 < |cs| && cs[i4].y == b.Bottom();
      assert InField(cs[i1]) && InField(cs[i2]) && InField(cs[i3]) && InField(cs[i4]);
    }
  }

  /** Moving every cell by o moves the bounding box by o. */
  lemma BoundingBoxShifted(cs: seq<Cell>, o: Cell)
    requires |cs| > 0
    ensures BoundingBox(Shifted(cs, o)) == ShiftedBox(BoundingBox(cs), o)
  {
    var s := Shifted(cs, o);
    BoundingBoxTight(cs);
    BoundingBoxTight(s);
    var a, b := BoundingBox(cs), BoundingBox(s);
    var i1 :| 0 <= i1 < |s| && s[i1].x == b.left;
    var j1 :| 0 <= j1 < |cs| && cs[j1].x == a.left;
    assert b.left <= s[j1].x && a.left <= cs[i1].x;
    var i2 :| 0 <= i2 < |s| && s[i2].x == b.Right();
    var j2 :| 0 <= j2 < |cs| && cs[j2].x == a.Right();
    assert b.Right() >= s[j2].x && a.Right() >= cs[i2].x;
    var i3 :| 0 <= i3 < |s| && s[i3].y == b.top;
    var j3 :| 0 <= j3 < |cs| && cs[j3].y == a.top;
    assert b.top <= s[j3].y && a.top <= cs[i3].y;
    var i4 :| 0 <= i4 < |s| && s[i4].y == b.Bottom();
    var j4 :| 0 <= j4 < |cs| && cs[j4].y == a.Bottom();
    assert b.Bottom() >= s[j4].y && a.Bottom() >= cs[i4].y;
  }

  /**
   * Move's clamping: the offset actually applied, and whether it is the requested one.
   * Each direction is clamped, in the order left, right, up, down, so that the box
   * does not leave the field.
   */
  function ClampOffset(b: CellRect, dx: int, dy: int): (r: (Cell, bool))
    ensures BoxInField(b) ==> BoxInField(ShiftedBox(b, r.0))
    ensures BoxInField(b) ==> (r.1 <==> r.0 == Cell(dx, dy))
    ensures BoxInField(b) ==> (if dx >= 0 then 0 <= r.0.x <= dx else dx <= r.0.x <= 0)
    ensures BoxInField(b) ==> (if dy >= 0 then 0 <= r.0.y <= dy else dy <= r.0.y <= 0)
  {
    var clampLeft := dx < 0 && -dx > b.left;
    var x1 := if clampLeft then -b.left else dx;
    var clampRight := x1 > 0 && x1 > MaxCubeIndexHorizontal - b.Right();
    var x2 := if clampRight then MaxCubeIndexHorizontal - b.Right() else x1;
    var clampTop := dy < 0 && -dy > b.top;
    var y1 := if clampTop then -b.top else dy;
    var clampBottom := y1 > 0 && y1 > MaxCubeIndexVertical - b.Bottom();
    var y2 := if clampBottom then MaxCubeIndexVertical - b.Bottom() else y1;
    (Cell(x2, y2), !(clampLeft || clampRight || clampTop || clampBottom))
  }

  /** MoveIntoView: the shift that brings an out-of-field box back, computed from the one box. */
  function IntoViewShift(b: CellRect): (r: Cell)
    ensures 0 <= b.width <= MaxCubeIndexHorizontal && 0 <= b.height <= MaxCubeIndexVertical ==> BoxInField(ShiftedBox(b, r))
    ensures BoxInField(b) ==> r == Cell(0, 0)
  {
    var fromLeft := if b.left < 0 then 0 - b.left else 0;
    var fromRight := if b.Right() > MaxCubeIndexHorizontal then MaxCubeIndexHorizontal - b.Right() else 0;
    var fromTop := if b.top < 0 then 0 - b.top else 0;
    var fromBottom := if b.Bottom() > MaxCubeIndexVertical then MaxCubeIndexVertical - b.Bottom() else 0;
    Cell(fromLeft + fromRight, fromTop + fromBottom)
  }

  /** Offsets within two cells of the pivot, as every layout and its rotations are. */
  predicate Small(offsets: seq<Cell>)
  {
    forall i :: 0 <= i < |offsets| ==> -2 <= offsets[i].x <= 2 && -2 <= offsets[i].y <= 2
  }

  lemma LayoutIsSmall(s: ShapeStyle)
    ensures Small(Layout(s))
  {
  }

  lemma TurnsKeepSmall(style: ShapeStyle, p: Pose)
    requires Small(p.offsets)
    ensures Small(TurnLeft(style, p).offsets) && Small(TurnRight(style, p).offsets)
  {
  }

  /** The spawn point: ((int)(MaxCubeIndexHorizontal / 2), 0). */
  const ShapesStartPoint: Cell := Cell(MaxCubeIndexHorizontal / 2, 0)

  /** Every style, laid out at the spawn point, lies inside the field. */
  lemma SpawnInField(s: ShapeStyle)
    ensures AllInField(Shifted(Layout(s), ShapesStartPoint))
  {
  }

  /** Small offsets around any position span a box at most 4 cells wide and high. */
  lemma SmallBox(p: Cell, offsets: seq<Cell>)
    requires |offsets| > 0 && Small(offsets)
    ensures var b := BoundingBox(Shifted(offsets, p)); 0 <= b.width <= 4 && 0 <= b.height <= 4
  {
    var cs := Shifted(offsets, p);
    BoundingBoxTight(cs);
    var b := BoundingBox(cs);
    var i1 :| 0 <= i1 < |cs| && cs[i1].x == b.left;
    var i2 :| 0 <= i2 < |cs| && cs[i2].x == b.Right();
    var i3 :| 0 <= i3 < |cs| && cs[i3].y == b.top;
    var i4 :| 0 <= i4 < |cs| && cs[i4].y == b.Bottom();
    assert cs[i1] == AddCell(offsets[i1], p) && cs[i2] == AddCell(offsets[i2], p);
    assert cs[i3] == AddCell(offsets[i3], p) && cs[i4] == AddCell(offsets[i4], p);
  }
}
