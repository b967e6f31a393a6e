/**
 * The scene's field array (currentGameField): 12 x 22 cells indexed [x, y], each
 * empty or holding a landed cube. The loops of AddStaticCubes, FindFullLines,
 * BlinkLines, DestroyLines and ScoreFullLines run here on the array, each proved
 * against the reference definitions on rows of tiles.
 */
module GameGrid {
  import opened Wrappers
  import opened Objects
  import opened GameParameters
  import opened GameField
  import opened GameRules

  type Grid = array2<Option<Block>>

  predicate GridOk(f: Grid)
  {
    f.Length0 == CubeCountHorizontal && f.Length1 == CubeCountVertical
  }

  /** The field as rows of tiles: GridRows(f)[y][x] shows f[x, y]. */
  function GridRows(f: Grid): (rows: seq<Row>)
    reads f
    requires GridOk(f)
    ensures |rows| == CubeCountVertical && WellFormed(rows)
    ensures forall y, x :: 0 <= y < CubeCountVertical && 0 <= x < CubeCountHorizontal ==> rows[y][x] == TileOf(f[x, y])
  {
    seq(CubeCountVertical, y requires 0 <= y < CubeCountVertical reads f =>
      seq(CubeCountHorizontal, x requires 0 <= x < CubeCountHorizontal reads f => TileOf(f[x, y])))
  }

  /** Every landed cube sits at the cell that holds it. */
  ghost predicate InPlace(f: Grid)
    reads f
    requires GridOk(f)
  {
    forall x, y {:trigger f[x, y]} :: 0 <= x < CubeCountHorizontal && 0 <= y < CubeCountVertical && f[x, y].Some? ==>
      f[x, y].value.position == Cell(x, y)
  }

  /** Two fields of rows are the same when they agree cell by cell. */
  lemma RowsAgree(a: seq<Row>, b: seq<Row>)
    requires |a| == |b| && WellFormed(a) && WellFormed(b)
    requires forall y, x :: 0 <= y < |a| && 0 <= x < CubeCountHorizontal ==> a[y][x] == b[y][x]
    ensures a == b
  {
    forall y | 0 <= y < |a|
      ensures a[y] == b[y]
    {
      assert |a[y]| == |b[y]| == CubeCountHorizontal;
      forall x | 0 <= x < CubeCountHorizontal
        ensures a[y][x] == b[y][x]
      {
      }
    }
  }

  // ---------------------------------------------------------------------------
  // AddStaticCubes.

  /** The block a cube leaves in the field: its style, its cell and its image opacity. */
  function BlockOf(c: Cube): Block
    reads c, c.shape
  {
    Block(c.style, c.Position(), c.opacity)
  }

  function BlocksOf(cs: seq<Cube>): (r: seq<Block>)
    reads set c | c in cs, set c | c in cs :: c.shape
    ensures |r| == |cs| && forall i :: 0 <= i < |cs| ==> r[i] == BlockOf(cs[i])
  {
    seq(|cs|, i requires 0 <= i < |cs| reads set c | c in cs, set c | c in cs :: c.shape => BlockOf(cs[i]))
  }

  /** What placing the blocks in order leaves at cell p: the last one placed there, if any. */
  function LastAt(blocks: seq<Block>, p: Cell): (r: Option<Block>)
    ensures r.Some? ==> r.value in blocks && r.value.position == p
    ensures r.None? <==> forall i :: 0 <= i < |blocks| ==> blocks[i].position != p
  {
    if |blocks| == 0 then None
    else if blocks[|blocks| - 1].position == p then Some(blocks[|blocks| - 1])
    else LastAt(blocks[..|blocks| - 1], p)
  }

  /** Placing one more block changes only the cell it is placed on. */
  lemma LastAtSnoc(blocks: seq<Block>, i: nat)
    requires i < |blocks|
    ensures forall p :: LastAt(blocks[..i + 1], p) == if blocks[i].position == p then Some(blocks[i]) else LastAt(blocks[..i], p)
  {
    var bs := blocks[..i + 1];
    assert bs[..|bs| - 1] == blocks[..i] && bs[|bs| - 1] == blocks[i];
    forall p
      ensures LastAt(bs, p) == if blocks[i].position == p then Some(blocks[i]) else LastAt(blocks[..i], p)
    {
    }
  }

  /** new Cube[12, 22]: a field of empty cells, with no full line. */
  method NewGrid() returns (f: Grid)
    ensures fresh(f) && GridOk(f) && InPlace(f)
    ensures forall y :: 0 <= y < CubeCountVertical ==> GridRows(f)[y] == EmptyRow()
    ensures FullLinesOf(GridRows(f), [])
  {
    f := new Option<Block>[CubeCountHorizontal, CubeCountVertical]((x, y) => None);
    forall y | 0 <= y < CubeCountVertical
      ensures GridRows(f)[y] == EmptyRow() && !Full(GridRows(f)[y])
    {
      assert GridRows(f)[y][0] == Empty;
    }
  }

  /**
   * AddStaticCubes' loop, on the blocks the cubes leave: each is written into the
   * field at its cell, in list order. A cell gets the last block placed on it; every
   * other cell keeps what it held.
   */
  method AddBlocks(f: Grid, blocks: seq<Block>)
    requires GridOk(f)
    requires forall i :: 0 <= i < |blocks| ==> InField(blocks[i].position)
    modifies f
    ensures forall x, y {:trigger f[x, y]} :: 0 <= x < CubeCountHorizontal && 0 <= y < CubeCountVertical ==>
              f[x, y] == (var b := LastAt(blocks, Cell(x, y)); if b.Some? then b else old(f[x, y]))
    ensures forall i :: 0 <= i < |blocks| ==> var p := blocks[i].position; InField(p) && f[p.x, p.y].Some?
    ensures old(InPlace(f)) ==> InPlace(f)
  {
    var i := 0;
    while i < |blocks|
      invariant 0 <= i <= |blocks|
      invariant forall x, y {:trigger f[x, y]} :: 0 <= x < CubeCountHorizontal && 0 <= y < CubeCountVertical ==>
                  f[x, y] == (var b := LastAt(blocks[..i], Cell(x, y)); if b.Some? then b else old(f[x, y]))
    {
      var p := blocks[i].position;
      f[p.x, p.y] := Some(blocks[i]);
      LastAtSnoc(blocks, i);
      i := i + 1;
    }
    assert blocks[..|blocks|] == blocks;
    forall i | 0 <= i < |blocks|
      ensures var p := blocks[i].position; InField(p) && f[p.x, p.y].Some?
    {
      var p := blocks[i].position;
      assert LastAt(blocks, Cell(p.x, p.y)).Some?;
    }
  }

  // ---------------------------------------------------------------------------
  // FindFullLines.

  /** The inner loop of FindFullLines: row y is filled unless some cell, scanned right to left, is empty. */
  method RowFilled(f: Grid, y: int) returns (filled: bool)
    requires GridOk(f) && 0 <= y < CubeCountVertical
    ensures filled == Full(GridRows(f)[y])
  {
    filled := true;
    var x := MaxCubeIndexHorizontal;
    while x >= 0
      invariant -1 <= x <= MaxCubeIndexHorizontal && filled
      invariant forall x' :: x < x' < CubeCountHorizontal ==> f[x', y].Some?
    {
      if f[x, y].None? {
        filled := false;
        assert GridRows(f)[y][x] == Empty;
        break;
      }
      x := x - 1;
    }
  }

  lemma NothingListedYet(rows: seq<Row>)
    ensures [] + FullLinesBelow(rows, |rows|) == FullLines(rows)
  {
    assert [] + FullLinesBelow(rows, |rows|) == FullLinesBelow(rows, |rows|);
  }

  /** Scanning row y: the full rows already listed, then row y if it is full, then those above it. */
  lemma FullLinesStep(rows: seq<Row>, y: nat, lines: seq<int>, filled: bool)
    requires y < |rows| && filled == Full(rows[y])
    requires lines + FullLinesBelow(rows, y + 1) == FullLines(rows)
    ensures (if filled then lines + [y] else lines) + FullLinesBelow(rows, y) == FullLines(rows)
  {
    var below := FullLinesBelow(rows, y);
    if filled {
      assert lines + ([y] + below) == (lines + [y]) + below;
    } else {
      assert [] + below == below;
    }
  }

  /** FindFullLines' scan: the full rows, bottom row first. */
  method FullRows(f: Grid) returns (lines: seq<int>)
    requires GridOk(f)
    ensures lines == FullLines(GridRows(f))
  {
    ghost var rows := GridRows(f);
    lines := [];
    var y := MaxCubeIndexVertical;
    NothingListedYet(rows);
    while y >= 0
      invariant -1 <= y <= MaxCubeIndexVertical
      invariant lines + FullLinesBelow(rows, y + 1) == FullLines(rows)
    {
      var filled := RowFilled(f, y);
      FullLinesStep(rows, y, lines, filled);
      if filled {
        lines := lines + [y];
      }
      y := y - 1;
    }
  }

  // ---------------------------------------------------------------------------
  // BlinkLines.

  /** A landed cube shown at another opacity. */
  function Faded(b: Option<Block>, opacity: real): (r: Option<Block>)
    ensures r.Some? <==> b.Some?
    ensures r.Some? ==> r.value == b.value.(opacity := opacity)
  {
    if b.Some? then Some(b.value.(opacity := opacity)) else None
  }

  /** One listed row of BlinkLines: each cube of row y, right to left, gets the opacity. */
  method FadeRow(f: Grid, y: int, opacity: real)
    requires GridOk(f) && 0 <= y < CubeCountVertical
    modifies f
    ensures forall x, y' :: 0 <= x < CubeCountHorizontal && 0 <= y' < CubeCountVertical ==>
              f[x, y'] == if y' == y then Faded(old(f[x, y']), opacity) else old(f[x, y'])
  {
    var x := MaxCubeIndexHorizontal;
    while x >= 0
      invariant -1 <= x <= MaxCubeIndexHorizontal
      invariant forall x', y' :: 0 <= x' < CubeCountHorizontal && 0 <= y' < CubeCountVertical ==>
                  f[x', y'] == if y' == y && x < x' then Faded(old(f[x', y']), opacity) else old(f[x', y'])
    {
      var cube := f[x, y];
      if cube.Some? {
        f[x, y] := Some(cube.value.(opacity := opacity));
      }
      x := x - 1;
    }
  }

  /** BlinkLines' loop: the rows listed, bottom-up, show their cubes at the opacity. */
  method FadeRows(f: Grid, lines: seq<int>, opacity: real)
    requires GridOk(f)
    modifies f
    ensures forall x, y :: 0 <= x < CubeCountHorizontal && 0 <= y < CubeCountVertical ==>
              f[x, y] == if y in lines then Faded(old(f[x, y]), opacity) else old(f[x, y])
    ensures GridRows(f) == Blinked(old(GridRows(f)), lines, opacity)
    ensures old(InPlace(f)) ==> InPlace(f)
  {
    ghost var before := GridRows(f);
    var y := MaxCubeIndexVertical;
    while y >= 0
      invariant -1 <= y <= MaxCubeIndexVertical
      invariant forall x, y' :: 0 <= x < CubeCountHorizontal && 0 <= y' < CubeCountVertical ==>
                  f[x, y'] == if y < y' && y' in lines then Faded(old(f[x, y']), opacity) else old(f[x, y'])
    {
      if y in lines {
        FadeRow(f, y, opacity);
      }
      y := y - 1;
    }
    RowsAgree(GridRows(f), Blinked(before, lines, opacity));
  }

  // ---------------------------------------------------------------------------
  // DestroyLines.

  /** A landed cube moved one row down, as DestroyLines moves it. */
  function Lowered(b: Option<Block>): (r: Option<Block>)
    ensures TileOf(r) == TileOf(b)
    ensures r.Some? ==> r.value.position == AddCell(b.value.position, Cell(0, 1))
  {
    if b.Some? then Some(b.value.(position := AddCell(b.value.position, Cell(0, 1)))) else None
  }

  /** Row y emptied, right to left. */
  method ClearRow(f: Grid, y: int)
    requires GridOk(f) && 0 <= y < CubeCountVertical
    modifies f
    ensures forall x, y' :: 0 <= x < CubeCountHorizontal && 0 <= y' < CubeCountVertical ==>
              f[x, y'] == if y' == y then None else old(f[x, y'])
  {
    var x := MaxCubeIndexHorizontal;
    while x >= 0
      invariant -1 <= x <= MaxCubeIndexHorizontal
      invariant forall x', y' :: 0 <= x' < CubeCountHorizontal && 0 <= y' < CubeCountVertical ==>
                  f[x', y'] == if y' == y && x < x' then None else old(f[x', y'])
    {
      f[x, y] := None;
      x := x - 1;
    }
  }

  /** Row r takes the cubes of row r - 1, each moved one row down, right to left. */
  method LowerRow(f: Grid, r: int)
    requires GridOk(f) && 0 < r < CubeCountVertical
    modifies f
    ensures forall x, y' :: 0 <= x < CubeCountHorizontal && 0 <= y' < CubeCountVertical ==>
              f[x, y'] == if y' == r then Lowered(old(f[x, r - 1])) else old(f[x, y'])
  {
    var x := MaxCubeIndexHorizontal;
    while x >= 0
      invariant -1 <= x <= MaxCubeIndexHorizontal
      invariant forall x', y' :: 0 <= x' < CubeCountHorizontal && 0 <= y' < CubeCountVertical ==>
                  f[x', y'] == if y' == r && x < x' then Lowered(old(f[x', r - 1])) else old(f[x', y'])
    {
      var moved := f[x, r - 1];
      f[x, r] := Lowered(moved);
      x := x - 1;
    }
  }

  /**
   * One destroyed row as DestroyLines removes it in place: row y is emptied, every
   * row above it moves one down with its cubes, and row 0 is emptied.
   */
  method RemoveRow(f: Grid, y: int)
    requires GridOk(f) && 0 <= y < CubeCountVertical
    modifies f
    ensures forall x, y' :: 0 <= x < CubeCountHorizontal && 0 <= y' < CubeCountVertical ==>
              f[x, y'] == if y' == 0 then None else if y' <= y then Lowered(old(f[x, y' - 1])) else old(f[x, y'])
    ensures GridRows(f) == ShiftDown(old(GridRows(f)), y, EmptyRow())
    ensures old(InPlace(f)) ==> InPlace(f)
  {
    ghost var before := GridRows(f);
    ClearRow(f, y);
    var yMove := y;
    while yMove > 0
      invariant 0 <= yMove <= y
      invariant forall x, y' :: 0 <= x < CubeCountHorizontal && 0 <= y' < CubeCountVertical ==>
                  f[x, y'] == if yMove < y' <= y then Lowered(old(f[x, y' - 1]))
                              else if y' == y then None else old(f[x, y'])
    {
      LowerRow(f, yMove);
      yMove := yMove - 1;
    }
    ClearRow(f, 0);
    RowsAgree(GridRows(f), ShiftDown(before, y, EmptyRow()));
  }

  /** Rows listed at or above y, y not among them: they are all above y. */
  lemma NotListedBelow(lines: seq<int>, y: int)
    requires y !in lines && forall k :: 0 <= k < |lines| ==> 0 <= lines[k] <= y
    ensures forall k :: 0 <= k < |lines| ==> 0 <= lines[k] <= y - 1
  {
    forall k | 0 <= k < |lines|
      ensures lines[k] != y
    {
      assert lines[k] in lines;
    }
  }

  /**
   * DestroyLines: from the bottom row up, a listed row is removed in place and the
   * rows still listed, all above it, are renumbered one down; the same row index
   * is then checked again. The field ends as the reference Cleared has it.
   */
  method DestroyRows(f: Grid, lines: seq<int>)
    requires GridOk(f) && Distinct(lines) && InRows(lines, CubeCountVertical)
    modifies f
    ensures GridRows(f) == Cleared(old(GridRows(f)), lines, EmptyRow())
    ensures old(InPlace(f)) ==> InPlace(f)
  {
    var linesLocal := lines;
    var y := MaxCubeIndexVertical;
    while y >= 0
      invariant -1 <= y <= MaxCubeIndexVertical
      invariant Distinct(linesLocal) && forall k :: 0 <= k < |linesLocal| ==> 0 <= linesLocal[k] <= y
      invariant Cleared(GridRows(f), linesLocal, EmptyRow()) == Cleared(old(GridRows(f)), lines, EmptyRow())
      invariant old(InPlace(f)) ==> InPlace(f)
      decreases y + 1, |linesLocal|
    {
      if y in linesLocal {
        ghost var before := GridRows(f);
        RemoveRow(f, y);
        RemovalStep(before, y, linesLocal, EmptyRow());
        RenumberedLines(linesLocal, y);
        linesLocal := Incremented(RemoveFirst(linesLocal, y));
        y := y + 1;
      } else {
        NotListedBelow(linesLocal, y);
      }
      y := y - 1;
    }
    ClearedNothing(GridRows(f), linesLocal, EmptyRow());
  }

  // ---------------------------------------------------------------------------
  // ScoreFullLines.

  /** ScoreFullLines' scan, bottom-up and right to left while nothing is found: no cell holds a cube. */
  method FieldIsEmpty(f: Grid) returns (allEmpty: bool)
    requires GridOk(f)
    ensures allEmpty <==> forall x, y :: 0 <= x < CubeCountHorizontal && 0 <= y < CubeCountVertical ==> f[x, y].None?
  {
    allEmpty := true;
    var y := MaxCubeIndexVertical;
    while y >= 0 && allEmpty
      invariant -1 <= y <= MaxCubeIndexVertical
      invariant allEmpty <==> forall x, y' :: 0 <= x < CubeCountHorizontal && y < y' < CubeCountVertical ==> f[x, y'].None?
      invariant !allEmpty ==> exists x, y' :: 0 <= x < CubeCountHorizontal && 0 <= y' < CubeCountVertical && f[x, y'].Some?
    {
      var x := MaxCubeIndexHorizontal;
      while x >= 0 && allEmpty
        invariant -1 <= x <= MaxCubeIndexHorizontal
        invariant allEmpty <==> forall x' :: x < x' < CubeCountHorizontal ==> f[x', y].None?
        invariant !allEmpty ==> exists x' :: 0 <= x' < CubeCountHorizontal && f[x', y].Some?
      {
        if f[x, y].Some? {
          allEmpty := false;
        }
        x := x - 1;
      }
      y := y - 1;
    }
  }
}
