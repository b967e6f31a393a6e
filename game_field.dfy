/**
 * The game field as rows of tiles: the reference definitions that the scene's
 * FindFullLines, BlinkLines and DestroyLines are proved against. Row 0 is the
 * top of the field, row 21 the bottom; rows[y][x] is column x of row y.
 */
module GameField {
  import opened Wrappers
  import opened Objects
  import opened GameParameters

  /** A landed cube as the field keeps it: its style, its cell and its image opacity. */
  datatype Block = Block(style: ShapeStyle, position: Cell, opacity: real)

  /** What one cell of the field shows. */
  datatype Tile = Empty | Filled(style: ShapeStyle, opacity: real)

  function TileOf(b: Option<Block>): (t: Tile)
    ensures t.Filled? <==> b.Some?
  {
    if b.Some? then Filled(b.value.style, b.value.opacity) else Empty
  }

  type Row = seq<Tile>

  function EmptyRow(): (r: Row)
    ensures |r| == CubeCountHorizontal && forall x :: 0 <= x < |r| ==> r[x] == Empty
  {
    seq(CubeCountHorizontal, _ => Empty)
  }

  /** k copies of a blank row. */
  function Padding<T>(k: nat, blank: T): (r: seq<T>)
    ensures |r| == k && forall y :: 0 <= y < k ==> r[y] == blank
  {
    seq(k, _ => blank)
  }

  predicate WellFormed(rows: seq<Row>)
  {
    forall y :: 0 <= y < |rows| ==> |rows[y]| == CubeCountHorizontal
  }

  /** A row whose every cell is occupied. */
  predicate Full(row: Row)
  {
    forall x :: 0 <= x < |row| ==> row[x].Filled?
  }

  predicate Distinct(lines: seq<int>)
  {
    forall i, j :: 0 <= i < j < |lines| ==> lines[i] != lines[j]
  }

  /** Every listed row index lies in [0, n). */
  predicate InRows(lines: seq<int>, n: int)
  {
    forall i :: 0 <= i < |lines| ==> 0 <= lines[i] < n
  }

  // ---------------------------------------------------------------------------
  // Full lines.

  /** The full rows among rows 0..n-1, scanned from row n-1 upwards. */
  function FullLinesBelow(rows: seq<Row>, n: nat): seq<int>
    requires n <= |rows|
    decreases n
  {
    if n == 0 then []
    else (if Full(rows[n - 1]) then [n - 1] else []) + FullLinesBelow(rows, n - 1)
  }

  /** The full rows of the field, bottom-up. */
  function FullLines(rows: seq<Row>): seq<int>
  {
    FullLinesBelow(rows, |rows|)
  }

  /** The scan of rows 0..n-1 lists exactly their full rows, in strictly decreasing order. */
  lemma {:induction false} FullLinesBelowExact(rows: seq<Row>, n: nat)
    requires n <= |rows|
    ensures var r := FullLinesBelow(rows, n);
            (forall y :: y in r <==> 0 <= y < n && Full(rows[y])) &&
            (forall i, j :: 0 <= i < j < |r| ==> r[i] > r[j]) &&
            InRows(r, n)
    decreases n
  {
    if n > 0 {
      FullLinesBelowExact(rows, n - 1);
      var rest := FullLinesBelow(rows, n - 1);
      var r := FullLinesBelow(rows, n);
      if Full(rows[n - 1]) {
        assert r == [n - 1] + rest;
        forall i, j | 0 <= i < j < |r|
          ensures r[i] > r[j]
        {
          if i == 0 {
            assert r[j] == rest[j - 1] && rest[j - 1] in rest;
          } else {
            assert r[i] == rest[i - 1] && r[j] == rest[j - 1];
          }
        }
      } else {
        assert r == rest;
      }
    }
  }

  /** FullLines lists exactly the full rows, bottom-up, each once. */
  lemma FullLinesExact(rows: seq<Row>)
    ensures forall y :: y in FullLines(rows) <==> 0 <= y < |rows| && Full(rows[y])
    ensures Distinct(FullLines(rows)) && InRows(FullLines(rows), |rows|)
    ensures forall i, j :: 0 <= i < j < |FullLines(rows)| ==> FullLines(rows)[i] > FullLines(rows)[j]
  {
    FullLinesBelowExact(rows, |rows|);
  }

  /** The lines are exactly the full rows, listed bottom-up. */
  ghost predicate FullLinesOf(rows: seq<Row>, lines: seq<int>)
  {
    (forall y :: y in lines <==> 0 <= y < |rows| && Full(rows[y])) &&
    (forall i, j :: 0 <= i < j < |lines| ==> lines[i] > lines[j])
  }

  /** A strictly decreasing list without its head holds the other members of the list. */
  lemma DecreasingTail(s: seq<int>)
    requires |s| > 0 && forall i, j :: 0 <= i < j < |s| ==> s[i] > s[j]
    ensures forall y :: y in s[1..] <==> y in s && y != s[0]
  {
    forall y | y in s && y != s[0]
      ensures y in s[1..]
    {
      var i :| 0 <= i < |s| && s[i] == y;
      assert s[1..][i - 1] == y;
    }
  }

  /** Two strictly decreasing lists with the same members are the same list. */
  lemma {:induction false} DecreasingUnique(a: seq<int>, b: seq<int>)
    requires forall i, j :: 0 <= i < j < |a| ==> a[i] > a[j]
    requires forall i, j :: 0 <= i < j < |b| ==> b[i] > b[j]
    requires forall y :: y in a <==> y in b
    ensures a == b
    decreases |a|
  {
    if a != [] {
      assert a[0] in a;
    }
    if b != [] {
      assert b[0] in b;
    }
    if a != [] {
      assert a[0] == b[0];
      DecreasingTail(a);
      DecreasingTail(b);
      DecreasingUnique(a[1..], b[1..]);
      assert a == [a[0]] + a[1..] && b == [b[0]] + b[1..];
    }
  }

  /** FullLines is the one list of lines that FullLinesOf describes. */
  lemma FullLinesOfIsFullLines(rows: seq<Row>, lines: seq<int>)
    ensures FullLinesOf(rows, lines) <==> lines == FullLines(rows)
  {
    FullLinesExact(rows);
    if FullLinesOf(rows, lines) {
      DecreasingUnique(lines, FullLines(rows));
    }
  }

  // ---------------------------------------------------------------------------
  // Blinking.

  function SetRowOpacity(row: Row, opacity: real): (r: Row)
    ensures |r| == |row|
    ensures forall x :: 0 <= x < |row| ==>
              r[x] == (if row[x].Filled? then Filled(row[x].style, opacity) else Empty)
  {
    seq(|row|, x requires 0 <= x < |row| => if row[x].Filled? then Filled(row[x].style, opacity) else Empty)
  }

  /** The listed rows show their cubes at the given opacity; every other row is unchanged. */
  function Blinked(rows: seq<Row>, lines: seq<int>, opacity: real): (r: seq<Row>)
    ensures |r| == |rows|
    ensures forall y :: 0 <= y < |rows| ==> r[y] == (if y in lines then SetRowOpacity(rows[y], opacity) else rows[y])
  {
    seq(|rows|, y requires 0 <= y < |rows| => if y in lines then SetRowOpacity(rows[y], opacity) else rows[y])
  }

  /** Blinking changes opacities only, so the scan finds the same full rows. */
  lemma {:induction false} BlinkKeepsFullLinesBelow(rows: seq<Row>, lines: seq<int>, opacity: real, n: nat)
    requires n <= |rows|
    ensures FullLinesBelow(Blinked(rows, lines, opacity), n) == FullLinesBelow(rows, n)
    decreases n
  {
    if n > 0 {
      BlinkKeepsFullLinesBelow(rows, lines, opacity, n - 1);
      var b := Blinked(rows, lines, opacity);
      assert Full(b[n - 1]) <==> Full(rows[n - 1]) by {
        if n - 1 in lines { OpacityKeepsFull(rows[n - 1], opacity); }
      }
    }
  }

  /** Changing the opacity of a row never fills or empties a cell. */
  lemma OpacityKeepsFull(row: Row, opacity: real)
    ensures Full(SetRowOpacity(row, opacity)) <==> Full(row)
  {
    var r := SetRowOpacity(row, opacity);
    assert forall x :: 0 <= x < |row| ==> (r[x].Filled? <==> row[x].Filled?);
  }

  lemma BlinkKeepsFullLines(rows: seq<Row>, lines: seq<int>, opacity: real)
    ensures FullLines(Blinked(rows, lines, opacity)) == FullLines(rows)
  {
    BlinkKeepsFullLinesBelow(rows, lines, opacity, |rows|);
  }

  /** Blinking keeps the lines to destroy the full rows, and keeps which cells are filled. */
  lemma BlinkKeepsFullLinesOf(rows: seq<Row>, lines: seq<int>, opacity: real)
    requires FullLinesOf(rows, lines)
    ensures FullLinesOf(Blinked(rows, lines, opacity), lines)
    ensures forall y, x :: 0 <= y < |rows| && 0 <= x < |rows[y]| ==>
              x < |Blinked(rows, lines, opacity)[y]| && (Blinked(rows, lines, opacity)[y][x].Filled? <==> rows[y][x].Filled?)
  {
    FullLinesOfIsFullLines(rows, lines);
    BlinkKeepsFullLines(rows, lines, opacity);
    FullLinesOfIsFullLines(Blinked(rows, lines, opacity), lines);
  }

  /** Rows without a full one leave the scan empty. */
  lemma {:induction false} NoFullRowNoLines(rows: seq<Row>, n: nat)
    requires n <= |rows| && forall y :: 0 <= y < n ==> !Full(rows[y])
    ensures FullLinesBelow(rows, n) == []
    decreases n
  {
    if n > 0 {
      NoFullRowNoLines(rows, n - 1);
    }
  }

  // ---------------------------------------------------------------------------
  // Destroying lines.

  /** The rows with index in [lo, hi) that are not listed, in their order. */
  function KeepRange<T>(rows: seq<T>, lo: nat, hi: nat, lines: seq<int>): (r: seq<T>)
    requires lo <= hi <= |rows|
    ensures |r| <= hi - lo
    decreases hi - lo
  {
    if hi == lo then []
    else KeepRange(rows, lo, hi - 1, lines) + (if hi - 1 in lines then [] else [rows[hi - 1]])
  }

  function Kept<T>(rows: seq<T>, lines: seq<int>): seq<T>
  {
    KeepRange(rows, 0, |rows|, lines)
  }

  /**
   * The field once the listed lines are destroyed: the kept rows, in order, at
   * the bottom, and as many empty rows above them as were removed.
   */
  function Cleared<T>(rows: seq<T>, lines: seq<int>, blank: T): seq<T>
  {
    var kept := Kept(rows, lines);
    Padding(|rows| - |kept|, blank) + kept
  }

  /** One removal as DestroyLines does it in place: row y goes, the rows above move down, row 0 is empty. */
  function ShiftDown<T>(rows: seq<T>, y: int, blank: T): (r: seq<T>)
    ensures |r| == |rows|
    ensures forall i :: 0 <= i < |rows| ==> r[i] == (if i == 0 then blank else if i <= y then rows[i - 1] else rows[i])
  {
    seq(|rows|, i requires 0 <= i < |rows| => if i == 0 then blank else if i <= y then rows[i - 1] else rows[i])
  }

  /** List.Remove: the first occurrence of v is dropped. */
  function RemoveFirst(lines: seq<int>, v: int): (r: seq<int>)
    ensures v in lines ==> |r| == |lines| - 1
    ensures v !in lines ==> r == lines
    ensures forall x :: x in r ==> x in lines
    ensures Distinct(lines) ==> Distinct(r) && forall x :: x in r <==> x in lines && x != v
  {
    if |lines| == 0 then []
    else if lines[0] == v then
      assert Distinct(lines) ==> Distinct(lines[1..]) && lines[0] !in lines[1..];
      lines[1..]
    else
      var rest := RemoveFirst(lines[1..], v);
      assert Distinct(lines) ==> Distinct(lines[1..]) && lines[0] !in lines[1..];
      assert lines == [lines[0]] + lines[1..];
      [lines[0]] + rest
  }

  /** lines.Select(line => line + 1). */
  function Incremented(lines: seq<int>): (r: seq<int>)
    ensures |r| == |lines| && forall k :: 0 <= k < |lines| ==> r[k] == lines[k] + 1
  {
    seq(|lines|, k requires 0 <= k < |lines| => lines[k] + 1)
  }

  lemma {:induction false} KeepSplit<T>(rows: seq<T>, lo: nat, mid: nat, hi: nat, lines: seq<int>)
    requires lo <= mid <= hi <= |rows|
    ensures KeepRange(rows, lo, hi, lines) == KeepRange(rows, lo, mid, lines) + KeepRange(rows, mid, hi, lines)
    decreases hi - mid
  {
    if hi > mid {
      KeepSplit(rows, lo, mid, hi - 1, lines);
    }
  }

  lemma {:induction false} KeepUnlisted<T>(rows: seq<T>, lo: nat, hi: nat, lines: seq<int>)
    requires lo <= hi <= |rows|
    requires forall i :: lo <= i < hi ==> i !in lines
    ensures KeepRange(rows, lo, hi, lines) == rows[lo..hi]
    decreases hi - lo
  {
    if hi > lo {
      KeepUnlisted(rows, lo, hi - 1, lines);
      assert rows[lo..hi] == rows[lo..hi - 1] + [rows[hi - 1]];
    }
  }

  /** Two fields that agree row for row, d indices apart, keep the same rows. */
  lemma {:induction false} KeepTranslated<T>(a: seq<T>, la: seq<int>, lo: nat, hi: nat, b: seq<T>, lb: seq<int>, lo2: nat, hi2: nat)
    requires lo <= hi <= |a| && hi2 <= |b| && lo2 - lo == hi2 - hi >= 0
    requires forall i :: lo <= i < hi ==> b[i + lo2 - lo] == a[i] && (i + lo2 - lo in lb <==> i in la)
    ensures KeepRange(b, lo2, hi2, lb) == KeepRange(a, lo, hi, la)
    decreases hi - lo
  {
    if hi > lo {
      KeepTranslated(a, la, lo, hi - 1, b, lb, lo2, hi2 - 1);
    }
  }

  lemma IncrementedMember(xs: seq<int>, v: int)
    ensures v + 1 in Incremented(xs) <==> v in xs
  {
    var next := Incremented(xs);
    if v + 1 in next {
      var k :| 0 <= k < |next| && next[k] == v + 1;
      assert xs[k] == v;
    }
    if v in xs {
      var k :| 0 <= k < |xs| && xs[k] == v;
      assert next[k] == v + 1;
    }
  }

  /** Above row y the shifted field holds the old rows one lower, listed exactly when they were. */
  lemma ShiftedMiddle<T>(rows: seq<T>, s: seq<T>, y: int, lines: seq<int>, rest: seq<int>)
    requires 0 <= y < |rows| == |s|
    requires forall i :: 0 <= i < y ==> s[i + 1] == rows[i]
    requires forall v :: v in rest <==> v in lines && v != y
    ensures KeepRange(s, 1, y + 1, Incremented(rest)) == KeepRange(rows, 0, y, lines)
  {
    var next := Incremented(rest);
    forall i | 0 <= i < y
      ensures s[i + 1] == rows[i] && (i + 1 in next <==> i in lines)
    {
      IncrementedMember(rest, i);
    }
    KeepTranslated(rows, lines, 0, y, s, next, 1, y + 1);
  }

  /** Two fields that agree below row y, where nothing is listed, keep the same rows there. */
  lemma SameBelow<T>(rows: seq<T>, s: seq<T>, y: int, lines: seq<int>, next: seq<int>)
    requires 0 <= y < |rows| == |s|
    requires forall i :: y < i < |rows| ==> s[i] == rows[i]
    requires forall v :: v in next ==> v <= y
    requires forall v :: v in lines ==> v <= y
    ensures KeepRange(s, y + 1, |rows|, next) == KeepRange(rows, y + 1, |rows|, lines)
  {
    forall i | y + 1 <= i < |rows|
      ensures s[i] == rows[i] && i !in next && i !in lines
    {
    }
    KeepTranslated(rows, lines, y + 1, |rows|, s, next, y + 1, |rows|);
  }

  /** What the shifted field keeps: its empty top row, then what the original field keeps. */
  lemma ShiftedKeep<T>(rows: seq<T>, s: seq<T>, y: int, lines: seq<int>, rest: seq<int>, blank: T)
    requires 0 <= y < |rows| == |s| && y in lines
    requires s[0] == blank
    requires forall i :: 0 <= i < y ==> s[i + 1] == rows[i]
    requires forall i :: y < i < |rows| ==> s[i] == rows[i]
    requires forall v :: v in rest <==> v in lines && v != y
    requires forall v :: v in Incremented(rest) ==> 1 <= v <= y
    requires forall v :: v in lines ==> v <= y
    ensures Kept(s, Incremented(rest)) == [blank] + Kept(rows, lines)
  {
    var next := Incremented(rest);
    var n := |rows|;
    KeepSplit(s, 0, 1, n, next);
    KeepSplit(s, 1, y + 1, n, next);
    var top := KeepRange(s, 0, 1, next);
    assert top == [blank];
    var middle := KeepRange(s, 1, y + 1, next);
    var bottom := KeepRange(s, y + 1, n, next);
    ShiftedMiddle(rows, s, y, lines, rest);
    SameBelow(rows, s, y, lines, next);
    KeepSplit(rows, 0, y, n, lines);
    KeepSplit(rows, y, y + 1, n, lines);
    assert KeepRange(rows, y, y + 1, lines) == [];
    assert Kept(s, next) == top + (middle + bottom);
    assert Kept(rows, lines) == middle + bottom;
  }

  /** After renumbering, every remaining listed line lies in [1, y]. */
  lemma RenumberedBounds(lines: seq<int>, y: int)
    requires Distinct(lines)
    requires forall k :: 0 <= k < |lines| ==> 0 <= lines[k] <= y
    ensures forall v :: v in Incremented(RemoveFirst(lines, y)) ==> 1 <= v <= y
  {
    var rest := RemoveFirst(lines, y);
    var next := Incremented(rest);
    forall v | v in next
      ensures 1 <= v <= y
    {
      var k :| 0 <= k < |next| && next[k] == v;
      assert rest[k] in rest;
      var j :| 0 <= j < |lines| && lines[j] == rest[k];
    }
  }

  /** The renumbered list is again a list of different rows, all in [1, y]. */
  lemma RenumberedLines(lines: seq<int>, y: int)
    requires Distinct(lines)
    requires forall k :: 0 <= k < |lines| ==> 0 <= lines[k] <= y
    ensures var next := Incremented(RemoveFirst(lines, y));
            Distinct(next) && forall k :: 0 <= k < |next| ==> 1 <= next[k] <= y
  {
    RenumberedBounds(lines, y);
    var rest := RemoveFirst(lines, y);
    var next := Incremented(rest);
    forall k | 0 <= k < |next|
      ensures 1 <= next[k] <= y
    {
      assert next[k] in next;
    }
    forall i, j | 0 <= i < j < |next|
      ensures next[i] != next[j]
    {
      assert next[i] == rest[i] + 1 && next[j] == rest[j] + 1;
    }
  }

  /**
   * The step DestroyLines repeats: removing a listed row y in place and renumbering the
   * remaining listed rows (all above y) one down leaves the final result unchanged.
   */
  lemma RemovalStep<T>(rows: seq<T>, y: int, lines: seq<int>, blank: T)
    requires 0 <= y < |rows| && y in lines && Distinct(lines)
    requires forall k :: 0 <= k < |lines| ==> 0 <= lines[k] <= y
    ensures Cleared(ShiftDown(rows, y, blank), Incremented(RemoveFirst(lines, y)), blank) == Cleared(rows, lines, blank)
  {
    var rest := RemoveFirst(lines, y);
    var s := ShiftDown(rows, y, blank);
    var kept := Kept(rows, lines);
    assert Kept(s, Incremented(rest)) == [blank] + kept by {
      RenumberedBounds(lines, y);
      assert forall v :: v in lines ==> v <= y;
      ShiftDownRows(rows, y, blank);
      ShiftedKeep(rows, s, y, lines, rest, blank);
    }
    PaddingSnoc(|rows| - |kept|, blank);
  }

  /** ShiftDown's three regions: the blank top row, the rows above y one lower, the rows below y as they were. */
  lemma ShiftDownRows<T>(rows: seq<T>, y: int, blank: T)
    requires 0 <= y < |rows|
    ensures var s := ShiftDown(rows, y, blank);
            |s| == |rows| && s[0] == blank &&
            (forall i :: 0 <= i < y ==> s[i + 1] == rows[i]) &&
            (forall i :: y < i < |rows| ==> s[i] == rows[i])
  {
  }

  lemma PaddingSnoc<T>(k: nat, blank: T)
    requires k > 0
    ensures Padding(k - 1, blank) + [blank] == Padding(k, blank)
  {
  }

  /** Nothing listed: nothing changes. */
  lemma ClearedNothing<T>(rows: seq<T>, lines: seq<int>, blank: T)
    requires forall y :: 0 <= y < |rows| ==> y !in lines
    ensures Cleared(rows, lines, blank) == rows
  {
    KeepUnlisted(rows, 0, |rows|, lines);
    assert rows[0..|rows|] == rows;
  }

  // ---------------------------------------------------------------------------
  // What destroying lines does: counts and order.

  /** How many of the indices 0..n-1 are listed. */
  function Hits(lines: seq<int>, n: nat): nat
  {
    if n == 0 then 0 else Hits(lines, n - 1) + (if n - 1 in lines then 1 else 0)
  }

  lemma {:induction false} HitsAgree(a: seq<int>, b: seq<int>, n: nat)
    requires forall i :: 0 <= i < n ==> (i in a <==> i in b)
    ensures Hits(a, n) == Hits(b, n)
  {
    if n > 0 {
      HitsAgree(a, b, n - 1);
    }
  }

  lemma {:induction false} HitsNone(lines: seq<int>, n: nat)
    requires |lines| == 0
    ensures Hits(lines, n) == 0
  {
    if n > 0 {
      HitsNone(lines, n - 1);
    }
  }

  /** Distinct lines all below n are all hit. */
  lemma {:induction false} HitsAll(lines: seq<int>, n: nat)
    requires Distinct(lines) && InRows(lines, n)
    ensures Hits(lines, n) == |lines|
    decreases n
  {
    if |lines| == 0 {
      HitsNone(lines, n);
    } else {
      assert 0 <= lines[0] < n;
      if n - 1 in lines {
        var rest := RemoveFirst(lines, n - 1);
        forall i | 0 <= i < |rest|
          ensures 0 <= rest[i] < n - 1
        {
          assert rest[i] in rest;
        }
        HitsAll(rest, n - 1);
        HitsAgree(lines, rest, n - 1);
      } else {
        forall i | 0 <= i < |lines|
          ensures 0 <= lines[i] < n - 1
        {
          assert lines[i] in lines;
        }
        HitsAll(lines, n - 1);
      }
    }
  }

  lemma {:induction false} KeepLength<T>(rows: seq<T>, n: nat, lines: seq<int>)
    requires n <= |rows|
    ensures |KeepRange(rows, 0, n, lines)| == n - Hits(lines, n)
  {
    if n > 0 {
      KeepLength(rows, n - 1, lines);
    }
  }

  /** The indices 0..n-1 that are not listed, in ascending order. */
  function Survivors(n: nat, lines: seq<int>): (r: seq<int>)
    ensures forall i :: 0 <= i < |r| ==> 0 <= r[i] < n
  {
    if n == 0 then [] else Survivors(n - 1, lines) + (if n - 1 in lines then [] else [n - 1])
  }

  /** The survivors are exactly the unlisted indices below n. */
  lemma {:induction false} SurvivorsMembers(n: nat, lines: seq<int>)
    ensures forall i :: i in Survivors(n, lines) <==> 0 <= i < n && i !in lines
  {
    if n > 0 {
      SurvivorsMembers(n - 1, lines);
    }
  }

  /** The surviving indices come in ascending order. */
  lemma {:induction false} SurvivorsAscending(n: nat, lines: seq<int>)
    ensures forall i, j :: 0 <= i < j < |Survivors(n, lines)| ==> Survivors(n, lines)[i] < Survivors(n, lines)[j]
  {
    if n > 0 {
      SurvivorsAscending(n - 1, lines);
      var r0, r := Survivors(n - 1, lines), Survivors(n, lines);
      forall i, j | 0 <= i < j < |r|
        ensures r[i] < r[j]
      {
        assert r[i] == r0[i] && r0[i] < n - 1;
        if j < |r0| {
          assert r[j] == r0[j] && r0[i] < r0[j];
        } else {
          assert r[j] == n - 1;
        }
      }
    }
  }

  lemma {:induction false} KeptAreSurvivors<T>(rows: seq<T>, n: nat, lines: seq<int>)
    requires n <= |rows|
    ensures |KeepRange(rows, 0, n, lines)| == |Survivors(n, lines)|
    ensures forall k :: 0 <= k < |Survivors(n, lines)| ==> KeepRange(rows, 0, n, lines)[k] == rows[Survivors(n, lines)[k]]
  {
    if n > 0 {
      KeptAreSurvivors(rows, n - 1, lines);
      var s0, k0 := Survivors(n - 1, lines), KeepRange(rows, 0, n - 1, lines);
      var s1, k1 := Survivors(n, lines), KeepRange(rows, 0, n, lines);
      assert s1 == s0 + (if n - 1 in lines then [] else [n - 1]);
      assert k1 == k0 + (if n - 1 in lines then [] else [rows[n - 1]]);
      forall k | 0 <= k < |s1|
        ensures k1[k] == rows[s1[k]]
      {
        if k < |s0| {
          assert s1[k] == s0[k] && k1[k] == k0[k];
        } else {
          assert s1[k] == n - 1 && k1[k] == rows[n - 1];
        }
      }
    }
  }

  /**
   * With distinct listed lines: the top |lines| rows end empty, and below them come
   * exactly the unlisted rows in their original order.
   */
  lemma ClearedShape<T>(rows: seq<T>, lines: seq<int>, blank: T)
    requires Distinct(lines) && InRows(lines, |rows|)
    ensures |lines| <= |rows| && |Cleared(rows, lines, blank)| == |rows|
    ensures forall y :: 0 <= y < |lines| ==> Cleared(rows, lines, blank)[y] == blank
    ensures var s := Survivors(|rows|, lines);
            |s| == |rows| - |lines| &&
            forall k :: 0 <= k < |s| ==> Cleared(rows, lines, blank)[|lines| + k] == rows[s[k]]
  {
    KeepLength(rows, |rows|, lines);
    HitsAll(lines, |rows|);
    KeptAreSurvivors(rows, |rows|, lines);
  }

  /** The number of occupied cells of a row, and of a field. */
  function RowCount(row: Row): nat
  {
    if |row| == 0 then 0 else RowCount(row[..|row| - 1]) + (if row[|row| - 1].Filled? then 1 else 0)
  }

  function Count(rows: seq<Row>): nat
  {
    if |rows| == 0 then 0 else Count(rows[..|rows| - 1]) + RowCount(rows[|rows| - 1])
  }

  lemma {:induction false} FullRowCount(row: Row)
    requires Full(row)
    ensures RowCount(row) == |row|
  {
    if |row| > 0 {
      FullRowCount(row[..|row| - 1]);
    }
  }

  lemma {:induction false} EmptyRowCount(row: Row)
    requires forall x :: 0 <= x < |row| ==> row[x] == Empty
    ensures RowCount(row) == 0
  {
    if |row| > 0 {
      EmptyRowCount(row[..|row| - 1]);
    }
  }

  lemma {:induction false} CountAppend(a: seq<Row>, b: seq<Row>)
    ensures Count(a + b) == Count(a) + Count(b)
    decreases |b|
  {
    if |b| > 0 {
      assert (a + b)[..|a + b| - 1] == a + b[..|b| - 1];
      CountAppend(a, b[..|b| - 1]);
    } else {
      assert a + b == a;
    }
  }

  lemma {:induction false} EmptiesCount(k: nat)
    ensures Count(Padding(k, EmptyRow())) == 0
  {
    if k > 0 {
      assert Padding(k, EmptyRow())[..k - 1] == Padding(k - 1, EmptyRow());
      EmptiesCount(k - 1);
      EmptyRowCount(EmptyRow());
    }
  }

  lemma {:induction false} KeepCount(rows: seq<Row>, n: nat, lines: seq<int>)
    requires n <= |rows| && WellFormed(rows)
    requires forall y :: y in lines && 0 <= y < |rows| ==> Full(rows[y])
    ensures Count(KeepRange(rows, 0, n, lines)) + CubeCountHorizontal * Hits(lines, n) == Count(rows[..n])
  {
    if n > 0 {
      KeepCount(rows, n - 1, lines);
      assert rows[..n][..n - 1] == rows[..n - 1];
      var tail := if n - 1 in lines then [] else [rows[n - 1]];
      CountAppend(KeepRange(rows, 0, n - 1, lines), tail);
      if n - 1 in lines {
        FullRowCount(rows[n - 1]);
      } else {
        assert Count(tail) == RowCount(rows[n - 1]) by {
          assert tail[..0] == [];
        }
      }
    }
  }

  /** Destroying k distinct full lines removes exactly 12 * k occupied cells. */
  lemma DestroyedCount(rows: seq<Row>, lines: seq<int>)
    requires WellFormed(rows) && Distinct(lines) && InRows(lines, |rows|)
    requires forall y :: y in lines ==> Full(rows[y])
    ensures Count(Cleared(rows, lines, EmptyRow())) == Count(rows) - CubeCountHorizontal * |lines|
  {
    KeepCount(rows, |rows|, lines);
    HitsAll(lines, |rows|);
    assert rows[..|rows|] == rows;
    var kept := Kept(rows, lines);
    CountAppend(Padding(|rows| - |kept|, EmptyRow()), kept);
    EmptiesCount(|rows| - |kept|);
  }

  /** Once all full lines are destroyed no full line is left. */
  lemma NoFullLineAfterDestroy(rows: seq<Row>)
    requires WellFormed(rows)
    ensures var after := Cleared(rows, FullLines(rows), EmptyRow());
            |after| == |rows| && forall y :: 0 <= y < |after| ==> !Full(after[y])
  {
    var lines := FullLines(rows);
    FullLinesExact(rows);
    ClearedShape(rows, lines, EmptyRow());
    var after := Cleared(rows, lines, EmptyRow());
    var s := Survivors(|rows|, lines);
    SurvivorsMembers(|rows|, lines);
    forall y | 0 <= y < |after|
      ensures !Full(after[y])
    {
      if y < |lines| {
        assert after[y][0] == Empty;
      } else {
        var k := y - |lines|;
        assert s[k] in s;
        assert after[y] == rows[s[k]];
      }
    }
  }

  /** Destroying the full rows, listed as FullLinesOf says, leaves a field without a full row. */
  lemma ClearingFullLines(rows: seq<Row>, lines: seq<int>)
    requires WellFormed(rows) && FullLinesOf(rows, lines)
    ensures Distinct(lines) && InRows(lines, |rows|)
    ensures FullLinesOf(Cleared(rows, lines, EmptyRow()), [])
  {
    FullLinesOfIsFullLines(rows, lines);
    FullLinesExact(rows);
    NoFullLineAfterDestroy(rows);
  }
}
