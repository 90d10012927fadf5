/**
 * The row-wrapping placement that `BinList.Layout` performs
 * (Binmap/Controls/BinList.cs), stated as a pure function over the widths
 * and line-break flags of the records. Cells are placed from the scroll
 * position onwards, left to right from x = 100, and a record starts a new
 * row when it carries a line break or its cell would reach into the
 * comment column; placement stops once the row cursor passes the height
 * limit.
 */
module Flows {

  datatype Point = Point(x: int, y: int)

  /** What the placement needs of one record: its cell width and its line-break flag. */
  datatype Metric = Metric(width: int, lineBreak: bool)

  /** The list's width and height, the cell size and spacing, and the comment column's width. */
  datatype Geometry = Geometry(width: int, height: int, itemSize: Point, itemSpace: Point, commentColumnWidth: int)

  /** Where a cell goes, and whether it opened a new row. */
  datatype Cell = Cell(x: int, y: int, wraps: bool)

  const LeftMargin := 100
  const TopMargin := 2

  /** A record is placed only while the row cursor is above this line. */
  function Limit(g: Geometry): int {
    g.height - g.itemSize.y - g.itemSpace.y
  }

  /** Where the comment column begins. */
  function RightEdge(g: Geometry): int {
    g.width - g.commentColumnWidth
  }

  function RowHeight(g: Geometry): int {
    g.itemSize.y + g.itemSpace.y
  }

  /** A cell at cursor x opens a new row. */
  predicate Wraps(x: int, m: Metric, g: Geometry) {
    x + m.width + g.itemSpace.x > RightEdge(g) || m.lineBreak
  }

  /** The cell a record of metric m gets with the row cursor at (x, y). */
  function Next(x: int, y: int, m: Metric, g: Geometry): Cell {
    if Wraps(x, m, g) then Cell(LeftMargin, y + RowHeight(g), true) else Cell(x, y, false)
  }

  /** The cells of records i, i + 1, ... with the row cursor at (x, y). */
  function Flow(ms: seq<Metric>, i: nat, x: int, y: int, g: Geometry): seq<Cell>
    decreases |ms| - i
  {
    if i >= |ms| || y >= Limit(g) then []
    else
      var c := Next(x, y, ms[i], g);
      [c] + Flow(ms, i + 1, c.x + ms[i].width + g.itemSpace.x, c.y, g)
  }

  /**
   * One placement step: when cells[k..] are the cells of records i, ... at
   * cursor (x, y) and record i is placed, cell k is the next cell and the
   * rest follow from the advanced cursor.
   */
  lemma FlowStep(cells: seq<Cell>, k: nat, ms: seq<Metric>, i: nat, x: int, y: int, g: Geometry)
    requires k <= |cells| && cells[k..] == Flow(ms, i, x, y, g)
    requires i < |ms| && y < Limit(g)
    ensures k < |cells| && cells[k] == Next(x, y, ms[i], g)
    ensures cells[k + 1..] == Flow(ms, i + 1, cells[k].x + ms[i].width + g.itemSpace.x, cells[k].y, g)
  {
    var c := Next(x, y, ms[i], g);
    assert cells[k..] == [c] + Flow(ms, i + 1, c.x + ms[i].width + g.itemSpace.x, c.y, g);
    assert cells[k] == cells[k..][0];
    assert cells[k + 1..] == cells[k..][1..];
  }

  /** Placement has ended once records run out or the cursor reaches the limit. */
  lemma FlowDone(cells: seq<Cell>, k: nat, ms: seq<Metric>, i: nat, x: int, y: int, g: Geometry)
    requires k <= |cells| && cells[k..] == Flow(ms, i, x, y, g)
    requires i >= |ms| || y >= Limit(g)
    ensures k == |cells|
  {
  }

  /** The cells of a layout that starts at record `start`. */
  function Cells(ms: seq<Metric>, start: nat, g: Geometry): seq<Cell> {
    Flow(ms, start, LeftMargin, TopMargin, g)
  }

  /**
   * How many of the n placed cells are kept: one is dropped whenever fewer
   * cells than records were placed. The test compares with the number of all
   * records, not with the number that remain after the scroll position.
   */
  function Kept(n: nat, total: nat): nat {
    if 0 < n < total then n - 1 else n
  }

  /** The row cursor's x before cell k: the start value, then just right of cell k - 1. */
  function CursorX(cells: seq<Cell>, ms: seq<Metric>, i: nat, x: int, g: Geometry, k: nat): int
    requires k <= |cells| && i + k <= |ms|
  {
    if k == 0 then x else cells[k - 1].x + ms[i + k - 1].width + g.itemSpace.x
  }

  /** The row cursor's y before cell k. */
  function CursorY(cells: seq<Cell>, y: int, k: nat): int
    requires k <= |cells|
  {
    if k == 0 then y else cells[k - 1].y
  }

  /** Cell k obeys the placement rule at the cursor left by the cells before it. */
  predicate Placed(cells: seq<Cell>, ms: seq<Metric>, i: nat, x: int, y: int, g: Geometry, k: nat)
    requires k < |cells| && i + k < |ms|
  {
    var cx, cy := CursorX(cells, ms, i, x, g, k), CursorY(cells, y, k);
    && cy < Limit(g)
    && cells[k] == Next(cx, cy, ms[i + k], g)
  }

  /**
   * The placement rule, cell by cell: each placed record was reached with the
   * cursor above the limit, opens a row at x = 100 one row lower exactly when
   * it wraps, and otherwise sits at the cursor. Placement covers every record
   * to the end unless the cursor passed the limit.
   */
  lemma {:induction false} FlowRule(ms: seq<Metric>, i: nat, x: int, y: int, g: Geometry)
    requires i <= |ms|
    ensures |Flow(ms, i, x, y, g)| <= |ms| - i
    ensures forall k :: 0 <= k < |Flow(ms, i, x, y, g)| ==> Placed(Flow(ms, i, x, y, g), ms, i, x, y, g, k)
    ensures i + |Flow(ms, i, x, y, g)| < |ms| ==>
      CursorY(Flow(ms, i, x, y, g), y, |Flow(ms, i, x, y, g)|) >= Limit(g)
    decreases |ms| - i
  {
    var cells := Flow(ms, i, x, y, g);
    if i < |ms| && y < Limit(g) {
      var c := cells[0];
      var x', y' := c.x + ms[i].width + g.itemSpace.x, c.y;
      var rest := Flow(ms, i + 1, x', y', g);
      assert cells == [c] + rest;
      FlowRule(ms, i + 1, x', y', g);
      forall k | 0 <= k < |cells|
        ensures Placed(cells, ms, i, x, y, g, k)
      {
        if k > 0 {
          assert Placed(rest, ms, i + 1, x', y', g, k - 1);
          assert cells[k] == rest[k - 1];
          assert CursorX(cells, ms, i, x, g, k) == CursorX(rest, ms, i + 1, x', g, k - 1);
          assert CursorY(cells, y, k) == CursorY(rest, y', k - 1);
        }
      }
      if i + |cells| < |ms| {
        assert CursorY(cells, y, |cells|) == CursorY(rest, y', |rest|);
      }
    }
  }

  /** A record with a line break always opens a new row at the left margin. */
  lemma LineBreakOpensRow(ms: seq<Metric>, start: nat, g: Geometry, k: nat)
    requires start + k < |ms| && k < |Cells(ms, start, g)|
    requires ms[start + k].lineBreak
    ensures Cells(ms, start, g)[k].wraps && Cells(ms, start, g)[k].x == LeftMargin
  {
    FlowRule(ms, start, LeftMargin, TopMargin, g);
    assert Placed(Cells(ms, start, g), ms, start, LeftMargin, TopMargin, g, k);
  }

  /**
   * Truncation: when fewer cells than records were placed, the last placed
   * cell is dropped and every kept cell lies above the height limit. At most
   * the records from the scroll position on are shown.
   */
  lemma KeptCellsFit(ms: seq<Metric>, start: nat, g: Geometry)
    requires start <= |ms|
    ensures Kept(|Cells(ms, start, g)|, |ms|) <= |ms| - start
    ensures 0 < |Cells(ms, start, g)| < |ms| ==>
      && Kept(|Cells(ms, start, g)|, |ms|) == |Cells(ms, start, g)| - 1
      && forall k :: 0 <= k < Kept(|Cells(ms, start, g)|, |ms|) ==> Cells(ms, start, g)[k].y < Limit(g)
  {
    var cells := Cells(ms, start, g);
    FlowRule(ms, start, LeftMargin, TopMargin, g);
    if 0 < |cells| < |ms| {
      forall k | 0 <= k < |cells| - 1
        ensures cells[k].y < Limit(g)
      {
        assert Placed(cells, ms, start, LeftMargin, TopMargin, g, k + 1);
      }
    }
  }

  /**
   * The last record is never shown once the list is scrolled; from the top it
   * is shown exactly when every record received a cell.
   */
  lemma LastRecordShown(ms: seq<Metric>, start: nat, g: Geometry)
    requires start < |ms|
    ensures start > 0 ==> start + Kept(|Cells(ms, start, g)|, |ms|) < |ms|
    ensures start == 0 ==> (Kept(|Cells(ms, start, g)|, |ms|) == |ms| <==> |Cells(ms, start, g)| == |ms|)
  {
    FlowRule(ms, start, LeftMargin, TopMargin, g);
  }

  /**
   * The last index of the row that cell k belongs to, scanning right while the
   * following cells do not wrap.
   */
  function RowEnd(cells: seq<Cell>, k: nat): (e: nat)
    requires k < |cells|
    ensures k <= e < |cells|
    decreases |cells| - k
  {
    if k + 1 < |cells| && !cells[k + 1].wraps then RowEnd(cells, k + 1) else k
  }

  /** A cell opens a row when it is the first cell or it wrapped. */
  predicate RowStart(cells: seq<Cell>, k: nat)
    requires k < |cells|
  {
    k == 0 || cells[k].wraps
  }

  /** A row ends where the next row starts, or at the last cell. */
  lemma {:induction false} RowEndAt(cells: seq<Cell>, k: nat, e: nat)
    requires k <= e < |cells|
    requires forall j :: k < j <= e ==> !cells[j].wraps
    requires e + 1 == |cells| || cells[e + 1].wraps
    ensures RowEnd(cells, k) == e
    decreases e - k
  {
    if k < e {
      RowEndAt(cells, k + 1, e);
    }
  }

  /** A row's cells lie on one line: from its start to its end nothing wraps and y is constant. */
  lemma {:induction false} RowIsLevel(ms: seq<Metric>, start: nat, g: Geometry, k: nat, j: nat)
    requires start <= |ms|
    requires k < |Cells(ms, start, g)| && k <= j <= RowEnd(Cells(ms, start, g), k)
    ensures Cells(ms, start, g)[j].y == Cells(ms, start, g)[k].y
    ensures k < j ==> !Cells(ms, start, g)[j].wraps
    decreases j - k
  {
    var cells := Cells(ms, start, g);
    if k < j {
      assert k + 1 < |cells| && !cells[k + 1].wraps;
      RowIsLevel(ms, start, g, k + 1, j);
      FlowRule(ms, start, LeftMargin, TopMargin, g);
      assert Placed(cells, ms, start, LeftMargin, TopMargin, g, k + 1);
    }
  }
}
