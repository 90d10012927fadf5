/**
 * The byte grid (Binmap/Controls/BinList.cs): the record store, the cells
 * that show a window of it, the selection with its anchor, and the keyboard
 * commands that edit the selected records.
 */
module Lists {
  import opened Wrappers
  import opened Numerals
  import opened Bins
  import opened SortedLists
  import opened Flows
  import opened Items
  import opened Texts
  import Scrollbars

  /** `Environment.NewLine` on Windows. */
  const NewLine := "\r\n"

  /** `ScrollStepSize`: records per scroll nudge. */
  const ScrollStepSize := 100

  /** What a cell must hold after a layout for it to show record k of the window at cell c. */
  ghost predicate Shows(v: CellView, b: Bin, k: nat, c: Cell, w: int, h: int, marked: bool) {
    && v.bin == b && v.id == k
    && v.x == c.x && v.y == c.y
    && v.width == w && v.height == h
    && v.selected == marked
  }

  /**
   * The row link of cell k among the first n cells: a row's first cell links
   * to the row's last cell, which lies among the n; any other cell links nowhere.
   */
  ghost predicate Linked(vs: seq<CellView>, ps: seq<BinListItem>, cells: seq<Cell>, k: nat, n: nat)
    requires k < n <= |vs| && n <= |ps| && n <= |cells|
  {
    if RowStart(cells, k) then RowEnd(cells, k) < n && vs[k].lineEnd == ps[RowEnd(cells, k)]
    else vs[k].lineEnd == null
  }

  /**
   * The cells ps, whose fields are vs, show the window: cell k holds record
   * start + k at cells[k], with the record's width, height h and its mark read
   * from the selection, and a row's first cell links to the row's last cell.
   */
  ghost predicate Window(vs: seq<CellView>, ps: seq<BinListItem>, cells: seq<Cell>, bs: seq<Bin>, start: nat,
                         ms: seq<Metric>, h: int, sel: seq<(int, Bin)>)
    requires |vs| == |ps| == |cells| && (|cells| > 0 ==> start + |cells| <= |bs| && start + |cells| <= |ms|)
  {
    && (forall k :: 0 <= k < |cells| ==>
          Shows(vs[k], bs[start + k], k, cells[k], ms[start + k].width, h, ContainsKey(sel, bs[start + k].offset)))
    && (forall k :: 0 <= k < |cells| ==> Linked(vs, ps, cells, k, |cells|))
  }

  /** The fields of each cell of ps. */
  function Views(ps: seq<BinListItem>): (vs: seq<CellView>)
    reads ps
    ensures |vs| == |ps|
  {
    seq(|ps|, k reads ps requires 0 <= k < |ps| => ps[k].View())
  }

  /** Cells whose fields are vs, one by one, have the views vs. */
  lemma ViewsAre(ps: seq<BinListItem>, vs: seq<CellView>)
    requires |ps| == |vs| && forall k :: 0 <= k < |ps| ==> ps[k].View() == vs[k]
    ensures Views(ps) == vs
  {
  }

  /**
   * The first n cells are placed: cell k shows record start + k at cells[k];
   * the first cell of every row that is closed links to the row's last cell;
   * cells from ls on form the open row, which starts a row at ls, and when
   * ls == n the next cell opens one.
   */
  ghost predicate Partial(vs: seq<CellView>, ps: seq<BinListItem>, cells: seq<Cell>, bs: seq<Bin>, start: nat,
                          ms: seq<Metric>, h: int, sel: seq<(int, Bin)>, n: nat, ls: nat)
  {
    && n == |vs| && n <= |cells| && n <= |ps| && (n > 0 ==> start + n <= |bs| && start + n <= |ms|)
    && (forall k {:trigger vs[k]} :: 0 <= k < n ==>
          Shows(vs[k], bs[start + k], k, cells[k], ms[start + k].width, h, ContainsKey(sel, bs[start + k].offset)))
    && (forall k {:trigger vs[k]} :: 0 <= k < n && k != ls ==>
          if RowStart(cells, k) then RowEnd(cells, k) < n && vs[k].lineEnd == ps[RowEnd(cells, k)]
          else vs[k].lineEnd == null)
    && ls <= n
    && (ls < n ==> RowStart(cells, ls) && forall j :: ls < j < n ==> !cells[j].wraps)
  }

  /** Partial placement speaks of the first n cells only: a list that keeps them keeps it. */
  lemma Retarget(vs: seq<CellView>, ps: seq<BinListItem>, ps': seq<BinListItem>, cells: seq<Cell>, bs: seq<Bin>,
                 start: nat, ms: seq<Metric>, h: int, sel: seq<(int, Bin)>, n: nat, ls: nat)
    requires Partial(vs, ps, cells, bs, start, ms, h, sel, n, ls)
    requires n <= |ps'| && forall j :: 0 <= j < n ==> ps'[j] == ps[j]
    ensures Partial(vs, ps', cells, bs, start, ms, h, sel, n, ls)
  {
    forall k | 0 <= k < n && k != ls && RowStart(cells, k)
      ensures RowEnd(cells, k) < n && ps'[RowEnd(cells, k)] == ps[RowEnd(cells, k)]
    {
      assert vs[k].lineEnd == ps[RowEnd(cells, k)];
    }
  }

  /** When cell n wraps, the open row ends at cell n - 1 and its first cell links there. */
  lemma CloseRow(vs: seq<CellView>, ps: seq<BinListItem>, cells: seq<Cell>, bs: seq<Bin>, start: nat,
                 ms: seq<Metric>, h: int, sel: seq<(int, Bin)>, n: nat, ls: nat)
    requires Partial(vs, ps, cells, bs, start, ms, h, sel, n, ls)
    requires ls < n < |cells| && cells[n].wraps
    ensures Partial(vs[ls := vs[ls].(lineEnd := ps[n - 1])], ps, cells, bs, start, ms, h, sel, n, n)
  {
    RowEndAt(cells, ls, n - 1);
    var vs' := vs[ls := vs[ls].(lineEnd := ps[n - 1])];
    forall k | 0 <= k < n
      ensures Shows(vs'[k], bs[start + k], k, cells[k], ms[start + k].width, h, ContainsKey(sel, bs[start + k].offset))
      ensures if RowStart(cells, k) then RowEnd(cells, k) < n && vs'[k].lineEnd == ps[RowEnd(cells, k)]
              else vs'[k].lineEnd == null
    {
      assert Shows(vs[k], bs[start + k], k, cells[k], ms[start + k].width, h, ContainsKey(sel, bs[start + k].offset));
      if k != ls {
        assert vs'[k] == vs[k];
      }
    }
  }

  /** A cell placed at cells[n] that shows record start + n and links nowhere extends the placement. */
  lemma Append(vs: seq<CellView>, ps: seq<BinListItem>, cells: seq<Cell>, bs: seq<Bin>, start: nat,
               ms: seq<Metric>, h: int, sel: seq<(int, Bin)>, n: nat, ls: nat, v: CellView)
    requires Partial(vs, ps, cells, bs, start, ms, h, sel, n, ls)
    requires n < |cells| && n < |ps| && start + n < |bs| && start + n < |ms|
    requires (ls == n) == RowStart(cells, n)
    requires Shows(v, bs[start + n], n, cells[n], ms[start + n].width, h, ContainsKey(sel, bs[start + n].offset))
    requires v.lineEnd == null
    ensures Partial(vs + [v], ps, cells, bs, start, ms, h, sel, n + 1, ls)
  {
    var vs' := vs + [v];
    forall k | 0 <= k < n + 1 && k != ls
      ensures if RowStart(cells, k) then RowEnd(cells, k) < n + 1 && vs'[k].lineEnd == ps[RowEnd(cells, k)]
              else vs'[k].lineEnd == null
    {
      if k < n {
        assert vs'[k] == vs[k];
        if RowStart(cells, k) {
          assert RowEnd(cells, k) < n;
        }
      }
    }
  }

  /**
   * The fields of the n = |vs| placed cells and of cell n, shown as v: when
   * cell n wraps, the open row's first cell, cell ls, links to cell n - 1.
   */
  ghost function Extend(vs: seq<CellView>, ps: seq<BinListItem>, ls: nat, wrap: bool, v: CellView): seq<CellView>
    requires wrap && |vs| > 0 ==> ls < |vs| && |vs| <= |ps|
  {
    (if wrap && |vs| > 0 then vs[ls := vs[ls].(lineEnd := ps[|vs| - 1])] else vs) + [v]
  }

  /**
   * One placing step: cell n, placed at cells[n] and showing record start + n,
   * extends the placement; when it wraps it closes the open row and opens the next.
   */
  lemma Advance(vs: seq<CellView>, ps: seq<BinListItem>, cells: seq<Cell>, bs: seq<Bin>, start: nat,
                ms: seq<Metric>, h: int, sel: seq<(int, Bin)>, n: nat, ls: nat, v: CellView)
    requires Partial(vs, ps, cells, bs, start, ms, h, sel, n, ls)
    requires n < |cells| && n < |ps| && start + n < |bs| && start + n < |ms|
    requires n == 0 ==> ls == 0
    requires n > 0 ==> ls < n
    requires Shows(v, bs[start + n], n, cells[n], ms[start + n].width, h, ContainsKey(sel, bs[start + n].offset))
    requires v.lineEnd == null
    ensures Partial(Extend(vs, ps, ls, cells[n].wraps, v), ps, cells, bs, start, ms, h, sel, n + 1,
                    if cells[n].wraps then n else ls)
  {
    if cells[n].wraps && n > 0 {
      CloseRow(vs, ps, cells, bs, start, ms, h, sel, n, ls);
      Append(vs[ls := vs[ls].(lineEnd := ps[n - 1])], ps, cells, bs, start, ms, h, sel, n, n, v);
    } else {
      Append(vs, ps, cells, bs, start, ms, h, sel, n, ls, v);
    }
  }

  /** The fields of the n = |vs| placed cells once the open row's first cell, cell ls, links to the last one. */
  ghost function Close(vs: seq<CellView>, ps: seq<BinListItem>, ls: nat): (r: seq<CellView>)
    requires |vs| > 0 ==> ls < |vs| <= |ps|
    ensures |r| == |vs|
  {
    if |vs| > 0 then vs[ls := vs[ls].(lineEnd := ps[|vs| - 1])] else vs
  }

  /**
   * The end of a layout: once the open row's first cell links to the last
   * cell, the n placed cells show the window.
   */
  lemma CloseWindow(vs: seq<CellView>, ps: seq<BinListItem>, cells: seq<Cell>, bs: seq<Bin>, start: nat,
                    ms: seq<Metric>, h: int, sel: seq<(int, Bin)>, n: nat, ls: nat)
    requires Partial(vs, ps, cells, bs, start, ms, h, sel, n, ls)
    requires n == |cells| && (n > 0 ==> ls < n)
    ensures Window(Close(vs, ps, ls), ps[..n], cells, bs, start, ms, h, sel)
  {
    if n > 0 {
      RowEndAt(cells, ls, n - 1);
      var vs' := Close(vs, ps, ls);
      forall k | 0 <= k < n
        ensures Shows(vs'[k], bs[start + k], k, cells[k], ms[start + k].width, h, ContainsKey(sel, bs[start + k].offset))
        ensures Linked(vs', ps[..n], cells, k, n)
      {
        assert Shows(vs[k], bs[start + k], k, cells[k], ms[start + k].width, h, ContainsKey(sel, bs[start + k].offset));
        if k == ls {
          assert ps[..n][n - 1] == ps[n - 1];
        } else if RowStart(cells, k) {
          assert ps[..n][RowEnd(cells, k)] == ps[RowEnd(cells, k)];
        }
      }
    }
  }

  /**
   * The link that closes a layout: the open row's first cell, cell ls of ps,
   * gets the last placed cell as its row end. The cells ps[..n] had the
   * fields vs and now have the fields `Close(vs, ps, ls)`.
   */
  method LinkRow(lineStart: BinListItem?, lineEnd: BinListItem?, ghost ps: seq<BinListItem>, ghost vs: seq<CellView>,
                 n: nat, ghost ls: nat)
    requires n == |vs| <= |ps| && forall a, b :: 0 <= a < b < |ps| ==> ps[a] != ps[b]
    requires forall k {:trigger vs[k]} :: 0 <= k < n ==> ps[k].View() == vs[k]
    requires n == 0 ==> lineStart == null
    requires n > 0 ==> ls < n && lineStart == ps[ls] && lineEnd == ps[n - 1]
    modifies lineStart
    ensures forall k :: 0 <= k < n ==> ps[k].View() == Close(vs, ps, ls)[k]
  {
    if lineStart != null {
      lineStart.lineEnd := lineEnd;
    }
    forall k | 0 <= k < n
      ensures ps[k].View() == Close(vs, ps, ls)[k]
    {
      if k != ls {
        assert ps[k] != lineStart;
      }
    }
  }

  /** The width and line-break flag of each record, as the placement sees them. */
  function MetricsOf(bs: seq<Bin>, measure: string -> nat): (ms: seq<Metric>)
    reads bs
    ensures |ms| == |bs|
  {
    seq(|bs|, i reads bs requires 0 <= i < |bs| => Metric(CellWidth(bs[i].format, bs[i].value, measure), bs[i].lineBreak))
  }

  /**
   * The offsets a Shift-click adds to the selection: every offset from the
   * anchor's to the clicked record's, when there is an anchor and the two differ.
   */
  ghost function Span(anchor: Bin?, clicked: Bin, shift: bool): set<int> {
    if Ranges(anchor, clicked, shift)
    then Range(Min(anchor.offset, clicked.offset), Max(anchor.offset, clicked.offset))
    else {}
  }

  /** A click selects a range: Shift is held and there is an anchor on another record. */
  predicate Ranges(anchor: Bin?, clicked: Bin, shift: bool) {
    anchor != null && shift && anchor.offset != clicked.offset
  }

  /** The integers from lo to hi. */
  function Range(lo: int, hi: int): (r: set<int>)
    ensures forall i :: i in r <==> lo <= i <= hi
    decreases hi - lo
  {
    if lo > hi then {} else {lo} + Range(lo + 1, hi)
  }

  lemma RangeStep(lo: int, hi: int)
    requires lo <= hi
    ensures Range(lo, hi) == Range(lo, hi - 1) + {hi}
  {
  }

  /** What Ctrl+C copies of one selected record: a line break first when the record starts a row, then its caption. */
  function CopyLine(b: Bin): string
    reads b
  {
    (if b.lineBreak then NewLine else "") + b.Text()
  }

  /** The status line after a copy of n records. */
  function CopiedMessage(n: nat): string {
    "Copied " + Digits(n, 10) + " byte" + (if n > 1 then "s" else "") + " to clipboard."
  }

  const NothingSelected := "No bytes selected!"

  /** The pieces Ctrl+C joins: one per selected record, in offset order. */
  function Copied(sel: seq<(int, Bin)>): (r: seq<string>)
    reads Values(sel)
    ensures |r| == |sel|
  {
    seq(|sel|, i requires 0 <= i < |sel| reads if 0 <= i < |sel| then {sel[i].1} else {} => CopyLine(sel[i].1))
  }

  /**
   * The clipboard text splits back at the commas into the copied pieces,
   * unless some selected record is the comma itself shown as Ascii.
   */
  lemma ClipboardReadsBack(sel: seq<(int, Bin)>)
    requires sel != []
    requires forall i :: 0 <= i < |sel| ==> !(sel[i].1.format == Ascii && sel[i].1.value == 44)
    ensures Split(Join(Copied(sel), ','), ',') == Copied(sel)
  {
    forall i | 0 <= i < |sel|
      ensures ',' !in Copied(sel)[i]
    {
      CommaInText(sel[i].1.format, sel[i].1.value);
      assert Copied(sel)[i] == (if sel[i].1.lineBreak then NewLine else "") + TextOf(sel[i].1.format, sel[i].1.value);
    }
    SplitJoin(Copied(sel), ',');
  }


  /**
   * A layout that gets past its return for an empty list ends with the
   * scrollbar's `Layout`. On a list of a single record that divides by
   * MaxScrollValue = 0 and throws; the corrected thumb height fills the
   * track once the record's cell is placed.
   */
  lemma OneRecordLayoutThrows(l: BinList, track: int, thumbWidth: int)
    requires |l.bins| == 1 && track >= 0
    ensures Scrollbars.ThumbHeightAsWritten(track, thumbWidth, l.ScrollTarget()) == None
    ensures |l.items| >= 1 ==> Scrollbars.ThumbHeight(track, thumbWidth, l.ScrollTarget()) == Max(thumbWidth, track)
  {
    if |l.items| >= 1 {
      Scrollbars.ThumbFillsTrack(track, thumbWidth, l.ScrollTarget());
    }
  }
  class BinList {
    var bins: seq<Bin>
    var items: seq<BinListItem>
    /** The cells the last layout placed, including the one it may have dropped at the end. */
    ghost var processed: seq<BinListItem>
    var selection: seq<(int, Bin)>
    var lastSelectedBin: Bin?
    var itemSize: Point
    var itemSpace: Point
    var dirty: bool
    var layoutLocked: bool
    var startIndex: nat
    const commentColumnWidth: int
    var width: int
    var height: int
    var scrollbarVisible: bool
    /** The rendered width of a caption, rounded up, in the font `Main.DefaultFont` currently holds. */
    var measure: string -> nat

    /**
     * The selection is a sorted list whose keys are its records' offsets; the
     * anchor, when there is one, is a selected record carrying the anchor
     * mark; no cell is listed twice.
     */
    ghost predicate Valid()
      reads this`selection, this`bins, this`lastSelectedBin, this`items, lastSelectedBin
    {
      && Sorted(selection)
      && (forall e :: e in Entries(selection) ==> e.1 in bins && e.0 == e.1.offset)
      && (lastSelectedBin != null ==> lastSelectedBin in bins && lastSelectedBin.selected && lastSelectedBin.offset in Keys(selection))
      && (forall a, b :: 0 <= a < b < |items| ==> items[a] != items[b])
    }

    /** Record i sits at index i, as `LoadFile` builds the store; range selection relies on it. */
    predicate Indexed()
      reads this`bins
    {
      forall i :: 0 <= i < |bins| ==> bins[i].offset == i
    }

    /** The width and line-break flag of every record, as the placement sees them. */
    function Metrics(): seq<Metric>
      reads this`bins, this`measure, bins
    {
      MetricsOf(bins, measure)
    }

    /** The records, the scroll position, the size and spacing of the cells, the list's size, the lock and the font. */
    ghost function Settings(): (seq<Bin>, nat, Point, Point, int, int, bool, string -> nat)
      reads this`bins, this`startIndex, this`itemSize, this`itemSpace, this`width, this`height, this`layoutLocked, this`measure
    {
      (bins, startIndex, itemSize, itemSpace, width, height, layoutLocked, measure)
    }

    function Box(): Geometry
      reads this`width, this`height, this`itemSize, this`itemSpace
    {
      Geometry(width, height, itemSize, itemSpace, commentColumnWidth)
    }

    /**
     * The placed cells show the window that `Flows.Cells` computes from the
     * scroll position: cell k holds record startIndex + k at the computed
     * place, with its mark read from the selection, and a row's first cell
     * links to the row's last cell.
     */
    ghost predicate WindowShown()
      reads this`bins, this`startIndex, this`width, this`height, this`itemSize, this`itemSpace, this`selection,
            this`processed, this`measure, bins, processed
    {
      var cells := Cells(Metrics(), startIndex, Box());
      && |processed| == |cells|
      && (|cells| > 0 ==> startIndex + |cells| <= |bins|)
      && Window(Views(processed), processed, cells, bins, startIndex, Metrics(), itemSize.y, selection)
    }

    /**
     * A finished layout: the placed cells show the window; the last placed
     * cell is dropped when not every record got one; the scrollbar shows when
     * some record has no cell.
     */
    ghost predicate LaidOut()
      reads this`bins, this`startIndex, this`width, this`height, this`itemSize, this`itemSpace, this`selection,
            this`processed, this`items, this`scrollbarVisible, this`measure, bins, processed
    {
      && WindowShown()
      && |items| == Kept(|processed|, |bins|)
      && items == processed[..|items|]
      && scrollbarVisible == (|items| != |bins|)
    }

    function MaxScrollValue(): int
      reads this
    {
      |bins| - 1
    }

    /**
     * The number of cells a layout from scroll position p keeps, which is
     * what `NumVisible` reads after `OnScroll(p)`: the scrollbar's `visible`.
     */
    function VisibleFrom(p: nat): nat
      reads this`bins, this`measure, this`width, this`height, this`itemSize, this`itemSpace, bins
    {
      Kept(|Cells(Metrics(), p, Box())|, |bins|)
    }

    function NumVisible(): int
      reads this
    {
      |items|
    }

    constructor (x: int, y: int, w: int, h: int, measure: string -> nat)
      ensures bins == [] && items == [] && processed == [] && selection == [] && lastSelectedBin == null
      ensures itemSize == Point(20, 20) && itemSpace == Point(0, 0)
      ensures !dirty && !layoutLocked && startIndex == 0 && commentColumnWidth == 160
      ensures width == w && height == h && scrollbarVisible
      ensures this.measure == measure
      ensures Valid() && Indexed()
    {
      bins, items, processed, selection, lastSelectedBin := [], [], [], [], null;
      itemSize, itemSpace := Point(20, 20), Point(0, 0);
      dirty, layoutLocked, startIndex := false, false, 0;
      commentColumnWidth := 160;
      width, height := w, h;
      scrollbarVisible := true;
      this.measure := measure;
    }

    /**
     * `Layout`: binds the cells to the records from the scroll position on,
     * reusing the existing cells, creating the missing ones and removing the
     * surplus. With no records it removes every cell and leaves `dirty` as it was.
     */
    method Layout()
      requires Valid()
      modifies this, items
      ensures Valid() && LaidOut()
      ensures bins == old(bins) && selection == old(selection) && lastSelectedBin == old(lastSelectedBin)
      ensures itemSize == old(itemSize) && itemSpace == old(itemSpace) && startIndex == old(startIndex)
      ensures width == old(width) && height == old(height) && layoutLocked == old(layoutLocked) && measure == old(measure)
      ensures dirty == (old(dirty) && |bins| == 0)
      ensures |bins| == 0 ==> items == []
      ensures forall j :: 0 <= j < |items| && j < |old(items)| ==> items[j] == old(items)[j]
    {
      scrollbarVisible := |bins| > 0;
      if |bins| == 0 {
        while |items| > 0
          modifies this`items
          decreases |items|
        {
          items := items[1..];
        }
        processed := [];
        return;
      }
      dirty := false;
      LayoutWindow();
    }

    /** What the scrollbar asks of the list: MaxScrollValue, one less than the record count, the cells as NumVisible, and the step. */
    function ScrollTarget(): Scrollbars.Target
      reads this`bins, this`items
    {
      Scrollbars.Target(|bins| - 1, |items|, ScrollStepSize)
    }

    /**
     * The part of `Layout` that runs when there are records: placing, the
     * final link, trimming and the scrollbar's visibility. The scrollbar's own
     * `Layout` that the source calls last is stated by `OneRecordLayoutThrows`.
     */
    method LayoutWindow()
      requires Valid()
      modifies this`items, this`processed, this`scrollbarVisible, items
      ensures Valid() && LaidOut()
      ensures forall j :: 0 <= j < |items| && j < |old(items)| ==> items[j] == old(items)[j]
    {
      var ctr := PlaceWindow();
      if ctr < |bins| && ctr > 0 {
        ctr := ctr - 1;
      }
      TrimItems(ctr);
    }

    /** Removes cells from the end until n are left, then shows the scrollbar when some record has no cell. */
    method TrimItems(n: nat)
      requires n <= |items|
      modifies this`items, this`scrollbarVisible
      ensures items == old(items)[..n] && scrollbarVisible == (n != |bins|)
    {
      ghost var untrimmed := items;
      while |items| > n
        invariant n <= |items| <= |untrimmed| && items == untrimmed[..|items|]
        decreases |items|
      {
        items := items[..|items| - 1];
      }
      scrollbarVisible := n != |bins|;
    }

    /** The cell for window position k: the existing one, or a new cell appended to the list. */
    method TakeCell(k: nat) returns (item: BinListItem)
      requires k <= |items| && forall a, b :: 0 <= a < b < |items| ==> items[a] != items[b]
      modifies this`items
      ensures forall a, b :: 0 <= a < b < |items| ==> items[a] != items[b]
      ensures k < old(|items|) ==> items == old(items) && item == items[k]
      ensures k == old(|items|) ==> items == old(items) + [item] && fresh(item) && item.commentColumnWidth == commentColumnWidth
    {
      if k >= |items| {
        item := new BinListItem();
        item.commentColumnWidth := commentColumnWidth;
        items := items + [item];
      } else {
        item := items[k];
      }
    }

    /**
     * The body of the placing loop for `item`, the cell at window position k,
     * with the row cursor at (x, y): bind the cell to bin, and when it wraps
     * link the open row's first cell to the row's last cell and move the
     * cursor to the next row; then place the cell and advance the cursor.
     * The cell lands where `Flows.Next` puts a record of metric m. The cells
     * ps[..k] had the fields vs; afterwards ps[..k + 1] have the fields vs'.
     */
    method PlaceCell(item: BinListItem, bin: Bin, k: nat, x: int, y: int, lineStart: BinListItem?, lineEnd: BinListItem?,
                     ghost m: Metric, ghost g: Geometry, ghost ps: seq<BinListItem>, ghost vs: seq<CellView>, ghost ls: nat)
      returns (wrap: bool, x': int, y': int, lineStart': BinListItem, lineEnd': BinListItem, ghost vs': seq<CellView>)
      requires m == Metric(CellWidth(bin.format, bin.value, measure), bin.lineBreak) && g == Box()
      requires k == |vs| < |ps| && ps[k] == item && forall a, b :: 0 <= a < b < |ps| ==> ps[a] != ps[b]
      requires k == 0 ==> lineStart == null && lineEnd == null && ls == 0
      requires k > 0 ==> ls < k && lineStart == ps[ls] && lineEnd == ps[k - 1]
      requires forall j {:trigger vs[j]} :: 0 <= j < k ==> ps[j].View() == vs[j]
      modifies item, lineStart
      ensures wrap == Wraps(x, m, g)
      ensures item.View() == CellView(bin, k, Next(x, y, m, g).x, Next(x, y, m, g).y, m.width, g.itemSize.y,
                                      ContainsKey(selection, bin.offset), null)
      ensures vs' == Extend(vs, ps, ls, wrap, item.View())
      ensures forall j {:trigger vs'[j]} :: 0 <= j <= k ==> ps[j].View() == vs'[j]
      ensures lineStart' == ps[if wrap then k else ls] && lineEnd' == item
      ensures lineStart' == item || lineStart' == lineStart
      ensures x' == Next(x, y, m, g).x + m.width + g.itemSpace.x && y' == Next(x, y, m, g).y
    {
      var first := if lineStart == null then item else lineStart;
      item.Bind(bin, k, itemSize.y, ContainsKey(selection, bin.offset), measure);
      var x0, y0 := x, y;
      wrap := x + item.width + itemSpace.x > width - commentColumnWidth || item.bin.lineBreak;
      if wrap {
        first.lineEnd := lineEnd;
        x0 := LeftMargin;
        y0 := y + itemSize.y + itemSpace.y;
        lineStart' := item;
      } else {
        lineStart' := first;
      }
      lineEnd' := item;
      item.MoveTo(x0, y0);
      x' := x0 + item.width + itemSpace.x;
      y' := y0;
      vs' := Extend(vs, ps, ls, wrap, item.View());
      forall j | 0 <= j < k
        ensures ps[j].View() == vs'[j]
      {
        assert ps[j] != item;
      }
    }

    /**
     * The state of the placing loop after ctr cells: the fields it reads are
     * as they were, records start .. i - 1 are placed and cells[ctr..] is what
     * the rest of the placement yields from the cursor (x, y); the cell list
     * extends the one the loop started from and repeats no cell; the placed
     * cells have the fields views; lineStart and lineEnd are the first and the
     * last cell of the open row.
     */
    ghost predicate Placing(items0: seq<BinListItem>, ms: seq<Metric>, g: Geometry, bs: seq<Bin>, start: nat, h: int,
                            sel: seq<(int, Bin)>, cells: seq<Cell>, views: seq<CellView>, ctr: nat, ls: nat,
                            i: nat, x: int, y: int, lineStart: BinListItem?, lineEnd: BinListItem?)
      reads this, bins, items
    {
      && bins == bs && startIndex == start && selection == sel && g == Box() && h == g.itemSize.y
      && i == start + ctr && ctr <= |cells| && (ctr > 0 ==> i <= |bs|) && |ms| == |bs|
      && cells[ctr..] == Flow(ms, i, x, y, g)
      && ctr <= |items| && items0 <= items
      && (forall a, b :: 0 <= a < b < |items| ==> items[a] != items[b])
      && Partial(views, items, cells, bs, start, ms, h, sel, ctr, ls)
      && (forall k {:trigger views[k]} :: 0 <= k < ctr ==> items[k].View() == views[k])
      && (ctr == 0 ==> lineStart == null && lineEnd == null && ls == 0)
      && (ctr > 0 ==> ls < ctr && lineStart == items[ls] && lineEnd == items[ctr - 1])
    }

    /** The cell for the next round of the placing loop: the placement so far is kept. */
    method TakeNext(ghost items0: seq<BinListItem>, ghost ms: seq<Metric>, ghost g: Geometry, ghost bs: seq<Bin>,
                    ghost start: nat, ghost h: int, ghost sel: seq<(int, Bin)>, ghost cells: seq<Cell>,
                    ghost views: seq<CellView>, ctr: nat, ghost ls: nat, i: nat, x: int, y: int,
                    lineStart: BinListItem?, lineEnd: BinListItem?)
      returns (item: BinListItem)
      requires Placing(items0, ms, g, bs, start, h, sel, cells, views, ctr, ls, i, x, y, lineStart, lineEnd)
      modifies this`items
      ensures Placing(items0, ms, g, bs, start, h, sel, cells, views, ctr, ls, i, x, y, lineStart, lineEnd)
      ensures ctr < |items| && items[ctr] == item
      ensures ctr < old(|items|) ==> items == old(items)
      ensures ctr == old(|items|) ==> items == old(items) + [item] && fresh(item)
    {
      ghost var before := items;
      item := TakeCell(ctr);
      Retarget(views, before, items, cells, bs, start, ms, h, sel, ctr, ls);
    }

    /** One round of the placing loop: the record at i gets `item`, the cell at window position ctr. */
    method PlaceNext(item: BinListItem, ghost items0: seq<BinListItem>, ghost ms: seq<Metric>, ghost g: Geometry, ghost bs: seq<Bin>,
                     ghost start: nat, ghost h: int, ghost sel: seq<(int, Bin)>, ghost cells: seq<Cell>,
                     ghost views: seq<CellView>, ctr: nat, ghost ls: nat, i: nat, x: int, y: int,
                     lineStart: BinListItem?, lineEnd: BinListItem?)
      returns (ghost views': seq<CellView>, ctr': nat, ghost ls': nat, i': nat, x': int, y': int,
               lineStart': BinListItem, lineEnd': BinListItem)
      requires Placing(items0, ms, g, bs, start, h, sel, cells, views, ctr, ls, i, x, y, lineStart, lineEnd)
      requires i < |bins| && y < height - itemSize.y - itemSpace.y
      requires i < |ms| && ms[i] == Metric(CellWidth(bins[i].format, bins[i].value, measure), bins[i].lineBreak)
      requires ctr < |items| && items[ctr] == item
      modifies item, lineStart
      ensures ctr' == ctr + 1 && i' == i + 1
      ensures Placing(items0, ms, g, bs, start, h, sel, cells, views', ctr', ls', i', x', y', lineStart', lineEnd')
      ensures lineStart' == item || lineStart' == lineStart
    {
      var bin := bins[i];
      FlowStep(cells, ctr, ms, i, x, y, g);
      var wrap;
      wrap, x', y', lineStart', lineEnd', views' := PlaceCell(item, bin, ctr, x, y, lineStart, lineEnd, ms[i], g, items, views, ls);
      assert x' == cells[ctr].x + ms[i].width + g.itemSpace.x && y' == cells[ctr].y;
      Advance(views, items, cells, bs, start, ms, h, sel, ctr, ls, item.View());
      ls' := if wrap then ctr else ls;
      ctr', i' := ctr + 1, i + 1;
    }

    /**
     * After the placing loop: the open row's first cell links to the last
     * placed cell, and the placed cells show the window.
     */
    method CloseLayout(ghost ms: seq<Metric>, ghost g: Geometry, ghost bs: seq<Bin>, ghost start: nat, ghost h: int,
                       ghost sel: seq<(int, Bin)>, ghost cells: seq<Cell>, ghost views: seq<CellView>, ctr: nat, ghost ls: nat,
                       lineStart: BinListItem?, lineEnd: BinListItem?)
      requires bins == bs && startIndex == start && selection == sel && g == Box() && h == g.itemSize.y && Metrics() == ms
      requires cells == Cells(ms, start, g) && ctr == |cells| == |views| <= |items|
      requires ctr > 0 ==> ls < ctr
      requires forall a, b :: 0 <= a < b < |items| ==> items[a] != items[b]
      requires forall k {:trigger views[k]} :: 0 <= k < ctr ==> items[k].View() == views[k]
      requires ctr == 0 ==> lineStart == null
      requires ctr > 0 ==> lineStart == items[ls] && lineEnd == items[ctr - 1]
      requires Partial(views, items, cells, bs, start, ms, h, sel, ctr, ls)
      modifies lineStart, this`processed
      ensures ctr <= |items| && processed == items[..ctr] && WindowShown()
    {
      CloseWindow(views, items, cells, bs, start, ms, h, sel, ctr, ls);
      LinkRow(lineStart, lineEnd, items, views, ctr, ls);
      processed := items[..ctr];
      ViewsAre(processed, Close(views, items, ls));
      WindowFrom(ms, cells, Close(views, items, ls));
    }

    /** Placed cells with the fields vs that show the window of the present scroll position. */
    lemma WindowFrom(ms: seq<Metric>, cells: seq<Cell>, vs: seq<CellView>)
      requires ms == MetricsOf(bins, measure) && cells == Cells(ms, startIndex, Box())
      requires |processed| == |cells| == |vs| && (|cells| > 0 ==> startIndex + |cells| <= |bins|)
      requires Views(processed) == vs && Window(vs, processed, cells, bins, startIndex, ms, itemSize.y, selection)
      ensures WindowShown()
    {
    }

    /**
     * The placing loop of `Layout`: it binds and places one cell per record
     * while records remain and the row cursor is above the limit, and links
     * each row's first cell to its last. It returns the number of cells placed.
     */
    method PlaceWindow() returns (ctr: nat)
      requires forall a, b :: 0 <= a < b < |items| ==> items[a] != items[b]
      modifies this`items, this`processed, items
      ensures ctr <= |items| && processed == items[..ctr] && WindowShown()
      ensures forall a, b :: 0 <= a < b < |items| ==> items[a] != items[b]
      ensures old(items) <= items
    {
      ghost var ms, g := Metrics(), Box();
      ghost var bs, start, h, sel := bins, startIndex, itemSize.y, selection;
      ghost var cells := Cells(ms, start, g);
      ghost var items0 := items;
      ghost var views: seq<CellView> := [];
      var x, y := LeftMargin, TopMargin;
      ctr := 0;
      var lineStart: BinListItem? := null;
      var lineEnd: BinListItem? := null;
      ghost var ls: nat := 0;
      var i: nat := startIndex;
      while i < |bins| && y < height - itemSize.y - itemSpace.y
        invariant Placing(items0, ms, g, bs, start, h, sel, cells, views, ctr, ls, i, x, y, lineStart, lineEnd)
        invariant |items| == |items0| || |items| == ctr
        invariant lineStart != null ==> lineStart in items0 || fresh(lineStart)
      {
        assert Metrics() == ms;
        var item := TakeNext(items0, ms, g, bs, start, h, sel, cells, views, ctr, ls, i, x, y, lineStart, lineEnd);
        views, ctr, ls, i, x, y, lineStart, lineEnd :=
          PlaceNext(item, items0, ms, g, bs, start, h, sel, cells, views, ctr, ls, i, x, y, lineStart, lineEnd);
      }
      FlowDone(cells, ctr, ms, i, x, y, g);
      assert Metrics() == ms;
      CloseLayout(ms, g, bs, start, h, sel, cells, views, ctr, ls, lineStart, lineEnd);
    }

    /**
     * The cells are bound to consecutive records from the scroll position on,
     * as many as a layout of the current records keeps. A layout leaves the
     * list so, and a mouse-down on a cell, which flips only its mark, keeps it so.
     */
    ghost predicate Grid()
      reads this`bins, this`startIndex, this`width, this`height, this`itemSize, this`itemSpace, this`items, this`measure, bins, items`bin
    {
      && |items| == Kept(|Cells(Metrics(), startIndex, Box())|, |bins|)
      && (|items| > 0 ==> startIndex + |items| <= |bins|)
      && (forall k :: 0 <= k < |items| ==> items[k].bin == bins[startIndex + k])
    }

    /**
     * After a layout, cell k shows record startIndex + k: it is numbered k,
     * sits where the placement puts it, has the record's width and the row
     * height, and is marked exactly when the record's offset is selected.
     */
    lemma ShownCell(k: nat)
      requires LaidOut() && k < |items|
      ensures startIndex + k < |bins|
      ensures items[k].bin == bins[startIndex + k] && items[k].id == k
      ensures items[k].selected == ContainsKey(selection, bins[startIndex + k].offset)
      ensures items[k].x == Cells(Metrics(), startIndex, Box())[k].x && items[k].y == Cells(Metrics(), startIndex, Box())[k].y
      ensures items[k].width == CellWidth(bins[startIndex + k].format, bins[startIndex + k].value, measure)
      ensures items[k].height == itemSize.y
    {
      var cells := Cells(Metrics(), startIndex, Box());
      assert items[k] == processed[k];
      assert Views(processed)[k] == processed[k].View();
      assert Shows(Views(processed)[k], bins[startIndex + k], k, cells[k], Metrics()[startIndex + k].width, itemSize.y,
                   ContainsKey(selection, bins[startIndex + k].offset));
    }

    /** Every placed cell is as wide as its record's caption in the current font. */
    ghost predicate Measured()
      reads this`items, this`bins, this`startIndex, this`measure, items, bins
    {
      forall k :: 0 <= k < |items| && startIndex + k < |bins| ==>
        items[k].width == CellWidth(bins[startIndex + k].format, bins[startIndex + k].value, measure)
    }

    /** A layout measures every cell it keeps in the current font. */
    lemma LaidOutMeasured()
      requires LaidOut()
      ensures Measured()
    {
      forall k | 0 <= k < |items| && startIndex + k < |bins|
        ensures items[k].width == CellWidth(bins[startIndex + k].format, bins[startIndex + k].value, measure)
      {
        ShownCell(k);
      }
    }

    /** A layout leaves the cells bound to the records they show. */
    lemma LaidOutGrid()
      requires LaidOut()
      ensures Grid()
    {
      if |items| > 0 {
        ShownCell(|items| - 1);
      }
      forall k | 0 <= k < |items|
        ensures items[k].bin == bins[startIndex + k]
      {
        ShownCell(k);
      }
    }

    /** At most the records from the scroll position on have a cell. */
    lemma VisibleBound()
      requires LaidOut() && startIndex <= |bins|
      ensures NumVisible() <= |bins| - startIndex
    {
      KeptCellsFit(Metrics(), startIndex, Box());
    }

    /**
     * When some records got no cell, the layout dropped its last placed cell
     * and every kept cell lies above the height limit.
     */
    lemma TrimmedCellsFit()
      requires LaidOut()
      ensures 0 < |processed| < |bins| ==>
        && |items| == |processed| - 1
        && forall k :: 0 <= k < |items| ==> items[k].y < height - itemSize.y - itemSpace.y
    {
      if 0 < |processed| < |bins| {
        KeptCellsFit(Metrics(), startIndex, Box());
        forall k | 0 <= k < |items|
          ensures items[k].y < height - itemSize.y - itemSpace.y
        {
          ShownCell(k);
        }
      }
    }

    /** `deselectAll`: the anchor loses its mark and the selection empties. */
    method DeselectAll()
      requires forall a, b :: 0 <= a < b < |items| ==> items[a] != items[b]
      modifies this`lastSelectedBin, this`selection, lastSelectedBin
      ensures Valid() && selection == [] && lastSelectedBin == null
      ensures old(lastSelectedBin) != null ==> !old(lastSelectedBin).selected
    {
      if lastSelectedBin != null {
        lastSelectedBin.selected := false;
      }
      lastSelectedBin := null;
      selection := [];
    }

    /** The range loop of a Shift-click: records lo .. hi are added to the selection unless they are in it. */
    method SelectRange(lo: nat, hi: nat)
      requires lo <= hi < |bins| && Valid() && Indexed()
      modifies this`selection
      ensures Valid()
      ensures Keys(selection) == old(Keys(selection)) + Range(lo, hi)
    {
      var i := lo;
      while i <= hi
        invariant lo <= i <= hi + 1 && Valid()
        invariant Keys(selection) == old(Keys(selection)) + Range(lo, i - 1)
      {
        var b := bins[i];
        ghost var keys := Keys(selection);
        ContainsKeyCorrect(selection, b.offset);
        if !ContainsKey(selection, b.offset) {
          AddCorrect(selection, b.offset, b);
          selection := Add(selection, b.offset, b);
        }
        assert Keys(selection) == keys + {i};
        RangeStep(lo, i);
        i := i + 1;
      }
    }

    /** A layout that keeps the records and the placement keeps cell k, bound to its record and marked from the selection. */
    method Relayout(ghost k: nat)
      requires Valid() && Grid() && k < |items|
      modifies this, items
      ensures Valid() && !dirty
      ensures bins == old(bins) && selection == old(selection) && lastSelectedBin == old(lastSelectedBin)
      ensures Settings() == old(Settings())
      ensures k < |items| && items[k] == old(items[k]) && startIndex + k < |bins|
      ensures items[k].bin == bins[startIndex + k] && items[k].selected == ContainsKey(selection, bins[startIndex + k].offset)
      ensures LaidOut()
    {
      ghost var m0, n := Metrics(), |items|;
      Layout();
      assert Metrics() == m0;
      assert |items| == n;
      ShownCell(k);
    }

    /** Selecting records lo .. hi and laying out again marks cell k when its record is among them. */
    method SelectAndShow(ghost k: nat, lo: nat, hi: nat)
      requires Valid() && Indexed() && Grid() && k < |items|
      requires lo <= startIndex + k <= hi < |bins|
      modifies this, items
      ensures Valid() && Indexed() && !dirty
      ensures bins == old(bins) && lastSelectedBin == old(lastSelectedBin) && Settings() == old(Settings())
      ensures startIndex == old(startIndex) && k < |items| && items[k] == old(items[k])
      ensures items[k].bin == bins[startIndex + k] && items[k].selected
      ensures Keys(selection) == old(Keys(selection)) + Range(lo, hi)
      ensures LaidOut() && Grid()
    {
      ghost var o := bins[startIndex + k].offset;
      assert o == startIndex + k && o in Range(lo, hi);
      SelectRange(lo, hi);
      assert o in Keys(selection);
      ContainsKeyCorrect(selection, o);
      ghost var sel := selection;
      assert ContainsKey(sel, o);
      Relayout(k);
      assert selection == sel && bins[startIndex + k].offset == o;
      LaidOutGrid();
    }

    /**
     * The first part of `itemClick`: a Shift-click with an anchor on another
     * record adds every record between the two to the selection and lays out
     * again, which leaves the clicked cell marked; any other click changes nothing.
     */
    method SelectSpan(item: BinListItem, ghost k: nat, shift: bool) returns (ranged: bool)
      requires Valid() && Indexed() && Grid() && k < |items| && items[k] == item
      modifies this, items
      ensures Valid() && Indexed()
      ensures bins == old(bins) && lastSelectedBin == old(lastSelectedBin) && Settings() == old(Settings())
      ensures item.bin == old(item.bin) && startIndex == old(startIndex)
      ensures item.bin == bins[startIndex + k]
      ensures ranged == Ranges(lastSelectedBin, item.bin, shift)
      ensures !ranged ==>
        items == old(items) && selection == old(selection) && dirty == old(dirty) && item.selected == old(item.selected)
      ensures ranged ==>
        && item.selected && !dirty && LaidOut()
        && Keys(selection) == old(Keys(selection)) + Span(lastSelectedBin, item.bin, shift)
      ensures Grid()
      ensures forall b :: b in bins ==> b.format == old(b.format) && b.lineBreak == old(b.lineBreak) && b.comment == old(b.comment)
    {
      ranged := false;
      if lastSelectedBin != null && shift {
        var lo := Min(lastSelectedBin.offset, item.bin.offset);
        var hi := Max(lastSelectedBin.offset, item.bin.offset);
        if hi - lo > 0 {
          ExtendToAnchor(item, k, lo, hi);
          ranged := true;
        }
      }
    }

    /** The range branch of `SelectSpan`: the records between the anchor and the clicked one join the selection. */
    method ExtendToAnchor(item: BinListItem, ghost k: nat, lo: nat, hi: nat)
      requires Valid() && Indexed() && Grid() && k < |items| && items[k] == item && lastSelectedBin != null
      requires lo == Min(lastSelectedBin.offset, item.bin.offset) && hi == Max(lastSelectedBin.offset, item.bin.offset) && lo < hi
      modifies this, items
      ensures Valid() && Indexed() && Grid() && LaidOut() && !dirty && item.selected
      ensures bins == old(bins) && lastSelectedBin == old(lastSelectedBin) && Settings() == old(Settings())
      ensures item.bin == old(item.bin) && startIndex == old(startIndex) && item.bin == bins[startIndex + k]
      ensures Keys(selection) == old(Keys(selection)) + Span(lastSelectedBin, bins[startIndex + k], true)
    {
      ghost var b := item.bin;
      assert b == bins[startIndex + k];
      assert Span(lastSelectedBin, b, true) == Range(lo, hi);
      SelectAndShow(k, lo, hi);
      assert item.bin == b;
    }

    /**
     * The second part of `itemClick`: the anchor loses its mark; a marked cell
     * makes its record the anchor and adds it to the selection, an unmarked one
     * removes its record and leaves no anchor.
     */
    method ApplyMark(b: Bin, marked: bool)
      requires Valid() && b in bins
      modifies this`selection, this`lastSelectedBin, lastSelectedBin, b
      ensures Valid()
      ensures marked ==> lastSelectedBin == b && b.selected && Keys(selection) == old(Keys(selection)) + {b.offset}
      ensures !marked ==> lastSelectedBin == null && Keys(selection) == old(Keys(selection)) - {b.offset}
      ensures old(lastSelectedBin) != null && old(lastSelectedBin) != lastSelectedBin ==> !old(lastSelectedBin).selected
      ensures forall c :: c in bins ==> c.format == old(c.format) && c.lineBreak == old(c.lineBreak) && c.comment == old(c.comment)
      ensures marked && ContainsKey(old(selection), b.offset) ==> selection == old(selection)
      ensures old(Grid()) ==> Grid()
      ensures old(LaidOut()) && marked && ContainsKey(old(selection), b.offset) ==> LaidOut()
    {
      Remark(b, marked);
      Anchor(b, marked);
    }

    /**
     * The writes of `itemClick` to the list: a marked cell makes its record the
     * anchor and adds it to the selection, an unmarked one removes its record
     * and leaves no anchor.
     */
    method Anchor(b: Bin, marked: bool)
      requires Sorted(selection) && forall e :: e in Entries(selection) ==> e.1 in bins && e.0 == e.1.offset
      requires forall i, j :: 0 <= i < j < |items| ==> items[i] != items[j]
      requires b in bins && (marked ==> b.selected)
      modifies this`selection, this`lastSelectedBin
      ensures Valid()
      ensures marked ==> lastSelectedBin == b && Keys(selection) == old(Keys(selection)) + {b.offset}
      ensures !marked ==> lastSelectedBin == null && Keys(selection) == old(Keys(selection)) - {b.offset}
      ensures marked && ContainsKey(old(selection), b.offset) ==> selection == old(selection)
    {
      ContainsKeyCorrect(selection, b.offset);
      if marked {
        lastSelectedBin := b;
        if !ContainsKey(selection, b.offset) {
          AddCorrect(selection, b.offset, b);
          selection := Add(selection, b.offset, b);
        }
      } else {
        RemoveCorrect(selection, b.offset);
        if ContainsKey(selection, b.offset) {
          selection := Remove(selection, b.offset);
        }
        lastSelectedBin := null;
      }
    }

    /**
     * The writes of `itemClick` to the records: the anchor loses its mark, then
     * a marked cell marks its record. Only marks change, so the layout stays.
     */
    method Remark(b: Bin, marked: bool)
      modifies lastSelectedBin, b
      ensures marked ==> b.selected
      ensures old(lastSelectedBin) != null && (old(lastSelectedBin) != b || !marked) ==> !old(lastSelectedBin).selected
      ensures forall c :: c in bins ==> c.format == old(c.format) && c.lineBreak == old(c.lineBreak) && c.comment == old(c.comment)
      ensures old(Grid()) ==> Grid()
      ensures old(LaidOut()) ==> LaidOut()
    {
      label Before:
      if lastSelectedBin != null {
        lastSelectedBin.selected := false;
      }
      if marked {
        b.selected := true;
      }
      if old(Grid()) {
        MarksKeepGrid@Before(this);
      }
      if old(LaidOut()) {
        MarksKeepLayout@Before(this);
      }
    }

    /**
     * `itemClick`, run after the cell's mouse-down flipped its mark: the range
     * step of a Shift-click, then the mark step for the clicked record.
     */
    method ItemClick(item: BinListItem, shift: bool)
      requires Valid() && Indexed() && Grid() && item in items
      modifies this, items, lastSelectedBin, item.bin
      ensures Valid() && Indexed()
      ensures bins == old(bins) && Settings() == old(Settings())
      ensures item.bin == old(item.bin)
      ensures item.selected == (Span(old(lastSelectedBin), item.bin, shift) != {} || old(item.selected))
      ensures item.selected ==>
        && lastSelectedBin == item.bin && item.bin.selected
        && Keys(selection) == old(Keys(selection)) + Span(old(lastSelectedBin), item.bin, shift) + {item.bin.offset}
      ensures !item.selected ==> lastSelectedBin == null && Keys(selection) == old(Keys(selection)) - {item.bin.offset}
      ensures old(lastSelectedBin) != null && old(lastSelectedBin) != lastSelectedBin ==> !old(lastSelectedBin).selected
      ensures Span(old(lastSelectedBin), item.bin, shift) == {} ==> items == old(items) && dirty == old(dirty)
      ensures Span(old(lastSelectedBin), item.bin, shift) != {} ==> !dirty
      ensures Span(old(lastSelectedBin), item.bin, shift) == {} || LaidOut()
      ensures forall b :: b in bins ==> b.format == old(b.format) && b.lineBreak == old(b.lineBreak) && b.comment == old(b.comment)
      ensures Grid()
    {
      ghost var k :| 0 <= k < |items| && items[k] == item;
      ghost var b := item.bin;
      var ranged := SelectSpan(item, k, shift);
      assert item.bin == b;
      assert ranged ==> b.offset in Keys(selection);
      ContainsKeyCorrect(selection, b.offset);
      ApplyMark(item.bin, item.selected);
    }

    /** The mouse-down of a cell flips its mark and leaves every cell bound as it was. */
    method Press(item: BinListItem)
      requires Grid() && item in items
      modifies item
      ensures Grid() && item.selected == !old(item.selected) && item.bin == old(item.bin)
    {
      item.MouseDown();
    }

    /**
     * A mouse-down on a cell followed by `itemClick`: the cell ends up marked
     * when the click selected a range or the cell was unmarked before.
     */
    method MouseDownOn(item: BinListItem, shift: bool)
      requires Valid() && Indexed() && Grid() && item in items
      modifies this, items, lastSelectedBin, item.bin
      ensures Valid() && Indexed()
      ensures bins == old(bins) && Settings() == old(Settings())
      ensures item.bin == old(item.bin)
      ensures item.selected == (Span(old(lastSelectedBin), item.bin, shift) != {} || !old(item.selected))
      ensures item.selected ==>
        && lastSelectedBin == item.bin && item.bin.selected
        && Keys(selection) == old(Keys(selection)) + Span(old(lastSelectedBin), item.bin, shift) + {item.bin.offset}
      ensures !item.selected ==> lastSelectedBin == null && Keys(selection) == old(Keys(selection)) - {item.bin.offset}
      ensures Span(old(lastSelectedBin), item.bin, shift) != {} ==> LaidOut()
      ensures forall b :: b in bins ==> b.format == old(b.format) && b.lineBreak == old(b.lineBreak) && b.comment == old(b.comment)
      ensures Grid()
    {
      Press(item);
      ItemClick(item, shift);
    }

    /** The loop of `SetBinFormat`: each selected record takes the format. */
    method Reformat(format: Format)
      modifies Values(selection)
      ensures forall b :: b in bins ==> b.format == (if b in Values(selection) then format else old(b.format))
      ensures forall b :: b in bins ==> b.lineBreak == old(b.lineBreak) && b.comment == old(b.comment)
      ensures forall b :: b in bins ==> b.selected == old(b.selected)
    {
      var i := 0;
      while i < |selection|
        invariant 0 <= i <= |selection|
        invariant forall j :: 0 <= j < i ==> selection[j].1.format == format
        invariant forall b :: b in bins ==> b.lineBreak == old(b.lineBreak) && b.comment == old(b.comment)
        invariant forall b :: b in bins ==> b.selected == old(b.selected)
      {
        selection[i].1.format := format;
        i := i + 1;
      }
    }

    /**
     * `SetBinFormat`: exactly the selected records take the format; with a
     * selection the list lays out again.
     */
    method SetBinFormat(format: Format)
      requires Valid()
      modifies this, items, Values(selection)
      ensures Valid()
      ensures bins == old(bins) && selection == old(selection) && lastSelectedBin == old(lastSelectedBin)
      ensures forall b :: b in bins ==> b.format == (if b in Values(selection) then format else old(b.format))
      ensures forall b :: b in bins ==> b.lineBreak == old(b.lineBreak) && b.comment == old(b.comment)
      ensures selection != [] ==> LaidOut()
      ensures selection == [] ==> items == old(items) && processed == old(processed)
    {
      Reformat(format);
      if |selection| > 0 {
        Layout();
      }
    }

    /** The text Ctrl+C puts on the clipboard, built from one piece per selected record. */
    method CopyText() returns (text: string)
      ensures text == Join(Copied(selection), ',')
    {
      ghost var want := Copied(selection);
      var pieces: seq<string> := [];
      var i := 0;
      while i < |selection|
        invariant 0 <= i <= |selection| && pieces == want[..i]
      {
        assert want[..i + 1] == want[..i] + [CopyLine(selection[i].1)];
        pieces := pieces + [CopyLine(selection[i].1)];
        i := i + 1;
      }
      assert want[..i] == want;
      text := Join(pieces, ',');
    }

    /**
     * `ProcessKey` of the list. Ctrl+C returns the clipboard text and the
     * status message with its duration. With a selection, Enter gives the
     * lowest selected record a line break unless it is the first record, and
     * Backspace removes its line break; a change clears the record's comment
     * and lays out again.
     */
    method ProcessKey(key: TextInputs.Key, ctrl: bool) returns (handled: bool, clipboard: Option<string>, status: Option<(string, int)>)
      requires Valid()
      modifies this, items, if selection != [] then {selection[0].1} else {}
      ensures Valid()
      ensures bins == old(bins) && selection == old(selection) && lastSelectedBin == old(lastSelectedBin)
      ensures key == TextInputs.Letter('C') && ctrl ==>
        && handled && items == old(items) && processed == old(processed)
        && (selection != [] ==> clipboard == Some(Join(Copied(selection), ',')) && status == Some((CopiedMessage(|selection|), 2)))
        && (selection == [] ==> clipboard == None && status == Some((NothingSelected, 1)))
      ensures !(key == TextInputs.Letter('C') && ctrl) ==> clipboard == None && status == None
      ensures !(key == TextInputs.Letter('C') && ctrl) ==>
        handled == (selection != [] && (key == TextInputs.Enter || key == TextInputs.Back))
      ensures !(key == TextInputs.Letter('C') && ctrl) && selection != [] && key == TextInputs.Enter ==>
        var b := selection[0].1;
        && (b.offset > 0 ==> b.lineBreak && b.comment == "" && LaidOut())
        && (b.offset == 0 ==> b.lineBreak == old(b.lineBreak) && b.comment == old(b.comment) && items == old(items))
      ensures !(key == TextInputs.Letter('C') && ctrl) && selection != [] && key == TextInputs.Back ==>
        var b := selection[0].1;
        && (old(b.lineBreak) ==> !b.lineBreak && b.comment == "" && LaidOut())
        && (!old(b.lineBreak) ==> b.comment == old(b.comment) && items == old(items))
      ensures !handled ==> items == old(items) && processed == old(processed)
      ensures selection != [] ==> selection[0].1.format == old(selection[0].1.format)
    {
      clipboard, status := None, None;
      if key == TextInputs.Letter('C') && ctrl {
        if |selection| > 0 {
          var text := CopyText();
          clipboard := Some(text);
          status := Some((CopiedMessage(|selection|), 2));
        } else {
          status := Some((NothingSelected, 1));
        }
        return true, clipboard, status;
      }
      if |selection| == 0 {
        return false, clipboard, status;
      }
      var b := selection[0].1;
      if key == TextInputs.Enter {
        if b.offset > 0 {
          b.lineBreak := true;
          b.comment := "";
          Layout();
        }
        return true, clipboard, status;
      }
      if key == TextInputs.Back {
        if b.lineBreak {
          b.lineBreak := false;
          b.comment := "";
          Layout();
        }
        return true, clipboard, status;
      }
      return false, clipboard, status;
    }

    /** `Update`: a right-button press over the list clears the selection and lays out again. */
    method Update(rightPressedOver: bool)
      requires Valid()
      modifies this, items, lastSelectedBin
      ensures Valid()
      ensures bins == old(bins)
      ensures rightPressedOver ==> selection == [] && lastSelectedBin == null && LaidOut()
      ensures rightPressedOver && old(lastSelectedBin) != null ==> !old(lastSelectedBin).selected
      ensures !rightPressedOver ==> selection == old(selection) && items == old(items) && processed == old(processed)
    {
      if rightPressedOver {
        DeselectAll();
        Layout();
      }
    }

    /** `Resize`: the new size, and a layout unless layouts are locked. */
    method Resize(w: int, h: int)
      requires Valid()
      modifies this, items
      ensures Valid() && width == w && height == h
      ensures bins == old(bins) && selection == old(selection) && layoutLocked == old(layoutLocked)
      ensures itemSize == old(itemSize) && itemSpace == old(itemSpace) && measure == old(measure)
      ensures !layoutLocked ==> LaidOut() && (bins == [] ==> items == [])
      ensures layoutLocked ==> items == old(items) && processed == old(processed)
    {
      width, height := w, h;
      if !layoutLocked {
        Layout();
      }
    }

    /** `OnScroll`: the window starts at the scroll position and is laid out again. */
    method OnScroll(position: nat)
      requires Valid()
      modifies this, items
      ensures Valid() && LaidOut() && startIndex == position
      ensures bins == old(bins) && selection == old(selection) && lastSelectedBin == old(lastSelectedBin)
      ensures layoutLocked == old(layoutLocked) && dirty == (old(dirty) && |bins| == 0)
      ensures itemSize == old(itemSize) && itemSpace == old(itemSpace) && width == old(width) && height == old(height)
      ensures measure == old(measure)
      ensures NumVisible() == VisibleFrom(position) == old(VisibleFrom(position))
    {
      startIndex := position;
      Layout();
    }

    method Lock()
      modifies this`layoutLocked
      ensures layoutLocked
    {
      layoutLocked := true;
    }

    /** `Unlock`: lays out exactly when something changed while the list was locked. */
    method Unlock()
      requires Valid()
      modifies this, items
      ensures Valid() && !layoutLocked
      ensures bins == old(bins) && selection == old(selection) && startIndex == old(startIndex)
      ensures old(dirty) ==> LaidOut() && dirty == (|bins| == 0)
      ensures !old(dirty) ==> !dirty && items == old(items) && processed == old(processed)
    {
      layoutLocked := false;
      if dirty {
        Layout();
      }
    }

    /**
     * `AddItem`: the record is appended and the list is dirty; unless layouts
     * are locked it is laid out at once, which leaves it clean.
     */
    method AddItem(b: Bin)
      requires Valid()
      modifies this, items
      ensures Valid() && bins == old(bins) + [b]
      ensures selection == old(selection) && startIndex == old(startIndex) && layoutLocked == old(layoutLocked)
      ensures old(Indexed()) && b.offset == old(|bins|) ==> Indexed()
      ensures layoutLocked ==> dirty && items == old(items) && processed == old(processed)
      ensures !layoutLocked ==> LaidOut() && !dirty
    {
      bins := bins + [b];
      dirty := true;
      if !layoutLocked {
        Layout();
      }
    }

    /**
     * `Clear`: no records, no selection, and the scrollbar back at 0, which
     * scrolls the list there; with no records the layout removes every cell
     * and the list stays dirty.
     */
    method Clear()
      requires Valid()
      modifies this, items, lastSelectedBin
      ensures Valid() && Indexed() && LaidOut()
      ensures bins == [] && items == [] && selection == [] && lastSelectedBin == null && startIndex == 0 && dirty
      ensures layoutLocked == old(layoutLocked)
      ensures old(lastSelectedBin) != null ==> !old(lastSelectedBin).selected
    {
      bins := [];
      dirty := true;
      DeselectAll();
      OnScroll(0);
    }

    /** The `ItemSize` setter: an equal size changes nothing; otherwise the list is dirty and lays out unless locked. */
    method SetItemSize(size: Point)
      requires Valid()
      modifies this, items
      ensures Valid() && itemSize == size && measure == old(measure)
      ensures bins == old(bins) && selection == old(selection) && layoutLocked == old(layoutLocked)
      ensures itemSpace == old(itemSpace) && width == old(width) && height == old(height)
      ensures size == old(itemSize) ==> dirty == old(dirty) && items == old(items) && processed == old(processed)
      ensures size != old(itemSize) && layoutLocked ==> dirty && items == old(items) && processed == old(processed)
      ensures size != old(itemSize) && !layoutLocked ==> LaidOut() && dirty == (|bins| == 0)
    {
      if size == itemSize {
        return;
      }
      itemSize := size;
      dirty := true;
      if !layoutLocked {
        Layout();
      }
    }

    /** The `ItemSpace` setter, with the same rules as `ItemSize`. */
    method SetItemSpace(space: Point)
      requires Valid()
      modifies this, items
      ensures Valid() && itemSpace == space && measure == old(measure)
      ensures bins == old(bins) && selection == old(selection) && layoutLocked == old(layoutLocked)
      ensures itemSize == old(itemSize) && width == old(width) && height == old(height)
      ensures space == old(itemSpace) ==> dirty == old(dirty) && items == old(items) && processed == old(processed)
      ensures space != old(itemSpace) && layoutLocked ==> dirty && items == old(items) && processed == old(processed)
      ensures space != old(itemSpace) && !layoutLocked ==> LaidOut() && dirty == (|bins| == 0)
    {
      if space == itemSpace {
        return;
      }
      itemSpace := space;
      dirty := true;
      if !layoutLocked {
        Layout();
      }
    }
  }

  /** The marks and the anchor are not part of a layout: a change to them alone keeps the list laid out. */
  twostate lemma MarksKeepLayout(l: BinList)
    requires old(l.LaidOut())
    requires unchanged(l`bins, l`startIndex, l`width, l`height, l`itemSize, l`itemSpace, l`selection, l`processed,
                       l`items, l`scrollbarVisible, l`measure)
    requires unchanged(l.processed)
    requires forall b :: b in l.bins ==> b.format == old(b.format) && b.lineBreak == old(b.lineBreak)
    ensures l.LaidOut()
  {
    assert l.Metrics() == old(l.Metrics());
  }

  /** Likewise the binding of the cells to the records. */
  twostate lemma MarksKeepGrid(l: BinList)
    requires old(l.Grid())
    requires unchanged(l`bins, l`startIndex, l`width, l`height, l`itemSize, l`itemSpace, l`items, l`measure)
    requires unchanged(l.items)
    requires forall b :: b in l.bins ==> b.format == old(b.format) && b.lineBreak == old(b.lineBreak)
    ensures l.Grid()
  {
    assert l.Metrics() == old(l.Metrics());
    assert l.Box() == old(l.Box());
    forall k | 0 <= k < |l.items|
      ensures l.items[k].bin == l.bins[l.startIndex + k]
    {
      assert old(l.items[k].bin == l.bins[l.startIndex + k]);
      assert l.items[k] in l.items;
    }
  }

  /** A layout depends on the records, the placement settings, the selection and the placed cells only. */
  twostate lemma LaidOutKept(l: BinList)
    requires old(l.LaidOut())
    requires unchanged(l`bins, l`startIndex, l`width, l`height, l`itemSize, l`itemSpace, l`selection, l`processed,
                       l`items, l`scrollbarVisible, l`measure)
    requires unchanged(l.bins) && unchanged(l.processed)
    ensures l.LaidOut()
  {
  }
}
