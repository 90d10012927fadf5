/**
 * One cell of the byte grid (Binmap/Controls/BinListItem.cs): it shows the
 * record it is bound to, sizes itself from a template caption, toggles its
 * selection mark on a click, and, on the first cell of a row, shows the row's
 * address range and the record's comment field.
 */
module Items {
  import opened Numerals
  import opened Bins
  import TextInputs

  /**
   * The caption whose rendered width sizes a cell: a widest-case sample for the
   * numeric formats, the caption itself for Ascii and the unnamed formats.
   */
  function Template(f: Format, v: Byte): string {
    match f
    case Hex => "88"
    case Decimal => "888"
    case Binary => "00000000"
    case NibblesDecimal => "00 00"
    case _ => TextOf(f, v)
  }

  /**
   * The cell width: the rendered width of the template, rounded up, plus 8.
   * `measure` stands for the font's measuring call followed by `Math.Ceiling`.
   */
  function CellWidth(f: Format, v: Byte, measure: string -> nat): int {
    measure(Template(f, v)) + 8
  }

  /** Outside the Ascii format a cell's width does not depend on the byte it shows. */
  lemma WidthIgnoresValue(f: Format, v: Byte, w: Byte, measure: string -> nat)
    requires f != Ascii
    ensures CellWidth(f, v, measure) == CellWidth(f, w, measure)
  {
  }

  /**
   * The template is never shorter than a caption it stands for: it has the
   * exact length of every Hex and Binary caption, and at least the length of
   * every Decimal and nibble caption; for the other formats it is the caption.
   */
  lemma TemplateCoversCaption(f: Format, v: Byte)
    ensures |Template(f, v)| >= |TextOf(f, v)|
    ensures f == Hex || f == Binary ==> |Template(f, v)| == |TextOf(f, v)|
    ensures !(f == Hex || f == Decimal || f == Binary || f == NibblesDecimal) ==> Template(f, v) == TextOf(f, v)
  {
    match f
    case Hex => HexText(v);
    case Decimal => DecimalText(v);
    case Binary => BinaryText(v);
    case NibblesDecimal =>
      var hi, lo := v / 16, v % 16;
      assert Pow(10, 2) == 100;
      DigitsLength(hi, 10, 2);
      DigitsLength(lo, 10, 2);
    case _ =>
  }

  /** The background of a cell: chosen by its own mark and by whether its record is the anchor. */
  datatype Fill = Fuchsia | LightGray | BackgroundColor

  /** What a cell shows and where: the fields a layout sets. */
  datatype CellView = CellView(bin: Bin?, id: int, x: int, y: int, width: int, height: int, selected: bool,
                               lineEnd: BinListItem?)

  class BinListItem {
    var id: int
    var bin: Bin?
    var lineEnd: BinListItem?
    var selected: bool
    var commentColumnWidth: int
    var x: int
    var y: int
    var width: int
    var height: int
    const commentInput: TextInputs.TextInput

    constructor ()
      ensures id == -1 && bin == null && lineEnd == null && !selected && commentColumnWidth == 0
      ensures x == 0 && y == 0 && width == 10 && height == 10
      ensures fresh(commentInput) && commentInput.text == "" && commentInput.caretPosition == 0
      ensures !commentInput.visible
    {
      id := -1;
      bin := null;
      lineEnd := null;
      selected := false;
      commentColumnWidth := 0;
      x, y, width, height := 0, 0, 10, 10;
      commentInput := new TextInputs.TextInput();
      new;
      commentInput.visible := false;
    }

    /** The `Bin` setter: binds the record and sizes the cell from the template. */
    method SetBin(b: Bin, measure: string -> nat)
      modifies this
      ensures bin == b && width == CellWidth(b.format, b.value, measure)
      ensures id == old(id) && lineEnd == old(lineEnd) && selected == old(selected)
      ensures commentColumnWidth == old(commentColumnWidth)
      ensures x == old(x) && y == old(y) && height == old(height)
    {
      bin := b;
      width := CellWidth(b.format, b.value, measure);
    }

    /** The fields a layout sets, as one value. */
    function View(): CellView
      reads this`bin, this`id, this`x, this`y, this`width, this`height, this`selected, this`lineEnd
    {
      CellView(bin, id, x, y, width, height, selected, lineEnd)
    }

    /**
     * What a layout does to a reused or new cell before placing it: clear the
     * row link, bind the record, number the cell and set its mark.
     */
    method Bind(b: Bin, k: int, h: int, marked: bool, measure: string -> nat)
      modifies this
      ensures bin == b && width == CellWidth(b.format, b.value, measure)
      ensures id == k && height == h && selected == marked && lineEnd == null
      ensures x == old(x) && y == old(y) && commentColumnWidth == old(commentColumnWidth)
    {
      height := h;
      lineEnd := null;
      SetBin(b, measure);
      id := k;
      selected := marked;
    }

    method MoveTo(x: int, y: int)
      modifies this
      ensures this.x == x && this.y == y
      ensures bin == old(bin) && id == old(id) && lineEnd == old(lineEnd) && selected == old(selected)
      ensures width == old(width) && height == old(height) && commentColumnWidth == old(commentColumnWidth)
    {
      this.x := x;
      this.y := y;
    }

    /**
     * A mouse-down flips the cell's mark; the list's click handler runs after
     * it (`Lists.BinList.MouseDownOn`) and so sees the flipped value.
     */
    method MouseDown()
      modifies this
      ensures selected == !old(selected)
      ensures bin == old(bin) && id == old(id) && lineEnd == old(lineEnd)
      ensures x == old(x) && y == old(y) && width == old(width) && height == old(height)
      ensures commentColumnWidth == old(commentColumnWidth)
    {
      selected := !selected;
    }

    /** The change callback of the comment field: the record takes the field's text. */
    method CommentChanged()
      requires bin != null
      modifies bin
      ensures bin.comment == commentInput.text
      ensures bin.format == old(bin.format) && bin.lineBreak == old(bin.lineBreak)
      ensures bin.selected == old(bin.selected)
    {
      bin.comment := commentInput.text;
    }

    /**
     * A key typed into the comment field; when the text changes, the callback
     * copies it into the record.
     */
    method TypeIntoComment(key: TextInputs.Key, shift: bool) returns (handled: bool)
      requires bin != null && commentInput.Valid()
      modifies commentInput, bin
      ensures commentInput.Valid()
      ensures handled <==> !key.Other?
      ensures commentInput.text != old(commentInput.text) ==> bin.comment == commentInput.text
      ensures commentInput.text == old(commentInput.text) ==> bin.comment == old(bin.comment)
      ensures bin.format == old(bin.format) && bin.lineBreak == old(bin.lineBreak)
    {
      var changed;
      handled, changed := commentInput.ProcessKey(key, shift);
      if changed {
        CommentChanged();
      }
    }

    /** The comment field is shown on the first record of the file and on records that start a row. */
    predicate ShowsComment()
      requires bin != null
      reads this, bin
    {
      bin.lineBreak || bin.offset == 0
    }

    /**
     * What drawing does to the comment field: a shown field is reloaded from
     * the record, a hidden one is only hidden. The caret is left where it
     * was, so a shown field whose new comment is shorter than the caret's
     * position no longer satisfies the field's invariant.
     */
    method SyncComment()
      requires bin != null
      modifies commentInput
      ensures commentInput.visible == ShowsComment()
      ensures ShowsComment() ==> commentInput.text == bin.comment
      ensures !ShowsComment() ==> commentInput.text == old(commentInput.text)
      ensures commentInput.caretPosition == old(commentInput.caretPosition)
      ensures ShowsComment() ==> (commentInput.Valid() <==> 0 <= old(commentInput.caretPosition) <= |bin.comment|)
    {
      if bin.lineBreak || bin.offset == 0 {
        commentInput.text := bin.comment;
        commentInput.visible := true;
      } else {
        commentInput.visible := false;
      }
    }

    /** The cell background: a marked cell is fuchsia when it holds the anchor, light grey otherwise. */
    function Fill(): (r: Fill)
      requires bin != null
      reads this, bin
      ensures r == Fuchsia <==> selected && bin.selected
      ensures r == BackgroundColor <==> !selected
    {
      if selected then (if bin.selected then Fuchsia else LightGray) else BackgroundColor
    }

    /**
     * The address range drawn left of a row's first cell: nothing for other
     * cells, the start address alone for a one-cell row, otherwise
     * start, " - " and end, each address as `ToString("X4")`.
     */
    function Caption(): seq<string>
      requires bin != null && (lineEnd != null ==> lineEnd.bin != null)
      reads this, lineEnd
    {
      if lineEnd == null then []
      else [Hex4(bin.offset)] + (if bin.offset != lineEnd.bin.offset then [" - ", Hex4(lineEnd.bin.offset)] else [])
    }

    /**
     * The caption reads back as the row's addresses: empty exactly for cells
     * that are not a row start, and a range exactly when the row spans
     * more than one record.
     */
    lemma CaptionReadsBack()
      requires bin != null && (lineEnd != null ==> lineEnd.bin != null)
      ensures Caption() == [] <==> lineEnd == null
      ensures lineEnd != null ==> Value(Caption()[0], 16) == bin.offset
      ensures lineEnd != null ==> (|Caption()| == 3 <==> bin.offset != lineEnd.bin.offset)
      ensures lineEnd != null && |Caption()| == 3 ==> Caption()[1] == " - " && Value(Caption()[2], 16) == lineEnd.bin.offset
      ensures lineEnd != null && |Caption()| != 3 ==> |Caption()| == 1
    {
      Hex4Correct(bin.offset);
      if lineEnd != null {
        Hex4Correct(lineEnd.bin.offset);
      }
    }
  }
}
