/**
 * The vertical scrollbar beside the byte grid (Binmap/Controls/Scrollbar.cs):
 * the scroll position and its clamps, the integer thumb height, and the drag
 * and wheel state that `Update` keeps from frame to frame. The scrolled list
 * is represented by the three numbers the scrollbar asks of it (`Target`)
 * and by `visible`, the number of cells the list's layout leaves when it
 * shows the records from a given position on: `OnScroll` lays the list out
 * again, so every clamp and thumb layout after a hand-off reads the new
 * `NumVisible`. Every operation returns the positions it hands to the list's
 * `OnScroll`, in order.
 */
module Scrollbars {
  import opened Wrappers
  import opened Numerals

  /** The list's `MaxScrollValue`, `NumVisible` (a count of cells) and `ScrollStepSize`. */
  datatype Target = Target(maxScroll: int, numVisible: nat, stepSize: int)

  /** The target after `OnScroll(p)`: the list shows `visible(p)` cells; its record count and step stay. */
  function Scrolled(t: Target, visible: int -> nat, p: int): Target {
    Target(t.maxScroll, visible(p), t.stepSize)
  }

  /** The target after the positions handed so far: the last hand-off decides `NumVisible`. */
  function Current(t: Target, visible: int -> nat, handed: seq<int>): (r: Target)
    ensures r.maxScroll == t.maxScroll && r.stepSize == t.stepSize
  {
    if handed == [] then t else Scrolled(t, visible, handed[|handed| - 1])
  }

  /** Where the bar stands after the positions handed so far, starting from p. */
  function Last(p: int, handed: seq<int>): int {
    if handed == [] then p else handed[|handed| - 1]
  }

  /** Every position handed lies in [0, MaxScrollValue]. */
  predicate Handable(t: Target, handed: seq<int>) {
    forall i :: 0 <= i < |handed| ==> 0 <= handed[i] <= Max(0, t.maxScroll)
  }

  /** Positions in range, handed one after another, stay in range. */
  lemma Handing(t: Target, xs: seq<int>, ys: seq<int>)
    requires Handable(t, xs) && Handable(t, ys)
    ensures Handable(t, xs + ys)
  {
  }

  /** Handing xs, then ys, leaves the bar where handing xs + ys does. */
  lemma LastAppend(p: int, xs: seq<int>, ys: seq<int>)
    ensures Last(Last(p, xs), ys) == Last(p, xs + ys)
  {
    if ys != [] {
      assert (xs + ys)[|xs + ys| - 1] == ys[|ys| - 1];
    }
  }

  /** The value of `lastDragY` while no drag is in progress. */
  const NotDragging := -1000

  function Abs(a: int): nat {
    if a < 0 then -a else a
  }

  /** `Math.Sign`. */
  function Sign(a: int): int {
    if a < 0 then -1 else if a > 0 then 1 else 0
  }

  /** C# integer division, which truncates toward zero (Dafny's `/` is Euclidean). */
  function Quot(a: int, b: int): (q: int)
    requires b != 0
    ensures 0 <= a && 0 < b ==> q == a / b
  {
    var m := Abs(a) / Abs(b);
    if (a < 0) == (b < 0) then m else -m
  }

  /**
   * q is a truncated quotient of a by b: a = q * b + r where r is smaller
   * than b in size and is zero or has the sign of a.
   */
  predicate Truncates(a: int, b: int, q: int) {
    var r := a - q * b;
    Abs(r) < Abs(b) && (r == 0 || (r > 0) == (a > 0))
  }

  /** `Quot` is truncated division. */
  lemma QuotTruncates(a: int, b: int)
    requires b != 0
    ensures Truncates(a, b, Quot(a, b))
  {
    var A: int, B: int := Abs(a), Abs(b);
    var m := A / B;
    Euclid(A, B);
    var e := A - m * B;
    MulSigns(m, B);
    var q := Quot(a, b);
    assert q * b == m * B || q * b == -(m * B);
    assert a >= 0 ==> a - q * b == e;
    assert a < 0 ==> a - q * b == -e;
  }

  lemma MulSigns(x: int, y: int)
    ensures (-x) * y == -(x * y) && x * (-y) == -(x * y) && (-x) * (-y) == x * y
  {
  }

  /** The Euclidean quotient and remainder of a natural by a positive divisor. */
  lemma Euclid(n: int, d: int)
    requires n >= 0 && d > 0
    ensures 0 <= n - n / d * d < d && n / d * d >= 0
    ensures n == 0 ==> n / d == 0
  {
    MulMonotone(n / d, 0, d);
  }

  /** `ScrollTo`: the requested position, clamped to [0, MaxScrollValue], and 0 when that is empty. */
  function ScrollToPosition(t: Target, p: int): (r: int)
    ensures 0 <= r <= Max(0, t.maxScroll)
    ensures 0 <= p <= t.maxScroll ==> r == p
    ensures p < 0 || t.maxScroll < 0 ==> r == 0
    ensures 0 <= t.maxScroll < p ==> r == t.maxScroll
  {
    Max(0, Min(t.maxScroll, p))
  }

  /** Scrolling to a position reached by `ScrollTo` stays there. */
  lemma ScrollToIdempotent(t: Target, p: int)
    ensures ScrollToPosition(t, ScrollToPosition(t, p)) == ScrollToPosition(t, p)
  {
  }

  /** The last position at which the list can still fill its cells: MaxScrollValue - NumVisible, or 0. */
  function LastPage(t: Target): nat {
    Max(0, t.maxScroll - t.numVisible)
  }

  /** `scrollPosition(delta)`: move by delta, clamped to [0, LastPage]. */
  function Stepped(t: Target, pos: int, delta: int): (r: int)
    ensures 0 <= r <= LastPage(t)
    ensures 0 <= pos + delta <= LastPage(t) ==> r == pos + delta
    ensures pos + delta < 0 ==> r == 0
    ensures pos + delta > LastPage(t) ==> r == LastPage(t)
  {
    Min(LastPage(t), Max(0, pos + delta))
  }

  /**
   * Stepping is monotone in the step, a zero step keeps a position inside the
   * range, and the clamped range never reaches past MaxScrollValue unless it
   * is the single position 0.
   */
  lemma SteppedMonotone(t: Target, pos: int, d1: int, d2: int)
    requires d1 <= d2
    ensures Stepped(t, pos, d1) <= Stepped(t, pos, d2)
    ensures 0 <= pos <= LastPage(t) ==> Stepped(t, pos, 0) == pos
    ensures LastPage(t) <= Max(0, t.maxScroll)
  {
  }

  /** The highest index a drag may request: MaxScrollValue - NumVisible, but at least 1. */
  function DragLimit(t: Target): int {
    Max(1, t.maxScroll - t.numVisible)
  }

  /** `scrollByDistance`: the index a drag requests, the current position plus the rounded distance, clamped. */
  function DragIndex(t: Target, pos: int, steps: int): (r: int)
    ensures 0 <= r <= DragLimit(t)
    ensures 0 <= pos + steps <= DragLimit(t) ==> r == pos + steps
  {
    Max(0, Min(pos + steps, DragLimit(t)))
  }

  /**
   * A drag lands inside [0, MaxScrollValue]; it lands no later than the last
   * full page when there is one, and on 0 or 1 otherwise.
   */
  lemma DragLands(t: Target, pos: int, steps: int)
    ensures var r := ScrollToPosition(t, DragIndex(t, pos, steps));
      && 0 <= r <= Max(0, t.maxScroll)
      && (t.maxScroll - t.numVisible >= 1 ==> r <= t.maxScroll - t.numVisible)
      && (t.maxScroll - t.numVisible < 1 ==> r <= 1)
  {
  }

  /** The wheel step: ScrollStepSize towards the start when the wheel value grew, towards the end when it fell. */
  function WheelDelta(t: Target, last: int, current: int): (d: int)
    ensures current == last ==> d == 0
    ensures current > last ==> d == -t.stepSize
    ensures current < last ==> d == t.stepSize
  {
    t.stepSize * Sign(last - current)
  }

  /**
   * The divisor of the thumb height: MaxScrollValue, or 1 in its place when
   * it is 0, that is when the list holds a single record.
   */
  function ThumbDivisor(t: Target): (d: int)
    ensures d != 0
    ensures t.maxScroll != 0 ==> d == t.maxScroll
    ensures t.maxScroll >= 0 ==> d == Max(1, t.maxScroll)
  {
    if t.maxScroll == 0 then 1 else t.maxScroll
  }

  /**
   * `Layout`'s thumb height, corrected: the visible share of the track in
   * integer division, at least the thumb's width and at most the track,
   * for every target, a single record included.
   */
  function ThumbHeight(track: int, thumbWidth: int, t: Target): (h: int)
    ensures h >= thumbWidth
    ensures thumbWidth <= track ==> h <= track
  {
    Max(thumbWidth, Min(track, Quot(track * t.numVisible, ThumbDivisor(t))))
  }

  /**
   * `Layout`'s thumb height as the source computes it: the division by
   * MaxScrollValue throws DivideByZeroException, here `None`, exactly when
   * that is 0; otherwise it is the corrected height.
   */
  function ThumbHeightAsWritten(track: int, thumbWidth: int, t: Target): (r: Option<int>)
    ensures r == None <==> t.maxScroll == 0
    ensures r.Some? ==> r.value == ThumbHeight(track, thumbWidth, t)
  {
    if t.maxScroll == 0 then None
    else Some(Max(thumbWidth, Min(track, Quot(track * t.numVisible, t.maxScroll))))
  }

  /** On a track of non-negative length, the thumb takes the visible fraction of it when not everything is visible. */
  lemma ThumbProportional(track: int, thumbWidth: int, t: Target)
    requires t.maxScroll > 0 && track >= 0 && t.numVisible <= t.maxScroll
    ensures ThumbHeight(track, thumbWidth, t) == Max(thumbWidth, track * t.numVisible / t.maxScroll)
  {
    var n, m := track * t.numVisible, t.maxScroll;
    assert n <= track * m by {
      MulMonotone(track, t.numVisible, m);
    }
    assert n / m <= track by {
      DivBelow(n, m, track);
    }
  }

  /**
   * When every record is visible, at least MaxScrollValue of them and at
   * least one, the thumb fills the track; with the corrected divisor this
   * holds for a single record too.
   */
  lemma ThumbFillsTrack(track: int, thumbWidth: int, t: Target)
    requires t.maxScroll >= 0 && track >= 0 && t.numVisible >= Max(1, t.maxScroll)
    ensures ThumbHeight(track, thumbWidth, t) == Max(thumbWidth, track)
  {
    var m := ThumbDivisor(t);
    var n := track * t.numVisible;
    MulMonotone(track, m, t.numVisible);
    DivAbove(n, m, track);
  }

  lemma MulMonotone(a: nat, b: int, c: int)
    requires b <= c
    ensures a * b <= a * c
  {
  }

  lemma MulCancel(a: int, b: int, m: int)
    requires m > 0 && a * m <= b * m
    ensures a <= b
  {
  }

  lemma MulCancelStrict(a: int, b: int, m: int)
    requires m > 0 && a * m < b * m
    ensures a < b
  {
  }

  lemma DivBelow(n: int, m: int, k: int)
    requires m > 0 && n <= k * m
    ensures n / m <= k
  {
    var q, r := n / m, n % m;
    assert n == q * m + r && 0 <= r < m;
    MulCancel(q, k, m);
  }

  lemma DivAbove(n: int, m: int, k: int)
    requires m > 0 && k * m <= n
    ensures k <= n / m
  {
    var q, r := n / m, n % m;
    assert n == q * m + r && 0 <= r < m;
    assert (q + 1) * m == q * m + m;
    MulCancelStrict(k, q + 1, m);
  }

  class Scrollbar {
    var scrollPosition: int
    var lastDragY: int
    var lastScrollWheelValue: int
    /** The scrollbar's own size, its buttons' height, and the thumb's size. */
    var width: int
    var height: int
    var buttonHeight: int
    var thumbWidth: int
    var thumbHeight: int

    /** A 20 x 20 bar with 14 x 14 buttons and thumb, not dragging, at position 0. */
    constructor (wheel: int)
      ensures scrollPosition == 0 && lastDragY == NotDragging && lastScrollWheelValue == wheel
      ensures width == 20 && height == 20 && buttonHeight == 14 && thumbWidth == 14 && thumbHeight == 14
    {
      scrollPosition := 0;
      lastDragY := NotDragging;
      lastScrollWheelValue := wheel;
      width, height := 20, 20;
      buttonHeight := 14;
      thumbWidth, thumbHeight := 14, 14;
    }

    predicate Dragging()
      reads this`lastDragY
    {
      lastDragY > NotDragging
    }

    /** The track left between the two buttons. */
    function Track(): int
      reads this`height, this`buttonHeight
    {
      height - 2 * buttonHeight
    }

    /**
     * The thumb's height after the button steps handed the positions in
     * `handed`, each laying it out against the list it left, starting from a
     * thumb of width w0 and height h0.
     */
    function ThumbAfter(w0: int, h0: int, t: Target, visible: int -> nat, handed: seq<int>): int
      reads this`width, this`height, this`buttonHeight
    {
      if handed == [] then h0
      else ThumbHeight(Track(), if |handed| == 1 then w0 else width - 4, Scrolled(t, visible, handed[|handed| - 1]))
    }

    /** The click on the thumb starts a drag at the pointer's y. */
    method ThumbClicked(mouseY: int)
      modifies this`lastDragY
      ensures lastDragY == mouseY
    {
      lastDragY := mouseY;
    }

    /** The integer part of `Layout`: the thumb is resized to the bar's width less 4 and to its share of the track. */
    method Layout(t: Target)
      modifies this`thumbWidth, this`thumbHeight
      ensures thumbWidth == width - 4 && thumbHeight == ThumbHeight(Track(), old(thumbWidth), t)
    {
      thumbHeight := ThumbHeight(Track(), thumbWidth, t);
      thumbWidth := width - 4;
    }

    /** `ScrollTo`: clamp, hand the position to the list, then lay out the thumb against the list as it now is. */
    method ScrollTo(t: Target, visible: int -> nat, p: int) returns (notified: int)
      modifies this`scrollPosition, this`thumbWidth, this`thumbHeight
      ensures scrollPosition == notified == ScrollToPosition(t, p)
      ensures thumbWidth == width - 4 && thumbHeight == ThumbHeight(Track(), old(thumbWidth), Scrolled(t, visible, notified))
    {
      scrollPosition := ScrollToPosition(t, p);
      notified := scrollPosition;
      Layout(Scrolled(t, visible, scrollPosition));
    }

    /** `scrollPosition(delta)`, used by the buttons and the wheel: the clamp reads the list before the hand-off, the thumb after it. */
    method Step(t: Target, visible: int -> nat, delta: int) returns (notified: int)
      modifies this`scrollPosition, this`thumbWidth, this`thumbHeight
      ensures scrollPosition == notified == Stepped(t, old(scrollPosition), delta)
      ensures thumbWidth == width - 4 && thumbHeight == ThumbHeight(Track(), old(thumbWidth), Scrolled(t, visible, notified))
    {
      scrollPosition := scrollPosition + delta;
      scrollPosition := Min(LastPage(t), Max(0, scrollPosition));
      notified := scrollPosition;
      Layout(Scrolled(t, visible, scrollPosition));
    }

    /**
     * `scrollByDistance(dy)`: `round(max, dy, track)` stands for
     * `(int)Math.Round((float)max * dy / track)`, the drag distance in records.
     */
    method ScrollByDistance(t: Target, visible: int -> nat, dy: int, round: (int, int, int) -> int) returns (notified: int)
      modifies this`scrollPosition, this`thumbWidth, this`thumbHeight
      ensures scrollPosition == notified
      ensures notified == ScrollToPosition(t, DragIndex(t, old(scrollPosition), round(DragLimit(t), dy, old(Track() - thumbHeight))))
      ensures thumbWidth == width - 4 && thumbHeight == ThumbHeight(Track(), old(thumbWidth), Scrolled(t, visible, notified))
    {
      var track := Track() - thumbHeight;
      var max := DragLimit(t);
      var id := scrollPosition + round(max, dy, track);
      id := Max(0, Min(id, max));
      notified := ScrollTo(t, visible, id);
    }

    /**
     * The two buttons, when a repeat is due (`repeatDue` stands for the 0.1 s
     * timer): the up button steps back, then the down button steps forward,
     * clamped against the cells the up step's hand-off left.
     */
    method UpdateButtons(t: Target, visible: int -> nat, repeatDue: bool, aDown: bool, bDown: bool) returns (notified: seq<int>)
      modifies this`scrollPosition, this`thumbWidth, this`thumbHeight
      ensures var up := if repeatDue && aDown then [Stepped(t, old(scrollPosition), -t.stepSize)] else [];
        notified == up + (if repeatDue && bDown then [Stepped(Current(t, visible, up), Last(old(scrollPosition), up), t.stepSize)] else [])
      ensures Handable(t, notified) && scrollPosition == Last(old(scrollPosition), notified)
      ensures thumbWidth == (if notified == [] then old(thumbWidth) else width - 4)
      ensures thumbHeight == ThumbAfter(old(thumbWidth), old(thumbHeight), t, visible, notified)
    {
      notified := [];
      if repeatDue {
        if aDown {
          var n := Step(t, visible, -t.stepSize);
          notified := notified + [n];
        }
        if bDown {
          var n := Step(Current(t, visible, notified), visible, t.stepSize);
          notified := notified + [n];
        }
      }
    }

    /**
     * A drag in progress scrolls by the pointer's movement since the last
     * frame and follows the pointer; releasing the left button ends it.
     */
    method UpdateDrag(t: Target, visible: int -> nat, mouseY: int, released: bool, round: (int, int, int) -> int) returns (notified: seq<int>)
      modifies this`scrollPosition, this`thumbWidth, this`thumbHeight, this`lastDragY
      ensures Handable(t, notified) && scrollPosition == Last(old(scrollPosition), notified)
      ensures notified == (if old(Dragging())
        then [ScrollToPosition(t, DragIndex(t, old(scrollPosition), round(DragLimit(t), mouseY - old(lastDragY), old(Track() - thumbHeight))))]
        else [])
      ensures lastDragY == (if !old(Dragging()) then old(lastDragY) else if released then NotDragging else mouseY)
      ensures !old(Dragging()) ==> thumbWidth == old(thumbWidth) && thumbHeight == old(thumbHeight)
    {
      notified := [];
      if lastDragY > NotDragging {
        var n := ScrollByDistance(t, visible, mouseY - lastDragY, round);
        notified := [n];
        lastDragY := mouseY;
        if released {
          lastDragY := NotDragging;
        }
      }
    }

    /**
     * The wheel: away from the list its value is only recorded; over the list
     * a change steps once by the signed step size, then is recorded.
     */
    method UpdateWheel(t: Target, visible: int -> nat, overParent: bool, wheel: int) returns (notified: seq<int>)
      modifies this`scrollPosition, this`thumbWidth, this`thumbHeight, this`lastScrollWheelValue
      ensures Handable(t, notified) && scrollPosition == Last(old(scrollPosition), notified)
      ensures lastScrollWheelValue == wheel
      ensures notified == (if overParent && wheel != old(lastScrollWheelValue)
        then [Stepped(t, old(scrollPosition), WheelDelta(t, old(lastScrollWheelValue), wheel))]
        else [])
    {
      notified := [];
      if !overParent {
        lastScrollWheelValue := wheel;
      } else if wheel != lastScrollWheelValue {
        var n := Step(t, visible, t.stepSize * Sign(lastScrollWheelValue - wheel));
        notified := [n];
        lastScrollWheelValue := wheel;
      }
    }

    /**
     * The pointer's part of a frame, after the buttons handed `up`: the drag,
     * then the wheel, each reading the list as the hand-offs before it left it.
     */
    method UpdatePointer(t: Target, visible: int -> nat, up: seq<int>, mouseY: int, released: bool,
                         overParent: bool, wheel: int, round: (int, int, int) -> int) returns (drag: seq<int>, roll: seq<int>)
      modifies this`scrollPosition, this`thumbWidth, this`thumbHeight, this`lastDragY, this`lastScrollWheelValue
      ensures var t1 := Current(t, visible, up);
        drag == (if old(Dragging())
                 then [ScrollToPosition(t1, DragIndex(t1, old(scrollPosition), round(DragLimit(t1), mouseY - old(lastDragY), old(Track() - thumbHeight))))]
                 else [])
      ensures var t2 := Current(t, visible, up + drag);
        roll == (if overParent && wheel != old(lastScrollWheelValue)
                 then [Stepped(t2, Last(old(scrollPosition), drag), WheelDelta(t2, old(lastScrollWheelValue), wheel))]
                 else [])
      ensures Handable(t, drag) && Handable(t, roll)
      ensures scrollPosition == Last(Last(old(scrollPosition), drag), roll)
      ensures lastScrollWheelValue == wheel
      ensures lastDragY == (if !old(Dragging()) then old(lastDragY) else if released then NotDragging else mouseY)
    {
      drag := UpdateDrag(Current(t, visible, up), visible, mouseY, released, round);
      roll := UpdateWheel(Current(t, visible, up + drag), visible, overParent, wheel);
    }

    /**
     * One frame: buttons, then the drag, then the wheel, each reading the list
     * as the hand-offs before it left it. The buttons hand on `a`, the drag
     * `b` and the wheel `c`; the drag converts the pointer's movement against
     * `track`, the room the thumb had once the buttons had laid it out. Every
     * position handed to the list lies in [0, MaxScrollValue] and the last one
     * is where the bar stays; afterwards the wheel value is the current one.
     */
    method Update(t: Target, visible: int -> nat, repeatDue: bool, aDown: bool, bDown: bool, mouseY: int, released: bool,
                  overParent: bool, wheel: int, round: (int, int, int) -> int)
      returns (notified: seq<int>, ghost a: seq<int>, ghost b: seq<int>, ghost c: seq<int>, ghost track: int)
      modifies this`scrollPosition, this`thumbWidth, this`thumbHeight, this`lastDragY, this`lastScrollWheelValue
      ensures notified == a + b + c
      ensures var p0 := old(scrollPosition);
        var up := if repeatDue && aDown then [Stepped(t, p0, -t.stepSize)] else [];
        a == up + (if repeatDue && bDown then [Stepped(Current(t, visible, up), Last(p0, up), t.stepSize)] else [])
      ensures track == Track() - ThumbAfter(old(thumbWidth), old(thumbHeight), t, visible, a)
      ensures var t1 := Current(t, visible, a);
        b == (if old(Dragging())
              then [ScrollToPosition(t1, DragIndex(t1, Last(old(scrollPosition), a), round(DragLimit(t1), mouseY - old(lastDragY), track)))]
              else [])
      ensures var t2 := Current(t, visible, a + b);
        c == (if overParent && wheel != old(lastScrollWheelValue)
              then [Stepped(t2, Last(old(scrollPosition), a + b), WheelDelta(t2, old(lastScrollWheelValue), wheel))]
              else [])
      ensures Handable(t, notified)
      ensures scrollPosition == Last(old(scrollPosition), notified)
      ensures lastScrollWheelValue == wheel
      ensures lastDragY == (if !old(Dragging()) then old(lastDragY) else if released then NotDragging else mouseY)
    {
      ghost var p0 := scrollPosition;
      var up := UpdateButtons(t, visible, repeatDue, aDown, bDown);
      track := Track() - thumbHeight;
      var drag, roll := UpdatePointer(t, visible, up, mouseY, released, overParent, wheel, round);
      a, b, c := up, drag, roll;
      notified := up + drag + roll;
      Handing(t, up, drag);
      Handing(t, up + drag, roll);
      LastAppend(p0, up, drag);
      LastAppend(p0, up + drag, roll);
    }

    /** `Resize(w, h)`: the bar takes the size, the buttons become w x w, and the thumb is laid out again. */
    method Resize(t: Target, w: int, h: int)
      modifies this`width, this`height, this`buttonHeight, this`thumbWidth, this`thumbHeight
      ensures width == w && height == h && buttonHeight == w
      ensures thumbWidth == w - 4 && thumbHeight == ThumbHeight(h - 2 * w, old(thumbWidth), t)
    {
      width, height := w, h;
      buttonHeight := w;
      Layout(t);
    }
  }
}
