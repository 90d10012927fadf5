/**
 * The keys the widgets react to (XNA `Keys`) and the one-line text field
 * used for record comments (Binmap/Controls/TextInput.cs).
 */
module TextInputs {
  import opened Wrappers
  import opened Numerals

  type Letter = c: char | 'A' <= c <= 'Z' witness 'A'
  type DigitKey = d: int | 0 <= d <= 9

  /**
   * A key press. `Digit(d, numPad)` is one of D0..D9 (numPad false) or
   * NumPad0..NumPad9 (numPad true); `Other` is any key the widgets ignore.
   */
  datatype Key =
    | Left | Right | Letter(c: Letter) | Space | Add | Subtract | Decimal | OemComma
    | OemPeriod | Multiply | Divide | Digit(d: DigitKey, numPad: bool) | Back | Enter | Other

  function LowerCase(c: Letter): char {
    (c as int + 32) as char
  }

  /** The character a digit key types while a Shift key is held (the '3' key keeps its digit). */
  function ShiftedDigit(d: DigitKey): char {
    match d
    case 1 => '!'
    case 2 => '"'
    case 3 => '3'
    case 4 => '$'
    case 5 => '%'
    case 6 => '&'
    case 7 => '/'
    case 8 => '('
    case 9 => ')'
    case 0 => '='
  }

  /**
   * The character a key inserts at the caret, if it is a typing key; `shift`
   * is whether LeftShift or RightShift is down. Every inserted character is
   * printable ASCII, so a comment typed here is always ASCII text.
   */
  function Typed(key: Key, shift: bool): (r: Option<char>)
    ensures r.Some? <==> key.Letter? || key.Space? || key.Add? || key.Subtract? || key.Decimal?
                         || key.OemComma? || key.OemPeriod? || key.Multiply? || key.Divide? || key.Digit?
    ensures r.Some? ==> 32 <= r.value as int < 127
    ensures key.Letter? ==> r == Some(if shift then key.c else LowerCase(key.c))
    ensures key.Digit? && !shift ==> r == Some(('0' as int + key.d) as char)
  {
    match key
    case Letter(c) => Some(if shift then c else LowerCase(c))
    case Space => Some(' ')
    case Add => Some('+')
    case Subtract => Some('-')
    case Decimal => Some(',')
    case OemComma => Some(',')
    case OemPeriod => Some('.')
    case Multiply => Some('*')
    case Divide => Some('/')
    case Digit(d, _) => Some(if shift then ShiftedDigit(d) else ('0' as int + d) as char)
    case _ => None
  }

  /** Shift changes what a digit key types except for the '3' key. */
  lemma ShiftedDigits(d: DigitKey, numPad: bool)
    ensures Typed(Digit(d, numPad), true) != Typed(Digit(d, numPad), false) <==> d != 3
  {
  }

  /** Both digit rows type the same characters. */
  lemma NumPadSameAsDigitRow(d: DigitKey, shift: bool)
    ensures Typed(Digit(d, true), shift) == Typed(Digit(d, false), shift)
  {
  }

  /** A string of printable ASCII characters, the only kind the field can produce. */
  predicate IsPrintableAscii(s: string) {
    forall i :: 0 <= i < |s| ==> 32 <= s[i] as int < 127
  }

  class TextInput {
    var text: string
    var caretPosition: int
    var visible: bool

    /** The caret lies inside the text; `Substring` throws otherwise. */
    predicate Valid()
      reads this
    {
      0 <= caretPosition <= |text|
    }

    constructor ()
      ensures text == "" && caretPosition == 0 && visible
      ensures Valid()
    {
      text := "";
      caretPosition := 0;
      visible := true;
    }

    /** A click puts the caret after the last character. */
    method MouseDown()
      modifies this
      ensures text == old(text) && visible == old(visible)
      ensures caretPosition == |text|
      ensures Valid()
    {
      caretPosition := |text|;
    }

    /**
     * `ProcessKey`: `handled` is the value the source returns; `changed`
     * reports that the change callback ran, which it does exactly when the
     * text changed. Enter only hands the keyboard focus back (not modelled).
     */
    method ProcessKey(key: Key, shift: bool) returns (handled: bool, changed: bool)
      requires Valid()
      modifies this
      ensures Valid()
      ensures visible == old(visible)
      ensures handled <==> !key.Other?
      ensures changed <==> text != old(text)
      ensures Typed(key, shift).Some? ==>
        && text == old(text)[..old(caretPosition)] + [Typed(key, shift).value] + old(text)[old(caretPosition)..]
        && caretPosition == old(caretPosition) + 1
      ensures key.Back? ==>
        if old(caretPosition) > 0 then
          && text == old(text)[..old(caretPosition) - 1] + old(text)[old(caretPosition)..]
          && caretPosition == old(caretPosition) - 1
        else text == old(text) && caretPosition == old(caretPosition)
      ensures key.Left? ==> text == old(text) && caretPosition == if old(caretPosition) > 0 then old(caretPosition) - 1 else 0
      ensures key.Right? ==> text == old(text) && caretPosition == if old(caretPosition) < |text| then old(caretPosition) + 1 else |text|
      ensures key.Enter? || key.Other? ==> text == old(text) && caretPosition == old(caretPosition)
      ensures old(IsPrintableAscii(text)) ==> IsPrintableAscii(text)
    {
      var left, right := text[..caretPosition], text[caretPosition..];
      assert text == left + right;
      handled, changed := true, false;
      var typed := Typed(key, shift);
      if typed.Some? {
        text := left + [typed.value] + right;
        changed := true;
        caretPosition := caretPosition + 1;
        assert text[..caretPosition - 1] == left;
      } else if key.Left? {
        caretPosition := Min(|text|, Max(0, caretPosition - 1));
      } else if key.Right? {
        caretPosition := Min(|text|, Max(0, caretPosition + 1));
      } else if key.Back? {
        if |left| > 0 {
          text := left[..|left| - 1] + right;
          changed := true;
          caretPosition := caretPosition - 1;
          assert |text| < |old(text)|;
        }
      } else if key.Other? {
        handled := false;
      }
    }
  }
}
