/**
 * One byte of the loaded file and how it is displayed (Binmap/Core/Bin.cs).
 * The record is a class because the list, the selection, the anchor and the
 * grid cells all hold the same object and change its fields in place.
 */
module Bins {
  import opened Numerals

  type Byte = x: int | 0 <= x < 256

  /** A record offset: a non-negative C# int. */
  type Offset = x: int | 0 <= x < 0x8000_0000

  /**
   * `Bin.Formats`. The sidecar reader casts any stored byte to the enum without
   * checking it, so the codes 5..255 exist too; they are `Undefined(code)`.
   */
  datatype Format = Hex | Decimal | Binary | NibblesDecimal | Ascii | Undefined(code: Byte)

  /** A format value the C# enum can hold: Undefined only for the unnamed codes. */
  predicate WellFormed(f: Format) {
    f.Undefined? ==> f.code >= 5
  }

  /** The enum's underlying number, `(byte)bin.Format`. */
  function Code(f: Format): Byte {
    match f
    case Hex => 0
    case Decimal => 1
    case Binary => 2
    case NibblesDecimal => 3
    case Ascii => 4
    case Undefined(c) => c
  }

  /** The cast `(Bin.Formats)format` of a stored byte. */
  function FromCode(c: Byte): (f: Format)
    ensures WellFormed(f) && Code(f) == c
  {
    if c == 0 then Hex
    else if c == 1 then Decimal
    else if c == 2 then Binary
    else if c == 3 then NibblesDecimal
    else if c == 4 then Ascii
    else Undefined(c)
  }

  lemma CodeRoundTrip(f: Format)
    requires WellFormed(f)
    ensures FromCode(Code(f)) == f
  {
  }

  datatype Color = HexColor | DecColor | BinColor | NibDecColor | AsciiColor | Red | White

  /** The bytes the Ascii format shows as a character. */
  predicate Printable(v: Byte) {
    31 < v < 127
  }

  /** `Bin.Text`: the caption of a byte in a format. */
  function TextOf(f: Format, v: Byte): string {
    match f
    case Decimal => Digits(v, 10)
    case Hex => PadLeft(Digits(v, 16), 2, '0')
    case Binary => PadLeft(Digits(v, 2), 8, '0')
    // (v & 0xF0) >> 4 and v & 0x0F are the high and the low nibble
    case NibblesDecimal => Digits(v / 16, 10) + " " + Digits(v % 16, 10)
    case Ascii => if Printable(v) then [v as char] else Digits(v, 10)
    case Undefined(_) => ""
  }

  /** `Bin.Color`. */
  function ColorOf(f: Format, v: Byte): Color {
    match f
    case Decimal => DecColor
    case Hex => HexColor
    case Binary => BinColor
    case NibblesDecimal => NibDecColor
    case Ascii => if Printable(v) then AsciiColor else Red
    case Undefined(_) => White
  }

  /** The part of a record that the user edits and the sidecar stores. */
  datatype Note = Note(format: Format, lineBreak: bool, comment: string)

  /** What a freshly constructed record holds. */
  const DefaultNote := Note(Hex, false, "")

  class Bin {
    const value: Byte
    const offset: Offset
    var format: Format
    var lineBreak: bool
    var comment: string
    /** Marks the selection anchor; the source reads and writes it but never declares it. */
    var selected: bool

    constructor (value: Byte, offset: Offset)
      ensures this.value == value && this.offset == offset
      ensures format == Hex && !lineBreak && comment == "" && !selected
    {
      this.value := value;
      this.offset := offset;
      format := Hex;
      lineBreak := false;
      comment := "";
      selected := false;
    }

    function Text(): string
      reads this
    {
      TextOf(format, value)
    }

    function Color(): Color
      reads this
    {
      ColorOf(format, value)
    }

    function Annotation(): Note
      reads this
    {
      Note(format, lineBreak, comment)
    }
  }

  /** Hex text is exactly two upper-case hex digits that read back as the byte. */
  lemma HexText(v: Byte)
    ensures |TextOf(Hex, v)| == 2
    ensures forall i :: 0 <= i < 2 ==> '0' <= TextOf(Hex, v)[i] <= '9' || 'A' <= TextOf(Hex, v)[i] <= 'F'
    ensures Value(TextOf(Hex, v), 16) == v
  {
    DigitsCorrect(v, 16);
    assert Pow(16, 2) == 256;
    DigitsLength(v, 16, 2);
    PadLeftZeros(Digits(v, 16), 2, 16);
  }

  /** Binary text is exactly eight '0'/'1' characters that read back as the byte in base 2. */
  lemma BinaryText(v: Byte)
    ensures |TextOf(Binary, v)| == 8
    ensures forall i :: 0 <= i < 8 ==> TextOf(Binary, v)[i] == '0' || TextOf(Binary, v)[i] == '1'
    ensures Value(TextOf(Binary, v), 2) == v
  {
    var d := Digits(v, 2);
    DigitsCorrect(v, 2);
    PowTwoEight();
    DigitsLength(v, 2, 8);
    var t := PadLeft(d, 8, '0');
    assert TextOf(Binary, v) == t;
    PadLeftZeros(d, 8, 2);
    assert |t| == 8;
    forall i | 0 <= i < 8 ensures t[i] == '0' || t[i] == '1' {
      BinaryDigit(t[i]);
    }
  }

  lemma BinaryDigit(c: char)
    requires IsDigit(c, 2)
    ensures c == '0' || c == '1'
  {
  }

  lemma PowTwoEight()
    ensures Pow(2, 8) == 256
  {
    assert Pow(2, 2) == 4;
    assert Pow(2, 4) == 16 by { assert Pow(2, 3) == 8; }
    assert Pow(2, 6) == 64 by { assert Pow(2, 5) == 32; }
    assert Pow(2, 8) == 256 by { assert Pow(2, 7) == 128; }
  }

  /** Decimal text is one to three decimal digits, without leading zeros, reading back as the byte. */
  lemma DecimalText(v: Byte)
    ensures 1 <= |TextOf(Decimal, v)| <= 3
    ensures IsNumeral(TextOf(Decimal, v), 10) && Value(TextOf(Decimal, v), 10) == v
    ensures |TextOf(Decimal, v)| > 1 ==> TextOf(Decimal, v)[0] != '0'
  {
    DigitsCorrect(v, 10);
    assert Pow(10, 3) == 1000;
    DigitsLength(v, 10, 3);
  }

  /**
   * Nibble text is two decimal numerals around a single space: the high nibble
   * and the low nibble, each in 0..15, with high * 16 + low == v.
   */
  lemma NibbleText(v: Byte)
    ensures ' ' in TextOf(NibblesDecimal, v)
    ensures forall k :: 0 <= k < |TextOf(NibblesDecimal, v)| && TextOf(NibblesDecimal, v)[k] == ' ' ==>
      var t := TextOf(NibblesDecimal, v);
      && IsNumeral(t[..k], 10) && IsNumeral(t[k + 1..], 10)
      && Value(t[..k], 10) < 16 && Value(t[k + 1..], 10) < 16
      && Value(t[..k], 10) * 16 + Value(t[k + 1..], 10) == v
  {
    var hi, lo := Digits(v / 16, 10), Digits(v % 16, 10);
    var t := TextOf(NibblesDecimal, v);
    assert t == hi + " " + lo;
    DigitsCorrect(v / 16, 10);
    DigitsCorrect(v % 16, 10);
    assert t[|hi|] == ' ';
    forall k | 0 <= k < |t| && k != |hi|
      ensures t[k] != ' '
    {
      if k < |hi| {
        assert t[k] == hi[k] && IsDigit(hi[k], 10);
      } else {
        assert t[k] == lo[k - |hi| - 1] && IsDigit(lo[k - |hi| - 1], 10);
      }
    }
    assert t[..|hi|] == hi && t[|hi| + 1..] == lo;
  }

  /**
   * Ascii text is the character with code v when v is printable (31 < v < 127);
   * otherwise it is the decimal text and the colour is red.
   */
  lemma AsciiText(v: Byte)
    ensures Printable(v) ==> |TextOf(Ascii, v)| == 1 && TextOf(Ascii, v)[0] as int == v && ColorOf(Ascii, v) == AsciiColor
    ensures !Printable(v) ==> TextOf(Ascii, v) == TextOf(Decimal, v) && ColorOf(Ascii, v) == Red
  {
  }

  /** No digit of any base is a comma. */
  lemma NumeralHasNoComma(s: string, b: nat)
    requires IsNumeral(s, b)
    ensures ',' !in s
  {
  }

  /** Nibble text is two numerals around a space. */
  lemma NibbleTextHasNoComma(v: Byte)
    ensures ',' !in TextOf(NibblesDecimal, v)
  {
    DigitsCorrect(v / 16, 10);
    DigitsCorrect(v % 16, 10);
    NumeralHasNoComma(Digits(v / 16, 10), 10);
    NumeralHasNoComma(Digits(v % 16, 10), 10);
    assert TextOf(NibblesDecimal, v) == Digits(v / 16, 10) + " " + Digits(v % 16, 10);
  }

  lemma HexTextHasNoComma(v: Byte)
    ensures ',' !in TextOf(Hex, v)
  {
    DigitsCorrect(v, 16);
    PadLeftZeros(Digits(v, 16), 2, 16);
    NumeralHasNoComma(TextOf(Hex, v), 16);
  }

  lemma BinaryTextHasNoComma(v: Byte)
    ensures ',' !in TextOf(Binary, v)
  {
    DigitsCorrect(v, 2);
    PadLeftZeros(Digits(v, 2), 8, 2);
    NumeralHasNoComma(TextOf(Binary, v), 2);
  }

  lemma AsciiComma(v: Byte)
    ensures ',' in TextOf(Ascii, v) <==> v == 44
  {
    AsciiText(v);
    if Printable(v) {
      assert TextOf(Ascii, v) == [TextOf(Ascii, v)[0]];
    } else {
      DecimalText(v);
      NumeralHasNoComma(TextOf(Decimal, v), 10);
    }
  }

  /**
   * A caption holds a comma exactly when it is the Ascii caption of the byte
   * 44, the comma itself.
   */
  lemma CommaInText(f: Format, v: Byte)
    ensures ',' in TextOf(f, v) <==> f == Ascii && v == 44
  {
    match f
    case Decimal =>
      DecimalText(v);
      NumeralHasNoComma(TextOf(f, v), 10);
    case Hex => HexTextHasNoComma(v);
    case Binary => BinaryTextHasNoComma(v);
    case NibblesDecimal => NibbleTextHasNoComma(v);
    case Ascii => AsciiComma(v);
    case Undefined(_) =>
  }

  /** Ascii text alone does not identify the byte: byte 5 and byte 0x35 ('5') both read "5". */
  lemma AsciiTextAmbiguous()
    ensures TextOf(Ascii, 5) == TextOf(Ascii, 0x35) == "5"
    ensures ColorOf(Ascii, 5) != ColorOf(Ascii, 0x35)
  {
    assert Digits(5, 10) == "5";
  }

  /** In the four numeric formats the text determines the byte. */
  lemma NumericTextInjective(f: Format, v: Byte, w: Byte)
    requires f == Hex || f == Decimal || f == Binary || f == NibblesDecimal
    requires TextOf(f, v) == TextOf(f, w)
    ensures v == w
  {
    match f
    case Hex => HexText(v); HexText(w);
    case Decimal => DecimalText(v); DecimalText(w);
    case Binary => BinaryText(v); BinaryText(w);
    case NibblesDecimal =>
      NibbleText(v);
      NibbleText(w);
      var t := TextOf(f, v);
      var k :| 0 <= k < |t| && t[k] == ' ';
  }

  /** In the Ascii format, text and colour together determine the byte. */
  lemma AsciiTextAndColorInjective(v: Byte, w: Byte)
    requires TextOf(Ascii, v) == TextOf(Ascii, w) && ColorOf(Ascii, v) == ColorOf(Ascii, w)
    ensures v == w
  {
    if !Printable(v) {
      DecimalText(v);
      DecimalText(w);
    }
  }

  /** Formats the enum does not name render as empty white text. */
  lemma UndefinedText(f: Format, v: Byte)
    requires WellFormed(f) && Code(f) >= 5
    ensures TextOf(f, v) == "" && ColorOf(f, v) == White
  {
  }
}
