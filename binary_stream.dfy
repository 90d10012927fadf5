/**
 * The parts of the .NET `BinaryWriter` / `BinaryReader` encoding that the
 * annotation file uses: a byte; a bool as one byte; a 32-bit integer as four
 * bytes of little-endian two's complement; and a string as its UTF-8 bytes
 * (RFC 3629) behind their count, written in the 7-bit variable-length form
 * that is unsigned LEB128 (DWARF version 4, section 7.6). A read takes the
 * bytes from the reader's position to the end of the stream and gives the
 * value and the bytes behind it, or the exception the reader throws.
 */
module Streams {
  import opened Wrappers
  import opened Bins

  /** `EndOfStreamException`, the `FormatException` of an over-long 7-bit integer, and the `IOException` of a negative string length. */
  datatype Failure = EndOfStream | Bad7BitInt | NegativeLength

  const Two31 := 0x8000_0000
  const Two32 := 0x1_0000_0000

  predicate IsInt32(v: int) {
    -Two31 <= v < Two31
  }

  /** The cast `(uint)v`. */
  function Unsigned(v: int): (u: nat)
    requires IsInt32(v)
    ensures u < Two32
  {
    if v < 0 then v + Two32 else v
  }

  /** The cast `(int)u`. */
  function Signed(u: nat): (v: int)
    requires u < Two32
    ensures IsInt32(v)
  {
    if u >= Two31 then u - Two32 else u
  }

  /** The two casts are inverse to each other. */
  lemma SignedUnsigned(v: int, u: nat)
    requires IsInt32(v) && u < Two32
    ensures Signed(Unsigned(v)) == v && Unsigned(Signed(u)) == u
  {
  }

  /** `ReadByte`. */
  function ReadByte(d: seq<Byte>): Result<(Byte, seq<Byte>), Failure> {
    if d != [] then Ok((d[0], d[1..])) else Err(EndOfStream)
  }

  /** `Write(bool)`. */
  function WriteBool(b: bool): seq<Byte> {
    [if b then 1 else 0]
  }

  /** `ReadBoolean`: any byte but 0 reads as true. */
  function ReadBool(d: seq<Byte>): (r: Result<(bool, seq<Byte>), Failure>)
    ensures r.Ok? <==> d != []
    ensures r.Ok? ==> r.value == (d[0] != 0, d[1..])
    ensures r.Err? ==> r.error == EndOfStream
  {
    if d != [] then Ok((d[0] != 0, d[1..])) else Err(EndOfStream)
  }

  /** A byte read back behind whatever follows it. */
  lemma ByteRoundTrip(b: Byte, rest: seq<Byte>)
    ensures ReadByte([b] + rest) == Ok((b, rest))
  {
    assert ([b] + rest)[1..] == rest;
  }

  /** A bool reads back as itself. */
  lemma BoolRoundTrip(b: bool, rest: seq<Byte>)
    ensures ReadBool(WriteBool(b) + rest) == Ok((b, rest))
  {
    assert (WriteBool(b) + rest)[1..] == rest;
  }

  /** `Write(int)`: four bytes, lowest first. */
  function WriteInt32(v: int): (w: seq<Byte>)
    requires IsInt32(v)
    ensures |w| == 4
  {
    var u := Unsigned(v);
    [u % 0x100, u / 0x100 % 0x100, u / 0x100 / 0x100 % 0x100, u / 0x100 / 0x100 / 0x100]
  }

  /** The number four bytes stand for, lowest first. */
  function LittleEndian(b0: Byte, b1: Byte, b2: Byte, b3: Byte): (u: nat)
    ensures u < Two32
  {
    b0 as int + 0x100 * (b1 as int + 0x100 * (b2 as int + 0x100 * b3 as int))
  }

  /** `ReadInt32`. */
  function ReadInt32(d: seq<Byte>): (r: Result<(int, seq<Byte>), Failure>)
    ensures r.Ok? <==> |d| >= 4
    ensures r.Ok? ==> IsInt32(r.value.0) && r.value.1 == d[4..]
    ensures r.Err? ==> r.error == EndOfStream
  {
    if |d| >= 4 then Ok((Signed(LittleEndian(d[0], d[1], d[2], d[3])), d[4..]))
    else Err(EndOfStream)
  }

  /** An integer reads back as itself, behind whatever follows it. */
  lemma Int32RoundTrip(v: int, rest: seq<Byte>)
    requires IsInt32(v)
    ensures ReadInt32(WriteInt32(v) + rest) == Ok((v, rest))
  {
    var w := WriteInt32(v);
    assert (w + rest)[4..] == rest;
    assert (w + rest)[0] == w[0] && (w + rest)[1] == w[1] && (w + rest)[2] == w[2] && (w + rest)[3] == w[3];
    var u := Unsigned(v);
    var u1 := u / 0x100;
    var u2 := u1 / 0x100;
    assert u2 == u2 % 0x100 + 0x100 * (u2 / 0x100);
    assert u1 == u1 % 0x100 + 0x100 * u2;
    assert u == u % 0x100 + 0x100 * u1;
    assert LittleEndian(w[0], w[1], w[2], w[3]) == u;
  }

  /** `Write7BitEncodedInt` on the unsigned value: seven bits per byte, lowest first, the top bit set on every byte but the last. */
  function Write7Bit(u: nat): (w: seq<Byte>)
    ensures 1 <= |w|
    decreases u
  {
    if u < 128 then [u] else [u % 128 + 128] + Write7Bit(u / 128)
  }

  /** 128 to the power k. */
  function Weight(k: nat): (r: nat)
    ensures r >= 1
  {
    if k == 0 then 1 else 128 * Weight(k - 1)
  }

  /** A number below 128^k takes at most k bytes. */
  lemma {:induction false} Write7BitLength(u: nat, k: nat)
    requires 1 <= k && u < Weight(k)
    ensures |Write7Bit(u)| <= k
    decreases u
  {
    if u >= 128 {
      assert Weight(1) == 128;
      assert Weight(k) == 128 * Weight(k - 1);
      Write7BitLength(u / 128, k - 1);
      assert Write7Bit(u) == [u % 128 + 128] + Write7Bit(u / 128);
    }
  }

  /**
   * How many bytes a 7-bit integer that has used g of its five bytes takes
   * from d on: up to the first byte without the top bit. A sixth byte is refused.
   */
  function Read7BitLength(d: seq<Byte>, g: nat): (r: Result<nat, Failure>)
    requires g <= 5
    ensures r.Ok? ==> 0 < r.value <= |d| && r.value <= 5 - g
    decreases 5 - g
  {
    if g == 5 then Err(Bad7BitInt)
    else if d == [] then Err(EndOfStream)
    else if d[0] >= 128 then
      match Read7BitLength(d[1..], g + 1)
      case Err(e) => Err(e)
      case Ok(k) => Ok(k + 1)
    else Ok(1)
  }

  /** The number the seven-bit groups of ws carry, lowest group first. */
  function Groups(ws: seq<Byte>): nat {
    if ws == [] then 0 else ws[0] % 128 + 128 * Groups(ws[1..])
  }

  /**
   * `Read7BitEncodedInt` (.NET Framework): the groups up to the end, as
   * `count |= (b & 0x7F) << shift` collects them into an int, so that the bits
   * a fifth byte carries beyond 32 are lost and the result is signed.
   */
  function Read7BitInt(d: seq<Byte>): (r: Result<(int, seq<Byte>), Failure>)
    ensures r.Ok? ==> IsInt32(r.value.0) && |r.value.1| < |d| && |d| - |r.value.1| <= 5
  {
    match Read7BitLength(d, 0)
    case Err(e) => Err(e)
    case Ok(k) => Ok((Signed(Groups(d[..k]) % Two32), d[k..]))
  }

  /** `Write7BitEncodedInt(v)`. */
  function Write7BitInt(v: int): seq<Byte>
    requires IsInt32(v)
  {
    Write7Bit(Unsigned(v))
  }

  /** The groups of the encoding of u carry u. */
  lemma {:induction false} GroupsOfWrite(u: nat)
    ensures Groups(Write7Bit(u)) == u
    decreases u
  {
    if u >= 128 {
      var w := Write7Bit(u);
      assert w[1..] == Write7Bit(u / 128);
      GroupsOfWrite(u / 128);
    }
  }

  /** The encoding of u ends where its bytes end, whatever follows it. */
  lemma {:induction false} EndOfWrite(u: nat, rest: seq<Byte>, g: nat)
    requires g <= 5 && |Write7Bit(u)| <= 5 - g
    ensures Read7BitLength(Write7Bit(u) + rest, g) == Ok(|Write7Bit(u)|)
    decreases u
  {
    if u >= 128 {
      var w := Write7Bit(u);
      assert (w + rest)[1..] == Write7Bit(u / 128) + rest;
      EndOfWrite(u / 128, rest, g + 1);
    }
  }

  /** A 7-bit integer reads back as itself, behind whatever follows it. */
  lemma Int7BitRoundTrip(v: int, rest: seq<Byte>)
    requires IsInt32(v)
    ensures Read7BitInt(Write7BitInt(v) + rest) == Ok((v, rest))
    ensures |Write7BitInt(v)| <= 5
  {
    var u := Unsigned(v);
    var w := Write7Bit(u);
    assert Weight(5) == 0x8_0000_0000;
    Write7BitLength(u, 5);
    EndOfWrite(u, rest, 0);
    GroupsOfWrite(u);
    assert (w + rest)[..|w|] == w && (w + rest)[|w|..] == rest;
  }

  /** The UTF-8 bytes of one character: the code point's bits in groups of six behind a lead byte. */
  function EncodeChar(c: char): (w: seq<Byte>)
    ensures 1 <= |w| <= 4
  {
    var n := c as int;
    if n < 0x80 then [n]
    else if n < 0x800 then [0xC0 + n / 0x40, 0x80 + n % 0x40]
    else if n < 0x1_0000 then [0xE0 + n / 0x40 / 0x40, 0x80 + n / 0x40 % 0x40, 0x80 + n % 0x40]
    else [0xF0 + n / 0x40 / 0x40 / 0x40, 0x80 + n / 0x40 / 0x40 % 0x40, 0x80 + n / 0x40 % 0x40, 0x80 + n % 0x40]
  }

  /** `Encoding.UTF8.GetBytes`. */
  function Utf8(s: string): seq<Byte> {
    if s == [] then [] else EncodeChar(s[0]) + Utf8(s[1..])
  }

  /** The length of the well-formed sequence that a lead byte opens, or 0 when no sequence starts with it. */
  function SequenceLength(b: Byte): nat {
    if b < 0x80 then 1
    else if 0xC2 <= b <= 0xDF then 2
    else if 0xE0 <= b <= 0xEF then 3
    else if 0xF0 <= b <= 0xF4 then 4
    else 0
  }

  /** The bytes allowed right after a lead byte: narrower after E0, ED, F0 and F4. */
  predicate SecondFits(lead: Byte, b: Byte) {
    if lead == 0xE0 then 0xA0 <= b <= 0xBF
    else if lead == 0xED then 0x80 <= b <= 0x9F
    else if lead == 0xF0 then 0x90 <= b <= 0xBF
    else if lead == 0xF4 then 0x80 <= b <= 0x8F
    else 0x80 <= b <= 0xBF
  }

  predicate Continuation(b: Byte) {
    0x80 <= b <= 0xBF
  }

  /**
   * How many bytes after the lead byte of w continue its sequence, up to n - 1
   * where n is the sequence length.
   */
  function Continued(w: seq<Byte>, n: nat): (k: nat)
    requires w != [] && n >= 1
    ensures k < n && k < |w|
  {
    if n >= 2 && |w| >= 2 && SecondFits(w[0], w[1]) then
      if n >= 3 && |w| >= 3 && Continuation(w[2]) then
        if n >= 4 && |w| >= 4 && Continuation(w[3]) then 3 else 2
      else 1
    else 0
  }

  /** The six bits a continuation byte carries. */
  function Low(b: Byte): int {
    b as int - 0x80
  }

  const Replacement: char := '\U{FFFD}'

  /**
   * The first character of w and how many bytes it took: a complete
   * well-formed sequence decodes to its code point; otherwise the longest
   * prefix of a well-formed sequence (at least one byte) becomes U+FFFD, the
   * replacement practice of section 3.9 of the Unicode Standard.
   */
  function DecodeOne(w: seq<Byte>): (r: (char, nat))
    requires w != []
    ensures 1 <= r.1 <= |w|
  {
    var n := SequenceLength(w[0]);
    if n == 1 then (w[0] as char, 1)
    else if n == 0 then (Replacement, 1)
    else
      var k := Continued(w, n);
      if k + 1 < n then (Replacement, k + 1)
      else if n == 2 then (((w[0] as int - 0xC0) * 0x40 + Low(w[1])) as char, 2)
      else if n == 3 then (((w[0] as int - 0xE0) * 0x1000 + Low(w[1]) * 0x40 + Low(w[2])) as char, 3)
      else (((w[0] as int - 0xF0) * 0x4_0000 + Low(w[1]) * 0x1000 + Low(w[2]) * 0x40 + Low(w[3])) as char, 4)
  }

  /** `Encoding.UTF8.GetString`. */
  function DecodeUtf8(w: seq<Byte>): string
    decreases |w|
  {
    if w == [] then "" else
      var (c, k) := DecodeOne(w);
      [c] + DecodeUtf8(w[k..])
  }

  /** The encoding of a character decodes to it, whatever follows. */
  lemma DecodeEncoded(c: char, rest: seq<Byte>)
    ensures DecodeOne(EncodeChar(c) + rest) == (c, |EncodeChar(c)|)
  {
    var e := EncodeChar(c);
    var w := e + rest;
    assert w[0] == e[0];
    if |e| == 1 {
    } else if |e| == 2 {
      assert w[1] == e[1];
      DecodeTwo(c, w);
    } else if |e| == 3 {
      assert w[1] == e[1] && w[2] == e[2];
      DecodeThree(c, w);
    } else {
      assert w[1] == e[1] && w[2] == e[2] && w[3] == e[3];
      DecodeFour(c, w);
    }
  }

  lemma DecodeTwo(c: char, w: seq<Byte>)
    requires |EncodeChar(c)| == 2 && |w| >= 2 && w[..2] == EncodeChar(c)
    ensures DecodeOne(w) == (c, 2)
  {
    var n := c as int;
    assert w[0] == 0xC0 + n / 0x40 && w[1] == 0x80 + n % 0x40;
  }

  lemma DecodeThree(c: char, w: seq<Byte>)
    requires |EncodeChar(c)| == 3 && |w| >= 3 && w[..3] == EncodeChar(c)
    ensures DecodeOne(w) == (c, 3)
  {
    var n := c as int;
    var q1, q2 := n / 0x40, n / 0x40 / 0x40;
    assert n == n % 0x40 + 0x40 * q1 && q1 == q1 % 0x40 + 0x40 * q2;
    assert w[0] == 0xE0 + q2 && w[1] == 0x80 + q1 % 0x40 && w[2] == 0x80 + n % 0x40;
    assert SecondFits(w[0], w[1]);
    assert Continued(w, 3) == 2;
  }

  lemma DecodeFour(c: char, w: seq<Byte>)
    requires |EncodeChar(c)| == 4 && |w| >= 4 && w[..4] == EncodeChar(c)
    ensures DecodeOne(w) == (c, 4)
  {
    var n := c as int;
    var q1, q2, q3 := n / 0x40, n / 0x40 / 0x40, n / 0x40 / 0x40 / 0x40;
    assert n == n % 0x40 + 0x40 * q1 && q1 == q1 % 0x40 + 0x40 * q2 && q2 == q2 % 0x40 + 0x40 * q3;
    assert w[0] == 0xF0 + q3 && w[1] == 0x80 + q2 % 0x40;
    assert w[2] == 0x80 + q1 % 0x40 && w[3] == 0x80 + n % 0x40;
    assert SecondFits(w[0], w[1]);
    assert Continued(w, 4) == 3;
  }

  /** UTF-8 round trip: decoding the bytes of a string gives the string. */
  lemma {:induction false} Utf8RoundTrip(s: string)
    ensures DecodeUtf8(Utf8(s)) == s
  {
    if s != [] {
      var e, rest := EncodeChar(s[0]), Utf8(s[1..]);
      DecodeEncoded(s[0], rest);
      assert (e + rest)[|e|..] == rest;
      Utf8RoundTrip(s[1..]);
    }
  }

  /** ASCII text takes one byte per character, so its byte count is its length. */
  lemma {:induction false} AsciiUtf8(s: string)
    requires forall i :: 0 <= i < |s| ==> s[i] as int < 0x80
    ensures |Utf8(s)| == |s|
    ensures forall i :: 0 <= i < |s| ==> Utf8(s)[i] == s[i] as int
  {
    if s != [] {
      AsciiUtf8(s[1..]);
      assert Utf8(s) == [s[0] as int] + Utf8(s[1..]);
    }
  }

  /** A string the writer can prefix with its byte count. */
  predicate Writable(s: string) {
    |Utf8(s)| < Two31
  }

  /** `Write(string)`: the UTF-8 byte count as a 7-bit integer, then the bytes. */
  function WriteString(s: string): seq<Byte>
    requires Writable(s)
  {
    Write7BitInt(|Utf8(s)|) + Utf8(s)
  }

  /**
   * The length-prefixed bytes of a string: the 7-bit count, then that many
   * bytes. A negative count is refused, and so is a count running past the end.
   */
  function ReadCounted(d: seq<Byte>): (r: Result<(seq<Byte>, seq<Byte>), Failure>)
    ensures r.Ok? ==> |r.value.0| + |r.value.1| < |d|
  {
    match Read7BitInt(d)
    case Err(e) => Err(e)
    case Ok((n, q)) =>
      if n < 0 then Err(NegativeLength)
      else if n > |q| then Err(EndOfStream)
      else Ok((q[..n], q[n..]))
  }

  /**
   * `ReadString`: the counted bytes, decoded as UTF-8 on their own. The
   * decoder state that .NET carries from one string into the next is not
   * kept.
   */
  function ReadString(d: seq<Byte>): (r: Result<(string, seq<Byte>), Failure>)
    ensures r.Ok? ==> |r.value.1| < |d|
  {
    match ReadCounted(d)
    case Err(e) => Err(e)
    case Ok((w, q)) => Ok((DecodeUtf8(w), q))
  }

  /** Bytes behind their count read back as those bytes, whatever follows them. */
  lemma CountedRoundTrip(body: seq<Byte>, rest: seq<Byte>)
    requires |body| < Two31
    ensures ReadCounted((Write7BitInt(|body|) + body) + rest) == Ok((body, rest))
  {
    var len := Write7BitInt(|body|);
    assert (len + body) + rest == len + (body + rest);
    Int7BitRoundTrip(|body|, body + rest);
    assert (body + rest)[..|body|] == body && (body + rest)[|body|..] == rest;
  }

  /** A string reads back as itself, whatever follows it. */
  lemma StringRoundTrip(s: string, rest: seq<Byte>)
    requires Writable(s)
    ensures ReadString(WriteString(s) + rest) == Ok((s, rest))
  {
    CountedRoundTrip(Utf8(s), rest);
    Utf8RoundTrip(s);
  }
}
