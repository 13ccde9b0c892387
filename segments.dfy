/**
 * Segment encoding of TM1637.cpp: the character table (char2segments), the numeral table
 * (tube_tab) and coding, which resolves one int8_t display argument to a segment byte.
 *
 * Segment bits: 0x01 top, 0x02 upper right, 0x04 lower right, 0x08 bottom, 0x10 lower left,
 * 0x20 upper left, 0x40 middle; bit 7 (0x80) is the clock point ":".
 */
module Segments {

  /** A C int8_t; on AVR a plain char is one too. */
  type Int8 = x: int | -128 <= x < 128

  /** A C uint8_t, and the 8-bit pattern that goes out on the wire. */
  type Byte = x: int | 0 <= x < 256

  /** The two's-complement bit pattern of an int8_t. */
  function ToByte(x: Int8): (b: Byte)
    ensures b % 256 == x % 256
    ensures b < 0x80 <==> x >= 0
  {
    if x < 0 then x + 256 else x
  }

  /** Conversion of any integer to int8_t, keeping the low eight bits. */
  function ToInt8(x: int): (r: Int8)
    ensures (x - r) % 256 == 0
    ensures 0 <= x < 256 ==> ToByte(r) == x
    ensures -128 <= x < 128 ==> r == x
  {
    var m := x % 256;
    if m >= 128 then m - 256 else m
  }

  /** The argument that coding turns into an empty digit. */
  const Blank: Int8 := 0x7f

  /** The characters the character table gives a lit glyph: four symbols and the upper-case letters. */
  predicate Lit(ch: char)
  {
    ch in "_^-*" || 'A' <= ch <= 'Z'
  }

  /** The character table: the glyph for a symbol or a letter, 0 for anything not listed. */
  function Char2Segments(c: Int8): (seg: Byte)
    ensures seg < 0x80
    ensures seg != 0 <==> 0 <= c && Lit(c as char)
    ensures 'a' as int <= c <= 'z' as int ==> seg == 0
  {
    if c < 0 then 0
    else
      match c as char
      case '_' => 0x08
      case '^' => 0x01
      case '-' => 0x40
      case '*' => 0x63
      case ' ' => 0x00
      case 'A' => 0x77
      case 'B' => 0x7c
      case 'C' => 0x39
      case 'D' => 0x5e
      case 'E' => 0x79
      case 'F' => 0x71
      case 'G' => 0x35
      case 'H' => 0x76
      case 'I' => 0x06
      case 'J' => 0x1e
      case 'K' => 0x75
      case 'L' => 0x38
      case 'M' => 0x37
      case 'N' => 0x54
      case 'O' => 0x5c
      case 'P' => 0x73
      case 'Q' => 0x67
      case 'R' => 0x50
      case 'S' => 0x6d
      case 'T' => 0x78
      case 'U' => 0x1c
      case 'V' => 0x3e
      case 'W' => 0x2a
      case 'X' => 0x76
      case 'Y' => 0x6e
      case 'Z' => 0x1b
      case _ => 0
  }

  /**
   * The numeral table: 0-9, A, b, C, d, E, F. Every numeral lights some segment, leaves the
   * point off, and has a glyph of its own.
   */
  function TubeTab(): (t: seq<Byte>)
    ensures |t| == 16
    ensures forall i :: 0 <= i < 16 ==> 0 < t[i] < 0x80
    ensures forall i, j :: 0 <= i < j < 16 ==> t[i] != t[j]
  {
    [0x3f, 0x06, 0x5b, 0x4f,
     0x66, 0x6d, 0x7d, 0x07,
     0x7f, 0x6f, 0x77, 0x7c,
     0x39, 0x5e, 0x79, 0x71]
  }

  /** coding before the point bit: blank sentinel, numeral value, digit character, character table. */
  function Glyph(v: Int8): (seg: Byte)
    ensures seg < 0x80
  {
    if v == Blank then 0
    else if 0 <= v < |TubeTab()| then TubeTab()[v]
    else if '0' as int <= v <= '9' as int then TubeTab()[v - '0' as int]
    else Char2Segments(v)
  }

  /**
   * coding(int8_t): the glyph plus 0x80 when the point is on. The sum is stored back
   * into an int8_t, so the result wraps; its bit pattern is glyph | 0x80.
   */
  function Coding(v: Int8, pointOn: bool): (r: Int8)
    ensures ToByte(r) == Glyph(v) + (if pointOn then 0x80 else 0)
  {
    ToInt8(Glyph(v) + if pointOn then 0x80 else 0)
  }

  /** coding applied to every element. */
  function CodedAll(raw: seq<Int8>, pointOn: bool): (r: seq<Int8>)
    ensures |r| == |raw|
    ensures forall i :: 0 <= i < |raw| ==> ToByte(r[i]) == Glyph(raw[i]) + (if pointOn then 0x80 else 0)
  {
    seq(|raw|, i requires 0 <= i < |raw| => Coding(raw[i], pointOn))
  }

  /** The four cases of coding, tried in this order, give the low seven bits. */
  lemma CodingResolution(v: Int8, pointOn: bool)
    ensures v == Blank ==> ToByte(Coding(v, pointOn)) % 0x80 == 0
    ensures v != Blank && 0 <= v < 16 ==> ToByte(Coding(v, pointOn)) % 0x80 == TubeTab()[v]
    ensures !(0 <= v < 16) && '0' as int <= v <= '9' as int ==>
              ToByte(Coding(v, pointOn)) % 0x80 == TubeTab()[v - '0' as int]
    ensures v != Blank && !(0 <= v < 16) && !('0' as int <= v <= '9' as int) ==>
              ToByte(Coding(v, pointOn)) % 0x80 == Char2Segments(v)
  {
    var g := Glyph(v);
    assert ToByte(Coding(v, pointOn)) == g + (if pointOn then 0x80 else 0);
    assert ToByte(Coding(v, pointOn)) % 0x80 == g;
  }

  /** The digit characters '0'..'9' render exactly as the values 0..9. */
  lemma DigitCharsAsValues(k: int, pointOn: bool)
    requires 0 <= k <= 9
    ensures Coding('0' as int + k, pointOn) == Coding(k, pointOn)
  {
  }

  /** The letters A-F of the character table agree with the hex part of the numeral table. */
  lemma HexLettersAsValues(k: int, pointOn: bool)
    requires 10 <= k <= 15
    ensures Coding('A' as int + k - 10, pointOn) == Coding(k, pointOn)
  {
  }

  /** The point flag decides bit 7 alone: off clears it, on sets it and leaves bits 0-6 alone. */
  lemma PointOnlyBit7(v: Int8)
    ensures (ToByte(Coding(v, false)) as bv8) & 0x80 == 0
    ensures ToByte(Coding(v, true)) as bv8 == (ToByte(Coding(v, false)) as bv8) | 0x80
  {
    var g := Glyph(v);
    assert ToByte(Coding(v, false)) == g;
    assert ToByte(Coding(v, true)) == g + 0x80;
    TopBitFree(g);
  }

  /** Below 0x80, bit 7 is clear, and adding 0x80 sets it. */
  lemma TopBitFree(g: Byte)
    requires g < 0x80
    ensures (g as bv8) & 0x80 == 0
    ensures (g + 0x80) as bv8 == (g as bv8) | 0x80
  {
  }

  /** The blank sentinel lights nothing but the point: 0x00, or 0x80 with the point on. */
  lemma BlankSentinel(pointOn: bool)
    ensures ToByte(Coding(Blank, pointOn)) == if pointOn then 0x80 else 0x00
  {
  }

  /**
   * A value that is not the blank sentinel, not a numeral value 0..15, not a digit character and
   * not a character with a lit glyph renders blank: negative values, lower-case letters, codes
   * 16..31 and punctuation among them.
   */
  lemma UnlistedRendersBlank(v: Int8, pointOn: bool)
    requires !(0 <= v < 16) && !('0' as int <= v <= '9' as int)
    requires v < 0 || !Lit(v as char)
    ensures ToByte(Coding(v, pointOn)) == if pointOn then 0x80 else 0x00
  {
  }
}
