/**
 * `initialsToColor`: the background colour of the initials circle, chosen
 * from the palette by the first character of the initials.
 */
module Initials {
  import opened Numeric
  import opened Results
  import opened Companion

  /** The exceptions `initialsToColor` can throw. */
  datatype Fault =
    | StringIndexOutOfBounds               // `letters[0]` of an empty string
    | ArrayIndexOutOfBounds(index: int)     // `bgColors[index]` with a negative index

  /**
   * The first UTF-16 code unit of a character: Kotlin strings index code
   * units, so a character outside the Basic Multilingual Plane contributes
   * its high surrogate.
   */
  function FirstCodeUnit(c: char): (u: int)
    ensures 0 <= u < 0x1_0000
    ensures (c as int) < 0x1_0000 ==> u == c as int
    ensures (c as int) >= 0x1_0000 ==> 0xD800 <= u < 0xDC00
    ensures (c as int) >= 0x1_0000 ==>
              (u - 0xD800) * 0x400 <= c as int - 0x1_0000 < (u - 0xD800 + 1) * 0x400
  {
    var code := c as int;
    if code < 0x1_0000 then code else 0xD800 + (code - 0x1_0000) / 0x400
  }

  /** `Char.toByte()`: the low eight bits of the code unit, read as a signed byte. */
  function SignedLowByte(u: int): (b: int)
    ensures -128 <= b < 128
    ensures (u - b) % 256 == 0
  {
    var low := u % 256;
    if low >= 128 then low - 256 else low
  }

  /** The signed byte `letters[0].toByte()` the colour is derived from. */
  function InitialByte(c: char): (b: int)
    ensures -128 <= b < 128
    ensures (FirstCodeUnit(c) - b) % 256 == 0
  {
    SignedLowByte(FirstCodeUnit(c))
  }

  /**
   * The palette index `((d - truncate(d)) * 8).toInt()` with `d = b / 8.0`:
   * the signed fractional part of `b / 8` scaled back up, which is `b rem 8`.
   */
  function PaletteIndex(b: int): (i: int)
    requires -128 <= b < 128
    ensures i == Rem(b, 8)
    ensures 0 <= i < 8 <==> b >= 0 || b % 8 == 0
  {
    var len := |BgColors|;
    assert len == 8;
    var d := b as real / len as real;
    FractionalPartIsRem(b);
    RemInRange(b);
    ToInt((d - Truncate(d) as real) * len as real)
  }

  /** `b rem 8` is a valid index exactly when `b` is non-negative or a multiple of 8. */
  lemma RemInRange(b: int)
    ensures 0 <= Rem(b, 8) < 8 <==> b >= 0 || b % 8 == 0
  {
    if b < 0 {
      assert (-b) % 8 == 0 <==> b % 8 == 0;
    }
  }

  /**
   * `initialsToColor` as written: the palette entry at `PaletteIndex` of the
   * first character's byte. It throws on an empty string and whenever the
   * index comes out negative, which happens exactly for negative bytes that
   * are not multiples of 8.
   */
  function InitialsToColor(letters: string): (r: Result<Int32, Fault>)
    ensures |letters| == 0 ==> r == Failure(StringIndexOutOfBounds)
    ensures |letters| > 0 ==>
              var i := Rem(InitialByte(letters[0]), 8);
              (0 <= i ==> r == Success(BgColors[i])) &&
              (i < 0 ==> r == Failure(ArrayIndexOutOfBounds(i)))
    ensures r.Success? <==>
              |letters| > 0 && (InitialByte(letters[0]) >= 0 || InitialByte(letters[0]) % 8 == 0)
  {
    if |letters| == 0 then Failure(StringIndexOutOfBounds)
    else
      var index := PaletteIndex(InitialByte(letters[0]));
      if 0 <= index < |BgColors| then Success(BgColors[index])
      else Failure(ArrayIndexOutOfBounds(index))
  }

  /**
   * A Latin-1 initial faults: 'é' is U+00E9, whose byte 0xE9 is -23 as a
   * signed byte, and -23 rem 8 is -7.
   */
  lemma NonAsciiInitialFaults()
    ensures InitialsToColor("\U{E9}") == Failure(ArrayIndexOutOfBounds(-7))
  {
  }

  /** Empty initials fault before the palette is consulted. */
  lemma EmptyInitialsFault()
    ensures InitialsToColor("") == Failure(StringIndexOutOfBounds)
  {
  }

  /**
   * The evidently intended colour: the byte reduced modulo the palette size
   * so that every initial selects a colour, and empty initials treated as
   * the default text.
   */
  function InitialsToColorFixed(letters: string): (c: Int32)
    ensures c in BgColors
    ensures InitialsToColor(letters).Success? ==> c == InitialsToColor(letters).value
    ensures |letters| == 0 ==> c == InitialsToColor(DefaultInitialsText).value
  {
    var text := if |letters| == 0 then DefaultInitialsText else letters;
    BgColors[InitialByte(text[0]) % |BgColors|]
  }

  /** A few colours the formula assigns, pinned down as a regression table. */
  lemma InitialsColorTable()
    ensures InitialsToColor("??") == Success(OpaqueRgb(0x2136F3))     // '?' is 63, 63 rem 8 == 7
    ensures InitialsToColor("AB") == Success(OpaqueRgb(0xE17076))     // 'A' is 65, 65 rem 8 == 1
    ensures InitialsToColor("\U{8}") == Success(OpaqueRgb(0x7BC862))  // 8 rem 8 == 0
    ensures InitialsToColor("\U{80}") == Success(OpaqueRgb(0x7BC862)) // -128 rem 8 == 0
  {
    assert InitialByte('?') == 63;
    assert InitialByte('A') == 65;
    assert InitialByte('\U{8}') == 8;
    assert InitialByte('\U{80}') == -128;
  }
}
