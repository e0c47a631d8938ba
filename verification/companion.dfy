/**
 * The widget's fixed constants: defaults for the border, the initials and the
 * measured size, and the eight background colours the initials are drawn on.
 */
module Companion {
  import opened Numeric

  /** Default border width, in density-independent units. */
  const DefaultBorderWidthDp: int := 2
  /** Default measured size, in density-independent units. */
  const DefaultSizeDp: int := 40
  /** Initials shown until others are configured. */
  const DefaultInitialsText: string := "??"

  /**
   * `Color.parseColor("#RRGGBB")`: a six-digit colour is fully opaque, so the
   * alpha byte is 0xFF and the packed ARGB value, read as a signed `Int`, is
   * negative.
   */
  function OpaqueRgb(rgb: int): (c: Int32)
    requires 0 <= rgb <= 0xFF_FFFF
    ensures c < 0
    ensures (c + 0x1_0000_0000) % 0x100_0000 == rgb
    ensures (c + 0x1_0000_0000) / 0x100_0000 == 0xFF
  {
    0xFF00_0000 + rgb - 0x1_0000_0000
  }

  /** `Color.WHITE`, the default border colour and the initials' text colour. */
  const White: Int32 := OpaqueRgb(0xFF_FFFF)
  const DefaultBorderColor: Int32 := White
  const DefaultInitialsColor: Int32 := White

  /** `bgColors`: the palette the initials' first character selects from. */
  const BgColors: seq<Int32> := [
    OpaqueRgb(0x7BC862),
    OpaqueRgb(0xE17076),
    OpaqueRgb(0xFAA774),
    OpaqueRgb(0x6EC9CB),
    OpaqueRgb(0x65AADD),
    OpaqueRgb(0xA695E7),
    OpaqueRgb(0xEE7AAE),
    OpaqueRgb(0x2136F3)
  ]

  /** The display's pixels per density-independent unit, always positive. */
  type Density = d: real | d > 0.0 witness 1.0

  /** `dpToPx`: a length in density-independent units scaled to pixels. */
  function DpToPx(dp: int, density: Density): (px: real)
    ensures dp >= 0 ==> px >= 0.0
    ensures dp > 0 ==> px > 0.0
    ensures px / density == dp as real
  {
    dp as real * density
  }
}
