/**
 * `onMeasure` and `resolveDefaultSize`. A measure spec is the host's packed
 * `Int`; its bit layout belongs to the host framework, so the model keeps it
 * opaque and reads it only through the two decoders of a `SpecCodec`. The
 * order of specs is the order of their encoded `Int` values.
 */
module Measure {
  import opened Numeric
  import opened Companion

  /** The three measure-spec modes. */
  datatype SpecMode = Unspecified | AtMost | Exactly

  /** `MeasureSpec.getMode` and `MeasureSpec.getSize`. */
  datatype SpecCodec = SpecCodec(modeOf: Int32 -> SpecMode, sizeOf: Int32 -> nat)

  /** The default side length, `dpToPx(DEFAULT_SIZE).toInt()`. */
  function DefaultSize(density: Density): (px: Int32)
    ensures px >= 0
    ensures DpToPx(DefaultSizeDp, density) < IntMax as real ==>
              px as real <= DpToPx(DefaultSizeDp, density) < px as real + 1.0
    ensures DpToPx(DefaultSizeDp, density) >= IntMax as real ==> px == IntMax
  {
    ToInt(DpToPx(DefaultSizeDp, density))
  }

  /**
   * `resolveDefaultSize`: an unspecified spec yields the default size; an
   * at-most or exact spec yields the size it carries. (The source's `else`
   * arm, also yielding the carried size, is unreachable with three modes.)
   */
  function ResolveDefaultSize(codec: SpecCodec, spec: Int32, density: Density): (px: int)
    ensures px >= 0
    ensures codec.modeOf(spec) == Unspecified ==> px == DefaultSize(density)
    ensures codec.modeOf(spec) != Unspecified ==> px == codec.sizeOf(spec)
  {
    match codec.modeOf(spec)
    case Unspecified => DefaultSize(density)
    case AtMost => codec.sizeOf(spec)
    case Exactly => codec.sizeOf(spec)
  }

  /**
   * `onMeasure`: the spec with the smaller encoding (`coerceAtMost`) is
   * resolved, and that size raised to at least `size` (`coerceAtLeast`)
   * becomes both the measured width and the measured height.
   */
  function OnMeasure(codec: SpecCodec, widthSpec: Int32, heightSpec: Int32, size: int, density: Density): (dims: (int, int))
    ensures dims.0 == dims.1
    ensures dims.0 >= size
    ensures var chosen := if widthSpec <= heightSpec then widthSpec else heightSpec;
            var resolved := ResolveDefaultSize(codec, chosen, density);
            dims.0 >= resolved && (dims.0 == resolved || dims.0 == size)
  {
    var initSize := ResolveDefaultSize(codec, if widthSpec <= heightSpec then widthSpec else heightSpec, density);
    var side := if initSize < size then size else initSize;
    (side, side)
  }

  /** Two identical exact specs no smaller than `size` measure to exactly their size. */
  lemma MeasureExactly(codec: SpecCodec, spec: Int32, size: int, density: Density)
    requires codec.modeOf(spec) == Exactly && size <= codec.sizeOf(spec)
    ensures OnMeasure(codec, spec, spec, size, density) == (codec.sizeOf(spec), codec.sizeOf(spec))
  {
  }

  /** With both specs unspecified the widget proposes the default square. */
  lemma MeasureUnspecified(codec: SpecCodec, widthSpec: Int32, heightSpec: Int32, density: Density)
    requires codec.modeOf(widthSpec) == Unspecified && codec.modeOf(heightSpec) == Unspecified
    ensures OnMeasure(codec, widthSpec, heightSpec, 0, density) == (DefaultSize(density), DefaultSize(density))
  {
  }

  /**
   * The specs are compared by encoding, not by the sizes they carry: under a
   * codec whose sizes fall as the encoding rises, the spec carrying the
   * larger size wins.
   */
  lemma MeasureComparesEncodings(density: Density)
    ensures var codec := SpecCodec(_ => Exactly, s => if s < 0 then 500 else 50);
            codec.sizeOf(-1) > codec.sizeOf(1) && OnMeasure(codec, -1, 1, 0, density) == (500, 500)
  {
  }
}
