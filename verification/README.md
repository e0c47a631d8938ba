# CircleImageView, modelled in Dafny

`CircleImageView` is an Android image view that draws its image clipped to a
circle or, in initials mode, a coloured circle with the user's initials, and
strokes a ring border around either. This project models the part of it that
does not depend on Android: the widget's state record (`avatarMode`, the
attached drawable, `borderWidth`, `borderColor`, `initials`, `size`,
`viewRect`, the border paint and the shader's crop window) and the pure rules
that build, update and read it.

- `results.dfy` — `Option` and `Result` for nullable values and thrown exceptions.
- `numeric.dfy` — Kotlin `Int`, `truncate`, `toInt()` and `rem`; the proof that
  the floating-point palette index is exactly `b rem 8`.
- `companion.dfy` — the companion object's constants and the `bgColors` palette.
- `initials.dfy` — `initialsToColor` as written, its faults, and a corrected version.
- `geometry.dfy` — `Rect`, `Rect.inset`, and the centre-crop window of `prepareShader`.
- `measure.dfy` — `resolveDefaultSize` and `onMeasure` over an opaque measure-spec codec.
- `parcels.dfy` — `SavedState`, its parcel write and read, and their round trip.
- `widget.dfy` — construction, setters, `toggleMode`, `onSizeChanged`,
  `prepareShader`, the image setters, what `onDraw` paints, save/restore, and
  an invariant kept by any sequence of events.

Floating-point values are modelled as exact reals. A measure spec is the
host's packed `Int`: it is ordered as an `Int` and decoded only through the
`modeOf`/`sizeOf` functions of a `SpecCodec`, because its bit layout belongs
to the host framework. The display density is a positive parameter fixed at
construction.

Four behaviours of the code are worth stating up front:

- `size` is declared 0 and never assigned, so `coerceAtLeast(size)` in
  `onMeasure` never takes effect (`Widget.MeasureAfterAnyEvents`).
- `coerceAtMost` in `onMeasure` compares the encoded specs, not the sizes
  they carry (`Measure.MeasureComparesEncodings`).
- `initialsToColor` throws when the low byte of the first UTF-16 code unit
  is 0x80 or above and not a multiple of 8, for instance for 'é'; initials
  such as Cyrillic 'А' (low byte 0x10) or 'ø' (low byte 0xF8, which is -8)
  get a colour (see Findings).
- The public `borderWidth` property can be assigned directly; its setter
  does not restroke the border paint (see Findings).

## Model

| member | source | states |
|---|---|---|
| `Numeric.Truncate` | app/src/main/java/com/netherpyro/circleimageview/CircleImageView.kt:249 | `truncate` returns the integer within one of its argument on the side of zero: at or below a non-negative value, at or above a negative one |
| `Numeric.ToInt` | app/src/main/java/com/netherpyro/circleimageview/CircleImageView.kt:117 | `toInt()` truncates toward zero inside the `Int` range and saturates at its bounds outside it |
| `Numeric.FractionalPartIsRem` | app/src/main/java/com/netherpyro/circleimageview/CircleImageView.kt:248-249 | scaling the signed fractional part of `b / 8.0` back by 8 and truncating gives exactly `b rem 8`, for every integer `b` |
| `Numeric.RemIsRemainder` | app/src/main/java/com/netherpyro/circleimageview/CircleImageView.kt:249 | `b rem 8`, the index the source computes, differs from `b` by a multiple of 8 and takes the sign of `b` |
| `Companion.OpaqueRgb` | app/src/main/java/com/netherpyro/circleimageview/CircleImageView.kt:40-49 | a `#RRGGBB` colour parses to alpha 0xFF with the given RGB, a negative signed `Int` |
| `Companion.DpToPx` | app/src/main/java/com/netherpyro/circleimageview/CircleImageView.kt:288 | a dp length scaled by the density: dividing back by the density recovers it, and its sign is kept |
| `Initials.FirstCodeUnit` | app/src/main/java/com/netherpyro/circleimageview/CircleImageView.kt:246 | `letters[0]` is a UTF-16 code unit: the character itself in the BMP, beyond it the high surrogate `0xD800 + (code - 0x10000) / 0x400` |
| `Initials.SignedLowByte` | app/src/main/java/com/netherpyro/circleimageview/CircleImageView.kt:246 | `toByte()` yields a value in [-128, 128) congruent to the code unit modulo 256 |
| `Initials.InitialByte` | app/src/main/java/com/netherpyro/circleimageview/CircleImageView.kt:246 | `letters[0].toByte()` is the signed byte in [-128, 128) congruent modulo 256 to the first UTF-16 code unit of the initials |
| `Initials.PaletteIndex` | app/src/main/java/com/netherpyro/circleimageview/CircleImageView.kt:247-249 | the computed index equals `b rem 8`, and it lies in [0, 8) exactly when `b >= 0` or `b` is a multiple of 8 |
| `Initials.InitialsToColor` | app/src/main/java/com/netherpyro/circleimageview/CircleImageView.kt:245-252 | empty initials throw; otherwise the colour is `bgColors[b rem 8]` when that index is non-negative and an index fault otherwise; it succeeds exactly when the string is non-empty and `b >= 0` or `b % 8 == 0` |
| `Initials.NonAsciiInitialFaults` | app/src/main/java/com/netherpyro/circleimageview/CircleImageView.kt:246-251 | initials starting with 'é' (byte -23) fault with index -7 |
| `Initials.EmptyInitialsFault` | app/src/main/java/com/netherpyro/circleimageview/CircleImageView.kt:246 | empty initials fault on `letters[0]` |
| `Initials.InitialsToColorFixed` | app/src/main/java/com/netherpyro/circleimageview/CircleImageView.kt:245-252 | the corrected lookup always returns a palette colour, agrees with the source wherever the source succeeds, and treats empty initials as `"??"` |
| `Initials.InitialsColorTable` | app/src/main/java/com/netherpyro/circleimageview/CircleImageView.kt:40-49 | regression table: `"??"` gets #2136F3, `"AB"` #E17076, byte 8 and byte -128 wrap to #7BC862 |
| `Geometry.Inset` | app/src/main/java/com/netherpyro/circleimageview/CircleImageView.kt:119-120 | `inset(dx, dy)` shrinks width by `2*dx` and height by `2*dy` about the same centre |
| `Geometry.InsetUndone` | app/src/main/java/com/netherpyro/circleimageview/CircleImageView.kt:119-120 | insetting by the negated amounts restores the rectangle |
| `Geometry.InsetStaysInside` | app/src/main/java/com/netherpyro/circleimageview/CircleImageView.kt:117-120 | a non-negative inset of at most half of each side stays inside the original and does not invert |
| `Geometry.CenterCrop` | app/src/main/java/com/netherpyro/circleimageview/CircleImageView.kt:203-207 | the `w x h` window at `(dX/2, dY/2)` lies within the `(w+dX) x (h+dY)` raster, its margins differing by at most one pixel per axis |
| `Measure.DefaultSize` | app/src/main/java/com/netherpyro/circleimageview/CircleImageView.kt:214 | the default size is `dpToPx(40)` truncated to an `Int`: never negative, within one pixel below the exact product, and `Int.MAX_VALUE` when the product reaches it |
| `Measure.ResolveDefaultSize` | app/src/main/java/com/netherpyro/circleimageview/CircleImageView.kt:212-218 | UNSPECIFIED resolves to the default size, AT_MOST and EXACTLY to the spec's size |
| `Measure.OnMeasure` | app/src/main/java/com/netherpyro/circleimageview/CircleImageView.kt:88-93 | the measured width equals the measured height, is at least `size` and at least the resolved size of the smaller-encoded spec, and is one of the two |
| `Measure.MeasureExactly` | app/src/main/java/com/netherpyro/circleimageview/CircleImageView.kt:88-93 | both specs exactly `n` with `size <= n` measure to `(n, n)` |
| `Measure.MeasureUnspecified` | app/src/main/java/com/netherpyro/circleimageview/CircleImageView.kt:88-93 | both specs unspecified with `size` 0 measure to the default square |
| `Measure.MeasureComparesEncodings` | app/src/main/java/com/netherpyro/circleimageview/CircleImageView.kt:91 | the spec with the smaller encoding wins even when it carries the larger size |
| `Parcels.FromSuperState` | app/src/main/java/com/netherpyro/circleimageview/CircleImageView.kt:255-259 | a fresh `SavedState` keeps the host state and starts with avatar mode on, width 0 and colour 0 |
| `Parcels.WriteToParcel` | app/src/main/java/com/netherpyro/circleimageview/CircleImageView.kt:269-277 | appends host state, mode as 1 or 0, width as a float and colour as an int, keeping earlier contents |
| `Parcels.ReadHost` | app/src/main/java/com/netherpyro/circleimageview/CircleImageView.kt:261 | the base class reads back the host state exactly when the slot at the position holds one, and moves one slot on |
| `Parcels.ReadInt` | app/src/main/java/com/netherpyro/circleimageview/CircleImageView.kt:263 | `readInt` succeeds exactly on an int slot, returning its value and the next position |
| `Parcels.ReadFloat` | app/src/main/java/com/netherpyro/circleimageview/CircleImageView.kt:264 | `readFloat` succeeds exactly on a float slot, returning its value and the next position |
| `Parcels.FromParcel` | app/src/main/java/com/netherpyro/circleimageview/CircleImageView.kt:261-267 | reading succeeds exactly when the next four slots are host, int, float, int; mode reads as `== 1` |
| `Parcels.ParcelRoundTrip` | app/src/main/java/com/netherpyro/circleimageview/CircleImageView.kt:261-277 | reading back what was written, from where writing started, yields the same snapshot and stops right after it |
| `Widget.Init` | app/src/main/java/com/netherpyro/circleimageview/CircleImageView.kt:52-86 | avatar mode is on exactly when a drawable is attached; each attribute given overrides its default and each missing one falls back to 2 dp, white or `"??"`; the paint matches both border fields; `size` is 0 |
| `Widget.ToggleMode` | app/src/main/java/com/netherpyro/circleimageview/CircleImageView.kt:188-193 | without a drawable nothing changes; with one only `avatarMode` flips |
| `Widget.ToggleTwice` | app/src/main/java/com/netherpyro/circleimageview/CircleImageView.kt:188-193 | toggling twice restores the original state |
| `Widget.SetInitials` | app/src/main/java/com/netherpyro/circleimageview/CircleImageView.kt:168-172 | stores the text; every other field is unchanged |
| `Widget.SetBorderColor` | app/src/main/java/com/netherpyro/circleimageview/CircleImageView.kt:174-179 | stores the colour in the field and the paint; the stroke width and all else are unchanged |
| `Widget.SetBorderWidth` | app/src/main/java/com/netherpyro/circleimageview/CircleImageView.kt:181-186 | stores the dp width converted to pixels in the field and as the stroke width; all else unchanged |
| `Widget.AssignBorderWidth` | app/src/main/java/com/netherpyro/circleimageview/CircleImageView.kt:52-53 | assigning the `borderWidth` property stores the width and changes nothing else, the border paint included |
| `Widget.AssignBorderWidthSynced` | app/src/main/java/com/netherpyro/circleimageview/CircleImageView.kt:52-53 | the corrected property setter also restrokes the paint with the new width, keeping the paint in step |
| `Widget.PrepareShader` | app/src/main/java/com/netherpyro/circleimageview/CircleImageView.kt:195-210 | no-op for width 0 or no drawable; otherwise only the crop window changes, to the `w x h` window at `(dX/2, dY/2)` inside the enlarged raster |
| `Widget.OnSizeChanged` | app/src/main/java/com/netherpyro/circleimageview/CircleImageView.kt:95-108 | width 0 leaves the state unchanged; otherwise `viewRect` becomes `(0,0,w,h)`, the crop window is rebuilt when a drawable is attached and kept when none is, and nothing else changes |
| `Widget.OnSizeChangedIdempotent` | app/src/main/java/com/netherpyro/circleimageview/CircleImageView.kt:95-108 | repeating the call with the same dimensions gives the same state |
| `Widget.SetImage` | app/src/main/java/com/netherpyro/circleimageview/CircleImageView.kt:150-166 | attaches the drawable; the crop window is rebuilt in avatar mode with a positive width and a drawable, and kept otherwise; nothing else changes |
| `Widget.BorderHalf` | app/src/main/java/com/netherpyro/circleimageview/CircleImageView.kt:117 | `half` is `borderWidth / 2` rounded toward zero: for a non-negative width the largest integer with `2*half <= borderWidth`, for a negative one the smallest with `borderWidth <= 2*half` |
| `Widget.OnDraw` | app/src/main/java/com/netherpyro/circleimageview/CircleImageView.kt:110-123 | throws exactly when it would draw initials and `initialsToColor` throws, with that exception; otherwise draws what `OnDrawFixed` draws |
| `Widget.OnDrawFixed` | app/src/main/java/com/netherpyro/circleimageview/CircleImageView.kt:110-123 | avatar fill exactly when a drawable is attached and avatar mode is on, else initials in white on the corrected colour `InitialsToColorFixed`, so empty initials draw on the colour of `"??"`; the border oval is `viewRect` inset by `half` on all four sides, stroked with the border paint |
| `Widget.OnDrawMatchesSourceColor` | app/src/main/java/com/netherpyro/circleimageview/CircleImageView.kt:224-226 | whenever the source's colour lookup succeeds, the drawn background is that colour |
| `Widget.AssignedWidthLeavesStrokeStale` | app/src/main/java/com/netherpyro/circleimageview/CircleImageView.kt:117-122 | on a 100 px view at density 1, assigning 10 px to the property insets the border oval to `(5, 5, 95, 95)` while the paint still strokes 2 px |
| `Widget.BorderInsideView` | app/src/main/java/com/netherpyro/circleimageview/CircleImageView.kt:117-122 | a border no wider than the view keeps the border oval inside `viewRect` |
| `Widget.OnSaveInstanceState` | app/src/main/java/com/netherpyro/circleimageview/CircleImageView.kt:125-132 | the snapshot holds the host state and the widget's mode, border width and border colour |
| `Widget.OnRestoreInstanceState` | app/src/main/java/com/netherpyro/circleimageview/CircleImageView.kt:134-148 | a foreign value changes nothing; a `SavedState` sets exactly mode, width and colour and resyncs the paint |
| `Widget.SaveRestoreRoundTrip` | app/src/main/java/com/netherpyro/circleimageview/CircleImageView.kt:125-148 | restoring a saved snapshot reinstates the saved mode, width and colour and leaves every other field of the target alone |
| `Widget.SaveRestoreThroughParcel` | app/src/main/java/com/netherpyro/circleimageview/CircleImageView.kt:125-148 | the snapshot written to a parcel after any earlier contents reads back unchanged, ending four slots later; restoring it reinstates the saved mode, width and colour, resyncs the paint and leaves every other field of the target alone |
| `Widget.ApplyKeepsInvariant` | app/src/main/java/com/netherpyro/circleimageview/CircleImageView.kt:134-193 | each setter (the `borderWidth` property included), toggle, size change, image change or restore keeps the paint colour equal to the border colour, `size` at 0, `viewRect` at the origin and the crop inside its raster |
| `Widget.RunKeepsInvariant` | app/src/main/java/com/netherpyro/circleimageview/CircleImageView.kt:52-66 | any sequence of events keeps that invariant and the display density |
| `Widget.ApplyKeepsPaintInSync` | app/src/main/java/com/netherpyro/circleimageview/CircleImageView.kt:134-193 | every event other than assigning the `borderWidth` property keeps the paint's colour and stroke width equal to the border fields |
| `Widget.RunKeepsPaintInSync` | app/src/main/java/com/netherpyro/circleimageview/CircleImageView.kt:134-193 | any sequence of events without a `borderWidth` property assignment keeps the paint in step |
| `Widget.OnMeasure` | app/src/main/java/com/netherpyro/circleimageview/CircleImageView.kt:88-93 | the widget measures square and no smaller than its `size` |
| `Widget.MeasureAfterAnyEvents` | app/src/main/java/com/netherpyro/circleimageview/CircleImageView.kt:88-93 | after construction and any events, the measured square is exactly the resolved size of the smaller-encoded spec, because `size` stays 0 |

## Findings

| source | as written | input that shows it | evidently intended | confidence | as-written member | corrected member |
|---|---|---|---|---|---|---|
| app/src/main/java/com/netherpyro/circleimageview/CircleImageView.kt:246-251 | the index `b rem 8` takes the sign of the signed byte `b`, so it is negative for negative bytes that are not multiples of 8, and `bgColors[index]` throws | initials `"é"`: byte 0xE9 is -23, index -7 | every initial selects one of the eight colours | high on the fault, medium on the intended colour; not executed | `Initials.InitialsToColor`, `Initials.NonAsciiInitialFaults`, `Widget.OnDraw` | `Initials.InitialsToColorFixed`, `Widget.OnDrawFixed` |
| app/src/main/java/com/netherpyro/circleimageview/CircleImageView.kt:168-172 | `setInitials("")` is accepted, and the next draw in initials mode throws on `letters[0]` | initials `""` | empty initials draw as the default `"??"` | medium; not executed | `Initials.InitialsToColor`, `Initials.EmptyInitialsFault`, `Widget.OnDraw` | `Initials.InitialsToColorFixed`, `Widget.OnDrawFixed` |
| app/src/main/java/com/netherpyro/circleimageview/CircleImageView.kt:52-53 | the public `borderWidth` property's default setter stores the width but leaves `borderPaint.strokeWidth` alone, so `onDraw` insets the border by the new half width and strokes it with the old width | default state at density 1 laid out at 100 × 100, then `borderWidth = 10f`: border oval (5, 5, 95, 95), stroke 2 px | the stroke follows the new width, as `setBorderWidth` (181-186) arranges | medium; not executed | `Widget.AssignBorderWidth`, `Widget.AssignedWidthLeavesStrokeStale` | `Widget.AssignBorderWidthSynced` |

`Widget.OnDraw` models the drawing as written and passes the colour
lookup's exception through; `Widget.OnDrawFixed` uses the corrected colour,
and `Widget.OnDrawMatchesSourceColor` shows it is the source's colour
wherever the source does not throw. The event model (`Widget.Apply`) keeps
the `borderWidth` property setter as written, so its invariant holds for the
code as it is; `Widget.RunKeepsPaintInSync` shows that this setter is the
only event that lets the paint fall out of step.

## Left out

- Canvas drawing (`drawAvatar`, the oval fills, the text size `0.33 × height`
  and the font-metric baseline correction): rendering side effects; the model
  keeps only which ovals are drawn, where, and with what fill.
- `drawable.toBitmap`, `Bitmap.createBitmap` and `BitmapShader`: foreign
  library calls whose pixels are not visible; the shader is modelled by its crop window.
- The floating-point `wFactor`, `hFactor`, `dX` and `dY` of `prepareShader`:
  `dX` and `dY` are parameters taken as non-negative, which holds when both
  intrinsic sizes of the drawable are positive (both factors are then at
  least 1). A drawable with a non-positive intrinsic size on one side only
  makes a factor negative or infinite; that case is not modelled.
- Widget.PrepareShader, Widget.OnSizeChanged, Widget.SetImage: do not model
  Android's refusal to create a zero-height bitmap when `w > 0` and
  `h == 0`, reached from all three; those checks live in the host library.
- Float rounding: reals stand for `Float`/`Double`, NaN and infinities do not
  arise, and the `dpToPx` product is exact.
- Widget.SetBorderWidth: states the exact product `width × density`, not its
  rounding to a 32-bit float.
- The bit layout of `MeasureSpec` and the call to `super.onMeasure`, whose
  result `setMeasuredDimension` overrides.
- Attribute parsing through `obtainStyledAttributes`: attributes arrive as
  optional values; `scaleType = CENTER_CROP` affects only the host's own drawing.
- `invalidate()` redraw scheduling.
- Superclass state chaining: the host's snapshot is one opaque parcel slot,
  and `super.onRestoreInstanceState` is host plumbing.
- Parcels.FromParcel, Parcels.ReadInt, Parcels.ReadFloat, Parcels.ReadHost:
  report an exhausted or mistyped parcel as a failure,
  where the host's parcel would read zeroes; the parcel class is not part of this model.
- `describeContents` and `CREATOR.newArray`: constant and allocation plumbing.
- `Rect` coordinates are unbounded integers; 32-bit overflow of `inset` is not modelled.
