/**
 * The widget itself: its state record and the rules that build, update and
 * read it — construction, the setters, `toggleMode`, `onSizeChanged` with
 * `prepareShader`, the image setters, what `onDraw` paints where, and the
 * saved-state hooks. Every transition is a pure function from the old state
 * to the new one.
 */
module Widget {
  import opened Numeric
  import opened Results
  import opened Companion
  import opened Initials
  import opened Geometry
  import opened Parcels
  import Measure

  /** The attached image, opaque: only its presence matters to the model. */
  datatype Drawable = Drawable(handle: nat)

  /** The stroke style of `borderPaint`. */
  datatype Paint = Paint(color: Int32, strokeWidth: real)

  /** The styled attributes the widget recognises; each may be missing. */
  datatype Attrs = Attrs(borderWidth: Option<real>, borderColor: Option<Int32>, initials: Option<string>)

  /**
   * Everything the widget's behaviour depends on. `density` is the display's
   * and never changes; `shader` is the crop window `avatarPaint`'s shader was
   * last built from, if any.
   */
  datatype State = State(
    density: Density,
    drawable: Option<Drawable>,
    avatarMode: bool,
    borderWidth: real,
    borderColor: Int32,
    initials: string,
    size: int,
    viewRect: Rect,
    borderPaint: Paint,
    shader: Option<Crop>)

  /** `borderPaint` strokes with the current border colour and width. */
  predicate PaintInSync(s: State) {
    s.borderPaint == Paint(s.borderColor, s.borderWidth)
  }

  /**
   * What every reachable state satisfies: the paint's colour mirrors the
   * border colour, `size` keeps its initial 0 (nothing assigns it), the view
   * rectangle is anchored at the origin, and any crop window lies within its
   * raster. The paint's stroke width is not part of it: assigning the
   * `borderWidth` property leaves the stroke width behind.
   */
  predicate Invariant(s: State) {
    && s.borderPaint.color == s.borderColor
    && s.size == 0
    && s.viewRect.left == 0 && s.viewRect.top == 0
    && s.viewRect.right >= 0 && s.viewRect.bottom >= 0
    && (s.shader.Some? ==> s.shader.value.InsideRaster())
  }

  /**
   * Construction: attribute values where given, defaults otherwise, the
   * border paint set from them, and initials mode forced when no image is
   * attached yet.
   */
  function Init(attrs: Option<Attrs>, drawable: Option<Drawable>, density: Density): (s: State)
    ensures s.avatarMode <==> drawable.Some?
    ensures s.drawable == drawable && s.density == density
    ensures Invariant(s) && PaintInSync(s)
    ensures s.viewRect == Rect(0, 0, 0, 0) && s.shader == None
    ensures attrs.None? ==>
              s.borderWidth == DpToPx(DefaultBorderWidthDp, density)
              && s.borderColor == White && s.initials == DefaultInitialsText
    ensures attrs.Some? && attrs.value.initials.Some? ==> s.initials == attrs.value.initials.value
    ensures attrs.Some? && attrs.value.initials.None? ==> s.initials == DefaultInitialsText
    ensures attrs.Some? && attrs.value.borderColor.Some? ==> s.borderColor == attrs.value.borderColor.value
    ensures attrs.Some? && attrs.value.borderColor.None? ==> s.borderColor == White
    ensures attrs.Some? && attrs.value.borderWidth.Some? ==> s.borderWidth == attrs.value.borderWidth.value
    ensures attrs.Some? && attrs.value.borderWidth.None? ==> s.borderWidth == DpToPx(DefaultBorderWidthDp, density)
  {
    var given := attrs.Some?;
    var borderWidth :=
      if given && attrs.value.borderWidth.Some? then attrs.value.borderWidth.value
      else DpToPx(DefaultBorderWidthDp, density);
    var borderColor :=
      if given && attrs.value.borderColor.Some? then attrs.value.borderColor.value
      else DefaultBorderColor;
    var initials :=
      if given && attrs.value.initials.Some? then attrs.value.initials.value
      else DefaultInitialsText;
    State(density, drawable, drawable.Some?, borderWidth, borderColor, initials,
          0, Rect(0, 0, 0, 0), Paint(borderColor, borderWidth), None)
  }

  /** `toggleMode`: flips the mode when an image is attached, else does nothing. */
  function ToggleMode(s: State): (r: State)
    ensures s.drawable.None? ==> r == s
    ensures s.drawable.Some? ==> r.avatarMode == !s.avatarMode
    ensures r.(avatarMode := s.avatarMode) == s
  {
    if s.drawable.Some? then s.(avatarMode := !s.avatarMode) else s
  }

  /** Toggling twice returns to the original state, image or not. */
  lemma ToggleTwice(s: State)
    ensures ToggleMode(ToggleMode(s)) == s
  {
  }

  /** `setInitials`: stores the text; nothing else changes. */
  function SetInitials(s: State, text: string): (r: State)
    ensures r.initials == text
    ensures r.(initials := s.initials) == s
  {
    s.(initials := text)
  }

  /** `setBorderColor`: stores the colour and restrokes the border paint with it. */
  function SetBorderColor(s: State, color: Int32): (r: State)
    ensures r.borderColor == color && r.borderPaint.color == color
    ensures r.borderPaint.strokeWidth == s.borderPaint.strokeWidth
    ensures r.(borderColor := s.borderColor, borderPaint := s.borderPaint) == s
  {
    s.(borderColor := color, borderPaint := s.borderPaint.(color := color))
  }

  /**
   * `setBorderWidth`: the width, given in density-independent units, is
   * stored in pixels and becomes the border paint's stroke width.
   */
  function SetBorderWidth(s: State, widthDp: Int32): (r: State)
    ensures r.borderWidth / s.density == widthDp as real
    ensures r.borderPaint.strokeWidth == r.borderWidth
    ensures r.borderPaint.color == s.borderPaint.color
    ensures r.(borderWidth := s.borderWidth, borderPaint := s.borderPaint) == s
  {
    var px := DpToPx(widthDp, s.density);
    s.(borderWidth := px, borderPaint := s.borderPaint.(strokeWidth := px))
  }

  /**
   * Assigning the public `borderWidth` property: its default setter stores
   * the pixel width and nothing else, so `borderPaint` keeps stroking with
   * the width it had before.
   */
  function AssignBorderWidth(s: State, px: real): (r: State)
    ensures r.borderWidth == px
    ensures r.borderPaint == s.borderPaint
    ensures r.(borderWidth := s.borderWidth) == s
  {
    s.(borderWidth := px)
  }

  /**
   * The width the property setter evidently should install: like
   * `setBorderWidth`, it restrokes the border paint with the new width, so
   * the paint stays in step with the field.
   */
  function AssignBorderWidthSynced(s: State, px: real): (r: State)
    ensures r.borderWidth == px && r.borderPaint.strokeWidth == px
    ensures r.borderPaint.color == s.borderPaint.color
    ensures PaintInSync(s) ==> PaintInSync(r)
    ensures r.(borderWidth := s.borderWidth, borderPaint := s.borderPaint) == s
  {
    s.(borderWidth := px, borderPaint := s.borderPaint.(strokeWidth := px))
  }

  /**
   * `prepareShader(w, h)`: with a positive width and an image attached, the
   * shader is rebuilt from the centre crop of a raster `dX` and `dY` pixels
   * larger than the view; otherwise nothing happens. `dX` and `dY` stand for
   * the excess the image's aspect ratio produces, never negative.
   */
  function PrepareShader(s: State, w: nat, h: nat, dX: nat, dY: nat): (r: State)
    ensures w == 0 || s.drawable.None? ==> r == s
    ensures w > 0 && s.drawable.Some? ==> r.shader == Some(CenterCrop(w, h, dX, dY))
    ensures w > 0 && s.drawable.Some? ==>
              && r.shader.Some? && r.shader.value.InsideRaster()
              && r.shader.value.width == w && r.shader.value.height == h
              && r.shader.value.rasterWidth == w + dX && r.shader.value.rasterHeight == h + dY
    ensures r.(shader := s.shader) == s
  {
    if w == 0 || s.drawable.None? then s
    else s.(shader := Some(CenterCrop(w, h, dX, dY)))
  }

  /**
   * `onSizeChanged`: a zero width is ignored; otherwise the view rectangle
   * becomes `(0, 0, w, h)` and the shader is prepared for it.
   */
  function OnSizeChanged(s: State, w: nat, h: nat, dX: nat, dY: nat): (r: State)
    ensures w == 0 ==> r == s
    ensures w > 0 ==> r.viewRect == Rect(0, 0, w, h)
    ensures w > 0 && s.drawable.Some? ==> r.shader == Some(CenterCrop(w, h, dX, dY))
    ensures w > 0 && s.drawable.None? ==> r.shader == s.shader
    ensures r.(viewRect := s.viewRect, shader := s.shader) == s
  {
    if w == 0 then s
    else PrepareShader(s.(viewRect := Rect(0, 0, w, h)), w, h, dX, dY)
  }

  /** Repeating a size change with the same dimensions changes nothing further. */
  lemma OnSizeChangedIdempotent(s: State, w: nat, h: nat, dX: nat, dY: nat)
    ensures var once := OnSizeChanged(s, w, h, dX, dY);
            OnSizeChanged(once, w, h, dX, dY) == once
  {
  }

  /**
   * `setImageBitmap`, `setImageDrawable` and `setImageResource`: the new
   * image (or none) is attached, and in avatar mode the shader is prepared
   * for the view's current `width` and `height`.
   */
  function SetImage(s: State, drawable: Option<Drawable>, width: nat, height: nat, dX: nat, dY: nat): (r: State)
    ensures r.drawable == drawable
    ensures !s.avatarMode ==> r.shader == s.shader
    ensures s.avatarMode && width > 0 && drawable.Some? ==> r.shader == Some(CenterCrop(width, height, dX, dY))
    ensures !(s.avatarMode && width > 0 && drawable.Some?) ==> r.shader == s.shader
    ensures r.(drawable := s.drawable, shader := s.shader) == s
  {
    var attached := s.(drawable := drawable);
    if s.avatarMode then PrepareShader(attached, width, height, dX, dY) else attached
  }

  /**
   * `(borderWidth / 2).toInt()`: half the border width, truncated toward
   * zero, so a negative width (reachable through every setter) rounds up.
   */
  function BorderHalf(borderWidth: real): (half: Int32)
    ensures 0.0 <= borderWidth < IntMax as real ==>
              0 <= half && 2.0 * half as real <= borderWidth < 2.0 * half as real + 2.0
    ensures IntMin as real < borderWidth < 0.0 ==>
              half <= 0 && 2.0 * half as real - 2.0 < borderWidth <= 2.0 * half as real
  {
    ToInt(borderWidth / 2.0)
  }

  /** What the circle is filled with. */
  datatype Fill =
    | AvatarFill(shader: Option<Crop>)
    | InitialsFill(background: Int32, text: string, textColor: Int32)

  /** The ovals `onDraw` paints: the filled circle, then the border stroke. */
  datatype DrawPlan = DrawPlan(oval: Rect, fill: Fill, borderOval: Rect, borderPaint: Paint)

  /** The plan for a given fill: the fill over the view rectangle, then the inset border. */
  function PlanWith(s: State, fill: Fill): DrawPlan {
    var half := BorderHalf(s.borderWidth);
    DrawPlan(s.viewRect, fill, Inset(s.viewRect, half, half), s.borderPaint)
  }

  /**
   * `onDraw` as written: the image when one is attached and avatar mode is
   * on, the initials on their `initialsToColor` colour otherwise, both
   * filling the view rectangle; then the border. In initials mode it throws
   * whatever `initialsToColor` throws, and otherwise draws what the
   * corrected `OnDrawFixed` draws.
   */
  function OnDraw(s: State): (r: Result<DrawPlan, Fault>)
    ensures r.Failure? <==> !(s.drawable.Some? && s.avatarMode) && InitialsToColor(s.initials).Failure?
    ensures r.Failure? ==> r.error == InitialsToColor(s.initials).error
    ensures r.Success? ==> r.value == OnDrawFixed(s)
  {
    if s.drawable.Some? && s.avatarMode then Success(PlanWith(s, AvatarFill(s.shader)))
    else
      match InitialsToColor(s.initials)
      case Failure(e) => Failure(e)
      case Success(color) => Success(PlanWith(s, InitialsFill(color, s.initials, DefaultInitialsColor)))
  }

  /**
   * The corrected `onDraw`: as written, but with the background of
   * `InitialsToColorFixed`, so it never throws. The border is stroked along
   * the view rectangle inset by half the border width on every side.
   */
  function OnDrawFixed(s: State): (plan: DrawPlan)
    ensures plan.oval == s.viewRect
    ensures plan.fill.AvatarFill? <==> s.drawable.Some? && s.avatarMode
    ensures plan.fill.AvatarFill? ==> plan.fill.shader == s.shader
    ensures plan.fill.InitialsFill? ==>
              && plan.fill.background in BgColors
              && plan.fill.background == InitialsToColorFixed(s.initials)
              && plan.fill.text == s.initials
              && plan.fill.textColor == DefaultInitialsColor
    ensures var half := BorderHalf(s.borderWidth);
            && plan.borderOval.left == s.viewRect.left + half
            && plan.borderOval.top == s.viewRect.top + half
            && plan.borderOval.right == s.viewRect.right - half
            && plan.borderOval.bottom == s.viewRect.bottom - half
    ensures plan.borderPaint == s.borderPaint
  {
    var fill :=
      if s.drawable.Some? && s.avatarMode then AvatarFill(s.shader)
      else InitialsFill(InitialsToColorFixed(s.initials), s.initials, DefaultInitialsColor);
    PlanWith(s, fill)
  }

  /** Where the source's colour lookup succeeds, the drawn background is that colour. */
  lemma OnDrawMatchesSourceColor(s: State)
    requires !(s.drawable.Some? && s.avatarMode)
    requires InitialsToColor(s.initials).Success?
    ensures OnDrawFixed(s).fill.background == InitialsToColor(s.initials).value
  {
  }

  /**
   * A border no wider than the view keeps its oval inside the view
   * rectangle.
   */
  lemma BorderInsideView(s: State)
    requires Invariant(s)
    requires 0.0 <= s.borderWidth <= s.viewRect.Width() as real
    requires s.borderWidth <= s.viewRect.Height() as real
    ensures Contains(s.viewRect, OnDrawFixed(s).borderOval)
  {
    var half := BorderHalf(s.borderWidth);
    assert 2.0 * half as real <= s.borderWidth;
    InsetStaysInside(s.viewRect, half, half);
  }

  /**
   * Assigning the `borderWidth` property moves the border oval to the new
   * half width but leaves the stroke at the old width: from the default
   * state at density 1 laid out as a 100 px square, assigning 10 px insets
   * the border by 5 px on every side while the ring is still stroked 2 px
   * wide.
   */
  lemma AssignedWidthLeavesStrokeStale()
    ensures var s := AssignBorderWidth(OnSizeChanged(Init(None, None, 1.0), 100, 100, 0, 0), 10.0);
            && !PaintInSync(s)
            && OnDrawFixed(s).borderOval == Rect(5, 5, 95, 95)
            && OnDrawFixed(s).borderPaint.strokeWidth == 2.0
  {
    var s0 := Init(None, None, 1.0);
    assert DpToPx(DefaultBorderWidthDp, 1.0) == 2.0;
    assert s0.borderPaint == Paint(White, 2.0);
    var s1 := OnSizeChanged(s0, 100, 100, 0, 0);
    assert s1.borderPaint == Paint(White, 2.0) && s1.viewRect == Rect(0, 0, 100, 100);
    var s := AssignBorderWidth(s1, 10.0);
    assert Truncate(5.0) == 5;
    assert BorderHalf(10.0) == 5;
  }

  /** `onSaveInstanceState`: the host's state with the three surviving fields. */
  function OnSaveInstanceState(s: State, superState: Option<HostState>): (ss: SavedState)
    ensures ss.superState == superState
    ensures ss.avatarMode == s.avatarMode
    ensures ss.borderWidth == s.borderWidth
    ensures ss.borderColor == s.borderColor
  {
    FromSuperState(superState).(avatarMode := s.avatarMode, borderWidth := s.borderWidth, borderColor := s.borderColor)
  }

  /** What the host hands back to restore: the widget's own snapshot or anything else. */
  datatype Parcelable = Saved(saved: SavedState) | Foreign(other: Option<HostState>)

  /**
   * `onRestoreInstanceState`: a snapshot of the widget's own type reinstates
   * the mode, border width and border colour and restrokes the border paint;
   * any other value leaves the widget as it was.
   */
  function OnRestoreInstanceState(s: State, state: Parcelable): (r: State)
    ensures state.Foreign? ==> r == s
    ensures state.Saved? ==>
              && r.avatarMode == state.saved.avatarMode
              && r.borderWidth == state.saved.borderWidth
              && r.borderColor == state.saved.borderColor
              && PaintInSync(r)
    ensures r.(avatarMode := s.avatarMode, borderWidth := s.borderWidth,
               borderColor := s.borderColor, borderPaint := s.borderPaint) == s
  {
    match state
    case Foreign(_) => s
    case Saved(ss) =>
      s.(avatarMode := ss.avatarMode, borderWidth := ss.borderWidth, borderColor := ss.borderColor,
         borderPaint := Paint(ss.borderColor, ss.borderWidth))
  }

  /** Restoring what was saved from `s` gives `t` the mode and border of `s`. */
  lemma SaveRestoreRoundTrip(s: State, t: State, superState: Option<HostState>)
    ensures var r := OnRestoreInstanceState(t, Saved(OnSaveInstanceState(s, superState)));
            && r.avatarMode == s.avatarMode && r.borderWidth == s.borderWidth && r.borderColor == s.borderColor
            && r.(avatarMode := t.avatarMode, borderWidth := t.borderWidth,
                  borderColor := t.borderColor, borderPaint := t.borderPaint) == t
  {
  }

  /**
   * The same round trip through a parcel: the snapshot written after any
   * earlier contents is read back intact, ending right after it, and
   * restoring it reinstates the mode and border of `s`, with the paint
   * matching, and leaves every other field of `t` alone.
   */
  lemma {:induction false} SaveRestoreThroughParcel(s: State, t: State, superState: Option<HostState>, p: Parcel)
    ensures var read := FromParcel(WriteToParcel(OnSaveInstanceState(s, superState), p), |p|);
            && read == Success((OnSaveInstanceState(s, superState), |p| + 4))
            && var r := OnRestoreInstanceState(t, Saved(read.value.0));
            && r.avatarMode == s.avatarMode && r.borderWidth == s.borderWidth && r.borderColor == s.borderColor
            && PaintInSync(r)
            && r.(avatarMode := t.avatarMode, borderWidth := t.borderWidth,
                  borderColor := t.borderColor, borderPaint := t.borderPaint) == t
  {
    ParcelRoundTrip(OnSaveInstanceState(s, superState), p);
  }

  /** The events that drive the widget after construction. */
  datatype Event =
    | Toggle
    | SetInitialsTo(text: string)
    | SetBorderColorTo(color: Int32)
    | SetBorderWidthTo(widthDp: Int32)
    | BorderWidthAssigned(px: real)
    | SizeChanged(w: nat, h: nat, dX: nat, dY: nat)
    | ImageSet(drawable: Option<Drawable>, width: nat, height: nat, dX: nat, dY: nat)
    | Restore(state: Parcelable)

  /** The state after one event. */
  function Apply(s: State, e: Event): State {
    match e
    case Toggle => ToggleMode(s)
    case SetInitialsTo(text) => SetInitials(s, text)
    case SetBorderColorTo(color) => SetBorderColor(s, color)
    case SetBorderWidthTo(widthDp) => SetBorderWidth(s, widthDp)
    case BorderWidthAssigned(px) => AssignBorderWidth(s, px)
    case SizeChanged(w, h, dX, dY) => OnSizeChanged(s, w, h, dX, dY)
    case ImageSet(d, width, height, dX, dY) => SetImage(s, d, width, height, dX, dY)
    case Restore(state) => OnRestoreInstanceState(s, state)
  }

  /** The state after a sequence of events, applied in order. */
  function Run(s: State, events: seq<Event>): State
    decreases |events|
  {
    if events == [] then s else Run(Apply(s, events[0]), events[1..])
  }

  /** Every single event keeps the invariant and the display density. */
  lemma ApplyKeepsInvariant(s: State, e: Event)
    requires Invariant(s)
    ensures Invariant(Apply(s, e)) && Apply(s, e).density == s.density
  {
  }

  /** Any sequence of events keeps the invariant and the display density. */
  lemma {:induction false} RunKeepsInvariant(s: State, events: seq<Event>)
    requires Invariant(s)
    ensures Invariant(Run(s, events)) && Run(s, events).density == s.density
    decreases |events|
  {
    if events != [] {
      ApplyKeepsInvariant(s, events[0]);
      RunKeepsInvariant(Apply(s, events[0]), events[1..]);
    }
  }

  /**
   * Every event except an assignment to the `borderWidth` property keeps
   * the border paint in step with both border fields.
   */
  lemma ApplyKeepsPaintInSync(s: State, e: Event)
    requires PaintInSync(s) && !e.BorderWidthAssigned?
    ensures PaintInSync(Apply(s, e))
  {
  }

  /**
   * A sequence of events with no assignment to the `borderWidth` property
   * keeps the paint in step; a single assignment of a different width
   * breaks it (`AssignedWidthLeavesStrokeStale`).
   */
  lemma {:induction false} RunKeepsPaintInSync(s: State, events: seq<Event>)
    requires PaintInSync(s)
    requires forall i :: 0 <= i < |events| ==> !events[i].BorderWidthAssigned?
    ensures PaintInSync(Run(s, events))
    decreases |events|
  {
    if events != [] {
      ApplyKeepsPaintInSync(s, events[0]);
      RunKeepsPaintInSync(Apply(s, events[0]), events[1..]);
    }
  }

  /** `onMeasure` with the widget's own `size` field as the lower bound. */
  function OnMeasure(s: State, codec: Measure.SpecCodec, widthSpec: Int32, heightSpec: Int32): (dims: (int, int))
    ensures dims.0 == dims.1 && dims.0 >= s.size
  {
    Measure.OnMeasure(codec, widthSpec, heightSpec, s.size, s.density)
  }

  /**
   * Since `size` is never assigned, every widget reached from construction
   * measures to exactly the resolved default size of the spec with the
   * smaller encoding: the lower bound never takes effect.
   */
  lemma {:induction false} MeasureAfterAnyEvents(
    attrs: Option<Attrs>, drawable: Option<Drawable>, density: Density, events: seq<Event>,
    codec: Measure.SpecCodec, widthSpec: Int32, heightSpec: Int32)
    ensures var s := Run(Init(attrs, drawable, density), events);
            var chosen := if widthSpec <= heightSpec then widthSpec else heightSpec;
            var side := Measure.ResolveDefaultSize(codec, chosen, density);
            OnMeasure(s, codec, widthSpec, heightSpec) == (side, side)
  {
    RunKeepsInvariant(Init(attrs, drawable, density), events);
  }
}
