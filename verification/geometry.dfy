/**
 * Integer rectangles as `android.graphics.Rect` holds them, the inset that
 * turns the view rectangle into the border rectangle, and the centred window
 * `prepareShader` cuts out of the oversized raster.
 */
module Geometry {

  /** `Rect(left, top, right, bottom)`; coordinates grow rightward and downward. */
  datatype Rect = Rect(left: int, top: int, right: int, bottom: int) {
    function Width(): int { right - left }
    function Height(): int { bottom - top }
  }

  /** `outer` encloses `inner` on all four sides. */
  predicate Contains(outer: Rect, inner: Rect) {
    && outer.left <= inner.left
    && outer.top <= inner.top
    && inner.right <= outer.right
    && inner.bottom <= outer.bottom
  }

  /**
   * `Rect.inset(dx, dy)`: the left and right edges move toward each other by
   * `dx`, the top and bottom edges by `dy`; negative amounts move them apart.
   */
  function Inset(r: Rect, dx: int, dy: int): (i: Rect)
    ensures i.Width() == r.Width() - 2 * dx
    ensures i.Height() == r.Height() - 2 * dy
    ensures i.left + i.right == r.left + r.right
    ensures i.top + i.bottom == r.top + r.bottom
  {
    Rect(r.left + dx, r.top + dy, r.right - dx, r.bottom - dy)
  }

  /** Insetting by an amount and then by its negation restores the rectangle. */
  lemma InsetUndone(r: Rect, dx: int, dy: int)
    ensures Inset(Inset(r, dx, dy), -dx, -dy) == r
  {
  }

  /**
   * A non-negative inset no larger than half of each side keeps the result
   * inside the original, and its sides never cross.
   */
  lemma InsetStaysInside(r: Rect, dx: int, dy: int)
    requires 0 <= dx && 0 <= dy
    requires 2 * dx <= r.Width() && 2 * dy <= r.Height()
    ensures Contains(r, Inset(r, dx, dy))
    ensures Inset(r, dx, dy).Width() >= 0 && Inset(r, dx, dy).Height() >= 0
  {
  }

  /**
   * The sub-bitmap `Bitmap.createBitmap(raster, x, y, width, height)` taken
   * from a raster of `rasterWidth` by `rasterHeight` pixels.
   */
  datatype Crop = Crop(rasterWidth: int, rasterHeight: int, x: int, y: int, width: int, height: int) {

    /** The window lies entirely within the raster. */
    predicate InsideRaster() {
      && 0 <= x && x + width <= rasterWidth
      && 0 <= y && y + height <= rasterHeight
    }
  }

  /**
   * The centre crop of `prepareShader`: the image is rendered into a
   * `(w + dX) x (h + dY)` raster and the `w x h` window at `(dX / 2, dY / 2)`
   * is kept, so the excess is shared between the two sides, the far side
   * taking the odd pixel. Kotlin's `/` truncates toward zero, which agrees
   * with Dafny's on these non-negative operands.
   */
  function CenterCrop(w: nat, h: nat, dX: nat, dY: nat): (c: Crop)
    ensures c.InsideRaster()
    ensures c.width == w && c.height == h
    ensures c.rasterWidth == w + dX && c.rasterHeight == h + dY
    ensures var farX := c.rasterWidth - (c.x + c.width); 0 <= farX - c.x <= 1
    ensures var farY := c.rasterHeight - (c.y + c.height); 0 <= farY - c.y <= 1
  {
    Crop(w + dX, h + dY, dX / 2, dY / 2, w, h)
  }
}
