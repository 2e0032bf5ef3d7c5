/** The SkiaSharp value types the image helpers work with: points, sizes,
    rectangles and bitmaps. Coordinates are `real`; a bitmap is an opaque
    value that carries its width and height. */
module SkiaTypes {

  /** SKPoint. */
  datatype Point = Point(x: real, y: real)

  /** SKSize. */
  datatype Size = Size(width: real, height: real)

  /** SKRect, given by its four edges. */
  datatype Rect = Rect(left: real, top: real, right: real, bottom: real) {

    /** SKRect.Contains(SKPoint). The library is not part of this model; its rule
        is taken to be: left and top edges inclusive, right and bottom exclusive. */
    predicate Contains(p: Point) {
      left <= p.x < right && top <= p.y < bottom
    }

    /** The rectangle built by the area-rescaling loops: every edge multiplied by
        the ratio of its own axis. */
    function Scaled(widthRatio: real, heightRatio: real): Rect {
      Rect(left * widthRatio, top * heightRatio, right * widthRatio, bottom * heightRatio)
    }
  }

  /** A point with each coordinate divided by its axis' factor: how a point is
      brought back from a scaled (or device-density) space. */
  function Unscaled(p: Point, widthFactor: real, heightFactor: real): (q: Point)
    requires widthFactor != 0.0 && heightFactor != 0.0
    ensures q.x * widthFactor == p.x && q.y * heightFactor == p.y
  {
    Point(p.x / widthFactor, p.y / heightFactor)
  }

  /** Pixel contents. Decoded, converted or text-rendered pixels are opaque
      (`Raster`); the debug overlay of LayeredImage.ShowAreas is a copy of an image
      with rectangles filled over it (`Highlighted`). */
  datatype Pixels = Raster(tag: nat) | Highlighted(under: Pixels, rects: seq<Rect>)

  /** SKBitmap. */
  datatype Bitmap = Bitmap(width: nat, height: nat, pixels: Pixels)

  /** For a positive factor, a * w <= x exactly when a <= x / w. */
  lemma ScaleLe(a: real, x: real, w: real)
    requires w > 0.0
    ensures a * w <= x <==> a <= x / w
  {
  }

  /** A point lies in a rectangle scaled by positive ratios exactly when the
      point brought back by those ratios lies in the original rectangle. */
  lemma ScaledContains(r: Rect, p: Point, widthRatio: real, heightRatio: real)
    requires widthRatio > 0.0 && heightRatio > 0.0
    ensures r.Scaled(widthRatio, heightRatio).Contains(p)
        <==> r.Contains(Unscaled(p, widthRatio, heightRatio))
  {
    ScaleLe(r.left, p.x, widthRatio);
    ScaleLt(r.right, p.x, widthRatio);
    ScaleLe(r.top, p.y, heightRatio);
    ScaleLt(r.bottom, p.y, heightRatio);
  }

  /** For a positive factor, x < b * w exactly when x / w < b. */
  lemma ScaleLt(b: real, x: real, w: real)
    requires w > 0.0
    ensures x < b * w <==> x / w < b
  {
  }
}
