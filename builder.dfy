/**
 * What the renderer hands to the footile rasteriser: the calls it makes on a
 * `PathBuilder`, the fill rule and the colour.
 */
module Builder {
  import opened Svg

  /** One `PathBuilder` call: a mode switch or a drawing call. */
  datatype Op =
    | Absolute
    | Relative
    | MoveTo(x: Coord, y: Coord)
    | LineTo(x: Coord, y: Coord)
    | QuadTo(x1: Coord, y1: Coord, x: Coord, y: Coord)
    | CubicTo(x1: Coord, y1: Coord, x2: Coord, y2: Coord, x: Coord, y: Coord)
    | Close
  {
    /** `absolute()` or `relative()`. */
    predicate IsMode() { Absolute? || Relative? }
  }

  datatype FillRule = NonZero | EvenOdd

  /** An 8-bit colour channel. */
  newtype Byte = x: int | 0 <= x < 256

  datatype Rgb = Rgb(red: Byte, green: Byte, blue: Byte)
}
