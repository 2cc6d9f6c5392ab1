/**
 * The simplified SVG document as the renderer walks it: the elements in
 * traversal order and the normalised segments of a path's `d` attribute
 * (svgdom's `PathSegment`).
 */
module Svg {
  import opened Wrappers

  /** A coordinate operand. The renderer only copies coordinates, never computes with them. */
  type Coord = real

  /**
   * One path segment. `abs` tells whether the operands are absolute or
   * relative; `Unknown` stands for every segment kind the renderer has no arm for.
   */
  datatype Segment =
    | MoveTo(abs: bool, x: Coord, y: Coord)
    | LineTo(abs: bool, x: Coord, y: Coord)
    | HorizontalLineTo(abs: bool, x: Coord)
    | VerticalLineTo(abs: bool, y: Coord)
    | Quadratic(abs: bool, x1: Coord, y1: Coord, x: Coord, y: Coord)
    | CurveTo(abs: bool, x1: Coord, y1: Coord, x2: Coord, y2: Coord, x: Coord, y: Coord)
    | ClosePath(abs: bool)
    | Unknown
  {
    /** The renderer has an arm for this kind. */
    predicate Recognised() { !Unknown? }

    /** Segments whose `x` operand becomes the tracked `old_x`. */
    predicate SetsX() { MoveTo? || LineTo? || HorizontalLineTo? }

    /** Segments whose `y` operand becomes the tracked `old_y`. */
    predicate SetsY() { MoveTo? || LineTo? || VerticalLineTo? }

    /** Horizontal and vertical lines, the two kinds that borrow an axis from the tracked position. */
    predicate IsAxisLine() { HorizontalLineTo? || VerticalLineTo? }
  }

  /**
   * An element of the document. `d` is `None` when the element has no `d`
   * attribute or the attribute holds no path data.
   */
  datatype Element = Path(d: Option<seq<Segment>>) | Other(id: string)
}
