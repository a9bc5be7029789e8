/** The integer geometry of the embedded-graphics library, as far as the game uses it:
    points, sizes, rectangles and the bottom-right corner of a rectangle. */
module Geometry {

  datatype Option<T> = None | Some(value: T)

  /** A screen coordinate (embedded-graphics `Point`, two `i32`s). */
  datatype Point = Point(x: int, y: int) {
    function Add(other: Point): Point {
      Point(x + other.x, y + other.y)
    }
  }

  /** The size of a rectangle (embedded-graphics `Size`, two `u32`s). */
  datatype Size = Size(width: nat, height: nat)

  /** An axis-aligned rectangle given by its top-left pixel and its size. */
  datatype Rectangle = Rectangle(topLeft: Point, size: Size) {

    /** The pixels a rectangle covers: `width` columns and `height` rows from the top-left pixel. */
    predicate Contains(p: Point) {
      topLeft.x <= p.x < topLeft.x + size.width && topLeft.y <= p.y < topLeft.y + size.height
    }

    /** `Rectangle::bottom_right`: the last pixel inside the rectangle, `top_left + size - 1`;
        an empty rectangle (zero width or height) has none. */
    function BottomRight(): (r: Option<Point>)
      ensures r.None? <==> size.width == 0 || size.height == 0
      ensures r.Some? ==> Contains(r.value)
      ensures r.Some? ==> forall p :: Contains(p) ==> p.x <= r.value.x && p.y <= r.value.y
    {
      if size.width > 0 && size.height > 0 then
        Some(Point(topLeft.x + size.width - 1, topLeft.y + size.height - 1))
      else
        None
    }
  }
}
