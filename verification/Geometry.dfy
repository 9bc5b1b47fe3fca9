/** Rectangles: of damage on an output, of windows in a layout. */
module Geometry {
  datatype Rect = Rect(x: int, y: int, width: int, height: int)
}
