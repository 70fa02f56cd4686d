// Axis-parallel boxes of pixels, shared by every module that compares, paints or counts them.
module Geometry {

  // Left and top inclusive, right and bottom exclusive.
  datatype Box = Box(left: int, top: int, right: int, bottom: int)

  predicate InBox(b: Box, x: int, y: int) {
    b.left <= x < b.right && b.top <= y < b.bottom
  }

  // No pixel lies in both boxes.
  ghost predicate Disjoint(a: Box, b: Box) {
    forall x, y :: !(InBox(a, x, y) && InBox(b, x, y))
  }

  predicate BoxFits(b: Box, width: int, height: int) {
    0 <= b.left < b.right <= width && 0 <= b.top < b.bottom <= height
  }

  function Width(b: Box): int { b.right - b.left }
  function Height(b: Box): int { b.bottom - b.top }
  function Area(b: Box): int { Width(b) * Height(b) }
}
