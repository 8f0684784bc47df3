/** Points in the normalized canvas space used by the trail renderer. */
module Geometry {

  /** A THREE.Vector2 as a value: canvas coordinates, (0,0) bottom left, (1,1) top right. */
  datatype Vec2 = Vec2(x: real, y: real)

  /** The point the renderer uses when it has nothing to feed: off the canvas. */
  const OffCanvasPoint: Vec2 := Vec2(-1.0, -1.0)

  /** Strictly inside the open unit square (0,1) x (0,1). */
  predicate InsideOpen(p: Vec2) {
    0.0 < p.x < 1.0 && 0.0 < p.y < 1.0
  }

  /** Inside the closed unit square [0,1] x [0,1]. */
  predicate InsideClosed(p: Vec2) {
    0.0 <= p.x <= 1.0 && 0.0 <= p.y <= 1.0
  }
}
