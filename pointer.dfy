/** Pointer normalisation: client pixel coordinates to canvas coordinates. */
module Pointer {
  import opened Geometry

  /**
   * The mouse position for a pointer event at (clientX, clientY) in a
   * viewport of width x height pixels: x grows to the right, y is flipped
   * so that it grows upwards. No clamping: a pointer outside the viewport
   * gives a point outside the unit square.
   */
  function NormalizePointer(clientX: real, clientY: real, width: nat, height: nat): (p: Vec2)
    requires width > 0 && height > 0
    ensures p.x * width as real == clientX
    ensures (1.0 - p.y) * height as real == clientY
  {
    Vec2(clientX / width as real, 1.0 - clientY / height as real)
  }

  /** Normalisation loses nothing: the client coordinates determine the point and back. */
  lemma NormalizePointerInjective(cx1: real, cy1: real, cx2: real, cy2: real, width: nat, height: nat)
    requires width > 0 && height > 0
    ensures NormalizePointer(cx1, cy1, width, height) == NormalizePointer(cx2, cy2, width, height)
            <==> cx1 == cx2 && cy1 == cy2
  {
    var p1, p2 := NormalizePointer(cx1, cy1, width, height), NormalizePointer(cx2, cy2, width, height);
    if p1 == p2 {
      assert cx1 == p1.x * width as real == cx2;
      assert cy1 == (1.0 - p1.y) * height as real == cy2;
    }
  }

  /** Scaling by a positive size keeps a coordinate's position relative to 0 and 1. */
  lemma ScaledUnitInterval(a: real, s: real)
    requires s > 0.0
    ensures 0.0 < a <==> 0.0 < a * s
    ensures a < 1.0 <==> a * s < s
  {
    if 0.0 < a { assert 0.0 < a * s; } else { assert a * s <= 0.0; }
    if a < 1.0 { assert (1.0 - a) * s > 0.0; } else if a > 1.0 { assert (a - 1.0) * s > 0.0; }
  }

  /**
   * The normalized mouse lies strictly inside the unit square exactly when
   * the pointer is strictly inside the viewport, whatever its size.
   */
  lemma InsideViewportIff(clientX: real, clientY: real, width: nat, height: nat)
    requires width > 0 && height > 0
    ensures InsideOpen(NormalizePointer(clientX, clientY, width, height))
            <==> 0.0 < clientX < width as real && 0.0 < clientY < height as real
  {
    var p := NormalizePointer(clientX, clientY, width, height);
    ScaledUnitInterval(p.x, width as real);
    ScaledUnitInterval(1.0 - p.y, height as real);
  }
}
