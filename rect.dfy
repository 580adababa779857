/** Axis-aligned rectangles as libGDX's Rectangle uses them: a corner (x, y),
    a width and a height, in float room-space coordinates (modelled as reals).
    libGDX's Rectangle is not part of this model; its two queries used by the
    core are defined here as libGDX defines them. */
module Rectangles {

  datatype Rect = Rect(x: real, y: real, width: real, height: real)

  /** Rectangle.overlaps: the open interiors meet (strict inequalities, so
      rectangles that only touch do not overlap). */
  predicate Overlaps(a: Rect, b: Rect)
  {
    a.x < b.x + b.width && a.x + a.width > b.x &&
    a.y < b.y + b.height && a.y + a.height > b.y
  }

  /** Rectangle.contains(x, y): the point lies in the closed rectangle. */
  predicate Contains(r: Rect, px: real, py: real)
  {
    r.x <= px && r.x + r.width >= px && r.y <= py && r.y + r.height >= py
  }

  /** inner lies inside the closed rectangle outer. */
  predicate ContainsRect(outer: Rect, inner: Rect)
  {
    outer.x <= inner.x && inner.x + inner.width <= outer.x + outer.width &&
    outer.y <= inner.y && inner.y + inner.height <= outer.y + outer.height
  }

  /** The rectangle grown by m on every side. */
  function Grow(r: Rect, m: real): (g: Rect)
    ensures g.width == r.width + 2.0 * m && g.height == r.height + 2.0 * m
    ensures g.x + g.width / 2.0 == r.x + r.width / 2.0
    ensures g.y + g.height / 2.0 == r.y + r.height / 2.0
  {
    Rect(r.x - m, r.y - m, r.width + 2.0 * m, r.height + 2.0 * m)
  }

  lemma OverlapsSymmetric(a: Rect, b: Rect)
    ensures Overlaps(a, b) <==> Overlaps(b, a)
  {
  }
}
