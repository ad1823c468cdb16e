/** Expansion of one destination rectangle into the six vertices of two
    clockwise triangles. */
module Quad {
  import opened Common
  import opened Toolkit

  const QUAD_VERTEX_COUNT: nat := 6

  /** `p` sits on a corner of `r`, carries the texture coordinates of that
      same corner, and has colour `color`. */
  ghost predicate AtCorner(p: Vertex, r: Rect, t: TexCoords, color: UInt32) {
    && ((p.x == r.x && p.u == t.u) || (p.x == r.x + r.w && p.u == t.uu))
    && ((p.y == r.y && p.v == t.v) || (p.y == r.y + r.h && p.v == t.vv))
    && p.col == color
  }

  /** The six vertices emitted for destination `dst`: first triangle
      bottom-left, top-left, bottom-right; second triangle top-left,
      top-right, bottom-right. */
  function QuadVertices(dst: Rect, t: TexCoords, color: UInt32): (q: seq<Vertex>)
    ensures |q| == QUAD_VERTEX_COUNT
    ensures forall i :: 0 <= i < |q| ==> AtCorner(q[i], dst, t, color)
  {
    var left, top := dst.x, dst.y;
    var right, bottom := dst.x + dst.w, dst.y + dst.h;
    [ Vertex(left, bottom, t.u, t.vv, color),
      Vertex(left, top, t.u, t.v, color),
      Vertex(right, bottom, t.uu, t.vv, color),
      Vertex(left, top, t.u, t.v, color),
      Vertex(right, top, t.uu, t.v, color),
      Vertex(right, bottom, t.uu, t.vv, color) ]
  }

  /** Twice the signed area of the triangle `a`, `b`, `c`. With the screen's
      y axis pointing down, a positive value means the triangle turns clockwise. */
  function Turn(a: Vertex, b: Vertex, c: Vertex): int {
    (b.x - a.x) * (c.y - a.y) - (b.y - a.y) * (c.x - a.x)
  }

  /** Both triangles have the same winding, clockwise on screen for a
      rectangle of positive size, and each encloses half of the rectangle. */
  lemma QuadTrianglesClockwise(dst: Rect, t: TexCoords, color: UInt32)
    ensures var q := QuadVertices(dst, t, color);
      && Turn(q[0], q[1], q[2]) == dst.w * dst.h
      && Turn(q[3], q[4], q[5]) == dst.w * dst.h
  {
    var q := QuadVertices(dst, t, color);
    assert Turn(q[0], q[1], q[2]) == (0 - dst.h) * (0 - dst.w) - 0;
  }

  /** The vertices are exactly the four corners of the rectangle: the first
      triangle is bottom-left, top-left, bottom-right, the second top-left,
      top-right, bottom-right, so both share the diagonal from the top-left to
      the bottom-right corner. */
  lemma QuadCoversCorners(dst: Rect, t: TexCoords, color: UInt32)
    ensures var q := QuadVertices(dst, t, color);
      && (set i | 0 <= i < |q| :: (q[i].x, q[i].y))
         == {(dst.x, dst.y), (dst.x + dst.w, dst.y), (dst.x, dst.y + dst.h), (dst.x + dst.w, dst.y + dst.h)}
      && (q[0].x, q[0].y) == (dst.x, dst.y + dst.h)
      && (q[1].x, q[1].y) == (dst.x, dst.y)
      && (q[2].x, q[2].y) == (dst.x + dst.w, dst.y + dst.h)
      && (q[4].x, q[4].y) == (dst.x + dst.w, dst.y)
      && q[1] == q[3] && q[2] == q[5]
  {
    var q := QuadVertices(dst, t, color);
    var corners := set i | 0 <= i < |q| :: (q[i].x, q[i].y);
    assert (q[0].x, q[0].y) in corners;
    assert (q[1].x, q[1].y) in corners;
    assert (q[2].x, q[2].y) in corners;
    assert (q[4].x, q[4].y) in corners;
  }
}
