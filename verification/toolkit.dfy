/** The toolkit-side records the adapter works on: rectangles, vertices,
    bitmaps and the pending batch of the toolkit's renderer batcher. */
module Toolkit {
  import opened Common

  /** The toolkit's integer rectangle: origin and size. */
  datatype Rect = Rect(x: int, y: int, w: int, h: int)

  /** A texture coordinate, carried as the bit pattern of its float. The
      adapter only copies these values, so the model never computes with them. */
  datatype Uv = Uv(bits: UInt32)

  /** The texture coordinates of the left (`u`), top (`v`), right (`uu`) and
      bottom (`vv`) edges of the quad being drawn. */
  datatype TexCoords = TexCoords(u: Uv, v: Uv, uu: Uv, vv: Uv)

  /** A toolkit vertex: position, texture coordinate and packed colour. */
  datatype Vertex = Vertex(x: int, y: int, u: Uv, v: Uv, col: UInt32)

  /** An adapter bitmap. Its `id` stands for the object's identity (and that
      of the texture it owns); width and height are fixed at construction. */
  datatype Bitmap = Bitmap(id: nat, width: int, height: int) {
    function Width(): int { width }
    function Height(): int { height }
  }

  /** Constructing a bitmap: afterwards it reports the size it was built with. */
  function NewBitmap(id: nat, w: int, h: int): (b: Bitmap)
    ensures b.id == id
    ensures b.Width() == w && b.Height() == h
  {
    Bitmap(id, w, h)
  }

  /** Identity of a toolkit bitmap fragment. */
  type FragmentId = nat

  /** The toolkit's pending batch: the bitmap and fragment it draws from, the
      clip rectangle it is drawn under, its vertices and its id. */
  datatype Batch = Batch(
    bitmap: Option<Bitmap>,
    fragment: Option<FragmentId>,
    clip: Rect,
    vertices: seq<Vertex>,
    batchId: int)
}
