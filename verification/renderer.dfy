/** The renderer-batcher adapter's drawing state: the toolkit's pending batch,
    the current clip rectangle, the texture coordinates of the last textured
    quad, the adapter's vertex buffer and the batch ids written back into
    bitmap fragments. */
module Renderer {
  import opened Common
  import opened Toolkit
  import opened Quad
  import opened VertexBuffer

  datatype State = State(
    batch: Batch,
    clip: Rect,
    uv: TexCoords,
    buffer: Buffer,
    stamps: map<FragmentId, int>)

  /** Storing the clip rectangle for the quads that follow. */
  function SetClipRect(s: State, rect: Rect): (r: State)
    ensures r.clip == rect
    ensures r.batch == s.batch && r.buffer == s.buffer && r.uv == s.uv && r.stamps == s.stamps
  {
    s.(clip := rect)
  }

  /** The toolkit's batch flush: an empty pending batch is left alone;
      otherwise it is submitted through `RenderBatch`, emptied, and given the
      next batch id. Bitmap, fragment and clip stay for the caller to set. */
  function Flush(s: State): (r: State)
    ensures s.batch.vertices == [] ==> r == s
    ensures s.batch.vertices != [] ==>
      && r.buffer == Submitted(s.buffer, s.batch)
      && r.batch.batchId == s.batch.batchId + 1
    ensures r.batch.vertices == []
    ensures r.batch.bitmap == s.batch.bitmap && r.batch.fragment == s.batch.fragment
    ensures r.batch.clip == s.batch.clip
    ensures r.clip == s.clip && r.uv == s.uv && r.stamps == s.stamps
  {
    if s.batch.vertices == [] then s
    else
      s.(buffer := Submitted(s.buffer, s.batch),
         batch := s.batch.(vertices := [], batchId := s.batch.batchId + 1))
  }

  /** Adding one quad. `texCoords` stands for the coordinates the adapter
      derives in floating point from the source rectangle and the bitmap's
      size; they are used only when a bitmap is given. */
  function AddQuad(s: State, dst: Rect, texCoords: TexCoords, color: UInt32,
                   bitmap: Option<Bitmap>, fragment: Option<FragmentId>): (r: State)
    ensures r.batch.bitmap == bitmap && r.batch.fragment == fragment
    ensures r.batch.clip == s.clip && r.clip == s.clip
    ensures bitmap.Some? ==> r.uv == texCoords
    ensures bitmap.None? ==> r.uv == s.uv
    ensures s.batch.bitmap == bitmap ==>
      && r.buffer == s.buffer
      && r.batch.vertices == s.batch.vertices + QuadVertices(dst, r.uv, color)
      && r.batch.batchId == s.batch.batchId
    ensures s.batch.bitmap != bitmap && s.batch.vertices == [] ==>
      && r.buffer == s.buffer
      && r.batch.vertices == QuadVertices(dst, r.uv, color)
      && r.batch.batchId == s.batch.batchId
    ensures s.batch.bitmap != bitmap && s.batch.vertices != [] ==>
      && r.buffer == Submitted(s.buffer, s.batch)
      && r.batch.vertices == QuadVertices(dst, r.uv, color)
      && r.batch.batchId == s.batch.batchId + 1
    ensures fragment.Some? ==> r.stamps == s.stamps[fragment.value := r.batch.batchId]
    ensures fragment.None? ==> r.stamps == s.stamps
  {
    var s1 :=
      if s.batch.bitmap != bitmap then
        var f := Flush(s);
        f.(batch := f.batch.(bitmap := bitmap))
      else s;
    var s2 := s1.(batch := s1.batch.(fragment := fragment, clip := s1.clip));
    var uv := if bitmap.Some? then texCoords else s2.uv;
    var b := s2.batch.(vertices := s2.batch.vertices + QuadVertices(dst, uv, color));
    var stamps := if fragment.Some? then s2.stamps[fragment.value := b.batchId] else s2.stamps;
    State(b, s2.clip, uv, s2.buffer, stamps)
  }

  /** No fragment is stamped with a batch id that has not been handed out yet. */
  ghost predicate StampsBounded(s: State) {
    forall f :: f in s.stamps ==> s.stamps[f] <= s.batch.batchId
  }

  /** A fragment counts as drawn in the pending batch when its stamp equals
      the batch's id, which is how the toolkit decides whether updating the
      fragment's bitmap must flush first. */
  ghost predicate InCurrentBatch(s: State, f: FragmentId) {
    f in s.stamps && s.stamps[f] == s.batch.batchId
  }

  /** A quad drawn with a fragment marks that fragment as in the pending
      batch, and stamps never run ahead of the batch id. */
  lemma AddQuadStampsCurrent(s: State, dst: Rect, texCoords: TexCoords, color: UInt32,
                             bitmap: Option<Bitmap>, fragment: Option<FragmentId>)
    requires StampsBounded(s)
    ensures var r := AddQuad(s, dst, texCoords, color, bitmap, fragment);
      && StampsBounded(r)
      && (fragment.Some? ==> InCurrentBatch(r, fragment.value))
  {
  }

  /** Submitting a non-empty batch retires every stamp: no fragment counts as
      in the new, empty pending batch. An empty batch is never submitted, so
      its stamps stay current. */
  lemma FlushRetiresStamps(s: State, f: FragmentId)
    requires StampsBounded(s)
    ensures StampsBounded(Flush(s))
    ensures s.batch.vertices != [] ==> !InCurrentBatch(Flush(s), f)
    ensures s.batch.vertices == [] ==> (InCurrentBatch(Flush(s), f) <==> InCurrentBatch(s, f))
  {
  }

  /** Everything drawn so far: submitted slots followed by the pending vertices. */
  function Drawn(s: State): seq<Cell> {
    s.buffer.vertexData + Layout(s.batch.vertices)
  }

  /** No vertex is lost or reordered: whether or not the batch is flushed,
      adding a quad appends exactly its six vertices to what has been drawn. */
  lemma AddQuadAppendsSix(s: State, dst: Rect, texCoords: TexCoords, color: UInt32,
                          bitmap: Option<Bitmap>, fragment: Option<FragmentId>)
    ensures var r := AddQuad(s, dst, texCoords, color, bitmap, fragment);
      Drawn(r) == Drawn(s) + Layout(QuadVertices(dst, r.uv, color))
  {
    var r := AddQuad(s, dst, texCoords, color, bitmap, fragment);
    var q := QuadVertices(dst, r.uv, color);
    if s.batch.bitmap == bitmap {
      LayoutAppend(s.batch.vertices, q);
    } else {
      assert r.buffer.vertexData == s.buffer.vertexData + Layout(s.batch.vertices);
    }
  }

  /** Adding quads keeps the adapter's ranges tiling its vertex data. */
  lemma AddQuadKeepsTiled(s: State, dst: Rect, texCoords: TexCoords, color: UInt32,
                          bitmap: Option<Bitmap>, fragment: Option<FragmentId>)
    requires Tiled(s.buffer)
    ensures Tiled(AddQuad(s, dst, texCoords, color, bitmap, fragment).buffer)
  {
    if s.batch.bitmap != bitmap {
      SubmittedKeepsTiled(s.buffer, s.batch);
    }
  }

  /** The rectangle given to `SetClipRect` is the one the next quad's batch
      carries, and the one its scissor is built from when it is submitted. */
  lemma ClipReachesBatch(s: State, rect: Rect, dst: Rect, texCoords: TexCoords, color: UInt32,
                         bitmap: Option<Bitmap>, fragment: Option<FragmentId>)
    ensures var r := AddQuad(SetClipRect(s, rect), dst, texCoords, color, bitmap, fragment);
      && r.batch.clip == rect
      && Flush(r).buffer.batches[|r.buffer.batches|].scissor == Scissor(rect)
  {
  }

  /** With no bitmap, the stored texture coordinates are reused: every new
      vertex takes its coordinates from the previous textured quad. */
  lemma NullBitmapReusesUv(s: State, dst: Rect, texCoords: TexCoords, color: UInt32,
                           fragment: Option<FragmentId>)
    ensures var r := AddQuad(s, dst, texCoords, color, None, fragment);
      var q := QuadVertices(dst, s.uv, color);
      && r.uv == s.uv
      && r.batch.vertices[|r.batch.vertices| - |q|..] == q
      && forall i :: 0 <= i < |q| ==> q[i].u in {s.uv.u, s.uv.uu} && q[i].v in {s.uv.v, s.uv.vv}
  {
    var r := AddQuad(s, dst, texCoords, color, None, fragment);
    var q := QuadVertices(dst, s.uv, color);
    forall i | 0 <= i < |q|
      ensures q[i].u in {s.uv.u, s.uv.uu} && q[i].v in {s.uv.v, s.uv.vv}
    {
      assert AtCorner(q[i], dst, s.uv, color);
    }
  }

  /** Two quads on the same bitmap share one batch: nothing is submitted and
      the second quad's vertices follow the first's. */
  lemma SameBitmapNoFlush(s: State, d1: Rect, d2: Rect, t1: TexCoords, t2: TexCoords,
                          c1: UInt32, c2: UInt32, bitmap: Option<Bitmap>,
                          f1: Option<FragmentId>, f2: Option<FragmentId>)
    ensures var m := AddQuad(s, d1, t1, c1, bitmap, f1);
      var r := AddQuad(m, d2, t2, c2, bitmap, f2);
      && r.buffer == m.buffer
      && r.batch.vertices == m.batch.vertices + QuadVertices(d2, r.uv, c2)
  {
  }
}
