/** The adapter's vertex-buffer bookkeeping: submitted batches are laid out as
    six float slots per vertex in one growing buffer, each batch remembering
    its `[start, end)` range; collecting the batches copies every range into
    the caller's buffer, rebases it, and empties the adapter's own state. */
module VertexBuffer {
  import opened Common
  import opened Toolkit

  /** Float slots per vertex in the engine's UI vertex data. */
  const UI_VERTEX_SIZE: nat := 6

  /** One float slot of the vertex data: a position coordinate, the constant
      depth 0, the colour's bits stored in a float slot, or a texture coordinate. */
  datatype Cell = Coord(value: int) | Depth | Colour(bits: UInt32) | Tex(uv: Uv)

  /** The slots of one vertex: x, y, 0, colour, u, v. */
  function VertexCells(p: Vertex): (cs: seq<Cell>)
    ensures |cs| == UI_VERTEX_SIZE
  {
    [Coord(p.x), Coord(p.y), Depth, Colour(p.col), Tex(p.u), Tex(p.v)]
  }

  /** The slots of a run of vertices, one vertex after the other. */
  function Layout(vs: seq<Vertex>): (cs: seq<Cell>)
    ensures |cs| == |vs| * UI_VERTEX_SIZE
  {
    if |vs| == 0 then [] else VertexCells(vs[0]) + Layout(vs[1..])
  }

  lemma {:induction false} LayoutAppend(a: seq<Vertex>, b: seq<Vertex>)
    ensures Layout(a + b) == Layout(a) + Layout(b)
  {
    if |a| == 0 {
      assert a + b == b;
    } else {
      assert (a + b)[1..] == a[1..] + b;
      LayoutAppend(a[1..], b);
    }
  }

  /** Vertex `i` occupies slots `6i` to `6i + 5`. */
  lemma {:induction false} LayoutBlock(vs: seq<Vertex>, i: nat)
    requires i < |vs|
    ensures Layout(vs)[i * UI_VERTEX_SIZE .. i * UI_VERTEX_SIZE + UI_VERTEX_SIZE] == VertexCells(vs[i])
  {
    assert vs == vs[..i] + [vs[i]] + vs[i + 1..];
    LayoutAppend(vs[..i] + [vs[i]], vs[i + 1..]);
    LayoutAppend(vs[..i], [vs[i]]);
    assert Layout([vs[i]]) == VertexCells(vs[i]) + Layout([]);
  }

  /** Reads one vertex back from its six slots. */
  function DecodeVertex(cs: seq<Cell>): Option<Vertex>
    requires |cs| == UI_VERTEX_SIZE
  {
    match (cs[0], cs[1], cs[2], cs[3], cs[4], cs[5])
    case (Coord(x), Coord(y), Depth, Colour(c), Tex(u), Tex(v)) => Some(Vertex(x, y, u, v, c))
    case _ => None
  }

  /** Reads a run of vertices back from its slots; `None` when the slots are
      not a whole number of well-formed vertices. */
  function DecodeCells(cs: seq<Cell>): Option<seq<Vertex>>
    decreases |cs|
  {
    if |cs| == 0 then Some([])
    else if |cs| < UI_VERTEX_SIZE then None
    else match DecodeVertex(cs[..UI_VERTEX_SIZE])
      case None => None
      case Some(p) =>
        match DecodeCells(cs[UI_VERTEX_SIZE..])
        case None => None
        case Some(rest) => Some([p] + rest)
  }

  /** The layout loses nothing: every run of vertices reads back unchanged. */
  lemma {:induction false} DecodeLayout(vs: seq<Vertex>)
    ensures DecodeCells(Layout(vs)) == Some(vs)
  {
    if |vs| > 0 {
      var cs := Layout(vs);
      assert cs[..UI_VERTEX_SIZE] == VertexCells(vs[0]);
      assert cs[UI_VERTEX_SIZE..] == Layout(vs[1..]);
      DecodeLayout(vs[1..]);
      assert [vs[0]] + vs[1..] == vs;
    }
  }

  /** ... and only laid-out vertices read back: the layout is onto the
      decodable slot sequences. */
  lemma {:induction false} LayoutDecode(cs: seq<Cell>, vs: seq<Vertex>)
    requires DecodeCells(cs) == Some(vs)
    ensures Layout(vs) == cs
    decreases |cs|
  {
    if |cs| > 0 {
      var p := DecodeVertex(cs[..UI_VERTEX_SIZE]).value;
      var rest := DecodeCells(cs[UI_VERTEX_SIZE..]).value;
      LayoutDecode(cs[UI_VERTEX_SIZE..], rest);
      assert vs[1..] == rest;
      assert VertexCells(p) == cs[..UI_VERTEX_SIZE];
      assert cs == cs[..UI_VERTEX_SIZE] + cs[UI_VERTEX_SIZE..];
    }
  }

  /** The engine's scissor rectangle: left, top, right and bottom edges. */
  datatype IntRect = IntRect(left: int, top: int, right: int, bottom: int)

  /** An engine UI batch: the texture it samples (a bitmap's, or none), its
      scissor, and its `[start, end)` range of vertex-data slots. */
  datatype UIBatch = UIBatch(texture: Option<nat>, scissor: IntRect, start: int, end: int)

  /** The adapter's own vertex data and batch list. */
  datatype Buffer = Buffer(vertexData: seq<Cell>, batches: seq<UIBatch>)

  const EmptyBuffer: Buffer := Buffer([], [])

  /** The scissor covering a toolkit clip rectangle. */
  function Scissor(r: Rect): (s: IntRect)
    ensures s.left == r.x && s.top == r.y
    ensures s.right - s.left == r.w && s.bottom - s.top == r.h
  {
    IntRect(r.x, r.y, r.x + r.w, r.y + r.h)
  }

  /** The texture of a possibly absent bitmap. */
  function TextureOf(b: Option<Bitmap>): (t: Option<nat>)
    ensures t.Some? <==> b.Some?
    ensures b.Some? ==> t.value == b.value.id
  {
    match b
    case None => None
    case Some(bm) => Some(bm.id)
  }

  /** The buffer after one toolkit batch has been submitted to it. */
  function Submitted(buf: Buffer, b: Batch): (r: Buffer)
    ensures |r.vertexData| == |buf.vertexData| + |b.vertices| * UI_VERTEX_SIZE
    ensures r.vertexData[..|buf.vertexData|] == buf.vertexData
    ensures DecodeCells(r.vertexData[|buf.vertexData|..]) == Some(b.vertices)
    ensures |r.batches| == |buf.batches| + 1 && r.batches[..|buf.batches|] == buf.batches
    ensures r.batches[|buf.batches|].start == |buf.vertexData|
    ensures r.batches[|buf.batches|].end == |r.vertexData|
    ensures r.batches[|buf.batches|].texture == TextureOf(b.bitmap)
    ensures r.batches[|buf.batches|].scissor == Scissor(b.clip)
  {
    var data := buf.vertexData + Layout(b.vertices);
    assert data[|buf.vertexData|..] == Layout(b.vertices);
    DecodeLayout(b.vertices);
    Buffer(data, buf.batches + [UIBatch(TextureOf(b.bitmap), Scissor(b.clip), |buf.vertexData|, |data|)])
  }

  /** Submitting a batch: nothing for a null batch; otherwise the vertices are
      written slot by slot after the existing data and the new range is
      recorded (batches are appended, not merged). */
  method RenderBatch(buf: Buffer, pb: Option<Batch>) returns (r: Buffer)
    ensures pb.None? ==> r == buf
    ensures pb.Some? ==> r == Submitted(buf, pb.value)
  {
    if pb.None? {
      return buf;
    }
    var b := pb.value;
    var begin := |buf.vertexData|;
    var data := buf.vertexData;
    var i := 0;
    while i < |b.vertices|
      invariant 0 <= i <= |b.vertices|
      invariant data == buf.vertexData + Layout(b.vertices[..i])
    {
      LayoutAppend(b.vertices[..i], [b.vertices[i]]);
      assert b.vertices[..i + 1] == b.vertices[..i] + [b.vertices[i]];
      data := data + VertexCells(b.vertices[i]);
      i := i + 1;
    }
    assert b.vertices[..i] == b.vertices;
    r := Buffer(data, buf.batches + [UIBatch(TextureOf(b.bitmap), Scissor(b.clip), begin, |data|)]);
  }

  /** A batch's range lies inside the data. */
  ghost predicate InRange(data: seq<Cell>, b: UIBatch) {
    0 <= b.start <= b.end <= |data|
  }

  ghost predicate WellFormed(buf: Buffer) {
    forall i :: 0 <= i < |buf.batches| ==> InRange(buf.vertexData, buf.batches[i])
  }

  /** The batches' ranges follow each other without gap or overlap and
      together cover the whole data. */
  ghost predicate Tiled(buf: Buffer) {
    && WellFormed(buf)
    && (|buf.batches| == 0 ==> |buf.vertexData| == 0)
    && (|buf.batches| > 0 ==>
          buf.batches[0].start == 0 && buf.batches[|buf.batches| - 1].end == |buf.vertexData|)
    && (forall i :: 0 < i < |buf.batches| ==> buf.batches[i].start == buf.batches[i - 1].end)
  }

  /** Submitting keeps the ranges tiling the data. */
  lemma SubmittedKeepsTiled(buf: Buffer, b: Batch)
    requires Tiled(buf)
    ensures Tiled(Submitted(buf, b))
  {
    var r := Submitted(buf, b);
    forall i | 0 <= i < |r.batches|
      ensures InRange(r.vertexData, r.batches[i])
    {
      if i < |buf.batches| {
        assert r.batches[i] == buf.batches[i];
      }
    }
    forall i | 0 < i < |r.batches|
      ensures r.batches[i].start == r.batches[i - 1].end
    {
      assert r.batches[i - 1] == buf.batches[i - 1];
      if i < |buf.batches| {
        assert r.batches[i] == buf.batches[i];
      }
    }
  }

  /** The contents of the given ranges, one after the other. */
  function Gathered(data: seq<Cell>, bs: seq<UIBatch>): (r: seq<Cell>)
    requires forall i :: 0 <= i < |bs| ==> InRange(data, bs[i])
    ensures |bs| == 0 ==> r == []
  {
    if |bs| == 0 then []
    else
      var last := bs[|bs| - 1];
      assert InRange(data, last);
      Gathered(data, bs[..|bs| - 1]) + data[last.start .. last.end]
  }

  /** When the ranges tile the data, gathering them reproduces the data up to
      the end of the last range gathered. */
  lemma {:induction false} GatheredTiledPrefix(buf: Buffer, k: nat)
    requires Tiled(buf)
    requires 0 < k <= |buf.batches|
    ensures Gathered(buf.vertexData, buf.batches[..k]) == buf.vertexData[..buf.batches[k - 1].end]
  {
    var bs := buf.batches;
    var data := buf.vertexData;
    assert bs[..k][..k - 1] == bs[..k - 1];
    if k == 1 {
      assert Gathered(data, bs[..k]) == [] + data[bs[0].start .. bs[0].end];
    } else {
      GatheredTiledPrefix(buf, k - 1);
      assert bs[k - 1].start == bs[k - 2].end;
      assert data[..bs[k - 2].end] + data[bs[k - 2].end .. bs[k - 1].end] == data[..bs[k - 1].end];
    }
  }

  /** Collecting a tiled buffer hands over all of its data, in order. */
  lemma GatheredTiled(buf: Buffer)
    requires Tiled(buf)
    ensures Gathered(buf.vertexData, buf.batches) == buf.vertexData
  {
    if |buf.batches| > 0 {
      GatheredTiledPrefix(buf, |buf.batches|);
      assert buf.batches[..|buf.batches|] == buf.batches;
    }
  }

  /** A batch moved to start at `at`, keeping its length and its state. */
  function Rebased(b: UIBatch, at: int): (nb: UIBatch)
    ensures nb.start == at && nb.end - nb.start == b.end - b.start
    ensures nb.texture == b.texture && nb.scissor == b.scissor
  {
    b.(start := at, end := at + (b.end - b.start))
  }

  /** The adapter's batches rebased onto the caller's data, the first one
      starting at `base` and each following one where the previous ended. */
  function Collected(data: seq<Cell>, bs: seq<UIBatch>, base: int): (r: seq<UIBatch>)
    requires forall i :: 0 <= i < |bs| ==> InRange(data, bs[i])
    ensures |r| == |bs|
  {
    if |bs| == 0 then []
    else
      var prefix := bs[..|bs| - 1];
      Collected(data, prefix, base) + [Rebased(bs[|bs| - 1], base + |Gathered(data, prefix)|)]
  }

  /** Gathering a prefix of the batches gathers a prefix of the data. */
  lemma {:induction false} GatheredPrefix(data: seq<Cell>, bs: seq<UIBatch>, k: nat)
    requires forall i :: 0 <= i < |bs| ==> InRange(data, bs[i])
    requires k <= |bs|
    ensures |Gathered(data, bs[..k])| <= |Gathered(data, bs)|
    ensures Gathered(data, bs)[..|Gathered(data, bs[..k])|] == Gathered(data, bs[..k])
    decreases |bs|
  {
    if k < |bs| {
      var prefix := bs[..|bs| - 1];
      assert prefix[..k] == bs[..k];
      GatheredPrefix(data, prefix, k);
    } else {
      assert bs[..k] == bs;
    }
  }

  /** Batch `i` of the collection starts where the gathered data of the
      batches before it ends, and keeps its length, texture and scissor. */
  lemma {:induction false} CollectedAt(data: seq<Cell>, bs: seq<UIBatch>, base: int, i: nat)
    requires forall j :: 0 <= j < |bs| ==> InRange(data, bs[j])
    requires i < |bs|
    ensures Collected(data, bs, base)[i] == Rebased(bs[i], base + |Gathered(data, bs[..i])|)
    decreases |bs|
  {
    var prefix := bs[..|bs| - 1];
    if i < |bs| - 1 {
      assert prefix[..i] == bs[..i];
      CollectedAt(data, prefix, base, i);
    }
  }

  /** Each rebased range of the caller's data holds exactly the contents of
      the original range. */
  lemma CollectedRangeHolds(data: seq<Cell>, bs: seq<UIBatch>, out: seq<Cell>, i: nat)
    requires forall j :: 0 <= j < |bs| ==> InRange(data, bs[j])
    requires i < |bs|
    ensures var nb := Collected(data, bs, |out|)[i];
      var out' := out + Gathered(data, bs);
      && 0 <= nb.start <= nb.end <= |out'|
      && out'[nb.start .. nb.end] == data[bs[i].start .. bs[i].end]
  {
    var nb := Collected(data, bs, |out|)[i];
    var g, all := Gathered(data, bs[..i]), Gathered(data, bs);
    var slice := data[bs[i].start .. bs[i].end];
    CollectedBounds(data, bs, |out|, i);
    GatheredStartsWith(data, bs, i);
    SliceAfterPrefix(out, all, g, slice, nb.start, nb.end);
  }

  /** Batch `i` of the collection covers the positions right after the
      gathered data of the batches before it. */
  lemma CollectedBounds(data: seq<Cell>, bs: seq<UIBatch>, base: int, i: nat)
    requires forall j :: 0 <= j < |bs| ==> InRange(data, bs[j])
    requires i < |bs|
    ensures var nb, g := Collected(data, bs, base)[i], Gathered(data, bs[..i]);
      nb.start == base + |g| && nb.end == base + |g| + (bs[i].end - bs[i].start)
  {
    CollectedAt(data, bs, base, i);
  }

  /** The gathered data starts with that of the batches before `i`, followed
      by batch `i`'s range. */
  lemma GatheredStartsWith(data: seq<Cell>, bs: seq<UIBatch>, i: nat)
    requires forall j :: 0 <= j < |bs| ==> InRange(data, bs[j])
    requires i < |bs|
    ensures 0 <= bs[i].start <= bs[i].end <= |data|
    ensures var g, slice, all := Gathered(data, bs[..i]), data[bs[i].start .. bs[i].end], Gathered(data, bs);
      |g| + |slice| <= |all| && all[..|g| + |slice|] == g + slice
  {
    GatheredStep(data, bs, i);
    GatheredPrefix(data, bs, i + 1);
  }

  /** Gathering one more batch appends that batch's range. */
  lemma GatheredStep(data: seq<Cell>, bs: seq<UIBatch>, i: nat)
    requires forall j :: 0 <= j < |bs| ==> InRange(data, bs[j])
    requires i < |bs|
    ensures Gathered(data, bs[..i + 1]) == Gathered(data, bs[..i]) + data[bs[i].start .. bs[i].end]
  {
    assert bs[..i + 1][..i] == bs[..i];
  }

  /** When `all` starts with `pre + slice`, the copy of `slice` in `out + all`
      sits right after `out` and `pre`. */
  lemma SliceAfterPrefix(out: seq<Cell>, all: seq<Cell>, pre: seq<Cell>, slice: seq<Cell>, from: int, to: int)
    requires |pre| + |slice| <= |all| && all[..|pre| + |slice|] == pre + slice
    requires from == |out| + |pre| && to == from + |slice|
    ensures 0 <= from <= to <= |out + all|
    ensures (out + all)[from .. to] == slice
  {
    assert (out + all)[from .. to] == all[|pre| .. |pre| + |slice|];
    assert all[|pre| .. |pre| + |slice|] == (pre + slice)[|pre|..];
  }

  /** Hands the adapter's batches to the engine: each range is appended to the
      caller's vertex data, its batch is rebased onto the copy and appended to
      the caller's batches, and the adapter's own buffer is emptied. */
  method GetBatches(buf: Buffer, batches: seq<UIBatch>, vertexData: seq<Cell>)
    returns (internal: Buffer, batches': seq<UIBatch>, vertexData': seq<Cell>)
    requires WellFormed(buf)
    ensures internal == EmptyBuffer
    ensures vertexData' == vertexData + Gathered(buf.vertexData, buf.batches)
    ensures batches' == batches + Collected(buf.vertexData, buf.batches, |vertexData|)
  {
    batches' := batches;
    vertexData' := vertexData;
    var i := 0;
    while i < |buf.batches|
      invariant 0 <= i <= |buf.batches|
      invariant vertexData' == vertexData + Gathered(buf.vertexData, buf.batches[..i])
      invariant batches' == batches + Collected(buf.vertexData, buf.batches[..i], |vertexData|)
    {
      var b := buf.batches[i];
      var beg, end := b.start, b.end;
      var nb := Rebased(b, |vertexData'|);
      assert buf.batches[..i + 1][..i] == buf.batches[..i];
      vertexData' := vertexData' + buf.vertexData[beg..end];
      batches' := batches' + [nb];
      i := i + 1;
    }
    assert buf.batches[..i] == buf.batches;
    internal := EmptyBuffer;
  }

  /** What collection promises batch by batch: the caller's earlier batches
      and data stay in front, and batch `i` comes out rebased onto a range of
      the caller's data that holds exactly its original contents. */
  lemma GetBatchesFaithful(buf: Buffer, batches: seq<UIBatch>, vertexData: seq<Cell>, i: nat)
    requires WellFormed(buf)
    requires i < |buf.batches|
    ensures var batches' := batches + Collected(buf.vertexData, buf.batches, |vertexData|);
      var vertexData' := vertexData + Gathered(buf.vertexData, buf.batches);
      var b, nb := buf.batches[i], batches'[|batches| + i];
      && batches'[..|batches|] == batches
      && vertexData'[..|vertexData|] == vertexData
      && nb.end - nb.start == b.end - b.start
      && nb.texture == b.texture && nb.scissor == b.scissor
      && 0 <= nb.start <= nb.end <= |vertexData'|
      && vertexData'[nb.start .. nb.end] == buf.vertexData[b.start .. b.end]
  {
    CollectedRangeHolds(buf.vertexData, buf.batches, vertexData, i);
    CollectedAt(buf.vertexData, buf.batches, |vertexData|, i);
  }

  /** With tiled ranges, collection appends exactly the adapter's data. */
  lemma GetBatchesCopiesAll(buf: Buffer, vertexData: seq<Cell>)
    requires Tiled(buf)
    ensures vertexData + Gathered(buf.vertexData, buf.batches) == vertexData + buf.vertexData
  {
    GatheredTiled(buf);
  }
}
