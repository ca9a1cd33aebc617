// The glTF 2.0 binary container writer (include/GlbBuilder.hpp, src/GlbBuilder.cpp):
// buckets and palettes from several shapes are merged into one builder, then laid out
// as buffer views, accessors and mesh primitives over one binary buffer, and written
// as a GLB file (12-byte header, a JSON chunk and a BIN chunk).

module GlbBuilder {
  import opened Common

  // ---------------------------------------------------------------------------
  // glTF constants

  const ArrayBufferTarget := 34962         // vertex attributes
  const ElementArrayBufferTarget := 34963  // indices
  const FloatComponent := 5126
  const UnsignedIntComponent := 5125
  const ModeTriangles := 4
  const ModeLines := 1
  /** Bytes of one vertex or normal (three 4-byte floats) and of one 32-bit index. */
  const Vec3Size := 12
  const IndexSize := 4

  const GlbMagic := 0x46546C67       // "glTF"
  const GlbVersion := 2
  const JsonChunkType := 0x4E4F534A  // "JSON"
  const BinChunkType := 0x004E4942   // "BIN\0"

  // ---------------------------------------------------------------------------
  // The document layout

  datatype AccessorType = Vec3Type | ScalarType

  /** A slice of the single binary buffer (buffer 0). */
  datatype BufferView = BufferView(byteOffset: nat, byteLength: nat, target: int)

  datatype Accessor = Accessor(bufferView: nat, componentType: int, count: nat,
                               accType: AccessorType, bounds: seq<real>, hasBounds: bool)

  /** A mesh primitive; nrmAcc is -1 for line primitives, which have no normals. */
  datatype Primitive = Primitive(posAcc: nat, nrmAcc: int, idxAcc: nat, material: nat, mode: int)

  /** Everything the JSON document describes apart from the palette: the length of the
      binary buffer and the three arrays that index into it. */
  datatype Layout = Layout(binLength: nat, views: seq<BufferView>, accessors: seq<Accessor>,
                           primitives: seq<Primitive>)

  const EmptyLayout := Layout(0, [], [], [])

  /** What the JSON chunk is rendered from. */
  datatype GltfDoc = GltfDoc(materials: seq<RGBA>, layout: Layout, bufferLength: nat)

  const NoBounds: seq<real> := [0.0, 0.0, 0.0, 0.0, 0.0, 0.0]

  /** A primitive's material: the bucket's own index when it names a palette entry,
      material 0 otherwise (a bucket without material, or an index past the palette). */
  function MaterialFor(idx: int, paletteSize: nat): (m: nat)
  {
    if 0 <= idx < paletteSize then idx else 0
  }

  lemma MaterialForInPalette(idx: int, paletteSize: nat)
    requires paletteSize > 0
    ensures MaterialFor(idx, paletteSize) < paletteSize
    ensures 0 <= idx < paletteSize <==> MaterialFor(idx, paletteSize) == idx
  {
  }

  /** A triangle bucket is drawn when it has both vertices and indices. */
  predicate TriDrawn(b: TriBucket) { |b.vertices| > 0 && |b.indices| > 0 }
  predicate EdgeDrawn(e: EdgeBucket) { |e.vertices| > 0 && |e.indices| > 0 }

  /** The layout after one triangle bucket: positions, normals and indices are appended
      to the buffer, each with its view and accessor, and one TRIANGLES primitive
      refers to the three accessors. */
  function WithTriBucket(l: Layout, b: TriBucket, paletteSize: nat): Layout
  {
    if !TriDrawn(b) then l
    else
      var v0 := |l.views|;
      var a0 := |l.accessors|;
      var posLen := Vec3Size * |b.vertices|;
      var nrmLen := Vec3Size * |b.normals|;
      var idxLen := IndexSize * |b.indices|;
      Layout(l.binLength + posLen + nrmLen + idxLen,
             l.views + [BufferView(l.binLength, posLen, ArrayBufferTarget),
                        BufferView(l.binLength + posLen, nrmLen, ArrayBufferTarget),
                        BufferView(l.binLength + posLen + nrmLen, idxLen, ElementArrayBufferTarget)],
             l.accessors + [Accessor(v0, FloatComponent, |b.vertices|, Vec3Type, MinMax(b.vertices, false), true),
                            Accessor(v0 + 1, FloatComponent, |b.normals|, Vec3Type, MinMax(b.normals, true), true),
                            Accessor(v0 + 2, UnsignedIntComponent, |b.indices|, ScalarType, NoBounds, false)],
             l.primitives + [Primitive(a0, a0 + 1, a0 + 2, MaterialFor(b.materialIndex, paletteSize), ModeTriangles)])
  }

  /** The layout after one edge bucket: positions and indices, one LINES primitive. */
  function WithEdgeBucket(l: Layout, e: EdgeBucket, paletteSize: nat): Layout
  {
    if !EdgeDrawn(e) then l
    else
      var v0 := |l.views|;
      var a0 := |l.accessors|;
      var posLen := Vec3Size * |e.vertices|;
      var idxLen := IndexSize * |e.indices|;
      Layout(l.binLength + posLen + idxLen,
             l.views + [BufferView(l.binLength, posLen, ArrayBufferTarget),
                        BufferView(l.binLength + posLen, idxLen, ElementArrayBufferTarget)],
             l.accessors + [Accessor(v0, FloatComponent, |e.vertices|, Vec3Type, MinMax(e.vertices, false), true),
                            Accessor(v0 + 1, UnsignedIntComponent, |e.indices|, ScalarType, NoBounds, false)],
             l.primitives + [Primitive(a0, -1, a0 + 1, MaterialFor(e.materialIndex, paletteSize), ModeLines)])
  }

  function LayoutTris(l: Layout, bs: seq<TriBucket>, paletteSize: nat): Layout
  {
    if |bs| == 0 then l
    else WithTriBucket(LayoutTris(l, bs[..|bs| - 1], paletteSize), bs[|bs| - 1], paletteSize)
  }

  function LayoutEdges(l: Layout, es: seq<EdgeBucket>, paletteSize: nat): Layout
  {
    if |es| == 0 then l
    else WithEdgeBucket(LayoutEdges(l, es[..|es| - 1], paletteSize), es[|es| - 1], paletteSize)
  }

  /** The whole layout: all triangle buckets in order, then all edge buckets. */
  function BuildLayout(tris: seq<TriBucket>, edges: seq<EdgeBucket>, paletteSize: nat): Layout
  {
    LayoutEdges(LayoutTris(EmptyLayout, tris, paletteSize), edges, paletteSize)
  }

  // ---------------------------------------------------------------------------
  // Well-formedness of a layout

  /** Views tile the buffer from offset 0 up to `end`, in order and without gaps. */
  predicate ViewsContiguous(views: seq<BufferView>, end: nat)
  {
    && (|views| == 0 ==> end == 0)
    && (|views| > 0 ==> views[0].byteOffset == 0 && views[|views| - 1].byteOffset + views[|views| - 1].byteLength == end)
    && (forall i :: 0 < i < |views| ==> views[i].byteOffset == views[i - 1].byteOffset + views[i - 1].byteLength)
  }

  predicate IsVec3Accessor(a: Accessor) { a.componentType == FloatComponent && a.accType == Vec3Type }
  predicate IsIndexAccessor(a: Accessor) { a.componentType == UnsignedIntComponent && a.accType == ScalarType }

  /** An accessor's view holds exactly `count` elements of its type, with the matching target. */
  predicate AccessorFitsView(a: Accessor, v: BufferView)
  {
    || (IsVec3Accessor(a) && v.target == ArrayBufferTarget && v.byteLength == Vec3Size * a.count)
    || (IsIndexAccessor(a) && v.target == ElementArrayBufferTarget && v.byteLength == IndexSize * a.count)
  }

  predicate PrimitiveValid(p: Primitive, accessors: seq<Accessor>, paletteSize: nat)
  {
    && p.posAcc < |accessors| && IsVec3Accessor(accessors[p.posAcc])
    && p.idxAcc < |accessors| && IsIndexAccessor(accessors[p.idxAcc])
    && ((p.mode == ModeTriangles && 0 <= p.nrmAcc < |accessors| && IsVec3Accessor(accessors[p.nrmAcc]))
        || (p.mode == ModeLines && p.nrmAcc == -1))
    && (p.material < paletteSize || p.material == 0)
  }

  predicate ViewsAligned(views: seq<BufferView>)
  {
    forall i :: 0 <= i < |views| ==> views[i].byteOffset % 4 == 0 && views[i].byteLength % 4 == 0
  }

  /** Accessor k reads view k, which holds exactly its elements. */
  predicate AccessorsFit(accessors: seq<Accessor>, views: seq<BufferView>)
  {
    && |accessors| == |views|
    && forall k :: 0 <= k < |accessors| ==> accessors[k].bufferView == k && AccessorFitsView(accessors[k], views[k])
  }

  predicate PrimitivesValid(primitives: seq<Primitive>, accessors: seq<Accessor>, paletteSize: nat)
  {
    forall j :: 0 <= j < |primitives| ==> PrimitiveValid(primitives[j], accessors, paletteSize)
  }

  predicate LayoutValid(l: Layout, paletteSize: nat)
  {
    && ViewsContiguous(l.views, l.binLength)
    && l.binLength % 4 == 0
    && ViewsAligned(l.views)
    && AccessorsFit(l.accessors, l.views)
    && PrimitivesValid(l.primitives, l.accessors, paletteSize)
  }

  lemma ContiguousSnoc(views: seq<BufferView>, end: nat, len: nat, target: int)
    requires ViewsContiguous(views, end)
    ensures ViewsContiguous(views + [BufferView(end, len, target)], end + len)
  {
  }

  lemma AlignedSnoc(views: seq<BufferView>, v: BufferView)
    requires ViewsAligned(views) && v.byteOffset % 4 == 0 && v.byteLength % 4 == 0
    ensures ViewsAligned(views + [v])
  {
  }

  lemma FitsSnoc(accessors: seq<Accessor>, views: seq<BufferView>, a: Accessor, v: BufferView)
    requires AccessorsFit(accessors, views) && a.bufferView == |views| && AccessorFitsView(a, v)
    ensures AccessorsFit(accessors + [a], views + [v])
  {
  }

  /** Appending accessors keeps existing primitives valid. */
  lemma PrimitivesExtend(primitives: seq<Primitive>, accessors: seq<Accessor>, more: seq<Accessor>, paletteSize: nat)
    requires PrimitivesValid(primitives, accessors, paletteSize)
    ensures PrimitivesValid(primitives, accessors + more, paletteSize)
  {
    forall j | 0 <= j < |primitives|
      ensures PrimitiveValid(primitives[j], accessors + more, paletteSize)
    {
      assert PrimitiveValid(primitives[j], accessors, paletteSize);
    }
  }

  lemma Aligned(n: nat)
    ensures (Vec3Size * n) % 4 == 0 && (IndexSize * n) % 4 == 0
  {
    assert Vec3Size * n == 4 * (3 * n);
  }

  /** One region appended at the end of a well-formed layout: a view and its accessor. */
  lemma AppendRegionValid(l: Layout, len: nat, target: int, a: Accessor, paletteSize: nat)
    requires LayoutValid(l, paletteSize) && len % 4 == 0
    requires a.bufferView == |l.views| && AccessorFitsView(a, BufferView(l.binLength, len, target))
    ensures LayoutValid(Layout(l.binLength + len, l.views + [BufferView(l.binLength, len, target)],
                               l.accessors + [a], l.primitives), paletteSize)
  {
    var v := BufferView(l.binLength, len, target);
    ContiguousSnoc(l.views, l.binLength, len, target);
    AlignedSnoc(l.views, v);
    FitsSnoc(l.accessors, l.views, a, v);
    PrimitivesExtend(l.primitives, l.accessors, [a], paletteSize);
    AlignedSum(l.binLength, len);
  }

  lemma AlignedSum(m: nat, n: nat)
    requires m % 4 == 0 && n % 4 == 0
    ensures (m + n) % 4 == 0
  {
  }

  lemma AppendPrimitiveValid(l: Layout, p: Primitive, paletteSize: nat)
    requires LayoutValid(l, paletteSize) && PrimitiveValid(p, l.accessors, paletteSize)
    ensures LayoutValid(l.(primitives := l.primitives + [p]), paletteSize)
  {
  }

  lemma WithTriBucketValid(l: Layout, b: TriBucket, paletteSize: nat)
    requires LayoutValid(l, paletteSize)
    ensures LayoutValid(WithTriBucket(l, b, paletteSize), paletteSize)
  {
    if TriDrawn(b) {
      var v0, a0 := |l.views|, |l.accessors|;
      var posLen, nrmLen, idxLen := Vec3Size * |b.vertices|, Vec3Size * |b.normals|, IndexSize * |b.indices|;
      var pa := Accessor(v0, FloatComponent, |b.vertices|, Vec3Type, MinMax(b.vertices, false), true);
      var na := Accessor(v0 + 1, FloatComponent, |b.normals|, Vec3Type, MinMax(b.normals, true), true);
      var ia := Accessor(v0 + 2, UnsignedIntComponent, |b.indices|, ScalarType, NoBounds, false);
      Aligned(|b.vertices|); Aligned(|b.normals|); Aligned(|b.indices|);
      var l1 := Layout(l.binLength + posLen, l.views + [BufferView(l.binLength, posLen, ArrayBufferTarget)],
                       l.accessors + [pa], l.primitives);
      AppendRegionValid(l, posLen, ArrayBufferTarget, pa, paletteSize);
      var l2 := Layout(l1.binLength + nrmLen, l1.views + [BufferView(l1.binLength, nrmLen, ArrayBufferTarget)],
                       l1.accessors + [na], l.primitives);
      AppendRegionValid(l1, nrmLen, ArrayBufferTarget, na, paletteSize);
      var l3 := Layout(l2.binLength + idxLen, l2.views + [BufferView(l2.binLength, idxLen, ElementArrayBufferTarget)],
                       l2.accessors + [ia], l.primitives);
      AppendRegionValid(l2, idxLen, ElementArrayBufferTarget, ia, paletteSize);
      var p := Primitive(a0, a0 + 1, a0 + 2, MaterialFor(b.materialIndex, paletteSize), ModeTriangles);
      assert l3.accessors[a0] == pa && l3.accessors[a0 + 1] == na && l3.accessors[a0 + 2] == ia;
      AppendPrimitiveValid(l3, p, paletteSize);
      assert l3.(primitives := l3.primitives + [p]) == WithTriBucket(l, b, paletteSize);
    }
  }

  /** For a valid bucket the normal accessor counts as many elements as the position
      accessor it accompanies. */
  lemma WithTriBucketNormalsMatch(l: Layout, b: TriBucket, paletteSize: nat)
    requires TriBucketValid(b) && TriDrawn(b)
    ensures var l' := WithTriBucket(l, b, paletteSize);
      var p := l'.primitives[|l.primitives|];
      && p.posAcc == |l.accessors| && p.nrmAcc == |l.accessors| + 1
      && l'.accessors[p.posAcc].count == l'.accessors[p.nrmAcc].count == |b.vertices|
  {
  }

  lemma WithEdgeBucketValid(l: Layout, e: EdgeBucket, paletteSize: nat)
    requires LayoutValid(l, paletteSize)
    ensures LayoutValid(WithEdgeBucket(l, e, paletteSize), paletteSize)
  {
    if EdgeDrawn(e) {
      var v0, a0 := |l.views|, |l.accessors|;
      var posLen, idxLen := Vec3Size * |e.vertices|, IndexSize * |e.indices|;
      var pa := Accessor(v0, FloatComponent, |e.vertices|, Vec3Type, MinMax(e.vertices, false), true);
      var ia := Accessor(v0 + 1, UnsignedIntComponent, |e.indices|, ScalarType, NoBounds, false);
      Aligned(|e.vertices|); Aligned(|e.indices|);
      var l1 := Layout(l.binLength + posLen, l.views + [BufferView(l.binLength, posLen, ArrayBufferTarget)],
                       l.accessors + [pa], l.primitives);
      AppendRegionValid(l, posLen, ArrayBufferTarget, pa, paletteSize);
      var l2 := Layout(l1.binLength + idxLen, l1.views + [BufferView(l1.binLength, idxLen, ElementArrayBufferTarget)],
                       l1.accessors + [ia], l.primitives);
      AppendRegionValid(l1, idxLen, ElementArrayBufferTarget, ia, paletteSize);
      var p := Primitive(a0, -1, a0 + 1, MaterialFor(e.materialIndex, paletteSize), ModeLines);
      assert l2.accessors[a0] == pa && l2.accessors[a0 + 1] == ia;
      AppendPrimitiveValid(l2, p, paletteSize);
      assert l2.(primitives := l2.primitives + [p]) == WithEdgeBucket(l, e, paletteSize);
    }
  }

  lemma {:induction false} LayoutTrisValid(l: Layout, bs: seq<TriBucket>, paletteSize: nat)
    requires LayoutValid(l, paletteSize)
    ensures LayoutValid(LayoutTris(l, bs, paletteSize), paletteSize)
  {
    if |bs| > 0 {
      LayoutTrisValid(l, bs[..|bs| - 1], paletteSize);
      WithTriBucketValid(LayoutTris(l, bs[..|bs| - 1], paletteSize), bs[|bs| - 1], paletteSize);
    }
  }

  lemma {:induction false} LayoutEdgesValid(l: Layout, es: seq<EdgeBucket>, paletteSize: nat)
    requires LayoutValid(l, paletteSize)
    ensures LayoutValid(LayoutEdges(l, es, paletteSize), paletteSize)
  {
    if |es| > 0 {
      LayoutEdgesValid(l, es[..|es| - 1], paletteSize);
      WithEdgeBucketValid(LayoutEdges(l, es[..|es| - 1], paletteSize), es[|es| - 1], paletteSize);
    }
  }

  /** Every layout the writer builds is well formed: views tile the 4-aligned buffer,
      each accessor fits its view, and each primitive refers to accessors of the right
      kind and to a material of the palette (or material 0). */
  lemma BuildLayoutValid(tris: seq<TriBucket>, edges: seq<EdgeBucket>, paletteSize: nat)
    ensures LayoutValid(BuildLayout(tris, edges, paletteSize), paletteSize)
  {
    LayoutTrisValid(EmptyLayout, tris, paletteSize);
    LayoutEdgesValid(LayoutTris(EmptyLayout, tris, paletteSize), edges, paletteSize);
  }

  /** Contiguous views never overlap: an earlier view ends where or before a later one begins. */
  lemma {:induction false} ViewsDisjoint(views: seq<BufferView>, end: nat, i: nat, j: nat)
    requires ViewsContiguous(views, end)
    requires i < j < |views|
    ensures views[i].byteOffset + views[i].byteLength <= views[j].byteOffset
    decreases j - i
  {
    if i + 1 < j {
      ViewsDisjoint(views, end, i + 1, j);
    }
  }

  /** Every view lies inside the buffer. */
  lemma {:induction false} ViewInsideBuffer(views: seq<BufferView>, end: nat, i: nat)
    requires ViewsContiguous(views, end)
    requires i < |views|
    ensures views[i].byteOffset + views[i].byteLength <= end
  {
    if i + 1 < |views| {
      ViewsDisjoint(views, end, i, |views| - 1);
    }
  }

  /** Every region the writer appends is a multiple of four bytes, so padding the binary
      buffer to four bytes never adds anything. */
  lemma BinNeedsNoPadding(tris: seq<TriBucket>, edges: seq<EdgeBucket>, paletteSize: nat)
    ensures Pad4(BuildLayout(tris, edges, paletteSize).binLength) == BuildLayout(tris, edges, paletteSize).binLength
  {
    BuildLayoutValid(tris, edges, paletteSize);
  }

  // ---------------------------------------------------------------------------
  // Counting what is drawn

  function DrawnTris(bs: seq<TriBucket>): nat
  {
    if |bs| == 0 then 0 else DrawnTris(bs[..|bs| - 1]) + (if TriDrawn(bs[|bs| - 1]) then 1 else 0)
  }

  function DrawnEdges(es: seq<EdgeBucket>): nat
  {
    if |es| == 0 then 0 else DrawnEdges(es[..|es| - 1]) + (if EdgeDrawn(es[|es| - 1]) then 1 else 0)
  }

  /** One primitive and three views/accessors per drawn triangle bucket. */
  lemma {:induction false} LayoutTrisCounts(l: Layout, bs: seq<TriBucket>, paletteSize: nat)
    ensures var l' := LayoutTris(l, bs, paletteSize);
      && |l'.primitives| == |l.primitives| + DrawnTris(bs)
      && |l'.views| == |l.views| + 3 * DrawnTris(bs)
      && |l'.accessors| == |l.accessors| + 3 * DrawnTris(bs)
  {
    if |bs| > 0 {
      LayoutTrisCounts(l, bs[..|bs| - 1], paletteSize);
    }
  }

  /** One primitive and two views/accessors per drawn edge bucket. */
  lemma {:induction false} LayoutEdgesCounts(l: Layout, es: seq<EdgeBucket>, paletteSize: nat)
    ensures var l' := LayoutEdges(l, es, paletteSize);
      && |l'.primitives| == |l.primitives| + DrawnEdges(es)
      && |l'.views| == |l.views| + 2 * DrawnEdges(es)
      && |l'.accessors| == |l.accessors| + 2 * DrawnEdges(es)
  {
    if |es| > 0 {
      LayoutEdgesCounts(l, es[..|es| - 1], paletteSize);
    }
  }

  lemma BuildLayoutCounts(tris: seq<TriBucket>, edges: seq<EdgeBucket>, paletteSize: nat)
    ensures |BuildLayout(tris, edges, paletteSize).primitives| == DrawnTris(tris) + DrawnEdges(edges)
    ensures |BuildLayout(tris, edges, paletteSize).views| == 3 * DrawnTris(tris) + 2 * DrawnEdges(edges)
    ensures |BuildLayout(tris, edges, paletteSize).accessors| == 3 * DrawnTris(tris) + 2 * DrawnEdges(edges)
  {
    LayoutTrisCounts(EmptyLayout, tris, paletteSize);
    LayoutEdgesCounts(LayoutTris(EmptyLayout, tris, paletteSize), edges, paletteSize);
  }

  // ---------------------------------------------------------------------------
  // Statistics

  /** A single quad (four vertices, two triangles) beside an empty edge bucket yields one
      TRIANGLES primitive over three views and accessors, and counts as four vertices and
      two triangles; the empty edge bucket is not drawn. */
  lemma QuadScenario(p: seq<Vertex>, n: seq<Normal>, paletteSize: nat)
    requires |p| == 4 && |n| == 4
    ensures var b := TriBucket(p, n, [0, 1, 2, 0, 2, 3], 0);
      var l := BuildLayout([b], [EmptyEdgeBucket], paletteSize);
      && |l.primitives| == 1 && |l.views| == 3 && |l.accessors| == 3
      && l.primitives[0].mode == ModeTriangles
      && l.binLength == 120
      && VertexTotal([b]) == 4 && TriangleTotal([b]) == 2
  {
    var b := TriBucket(p, n, [0, 1, 2, 0, 2, 3], 0);
    assert [b][..0] == [];
    assert TriDrawn(b);
    assert LayoutTris(EmptyLayout, [b], paletteSize) == WithTriBucket(EmptyLayout, b, paletteSize);
    assert [EmptyEdgeBucket][..0] == [] && !EdgeDrawn(EmptyEdgeBucket);
    var l1 := WithTriBucket(EmptyLayout, b, paletteSize);
    assert LayoutEdges(l1, [EmptyEdgeBucket], paletteSize) == WithEdgeBucket(LayoutEdges(l1, [], paletteSize), EmptyEdgeBucket, paletteSize);
    assert VertexTotal([b]) == VertexTotal([]) + 4;
    assert TriangleTotal([b]) == TriangleTotal([]) + 6 / 3;
  }

  function VertexTotal(bs: seq<TriBucket>): nat
  {
    if |bs| == 0 then 0 else VertexTotal(bs[..|bs| - 1]) + |bs[|bs| - 1].vertices|
  }

  function TriangleTotal(bs: seq<TriBucket>): nat
  {
    if |bs| == 0 then 0 else TriangleTotal(bs[..|bs| - 1]) + |bs[|bs| - 1].indices| / 3
  }

  function LineTotal(es: seq<EdgeBucket>): nat
  {
    if |es| == 0 then 0 else LineTotal(es[..|es| - 1]) + |es[|es| - 1].indices| / 2
  }

  // ---------------------------------------------------------------------------
  // The container

  /** One write to the output file: a little-endian 32-bit word, the JSON text, or the
      binary buffer (modelled by its length). */
  datatype Piece = Word(value: nat) | Text(chars: string) | Payload(length: nat)

  function PieceSize(p: Piece): nat
  {
    match p
    case Word(_) => 4
    case Text(s) => |s|
    case Payload(n) => n
  }

  function FileSize(f: seq<Piece>): nat
  {
    if |f| == 0 then 0 else PieceSize(f[0]) + FileSize(f[1..])
  }

  /** The JSON text padded with spaces up to a multiple of four bytes. */
  function PadJson(s: string): (r: string)
    ensures |r| == Pad4(|s|)
  {
    s + seq(Pad4(|s|) - |s|, _ => ' ')
  }

  lemma PadJsonShape(s: string)
    ensures |PadJson(s)| % 4 == 0 && |s| <= |PadJson(s)| < |s| + 4
    ensures PadJson(s)[..|s|] == s
    ensures forall i :: |s| <= i < |PadJson(s)| ==> PadJson(s)[i] == ' '
  {
  }

  /** The header's length field: header, two chunk headers and both chunk bodies. */
  function TotalLength(json: string, binLength: nat): nat
  {
    12 + 8 + |json| + 8 + binLength
  }

  /** The GLB file: header, JSON chunk, BIN chunk header, and the buffer when it is non-empty. */
  function GlbFile(json: string, binLength: nat): seq<Piece>
  {
    [Word(GlbMagic), Word(GlbVersion), Word(TotalLength(json, binLength)),
     Word(|json|), Word(JsonChunkType), Text(json),
     Word(binLength), Word(BinChunkType)]
    + (if binLength > 0 then [Payload(binLength)] else [])
  }

  /** A reader of the container as the binary glTF format lays it out: magic, version,
      a total length equal to the file's size, a 4-aligned JSON chunk and a 4-aligned
      BIN chunk whose body is present exactly when its length is non-zero. */
  function ReadGlb(f: seq<Piece>): (r: Option<(string, nat)>)
    ensures r.Some? ==> |r.value.0| % 4 == 0 && r.value.1 % 4 == 0 && FileSize(f) == TotalLength(r.value.0, r.value.1)
  {
    if |f| < 8 then None
    else if f[0] != Word(GlbMagic) || f[1] != Word(GlbVersion) || !f[2].Word? || f[2].value != FileSize(f) then None
    else if !f[3].Word? || f[4] != Word(JsonChunkType) || !f[5].Text? || |f[5].chars| != f[3].value then None
    else if !f[6].Word? || f[7] != Word(BinChunkType) then None
    else if f[3].value % 4 != 0 || f[6].value % 4 != 0 then None
    else if f[6].value == 0 && |f| != 8 then None
    else if f[6].value > 0 && (|f| != 9 || f[8] != Payload(f[6].value)) then None
    else
      FileSizeSplit(f);
      Some((f[5].chars, f[6].value))
  }

  lemma FileSizeFrom(f: seq<Piece>, k: nat)
    requires k < |f|
    ensures FileSize(f[k..]) == PieceSize(f[k]) + FileSize(f[k + 1..])
  {
    assert f[k..][1..] == f[k + 1..];
  }

  /** The size of a file of eight header pieces and an optional buffer. */
  lemma FileSizeSplit(f: seq<Piece>)
    requires 8 <= |f| <= 9
    ensures FileSize(f) == PieceSize(f[0]) + PieceSize(f[1]) + PieceSize(f[2]) + PieceSize(f[3])
                          + PieceSize(f[4]) + PieceSize(f[5]) + PieceSize(f[6]) + PieceSize(f[7])
                          + (if |f| == 9 then PieceSize(f[8]) else 0)
  {
    assert f[0..] == f;
    FileSizeFrom(f, 0); FileSizeFrom(f, 1); FileSizeFrom(f, 2); FileSizeFrom(f, 3);
    FileSizeFrom(f, 4); FileSizeFrom(f, 5); FileSizeFrom(f, 6); FileSizeFrom(f, 7);
    if |f| == 9 {
      FileSizeFrom(f, 8);
    }
    assert f[|f|..] == [];
  }

  /** The header's length field is the number of bytes written, and a reader gets back
      the JSON text and the buffer length that were written. */
  lemma {:induction false} GlbRoundTrip(json: string, binLength: nat)
    requires |json| % 4 == 0 && binLength % 4 == 0
    ensures FileSize(GlbFile(json, binLength)) == TotalLength(json, binLength)
    ensures ReadGlb(GlbFile(json, binLength)) == Some((json, binLength))
  {
    FileSizeSplit(GlbFile(json, binLength));
  }

  /** What the writer produces for any bucket lists, palette and JSON rendering: a file
      whose header length is its size, whose chunks are 4-aligned and read back as the
      padded JSON text and the buffer the layout describes. */
  lemma {:induction false} WrittenFileReadsBack(tris: seq<TriBucket>, edges: seq<EdgeBucket>, materials: seq<RGBA>,
                                                render: GltfDoc -> string)
    ensures var l := BuildLayout(tris, edges, |materials|);
      var json := PadJson(render(GltfDoc(materials, l, l.binLength)));
      && FileSize(GlbFile(json, l.binLength)) == TotalLength(json, l.binLength)
      && ReadGlb(GlbFile(json, l.binLength)) == Some((json, l.binLength))
  {
    var l := BuildLayout(tris, edges, |materials|);
    BuildLayoutValid(tris, edges, |materials|);
    var json := PadJson(render(GltfDoc(materials, l, l.binLength)));
    GlbRoundTrip(json, l.binLength);
  }

  // ---------------------------------------------------------------------------
  // Merging buckets from several shapes

  function ShiftTri(b: TriBucket, base: nat): TriBucket
  {
    if b.materialIndex >= 0 then b.(materialIndex := b.materialIndex + base) else b
  }

  function ShiftEdge(e: EdgeBucket, base: nat): EdgeBucket
  {
    if e.materialIndex >= 0 then e.(materialIndex := e.materialIndex + base) else e
  }

  /** The buckets one addBuckets call appends: those with vertices, in order, their
      material indices moved past the `base` palette entries already present. */
  function MergeTris(bs: seq<TriBucket>, base: nat): seq<TriBucket>
  {
    if |bs| == 0 then []
    else MergeTris(bs[..|bs| - 1], base)
         + (if |bs[|bs| - 1].vertices| == 0 then [] else [ShiftTri(bs[|bs| - 1], base)])
  }

  function MergeEdges(es: seq<EdgeBucket>, base: nat): seq<EdgeBucket>
  {
    if |es| == 0 then []
    else MergeEdges(es[..|es| - 1], base)
         + (if |es[|es| - 1].vertices| == 0 then [] else [ShiftEdge(es[|es| - 1], base)])
  }

  /** Each merged bucket is an input bucket with vertices, its geometry unchanged and its
      material shifted; a material index of -1 stays -1. */
  lemma {:induction false} MergedTriOrigin(bs: seq<TriBucket>, base: nat, j: nat)
    requires j < |MergeTris(bs, base)|
    ensures exists i :: 0 <= i < |bs| && |bs[i].vertices| > 0 && MergeTris(bs, base)[j] == ShiftTri(bs[i], base)
  {
    var init := bs[..|bs| - 1];
    if j < |MergeTris(init, base)| {
      MergedTriOrigin(init, base, j);
      var i :| 0 <= i < |init| && |init[i].vertices| > 0 && MergeTris(init, base)[j] == ShiftTri(init[i], base);
      assert bs[i] == init[i];
    } else {
      assert MergeTris(bs, base)[j] == ShiftTri(bs[|bs| - 1], base);
    }
  }

  lemma {:induction false} MergedEdgeOrigin(es: seq<EdgeBucket>, base: nat, j: nat)
    requires j < |MergeEdges(es, base)|
    ensures exists i :: 0 <= i < |es| && |es[i].vertices| > 0 && MergeEdges(es, base)[j] == ShiftEdge(es[i], base)
  {
    var init := es[..|es| - 1];
    if j < |MergeEdges(init, base)| {
      MergedEdgeOrigin(init, base, j);
      var i :| 0 <= i < |init| && |init[i].vertices| > 0 && MergeEdges(init, base)[j] == ShiftEdge(init[i], base);
      assert es[i] == init[i];
    } else {
      assert MergeEdges(es, base)[j] == ShiftEdge(es[|es| - 1], base);
    }
  }

  /** A shifted material index names, in the merged palette, the colour it named in the
      shape's own palette; an index outside that palette stays outside (or negative). */
  lemma ShiftedMaterialResolves(prev: seq<RGBA>, mats: seq<RGBA>, idx: int)
    ensures var m := if idx >= 0 then idx + |prev| else idx;
      && (0 <= idx < |mats| ==> 0 <= m < |prev + mats| && (prev + mats)[m] == mats[idx])
      && (idx >= |mats| ==> m >= |prev + mats|)
      && (idx < 0 ==> m < 0)
  {
  }

  /** Indices below n: with n == 0 there can be none. */
  lemma EmptyRangeHasNoIndices(ix: seq<nat>, n: nat)
    requires forall k :: 0 <= k < |ix| ==> ix[k] < n
    ensures n == 0 ==> ix == []
  {
    if ix != [] {
      assert ix[0] < n;
    }
  }

  /** Merging drops only buckets without vertices, and (for valid buckets, whose indices
      need vertices) it keeps every triangle and every vertex. */
  lemma {:induction false} MergeTrisKeepsCounts(bs: seq<TriBucket>, base: nat)
    requires forall i :: 0 <= i < |bs| ==> TriBucketValid(bs[i])
    ensures TriangleTotal(MergeTris(bs, base)) == TriangleTotal(bs)
    ensures VertexTotal(MergeTris(bs, base)) == VertexTotal(bs)
    ensures forall j :: 0 <= j < |MergeTris(bs, base)| ==> TriBucketValid(MergeTris(bs, base)[j]) && |MergeTris(bs, base)[j].vertices| > 0
  {
    if |bs| > 0 {
      var init := bs[..|bs| - 1];
      var last := bs[|bs| - 1];
      MergeTrisKeepsCounts(init, base);
      var m := MergeTris(init, base);
      if |last.vertices| == 0 {
        EmptyRangeHasNoIndices(last.indices, |last.vertices|);
        assert MergeTris(bs, base) == m;
      } else {
        var m' := m + [ShiftTri(last, base)];
        assert MergeTris(bs, base) == m';
        assert m'[..|m'| - 1] == m;
      }
    }
  }

  lemma {:induction false} MergeEdgesKeepsCounts(es: seq<EdgeBucket>, base: nat)
    requires forall i :: 0 <= i < |es| ==> EdgeBucketValid(es[i])
    ensures LineTotal(MergeEdges(es, base)) == LineTotal(es)
    ensures forall j :: 0 <= j < |MergeEdges(es, base)| ==> EdgeBucketValid(MergeEdges(es, base)[j]) && |MergeEdges(es, base)[j].vertices| > 0
  {
    if |es| > 0 {
      var init := es[..|es| - 1];
      var last := es[|es| - 1];
      MergeEdgesKeepsCounts(init, base);
      var m := MergeEdges(init, base);
      if |last.vertices| == 0 {
        EmptyRangeHasNoIndices(last.indices, |last.vertices|);
        assert MergeEdges(es, base) == m;
      } else {
        var m' := m + [ShiftEdge(last, base)];
        assert MergeEdges(es, base) == m';
        assert m'[..|m'| - 1] == m;
      }
    }
  }

  // ---------------------------------------------------------------------------
  // The loops of writeGlb

  /** The body of the triangle loop for a drawn bucket: three regions appended to the
      buffer, their views and accessors, and the primitive. */
  method EmitTriBucket(l: Layout, b: TriBucket, paletteSize: nat) returns (l': Layout)
    requires TriDrawn(b)
    ensures l' == WithTriBucket(l, b, paletteSize)
  {
    var binLength, views, accessors := l.binLength, l.views, l.accessors;
    var posOff := binLength;
    binLength := binLength + Vec3Size * |b.vertices|;
    var nrmOff := binLength;
    binLength := binLength + Vec3Size * |b.normals|;
    var idxOff := binLength;
    binLength := binLength + IndexSize * |b.indices|;
    var posView := |views|;
    views := views + [BufferView(posOff, Vec3Size * |b.vertices|, ArrayBufferTarget),
                      BufferView(nrmOff, Vec3Size * |b.normals|, ArrayBufferTarget),
                      BufferView(idxOff, IndexSize * |b.indices|, ElementArrayBufferTarget)];

    var vb := CalcMinMax(b.vertices, false);
    var nb := CalcMinMax(b.normals, true);
    var posAcc := |accessors|;
    accessors := accessors + [Accessor(posView, FloatComponent, |b.vertices|, Vec3Type, vb, true),
                              Accessor(posView + 1, FloatComponent, |b.normals|, Vec3Type, nb, true),
                              Accessor(posView + 2, UnsignedIntComponent, |b.indices|, ScalarType, NoBounds, false)];

    var matIndex := if 0 <= b.materialIndex < paletteSize then b.materialIndex else 0;
    l' := Layout(binLength, views, accessors,
                 l.primitives + [Primitive(posAcc, posAcc + 1, posAcc + 2, matIndex, ModeTriangles)]);
  }

  /** The body of the line loop for a drawn bucket. */
  method EmitEdgeBucket(l: Layout, e: EdgeBucket, paletteSize: nat) returns (l': Layout)
    requires EdgeDrawn(e)
    ensures l' == WithEdgeBucket(l, e, paletteSize)
  {
    var binLength, views, accessors := l.binLength, l.views, l.accessors;
    var posOff := binLength;
    binLength := binLength + Vec3Size * |e.vertices|;
    var idxOff := binLength;
    binLength := binLength + IndexSize * |e.indices|;
    var posView := |views|;
    views := views + [BufferView(posOff, Vec3Size * |e.vertices|, ArrayBufferTarget),
                      BufferView(idxOff, IndexSize * |e.indices|, ElementArrayBufferTarget)];

    var vb := CalcMinMax(e.vertices, false);
    var posAcc := |accessors|;
    accessors := accessors + [Accessor(posView, FloatComponent, |e.vertices|, Vec3Type, vb, true),
                              Accessor(posView + 1, UnsignedIntComponent, |e.indices|, ScalarType, NoBounds, false)];

    var matIndex := if 0 <= e.materialIndex < paletteSize then e.materialIndex else 0;
    l' := Layout(binLength, views, accessors,
                 l.primitives + [Primitive(posAcc, -1, posAcc + 1, matIndex, ModeLines)]);
  }

  /** The triangle loop: buckets without vertices or without indices are skipped. */
  method LayOutTriBuckets(bs: seq<TriBucket>, paletteSize: nat) returns (l: Layout)
    ensures l == LayoutTris(EmptyLayout, bs, paletteSize)
  {
    l := EmptyLayout;
    for i := 0 to |bs|
      invariant l == LayoutTris(EmptyLayout, bs[..i], paletteSize)
    {
      assert bs[..i + 1][..i] == bs[..i];
      if |bs[i].vertices| > 0 && |bs[i].indices| > 0 {
        l := EmitTriBucket(l, bs[i], paletteSize);
      }
    }
    assert bs[..|bs|] == bs;
  }

  /** The line loop, continuing the layout the triangle loop produced. */
  method LayOutEdgeBuckets(l0: Layout, es: seq<EdgeBucket>, paletteSize: nat) returns (l: Layout)
    ensures l == LayoutEdges(l0, es, paletteSize)
  {
    l := l0;
    for i := 0 to |es|
      invariant l == LayoutEdges(l0, es[..i], paletteSize)
    {
      assert es[..i + 1][..i] == es[..i];
      if |es[i].vertices| > 0 && |es[i].indices| > 0 {
        l := EmitEdgeBucket(l, es[i], paletteSize);
      }
    }
    assert es[..|es|] == es;
  }

  /** The statistics loops: vertices and triangles over every triangle bucket (drawn or
      not), segments over every edge bucket. */
  method Totals(tris: seq<TriBucket>, edges: seq<EdgeBucket>) returns (vertices: nat, triangles: nat, lines: nat)
    ensures vertices == VertexTotal(tris) && triangles == TriangleTotal(tris) && lines == LineTotal(edges)
  {
    vertices, triangles, lines := 0, 0, 0;
    for i := 0 to |tris|
      invariant vertices == VertexTotal(tris[..i]) && triangles == TriangleTotal(tris[..i])
    {
      assert tris[..i + 1][..i] == tris[..i];
      vertices := vertices + |tris[i].vertices|;
      triangles := triangles + |tris[i].indices| / 3;
    }
    for i := 0 to |edges|
      invariant lines == LineTotal(edges[..i])
    {
      assert edges[..i + 1][..i] == edges[..i];
      lines := lines + |edges[i].indices| / 2;
    }
    assert tris[..|tris|] == tris;
    assert edges[..|edges|] == edges;
  }

  // ---------------------------------------------------------------------------
  // The builder

  class GlbBuilder {
    var triBuckets: seq<TriBucket>
    var edgeBuckets: seq<EdgeBucket>
    var materials: seq<RGBA>

    constructor ()
      ensures triBuckets == [] && edgeBuckets == [] && materials == []
    {
      triBuckets, edgeBuckets, materials := [], [], [];
    }

    /** Appends one shape's palette and its non-empty buckets, with their material
        indices moved past the palette entries already present. */
    method AddBuckets(tris: seq<TriBucket>, edges: seq<EdgeBucket>, mats: seq<RGBA>)
      modifies this
      ensures materials == old(materials) + mats
      ensures triBuckets == old(triBuckets) + MergeTris(tris, |old(materials)|)
      ensures edgeBuckets == old(edgeBuckets) + MergeEdges(edges, |old(materials)|)
    {
      var matBase := |materials|;
      materials := materials + mats;

      ghost var tris0 := triBuckets;
      for i := 0 to |tris|
        invariant materials == old(materials) + mats && edgeBuckets == old(edgeBuckets)
        invariant triBuckets == tris0 + MergeTris(tris[..i], matBase)
      {
        assert tris[..i + 1][..i] == tris[..i];
        var b := tris[i];
        if |b.vertices| > 0 {
          var dst := b;
          if dst.materialIndex >= 0 {
            dst := dst.(materialIndex := dst.materialIndex + matBase);
          }
          triBuckets := triBuckets + [dst];
        }
      }
      assert tris[..|tris|] == tris;

      ghost var edges0 := edgeBuckets;
      for i := 0 to |edges|
        invariant materials == old(materials) + mats && triBuckets == old(triBuckets) + MergeTris(tris, matBase)
        invariant edgeBuckets == edges0 + MergeEdges(edges[..i], matBase)
      {
        assert edges[..i + 1][..i] == edges[..i];
        var e := edges[i];
        if |e.vertices| > 0 {
          var dst := e;
          if dst.materialIndex >= 0 {
            dst := dst.(materialIndex := dst.materialIndex + matBase);
          }
          edgeBuckets := edgeBuckets + [dst];
        }
      }
      assert edges[..|edges|] == edges;
    }

    /** Lays out every bucket, renders the JSON document, and writes the container.
        `canOpen` is whether the output file could be opened; `render` is the JSON
        serialisation of the document. Fails, writing nothing and leaving the
        statistics as they were, when there is no geometry or the file cannot be opened. */
    method WriteGlb(canOpen: bool, render: GltfDoc -> string, statsIn: ExportStats)
      returns (ok: bool, file: seq<Piece>, stats: ExportStats)
      ensures ok <==> (|triBuckets| > 0 || |edgeBuckets| > 0) && canOpen
      ensures !ok ==> file == [] && stats == statsIn
      ensures ok ==>
        var l := BuildLayout(triBuckets, edgeBuckets, |materials|);
        var json := PadJson(render(GltfDoc(materials, l, l.binLength)));
        && file == GlbFile(json, l.binLength)
        && stats == ExportStats(VertexTotal(triBuckets), TriangleTotal(triBuckets), LineTotal(edgeBuckets),
                                |materials|, |l.primitives|, l.binLength, |json|,
                                TotalLength(json, l.binLength))
    {
      if |triBuckets| == 0 && |edgeBuckets| == 0 {
        return false, [], statsIn;
      }
      var paletteSize := |materials|;
      var afterTris := LayOutTriBuckets(triBuckets, paletteSize);
      var l := LayOutEdgeBuckets(afterTris, edgeBuckets, paletteSize);
      var binLength, views, accessors, primitives := l.binLength, l.views, l.accessors, l.primitives;

      BinNeedsNoPadding(triBuckets, edgeBuckets, paletteSize);
      binLength := Pad4(binLength);

      var text := render(GltfDoc(materials, Layout(binLength, views, accessors, primitives), binLength));
      var jsonLength := Pad4(|text|);
      var json := text + seq(jsonLength - |text|, _ => ' ');
      var totalLength := 12 + 8 + jsonLength + 8 + binLength;

      if !canOpen {
        return false, [], statsIn;
      }

      file := [Word(GlbMagic), Word(GlbVersion), Word(totalLength)];
      file := file + [Word(jsonLength), Word(JsonChunkType), Text(json)];
      file := file + [Word(binLength), Word(BinChunkType)];
      if binLength > 0 {
        file := file + [Payload(binLength)];
      }

      var vertices, triangles, lines := Totals(triBuckets, edgeBuckets);
      stats := ExportStats(vertices, triangles, lines, |materials|, |primitives|, binLength, |json|, totalLength);
      ok := true;
    }
  }
}
