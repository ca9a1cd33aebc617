// Accumulation of one tessellated shape into per-material triangle and edge
// buckets (src/MeshExtractor.cpp). The CAD kernel is abstracted: a face arrives
// as its world-space nodes, 1-based triangle triples and an orientation flag;
// an edge as its length query and its uniform-deflection sampler; vector
// normalisation is the parameter `unit`.

module MeshExtractor {
  import opened Common

  /** One triangle of a face triangulation, as 1-based node numbers. */
  datatype Triangle = Triangle(n1: int, n2: int, n3: int)

  datatype FaceInput =
    | Meshed(nodes: seq<Vertex>, triangles: seq<Triangle>, reversed: bool)
    | Unmeshed   // the face has no triangulation
    | Faulty     // processing the face raises before anything is appended

  datatype EdgeInput =
    // length: None when the arclength query raises; sample: None when sampling is not done
    | Curve(length: Option<real>, sample: real -> Option<seq<Vertex>>)
    | FaultyEdge // processing the edge raises before anything is appended

  datatype Shape = Shape(faces: seq<FaceInput>, edges: seq<EdgeInput>)

  // ---------------------------------------------------------------------------
  // Colours

  const Gray := RGBA(0.7, 0.7, 0.7, 1.0)
  const DarkEdge := RGBA(0.1, 0.1, 0.1, 1.0)
  const LightEdge := RGBA(0.9, 0.9, 0.9, 1.0)

  /** Pure black (alpha ignored) stands for "no colour" and becomes gray. */
  function SurfaceColor(c: RGBA): (s: RGBA)
    ensures c.r == 0.0 && c.g == 0.0 && c.b == 0.0 ==> s == Gray
    ensures !(c.r == 0.0 && c.g == 0.0 && c.b == 0.0) ==> s == c
  {
    if c.r == 0.0 && c.g == 0.0 && c.b == 0.0 then Gray else c
  }

  function Brightness(c: RGBA): real
  {
    0.299 * c.r + 0.587 * c.g + 0.114 * c.b
  }

  /** Near-black lines on light surfaces, near-white lines on dark ones. */
  function EdgeColor(c: RGBA): (e: RGBA)
    ensures e.a == 1.0 && e.r == e.g == e.b
    ensures Brightness(c) > 0.5 <==> Brightness(e) < 0.5
  {
    if Brightness(c) > 0.5 then DarkEdge else LightEdge
  }

  /** The surface colour is never black and the edge colour always lies on the
      other side of the 0.5 brightness threshold. */
  lemma ColorsContrast(c: RGBA)
    ensures var s := SurfaceColor(c); !(s.r == 0.0 && s.g == 0.0 && s.b == 0.0)
    ensures Brightness(SurfaceColor(c)) > 0.5 <==> Brightness(EdgeColor(SurfaceColor(c))) <= 0.5
  {
  }

  // ---------------------------------------------------------------------------
  // Vector arithmetic for the normal accumulator

  const Zero := Vec3(0.0, 0.0, 0.0)

  function Add(a: Vec3, b: Vec3): Vec3 { Vec3(a.x + b.x, a.y + b.y, a.z + b.z) }
  function Sub(a: Vec3, b: Vec3): Vec3 { Vec3(a.x - b.x, a.y - b.y, a.z - b.z) }
  function Cross(u: Vec3, v: Vec3): Vec3
  {
    Vec3(u.y * v.z - u.z * v.y, u.z * v.x - u.x * v.z, u.x * v.y - u.y * v.x)
  }
  function SqNorm(a: Vec3): real { a.x * a.x + a.y * a.y + a.z * a.z }

  /** The normal of triangle (p1, p2, p3): the cross product of its first two
      edges, normalised when its magnitude exceeds 1e-12 (squared: 1e-24). */
  function FaceNormal(p1: Vec3, p2: Vec3, p3: Vec3, unit: Vec3 -> Vec3): Vec3
  {
    var nrm := Cross(Sub(p2, p1), Sub(p3, p1));
    if SqNorm(nrm) > 0.000000000000000000000001 then unit(nrm) else nrm
  }

  // ---------------------------------------------------------------------------
  // Faces

  /** The kernel's promise: every triangle names nodes 1..|nodes|. */
  predicate TrianglesInRange(nodes: seq<Vertex>, tris: seq<Triangle>)
  {
    forall t :: 0 <= t < |tris| ==>
      1 <= tris[t].n1 <= |nodes| && 1 <= tris[t].n2 <= |nodes| && 1 <= tris[t].n3 <= |nodes|
  }

  predicate FaceWellIndexed(f: FaceInput)
  {
    f.Meshed? ==> TrianglesInRange(f.nodes, f.triangles)
  }

  /** Faces without triangulation, with fewer than 3 nodes or without triangles contribute nothing. */
  predicate FaceSkipped(f: FaceInput)
  {
    !f.Meshed? || |f.nodes| < 3 || |f.triangles| < 1
  }

  /** On a reversed face the 2nd and 3rd node of every triangle are swapped. */
  function Oriented(t: Triangle, reversed: bool): Triangle
  {
    if reversed then Triangle(t.n1, t.n3, t.n2) else t
  }

  /** The normal of every triangle of a face, in triangle order (the oriented corners of
      triangle i give the i-th normal). */
  function TriangleNormals(nodes: seq<Vertex>, tris: seq<Triangle>, rev: bool, unit: Vec3 -> Vec3): (fn: seq<Normal>)
    requires TrianglesInRange(nodes, tris)
    ensures |fn| == |tris|
  {
    seq(|tris|, i requires 0 <= i < |tris| =>
      var t := Oriented(tris[i], rev);
      FaceNormal(nodes[t.n1 - 1], nodes[t.n2 - 1], nodes[t.n3 - 1], unit))
  }

  /** The per-node normal accumulator after the first k triangles, whose normals are `fn`. */
  function AccAfter(nodes: seq<Vertex>, tris: seq<Triangle>, rev: bool, fn: seq<Normal>, k: nat): (acc: seq<Vec3>)
    requires TrianglesInRange(nodes, tris) && k <= |tris| == |fn|
    ensures |acc| == |nodes|
  {
    if k == 0 then seq(|nodes|, _ => Zero)
    else
      var t := Oriented(tris[k - 1], rev);
      AddAt(AddAt(AddAt(AccAfter(nodes, tris, rev, fn, k - 1), t.n1 - 1, fn[k - 1]), t.n2 - 1, fn[k - 1]), t.n3 - 1, fn[k - 1])
  }

  /** acc[i] += v */
  function AddAt(acc: seq<Vec3>, i: nat, v: Vec3): (r: seq<Vec3>)
    requires i < |acc|
    ensures |r| == |acc|
  {
    acc[i := Add(acc[i], v)]
  }

  /** A node that none of the first k triangles uses keeps a zero accumulator. */
  lemma {:induction false} UnreferencedNodeHasZeroAcc(nodes: seq<Vertex>, tris: seq<Triangle>, rev: bool,
                                                     fn: seq<Normal>, k: nat, j: nat)
    requires TrianglesInRange(nodes, tris) && k <= |tris| == |fn| && j < |nodes|
    requires forall t :: 0 <= t < k ==> tris[t].n1 != j + 1 && tris[t].n2 != j + 1 && tris[t].n3 != j + 1
    ensures AccAfter(nodes, tris, rev, fn, k)[j] == Zero
  {
    if k > 0 {
      UnreferencedNodeHasZeroAcc(nodes, tris, rev, fn, k - 1, j);
    }
  }

  /** gp_Vec::Normalize, corrected so that a zero accumulator stays zero
      (the source raises here; see FaceAppendedAsWritten). */
  function NormalizeOrKeepZero(a: Vec3, unit: Vec3 -> Vec3): Vec3
  {
    if a == Zero then Zero else unit(a)
  }

  function VertexNormals(acc: seq<Vec3>, unit: Vec3 -> Vec3): (ns: seq<Normal>)
    ensures |ns| == |acc|
  {
    seq(|acc|, j requires 0 <= j < |acc| => NormalizeOrKeepZero(acc[j], unit))
  }

  /** The j-th corner (0, 1 or 2) of a triangle. */
  function Corner(t: Triangle, j: nat): int
    requires j < 3
  {
    if j == 0 then t.n1 else if j == 1 then t.n2 else t.n3
  }

  /** The three bucket-level indices of one triangle of a face whose first node sits at `base`. */
  function TriangleIndices(base: nat, nodes: seq<Vertex>, t: Triangle): (ix: seq<nat>)
    requires 1 <= t.n1 <= |nodes| && 1 <= t.n2 <= |nodes| && 1 <= t.n3 <= |nodes|
  {
    [base + t.n1 - 1, base + t.n2 - 1, base + t.n3 - 1]
  }

  /** Bucket-level indices of the first k triangles of one face, three per triangle, in order. */
  function FaceIndices(base: nat, nodes: seq<Vertex>, tris: seq<Triangle>, rev: bool, k: nat): (ix: seq<nat>)
    requires TrianglesInRange(nodes, tris) && k <= |tris|
    ensures |ix| == 3 * k
  {
    if k == 0 then []
    else FaceIndices(base, nodes, tris, rev, k - 1) + TriangleIndices(base, nodes, Oriented(tris[k - 1], rev))
  }

  /** Entry 3j + c of a face's indices is corner c of its j-th (oriented) triangle, shifted to `base`. */
  lemma {:induction false} FaceIndicesAt(base: nat, nodes: seq<Vertex>, tris: seq<Triangle>, rev: bool,
                                         k: nat, j: nat, c: nat)
    requires TrianglesInRange(nodes, tris) && j < k <= |tris| && c < 3
    ensures FaceIndices(base, nodes, tris, rev, k)[3 * j + c] == base + Corner(Oriented(tris[j], rev), c) - 1
  {
    if j < k - 1 {
      FaceIndicesAt(base, nodes, tris, rev, k - 1, j, c);
    }
  }

  /** Every index of a face lies in [base, base + |nodes|). */
  lemma FaceIndicesInRange(base: nat, nodes: seq<Vertex>, tris: seq<Triangle>, rev: bool)
    requires TrianglesInRange(nodes, tris)
    ensures forall k :: 0 <= k < 3 * |tris| ==>
      base <= FaceIndices(base, nodes, tris, rev, |tris|)[k] < base + |nodes|
  {
    forall k | 0 <= k < 3 * |tris|
      ensures base <= FaceIndices(base, nodes, tris, rev, |tris|)[k] < base + |nodes|
    {
      FaceIndicesAt(base, nodes, tris, rev, |tris|, k / 3, k % 3);
    }
  }

  /** Reversal swaps the 2nd and 3rd index of every triangle and keeps the 1st. */
  lemma ReversedFaceSwapsCorners(base: nat, nodes: seq<Vertex>, tris: seq<Triangle>, t: nat)
    requires TrianglesInRange(nodes, tris) && t < |tris|
    ensures var fwd := FaceIndices(base, nodes, tris, false, |tris|);
            var rev := FaceIndices(base, nodes, tris, true, |tris|);
            rev[3 * t] == fwd[3 * t] && rev[3 * t + 1] == fwd[3 * t + 2] && rev[3 * t + 2] == fwd[3 * t + 1]
  {
    FaceIndicesAt(base, nodes, tris, false, |tris|, t, 0);
    FaceIndicesAt(base, nodes, tris, false, |tris|, t, 1);
    FaceIndicesAt(base, nodes, tris, false, |tris|, t, 2);
    FaceIndicesAt(base, nodes, tris, true, |tris|, t, 0);
    FaceIndicesAt(base, nodes, tris, true, |tris|, t, 1);
    FaceIndicesAt(base, nodes, tris, true, |tris|, t, 2);
  }

  /** The triangle bucket after one face (with the zero-normal correction). */
  function FaceAppended(b: TriBucket, f: FaceInput, unit: Vec3 -> Vec3): TriBucket
    requires FaceWellIndexed(f)
  {
    if FaceSkipped(f) then b
    else
      var acc := AccAfter(f.nodes, f.triangles, f.reversed, TriangleNormals(f.nodes, f.triangles, f.reversed, unit), |f.triangles|);
      TriBucket(b.vertices + f.nodes,
                b.normals + VertexNormals(acc, unit),
                b.indices + FaceIndices(|b.vertices|, f.nodes, f.triangles, f.reversed, |f.triangles|),
                b.materialIndex)
  }

  /** The triangle bucket after one face as the source behaves: normalising a zero
      accumulator raises, and the handler leaves the vertices and indices already
      appended in place without any normals. */
  function FaceAppendedAsWritten(b: TriBucket, f: FaceInput, unit: Vec3 -> Vec3): TriBucket
    requires FaceWellIndexed(f)
  {
    if FaceSkipped(f) then b
    else
      var acc := AccAfter(f.nodes, f.triangles, f.reversed, TriangleNormals(f.nodes, f.triangles, f.reversed, unit), |f.triangles|);
      var ix := b.indices + FaceIndices(|b.vertices|, f.nodes, f.triangles, f.reversed, |f.triangles|);
      if Zero in acc then TriBucket(b.vertices + f.nodes, b.normals, ix, b.materialIndex)
      else TriBucket(b.vertices + f.nodes, b.normals + VertexNormals(acc, unit), ix, b.materialIndex)
  }

  /** A face processed without failure keeps the bucket valid: vertices and normals grow
      by the node count, indices by three per triangle, all new indices in range. */
  lemma FaceAppendedValid(b: TriBucket, f: FaceInput, unit: Vec3 -> Vec3)
    requires FaceWellIndexed(f) && TriBucketValid(b)
    ensures var b' := FaceAppended(b, f, unit);
      && TriBucketValid(b')
      && b'.materialIndex == b.materialIndex
      && |b'.vertices| == |b.vertices| + (if FaceSkipped(f) then 0 else |f.nodes|)
      && |b'.indices| == |b.indices| + (if FaceSkipped(f) then 0 else 3 * |f.triangles|)
      && b.vertices <= b'.vertices && b.normals <= b'.normals && b.indices <= b'.indices
  {
    if !FaceSkipped(f) {
      FaceIndicesInRange(|b.vertices|, f.nodes, f.triangles, f.reversed);
    }
  }

  /** Where the two versions differ: a meshed face with a node j that no triangle uses
      (for instance nodes (0,0,0), (1,0,0), (0,1,0), (5,5,5) and the one triangle (1,2,3)).
      With the source's behaviour the bucket gains the face's vertices but no normals and
      stops being valid; with the correction it stays valid. */
  lemma AsWrittenLosesNormals(b: TriBucket, f: FaceInput, unit: Vec3 -> Vec3, j: nat)
    requires FaceWellIndexed(f) && !FaceSkipped(f) && TriBucketValid(b)
    requires j < |f.nodes|
    requires forall t :: 0 <= t < |f.triangles| ==>
      f.triangles[t].n1 != j + 1 && f.triangles[t].n2 != j + 1 && f.triangles[t].n3 != j + 1
    ensures var b' := FaceAppendedAsWritten(b, f, unit);
      && |b'.vertices| == |b.vertices| + |f.nodes|
      && |b'.normals| == |b.normals|
      && !TriBucketValid(b')
    ensures TriBucketValid(FaceAppended(b, f, unit))
  {
    var fn := TriangleNormals(f.nodes, f.triangles, f.reversed, unit);
    UnreferencedNodeHasZeroAcc(f.nodes, f.triangles, f.reversed, fn, |f.triangles|, j);
    var acc := AccAfter(f.nodes, f.triangles, f.reversed, fn, |f.triangles|);
    assert acc[j] == Zero;
    FaceAppendedValid(b, f, unit);
  }

  /** The triangle bucket after a run of faces, in order. */
  function FacesAppended(b: TriBucket, faces: seq<FaceInput>, unit: Vec3 -> Vec3): TriBucket
    requires forall i :: 0 <= i < |faces| ==> FaceWellIndexed(faces[i])
  {
    if |faces| == 0 then b
    else FaceAppended(FacesAppended(b, faces[..|faces| - 1], unit), faces[|faces| - 1], unit)
  }

  lemma {:induction false} FacesAppendedValid(b: TriBucket, faces: seq<FaceInput>, unit: Vec3 -> Vec3)
    requires forall i :: 0 <= i < |faces| ==> FaceWellIndexed(faces[i])
    requires TriBucketValid(b)
    ensures var b' := FacesAppended(b, faces, unit);
      TriBucketValid(b') && b'.materialIndex == b.materialIndex && b.vertices <= b'.vertices
  {
    if |faces| > 0 {
      FacesAppendedValid(b, faces[..|faces| - 1], unit);
      FaceAppendedValid(FacesAppended(b, faces[..|faces| - 1], unit), faces[|faces| - 1], unit);
    }
  }

  /** One more triangle adds its normal at its three (oriented) nodes, in that order. */
  lemma AccAfterStep(nodes: seq<Vertex>, tris: seq<Triangle>, rev: bool, fn: seq<Normal>, i: nat,
                     a0: seq<Vec3>, a1: seq<Vec3>, a2: seq<Vec3>, a3: seq<Vec3>)
    requires TrianglesInRange(nodes, tris) && i < |tris| == |fn|
    requires a0 == AccAfter(nodes, tris, rev, fn, i)
    requires var t := Oriented(tris[i], rev);
      && a1 == AddAt(a0, t.n1 - 1, fn[i])
      && a2 == AddAt(a1, t.n2 - 1, fn[i])
      && a3 == AddAt(a2, t.n3 - 1, fn[i])
    ensures a3 == AccAfter(nodes, tris, rev, fn, i + 1)
  {
  }

  lemma OrientedInRange(nodes: seq<Vertex>, tris: seq<Triangle>, rev: bool, i: nat)
    requires TrianglesInRange(nodes, tris) && i < |tris|
    ensures var t := Oriented(tris[i], rev);
      1 <= t.n1 <= |nodes| && 1 <= t.n2 <= |nodes| && 1 <= t.n3 <= |nodes|
  {
  }

  /** acc[i] += v, in place. */
  method AddInto(acc: array<Vec3>, i: nat, v: Vec3)
    requires i < acc.Length
    modifies acc
    ensures acc[..] == AddAt(old(acc[..]), i, v)
  {
    acc[i] := Add(acc[i], v);
  }

  lemma AppendAssoc<T>(a: seq<T>, b: seq<T>, c: seq<T>)
    ensures (a + b) + c == a + (b + c)
  {
  }

  /** The body of the triangle loop for triangle i: adds its normal into the accumulator
      entries of its three (oriented) nodes and appends its three bucket-level indices. */
  method AccumulateTriangle(acc: array<Vec3>, indices: seq<nat>, base: nat,
                            nodes: seq<Vertex>, tris: seq<Triangle>, rev: bool, fn: seq<Normal>, i: nat)
    returns (indices': seq<nat>)
    requires TrianglesInRange(nodes, tris) && i < |tris| == |fn|
    requires acc[..] == AccAfter(nodes, tris, rev, fn, i)
    modifies acc
    ensures acc[..] == AccAfter(nodes, tris, rev, fn, i + 1)
    ensures indices' == indices + TriangleIndices(base, nodes, Oriented(tris[i], rev))
  {
    var t := Oriented(tris[i], rev);
    OrientedInRange(nodes, tris, rev, i);
    ghost var a0 := acc[..];
    AddInto(acc, t.n1 - 1, fn[i]);
    ghost var a1 := acc[..];
    AddInto(acc, t.n2 - 1, fn[i]);
    ghost var a2 := acc[..];
    AddInto(acc, t.n3 - 1, fn[i]);
    AccAfterStep(nodes, tris, rev, fn, i, a0, a1, a2, acc[..]);
    indices' := indices + TriangleIndices(base, nodes, t);
  }

  /** The triangle loop of one face: adds each triangle's normal into the accumulator
      entries of its three nodes and appends its three bucket-level indices. */
  method AccumulateTriangles(acc: array<Vec3>, indices: seq<nat>, base: nat,
                             nodes: seq<Vertex>, tris: seq<Triangle>, rev: bool, fn: seq<Normal>)
    returns (indices': seq<nat>)
    requires TrianglesInRange(nodes, tris) && |fn| == |tris|
    requires acc[..] == AccAfter(nodes, tris, rev, fn, 0)
    modifies acc
    ensures acc[..] == AccAfter(nodes, tris, rev, fn, |tris|)
    ensures indices' == indices + FaceIndices(base, nodes, tris, rev, |tris|)
  {
    indices' := indices;
    assert FaceIndices(base, nodes, tris, rev, 0) == [];
    for i := 0 to |tris|
      invariant acc[..] == AccAfter(nodes, tris, rev, fn, i)
      invariant indices' == indices + FaceIndices(base, nodes, tris, rev, i)
    {
      indices' := AccumulateTriangle(acc, indices', base, nodes, tris, rev, fn, i);
      AppendAssoc(indices, FaceIndices(base, nodes, tris, rev, i), TriangleIndices(base, nodes, Oriented(tris[i], rev)));
    }
  }

  /** Normalises every accumulator entry in place (a zero entry stays zero). */
  method NormalizeAll(acc: array<Vec3>, unit: Vec3 -> Vec3)
    modifies acc
    ensures acc[..] == VertexNormals(old(acc[..]), unit)
  {
    for j := 0 to acc.Length
      invariant forall k :: 0 <= k < j ==> acc[k] == NormalizeOrKeepZero(old(acc[k]), unit)
      invariant forall k :: j <= k < acc.Length ==> acc[k] == old(acc[k])
    {
      acc[j] := NormalizeOrKeepZero(acc[j], unit);
    }
  }

  /** Appends one face's vertices, indices and vertex normals (the body of the face loop). */
  method AppendFace(b: TriBucket, nodes: seq<Vertex>, tris: seq<Triangle>, rev: bool, unit: Vec3 -> Vec3)
    returns (b': TriBucket)
    requires TrianglesInRange(nodes, tris) && |nodes| >= 3 && |tris| >= 1
    ensures b' == FaceAppended(b, Meshed(nodes, tris, rev), unit)
  {
    var base := |b.vertices|;
    var n := |nodes|;
    var vertices := b.vertices;
    for i := 0 to n
      invariant vertices == b.vertices + nodes[..i]
    {
      vertices := vertices + [nodes[i]];
    }
    assert nodes[..n] == nodes;

    var fn := TriangleNormals(nodes, tris, rev, unit);
    ghost var sums := AccAfter(nodes, tris, rev, fn, |tris|);
    var acc := new Vec3[n](_ => Zero);
    assert acc[..] == AccAfter(nodes, tris, rev, fn, 0);
    var indices := AccumulateTriangles(acc, b.indices, base, nodes, tris, rev, fn);
    NormalizeAll(acc, unit);
    ghost var vn := acc[..];
    assert vn == VertexNormals(sums, unit);

    var normals := b.normals;
    for j := 0 to n
      invariant acc[..] == vn
      invariant normals == b.normals + vn[..j]
    {
      normals := normals + [acc[j]];
      AppendAssoc(b.normals, vn[..j], [vn[j]]);
      assert vn[..j] + [vn[j]] == vn[..j + 1];
    }
    assert vn[..n] == vn;
    b' := TriBucket(vertices, normals, indices, b.materialIndex);
  }

  // ---------------------------------------------------------------------------
  // Edges

  const LinDefl := 0.01
  const EdgeDeflBase := LinDefl * 8.0

  /** The arclength used to choose the sampling deflection; 10 when the query fails. */
  function EdgeLength(e: EdgeInput): real
    requires e.Curve?
  {
    match e.length
    case Some(l) => l
    case None => 10.0
  }

  /** Shorter curves are sampled with a smaller deflection. */
  function EdgeDeflection(len: real): (d: real)
  {
    if len < 5.0 then EdgeDeflBase * 0.25
    else if len < 50.0 then EdgeDeflBase * 0.5
    else EdgeDeflBase
  }

  lemma EdgeDeflectionMonotone(len1: real, len2: real)
    requires len1 <= len2
    ensures 0.0 < EdgeDeflection(len1) <= EdgeDeflection(len2) <= EdgeDeflBase
  {
  }

  /** The sampled points of an edge, or None when the edge is skipped. */
  function EdgePoints(e: EdgeInput): Option<seq<Vertex>>
  {
    if e.FaultyEdge? then None
    else
      match e.sample(EdgeDeflection(EdgeLength(e)))
      case None => None
      case Some(pts) => if |pts| < 2 then None else Some(pts)
  }

  /** The segment indices of a k-point polyline starting at vertex `base`: the pairs
      (base + i, base + i + 1) for i < k - 1. */
  function PolylineIndices(base: nat, k: nat): (ix: seq<nat>)
    requires k >= 1
    ensures |ix| == 2 * (k - 1)
  {
    seq(2 * (k - 1), j requires 0 <= j < 2 * (k - 1) => base + j / 2 + j % 2)
  }

  lemma PolylineIndicesPairs(base: nat, k: nat, i: nat)
    requires k >= 1 && i < k - 1
    ensures PolylineIndices(base, k)[2 * i] == base + i
    ensures PolylineIndices(base, k)[2 * i + 1] == base + i + 1
  {
    assert (2 * i) / 2 == i && (2 * i) % 2 == 0;
    assert (2 * i + 1) / 2 == i && (2 * i + 1) % 2 == 1;
  }

  /** The edge bucket after one edge; the polyline starts at the current vertex count. */
  function EdgeAppended(eb: EdgeBucket, e: EdgeInput): EdgeBucket
  {
    match EdgePoints(e)
    case None => eb
    case Some(pts) =>
      EdgeBucket(eb.vertices + pts, eb.indices + PolylineIndices(|eb.vertices|, |pts|), eb.materialIndex)
  }

  function EdgesAppended(eb: EdgeBucket, edges: seq<EdgeInput>): EdgeBucket
  {
    if |edges| == 0 then eb
    else EdgeAppended(EdgesAppended(eb, edges[..|edges| - 1]), edges[|edges| - 1])
  }

  /** Edges keep the bucket valid: an even number of indices, all below the vertex count. */
  lemma {:induction false} EdgesAppendedValid(eb: EdgeBucket, edges: seq<EdgeInput>)
    requires EdgeBucketValid(eb)
    ensures var eb' := EdgesAppended(eb, edges);
      EdgeBucketValid(eb') && eb'.materialIndex == eb.materialIndex && eb.vertices <= eb'.vertices
  {
    if |edges| > 0 {
      var prev := EdgesAppended(eb, edges[..|edges| - 1]);
      EdgesAppendedValid(eb, edges[..|edges| - 1]);
      match EdgePoints(edges[|edges| - 1])
      case None =>
      case Some(pts) =>
        var ix := PolylineIndices(|prev.vertices|, |pts|);
        assert forall k :: 0 <= k < |ix| ==> ix[k] < |prev.vertices| + |pts|;
    }
  }

  /** Appends one sampled polyline (the body of the edge loop) and advances the running base. */
  method AppendPolyline(eb: EdgeBucket, pts: seq<Vertex>, baseEdge: nat) returns (eb': EdgeBucket, baseEdge': nat)
    requires |pts| >= 2 && baseEdge == |eb.vertices|
    ensures eb' == EdgeBucket(eb.vertices + pts, eb.indices + PolylineIndices(baseEdge, |pts|), eb.materialIndex)
    ensures baseEdge' == baseEdge + |pts| == |eb'.vertices|
  {
    var vertices := eb.vertices;
    for i := 0 to |pts|
      invariant vertices == eb.vertices + pts[..i]
    {
      vertices := vertices + [pts[i]];
    }
    assert pts[..|pts|] == pts;
    var indices := eb.indices;
    for i := 0 to |pts| - 1
      invariant indices == eb.indices + PolylineIndices(baseEdge, i + 1)
    {
      indices := indices + [baseEdge + i, baseEdge + i + 1];
      assert PolylineIndices(baseEdge, i + 2) == PolylineIndices(baseEdge, i + 1) + [baseEdge + i, baseEdge + i + 1];
    }
    eb' := EdgeBucket(vertices, indices, eb.materialIndex);
    baseEdge' := baseEdge + |pts|;
  }

  // ---------------------------------------------------------------------------
  // Bucket storage by material index

  /** Grows the list to hold index `idx` (new entries default-constructed) and tags that bucket. */
  function EnsureTriBucket(bs: seq<TriBucket>, idx: nat): (r: seq<TriBucket>)
    ensures |r| == if idx < |bs| then |bs| else idx + 1
    ensures r[idx] == (if idx < |bs| then bs[idx] else EmptyTriBucket).(materialIndex := idx)
    ensures forall i :: 0 <= i < |bs| && i != idx ==> r[i] == bs[i]
    ensures forall i :: |bs| <= i < |r| && i != idx ==> r[i] == EmptyTriBucket
  {
    var grown := if idx < |bs| then bs else bs + seq(idx + 1 - |bs|, _ => EmptyTriBucket);
    grown[idx := grown[idx].(materialIndex := idx)]
  }

  function EnsureEdgeBucket(bs: seq<EdgeBucket>, idx: nat): (r: seq<EdgeBucket>)
    ensures |r| == if idx < |bs| then |bs| else idx + 1
    ensures r[idx] == (if idx < |bs| then bs[idx] else EmptyEdgeBucket).(materialIndex := idx)
    ensures forall i :: 0 <= i < |bs| && i != idx ==> r[i] == bs[i]
    ensures forall i :: |bs| <= i < |r| && i != idx ==> r[i] == EmptyEdgeBucket
  {
    var grown := if idx < |bs| then bs else bs + seq(idx + 1 - |bs|, _ => EmptyEdgeBucket);
    grown[idx := grown[idx].(materialIndex := idx)]
  }

  /** Each bucket is valid and is tagged with its own position or still untagged (-1). */
  predicate TriBucketsValid(bs: seq<TriBucket>)
  {
    forall i :: 0 <= i < |bs| ==> TriBucketValid(bs[i]) && (bs[i].materialIndex == i || bs[i].materialIndex == -1)
  }

  predicate EdgeBucketsValid(bs: seq<EdgeBucket>)
  {
    forall i :: 0 <= i < |bs| ==> EdgeBucketValid(bs[i]) && (bs[i].materialIndex == i || bs[i].materialIndex == -1)
  }

  /** The triangle bucket list after one shape: the material's bucket is ensured and then
      receives every face; all other buckets are as before. */
  function TriBucketsAfter(bs: seq<TriBucket>, idx: nat, faces: seq<FaceInput>, unit: Vec3 -> Vec3): seq<TriBucket>
    requires forall i :: 0 <= i < |faces| ==> FaceWellIndexed(faces[i])
  {
    var t := EnsureTriBucket(bs, idx);
    t[idx := FacesAppended(t[idx], faces, unit)]
  }

  function EdgeBucketsAfter(bs: seq<EdgeBucket>, idx: nat, edges: seq<EdgeInput>): seq<EdgeBucket>
  {
    var t := EnsureEdgeBucket(bs, idx);
    t[idx := EdgesAppended(t[idx], edges)]
  }

  /** Accumulating a shape keeps every bucket valid and correctly tagged, and makes the
      material's bucket exist with its own index. */
  lemma TriBucketsAfterValid(bs: seq<TriBucket>, idx: nat, faces: seq<FaceInput>, unit: Vec3 -> Vec3)
    requires forall i :: 0 <= i < |faces| ==> FaceWellIndexed(faces[i])
    requires TriBucketsValid(bs)
    ensures var r := TriBucketsAfter(bs, idx, faces, unit);
      TriBucketsValid(r) && idx < |r| && r[idx].materialIndex == idx
  {
    var t := EnsureTriBucket(bs, idx);
    FacesAppendedValid(t[idx], faces, unit);
  }

  lemma EdgeBucketsAfterValid(bs: seq<EdgeBucket>, idx: nat, edges: seq<EdgeInput>)
    requires EdgeBucketsValid(bs)
    ensures var r := EdgeBucketsAfter(bs, idx, edges);
      EdgeBucketsValid(r) && idx < |r| && r[idx].materialIndex == idx
  {
    var t := EnsureEdgeBucket(bs, idx);
    EdgesAppendedValid(t[idx], edges);
  }

  // ---------------------------------------------------------------------------
  // MeshShape

  /** The face loop: appends every face of the shape to the material's triangle bucket. */
  method AppendFaces(b: TriBucket, faces: seq<FaceInput>, unit: Vec3 -> Vec3) returns (b': TriBucket)
    requires forall i :: 0 <= i < |faces| ==> FaceWellIndexed(faces[i])
    ensures b' == FacesAppended(b, faces, unit)
  {
    b' := b;
    for i := 0 to |faces|
      invariant b' == FacesAppended(b, faces[..i], unit)
    {
      assert faces[..i + 1][..i] == faces[..i];
      match faces[i]
      case Meshed(nodes, triangles, reversed) =>
        if |nodes| >= 3 && |triangles| >= 1 {
          b' := AppendFace(b', nodes, triangles, reversed, unit);
        }
      case Unmeshed =>
      case Faulty =>
    }
    assert faces[..|faces|] == faces;
  }

  /** The edge loop: samples every edge of the shape and appends its polyline to the
      edge colour's bucket. */
  method AppendEdges(eb: EdgeBucket, curves: seq<EdgeInput>) returns (eb': EdgeBucket)
    ensures eb' == EdgesAppended(eb, curves)
  {
    eb' := eb;
    var baseEdge := |eb'.vertices|;
    for i := 0 to |curves|
      invariant eb' == EdgesAppended(eb, curves[..i])
      invariant baseEdge == |eb'.vertices|
    {
      assert curves[..i + 1][..i] == curves[..i];
      match curves[i]
      case FaultyEdge =>
      case Curve(length, sample) =>
        var len := 10.0;
        if length.Some? {
          len := length.value;
        }
        var defl := EdgeDeflBase;
        if len < 5.0 {
          defl := defl * 0.25;
        } else if len < 50.0 {
          defl := defl * 0.5;
        }
        var points := sample(defl);
        if points.Some? && |points.value| >= 2 {
          eb', baseEdge := AppendPolyline(eb', points.value, baseEdge);
        }
    }
    assert curves[..|curves|] == curves;
  }

  /** The surface colour and its edge colour never share a registry key. */
  lemma SurfaceAndEdgeKeysDiffer(c: RGBA)
    ensures Pack(SurfaceColor(c)) != Pack(EdgeColor(SurfaceColor(c)))
  {
    var s := SurfaceColor(c);
    var e := EdgeColor(s);
    PackInjective(s, e);
    if Brightness(s) > 0.5 {
      // the edge is dark grey, so some channel of s quantises above it
      assert Quantize(e.r) == 26 && e.r == e.g == e.b;
      BrightHasLightChannel(s);
      if s.r >= 0.11 { QuantizedAbove(s.r); }
      else if s.g >= 0.11 { QuantizedAbove(s.g); }
      else { QuantizedAbove(s.b); }
    } else {
      // the edge is light grey, so some channel of s quantises below it
      assert Quantize(e.r) == 230 && e.r == e.g == e.b;
      DimHasDarkChannel(s);
      if s.r < 0.89 { QuantizedBelow(s.r); }
      else if s.g < 0.89 { QuantizedBelow(s.g); }
      else { QuantizedBelow(s.b); }
    }
  }

  lemma BrightHasLightChannel(s: RGBA)
    requires Brightness(s) > 0.5
    ensures s.r >= 0.11 || s.g >= 0.11 || s.b >= 0.11
  {
  }

  lemma DimHasDarkChannel(s: RGBA)
    requires Brightness(s) <= 0.5
    ensures s.r < 0.89 || s.g < 0.89 || s.b < 0.89
  {
  }

  /** A channel of at least 0.11 quantises above 26. */
  lemma QuantizedAbove(v: real)
    requires v >= 0.11
    ensures Quantize(v) > 26
  {
  }

  /** A channel below 0.89 quantises below 230. */
  lemma QuantizedBelow(v: real)
    requires v < 0.89
    ensures Quantize(v) < 230
  {
  }

  /** Looks the shape's surface colour (black replaced by gray) and its contrasting edge
      colour up in the registry, creating materials for them on first use. */
  method LookupShapeMaterials(colorIn: RGBA, reg: MaterialRegistry) returns (shapeMatIdx: nat, edgeMatIdx: nat)
    requires reg.Valid()
    modifies reg
    ensures reg.Valid()
    ensures var sc := SurfaceColor(colorIn);
      var ec := EdgeColor(sc);
      && old(reg.mats) <= reg.mats && |reg.mats| <= |old(reg.mats)| + 2
      && (forall k :: k in old(reg.lut) ==> k in reg.lut && reg.lut[k] == old(reg.lut)[k])
      && Pack(sc) in reg.lut && reg.lut[Pack(sc)] == shapeMatIdx
      && Pack(ec) in reg.lut && reg.lut[Pack(ec)] == edgeMatIdx
      && shapeMatIdx < |reg.mats| && edgeMatIdx < |reg.mats|
      && reg.mats == old(reg.mats) + (if Pack(sc) in old(reg.lut) then [] else [sc])
                                   + (if Pack(ec) in old(reg.lut) then [] else [ec])
      && (Pack(sc) !in old(reg.lut) ==> reg.mats[shapeMatIdx] == sc)
      && (Pack(ec) !in old(reg.lut) ==> reg.mats[edgeMatIdx] == ec)
  {
    var shapeColor := SurfaceColor(colorIn);
    var edgeColor := EdgeColor(shapeColor);
    ghost var lut0, mats0 := reg.lut, reg.mats;
    shapeMatIdx := reg.GetOrCreate(shapeColor);
    ghost var lut1, mats1 := reg.lut, reg.mats;
    edgeMatIdx := reg.GetOrCreate(edgeColor);
    SurfaceAndEdgeKeysDiffer(colorIn);
    RegisteredTwice(lut0, mats0, lut1, mats1, reg.lut, reg.mats, shapeColor, shapeMatIdx, edgeColor, edgeMatIdx);
  }

  /** Accumulates one non-null shape into the buckets of the two given materials. */
  method AccumulateShape(shape: Shape, shapeMatIdx: nat, edgeMatIdx: nat,
                         tris: seq<TriBucket>, edges: seq<EdgeBucket>, unit: Vec3 -> Vec3)
    returns (tris': seq<TriBucket>, edges': seq<EdgeBucket>)
    requires forall i :: 0 <= i < |shape.faces| ==> FaceWellIndexed(shape.faces[i])
    ensures tris' == TriBucketsAfter(tris, shapeMatIdx, shape.faces, unit)
    ensures edges' == EdgeBucketsAfter(edges, edgeMatIdx, shape.edges)
    ensures TriBucketsValid(tris) ==> TriBucketsValid(tris')
    ensures EdgeBucketsValid(edges) ==> EdgeBucketsValid(edges')
  {
    tris' := EnsureTriBucket(tris, shapeMatIdx);
    edges' := EnsureEdgeBucket(edges, edgeMatIdx);

    var b := AppendFaces(tris'[shapeMatIdx], shape.faces, unit);
    if TriBucketsValid(tris) {
      TriBucketsAfterValid(tris, shapeMatIdx, shape.faces, unit);
    }
    tris' := tris'[shapeMatIdx := b];

    var eB := AppendEdges(edges'[edgeMatIdx], shape.edges);
    if EdgeBucketsValid(edges) {
      EdgeBucketsAfterValid(edges, edgeMatIdx, shape.edges);
    }
    edges' := edges'[edgeMatIdx := eB];
  }

  /** Accumulates one shape into the bucket lists, looking its colours up in `reg`;
      a null shape changes nothing. */
  method MeshShape(shape: Option<Shape>, colorIn: RGBA, reg: MaterialRegistry,
                   tris: seq<TriBucket>, edges: seq<EdgeBucket>, unit: Vec3 -> Vec3)
    returns (tris': seq<TriBucket>, edges': seq<EdgeBucket>)
    requires reg.Valid()
    requires shape.Some? ==> forall i :: 0 <= i < |shape.value.faces| ==> FaceWellIndexed(shape.value.faces[i])
    modifies reg
    ensures reg.Valid()
    ensures shape.None? ==> tris' == tris && edges' == edges && reg.lut == old(reg.lut) && reg.mats == old(reg.mats)
    ensures shape.Some? ==>
      var sc := SurfaceColor(colorIn);
      var ec := EdgeColor(sc);
      && old(reg.mats) <= reg.mats && |reg.mats| <= |old(reg.mats)| + 2
      && (forall k :: k in old(reg.lut) ==> k in reg.lut && reg.lut[k] == old(reg.lut)[k])
      && Pack(sc) in reg.lut && Pack(ec) in reg.lut
      && reg.lut[Pack(sc)] < |reg.mats| && reg.lut[Pack(ec)] < |reg.mats|
      && reg.mats == old(reg.mats) + (if Pack(sc) in old(reg.lut) then [] else [sc])
                                   + (if Pack(ec) in old(reg.lut) then [] else [ec])
      && (Pack(sc) !in old(reg.lut) ==> reg.mats[reg.lut[Pack(sc)]] == sc)
      && (Pack(ec) !in old(reg.lut) ==> reg.mats[reg.lut[Pack(ec)]] == ec)
      && tris' == TriBucketsAfter(tris, reg.lut[Pack(sc)], shape.value.faces, unit)
      && edges' == EdgeBucketsAfter(edges, reg.lut[Pack(ec)], shape.value.edges)
    ensures TriBucketsValid(tris) ==> TriBucketsValid(tris')
    ensures EdgeBucketsValid(edges) ==> EdgeBucketsValid(edges')
  {
    if shape.None? {
      return tris, edges;
    }
    var shapeMatIdx, edgeMatIdx := LookupShapeMaterials(colorIn, reg);
    tris', edges' := AccumulateShape(shape.value, shapeMatIdx, edgeMatIdx, tris, edges, unit);
  }
}
