// Shared geometry types, the 4-byte padding helper, accessor bounds and the
// material registry of the GLB exporter (include/Common.hpp).

module Common {

  datatype Option<T> = None | Some(value: T)

  /** A 3D point or direction; the source stores three single-precision floats. */
  datatype Vec3 = Vec3(x: real, y: real, z: real)

  type Vertex = Vec3
  type Normal = Vec3

  /** A colour with four channels, nominally in [0,1]. */
  datatype RGBA = RGBA(r: real, g: real, b: real, a: real)

  /** Triangle geometry of one material: parallel vertex and normal arrays plus
      index triples into the vertex array. A material index of -1 means "none". */
  datatype TriBucket = TriBucket(vertices: seq<Vertex>, normals: seq<Normal>, indices: seq<nat>, materialIndex: int)

  /** Polyline geometry of one material: vertices plus index pairs (line segments). */
  datatype EdgeBucket = EdgeBucket(vertices: seq<Vertex>, indices: seq<nat>, materialIndex: int)

  /** A default-constructed bucket, as a vector resize creates it. */
  const EmptyTriBucket := TriBucket([], [], [], -1)
  const EmptyEdgeBucket := EdgeBucket([], [], -1)

  /** The bucket invariants: one normal per vertex, whole triangles, indices in range. */
  predicate TriBucketValid(b: TriBucket) {
    && |b.normals| == |b.vertices|
    && |b.indices| % 3 == 0
    && forall k :: 0 <= k < |b.indices| ==> b.indices[k] < |b.vertices|
  }

  /** Whole segments, indices in range. */
  predicate EdgeBucketValid(b: EdgeBucket) {
    && |b.indices| % 2 == 0
    && forall k :: 0 <= k < |b.indices| ==> b.indices[k] < |b.vertices|
  }

  /** Counters reported after a container write (the elapsed time is a clock
      reading and is not part of the model). */
  datatype ExportStats = ExportStats(
    vertices: nat, triangles: nat, lines: nat, materials: nat, primitives: nat,
    bufferBytes: nat, jsonBytes: nat, totalBytes: nat)

  const NoStats := ExportStats(0, 0, 0, 0, 0, 0, 0, 0)

  // ---------------------------------------------------------------------------
  // 4-byte padding

  /** Rounds n up to the next multiple of four ((n + 3) with the two low bits cleared). */
  function Pad4(n: nat): (r: nat)
    ensures r % 4 == 0
    ensures n <= r < n + 4
  {
    (n + 3) - (n + 3) % 4
  }

  /** Pad4 gives the least multiple of four that is not below n. */
  lemma Pad4Least(n: nat, m: nat)
    requires m % 4 == 0 && n <= m
    ensures Pad4(n) <= m
  {
  }

  lemma Pad4Idempotent(n: nat)
    ensures Pad4(Pad4(n)) == Pad4(n)
  {
  }

  // ---------------------------------------------------------------------------
  // Accessor bounds

  function Coord(p: Vec3, axis: nat): real
    requires axis < 3
  {
    if axis == 0 then p.x else if axis == 1 then p.y else p.z
  }

  /** Running minimum of one coordinate, folded from the first element on. */
  function AxisMin(v: seq<Vec3>, axis: nat): real
    requires |v| > 0 && axis < 3
  {
    if |v| == 1 then Coord(v[0], axis)
    else
      var m := AxisMin(v[..|v| - 1], axis);
      var c := Coord(v[|v| - 1], axis);
      if c < m then c else m
  }

  /** Running maximum of one coordinate, folded from the first element on. */
  function AxisMax(v: seq<Vec3>, axis: nat): real
    requires |v| > 0 && axis < 3
  {
    if |v| == 1 then Coord(v[0], axis)
    else
      var m := AxisMax(v[..|v| - 1], axis);
      var c := Coord(v[|v| - 1], axis);
      if c > m then c else m
  }

  lemma {:induction false} AxisMinIsLeast(v: seq<Vec3>, axis: nat)
    requires |v| > 0 && axis < 3
    ensures forall i :: 0 <= i < |v| ==> AxisMin(v, axis) <= Coord(v[i], axis)
    ensures exists i :: 0 <= i < |v| && AxisMin(v, axis) == Coord(v[i], axis)
  {
    if |v| > 1 {
      var w := v[..|v| - 1];
      AxisMinIsLeast(w, axis);
      assert forall i :: 0 <= i < |w| ==> v[i] == w[i];
      var j :| 0 <= j < |w| && AxisMin(w, axis) == Coord(w[j], axis);
      if Coord(v[|v| - 1], axis) < AxisMin(w, axis) {
        assert AxisMin(v, axis) == Coord(v[|v| - 1], axis);
      } else {
        assert AxisMin(v, axis) == Coord(v[j], axis);
      }
    } else {
      assert AxisMin(v, axis) == Coord(v[0], axis);
    }
  }

  lemma {:induction false} AxisMaxIsGreatest(v: seq<Vec3>, axis: nat)
    requires |v| > 0 && axis < 3
    ensures forall i :: 0 <= i < |v| ==> Coord(v[i], axis) <= AxisMax(v, axis)
    ensures exists i :: 0 <= i < |v| && AxisMax(v, axis) == Coord(v[i], axis)
  {
    if |v| > 1 {
      var w := v[..|v| - 1];
      AxisMaxIsGreatest(w, axis);
      assert forall i :: 0 <= i < |w| ==> v[i] == w[i];
      var j :| 0 <= j < |w| && AxisMax(w, axis) == Coord(w[j], axis);
      if Coord(v[|v| - 1], axis) > AxisMax(w, axis) {
        assert AxisMax(v, axis) == Coord(v[|v| - 1], axis);
      } else {
        assert AxisMax(v, axis) == Coord(v[j], axis);
      }
    } else {
      assert AxisMax(v, axis) == Coord(v[0], axis);
    }
  }

  /** Values whose magnitude is below 1e-9 are reported as exactly zero. */
  function Snap(x: real): real
  {
    if -0.000000001 < x < 0.000000001 then 0.0 else x
  }

  /** The six accessor bounds [minX, minY, minZ, maxX, maxY, maxZ]. */
  function MinMax(v: seq<Vec3>, isNormal: bool): seq<real>
  {
    if |v| == 0 then [0.0, 0.0, 0.0, 0.0, 0.0, 0.0]
    else if isNormal then [-1.0, -1.0, -1.0, 1.0, 1.0, 1.0]
    else [Snap(AxisMin(v, 0)), Snap(AxisMin(v, 1)), Snap(AxisMin(v, 2)),
          Snap(AxisMax(v, 0)), Snap(AxisMax(v, 1)), Snap(AxisMax(v, 2))]
  }

  /** Every position lies inside the reported box, up to the snapping of tiny bounds. */
  lemma PositionBoundsEnclose(v: seq<Vec3>, i: nat, axis: nat)
    requires i < |v| && axis < 3
    ensures MinMax(v, false)[axis] <= Coord(v[i], axis)
            || (MinMax(v, false)[axis] == 0.0 && -0.000000001 < Coord(v[i], axis))
    ensures Coord(v[i], axis) <= MinMax(v, false)[axis + 3]
            || (MinMax(v, false)[axis + 3] == 0.0 && Coord(v[i], axis) < 0.000000001)
  {
    AxisMinIsLeast(v, axis);
    AxisMaxIsGreatest(v, axis);
  }

  /** The loop of calcMinMax over six running minima and maxima. */
  method CalcMinMax(v: seq<Vec3>, isNormal: bool) returns (r: seq<real>)
    ensures |r| == 6
    ensures r == MinMax(v, isNormal)
    ensures |v| == 0 ==> r == [0.0, 0.0, 0.0, 0.0, 0.0, 0.0]
    ensures |v| > 0 && isNormal ==> r == [-1.0, -1.0, -1.0, 1.0, 1.0, 1.0]
  {
    if |v| == 0 {
      return [0.0, 0.0, 0.0, 0.0, 0.0, 0.0];
    }
    if isNormal {
      return [-1.0, -1.0, -1.0, 1.0, 1.0, 1.0];
    }
    var minX, minY, minZ := v[0].x, v[0].y, v[0].z;
    var maxX, maxY, maxZ := v[0].x, v[0].y, v[0].z;
    for i := 0 to |v|
      invariant var w := v[..if i == 0 then 1 else i];
        && minX == AxisMin(w, 0) && minY == AxisMin(w, 1) && minZ == AxisMin(w, 2)
        && maxX == AxisMax(w, 0) && maxY == AxisMax(w, 1) && maxZ == AxisMax(w, 2)
    {
      var p := v[i];
      if p.x < minX { minX := p.x; }
      if p.y < minY { minY := p.y; }
      if p.z < minZ { minZ := p.z; }
      if p.x > maxX { maxX := p.x; }
      if p.y > maxY { maxY := p.y; }
      if p.z > maxZ { maxZ := p.z; }
      assert v[..i + 1][..i] == v[..i];
    }
    assert v[..|v|] == v;
    r := [Snap(minX), Snap(minY), Snap(minZ), Snap(maxX), Snap(maxY), Snap(maxZ)];
  }

  // ---------------------------------------------------------------------------
  // Colour quantisation and the packed material key

  function Clamp01(v: real): (c: real)
    ensures 0.0 <= c <= 1.0
    ensures 0.0 <= v <= 1.0 ==> c == v
    ensures v < 0.0 ==> c == 0.0
    ensures v > 1.0 ==> c == 1.0
  {
    if v < 0.0 then 0.0 else if v > 1.0 then 1.0 else v
  }

  /** One channel rounded to a byte: lround(clamp01(v) * 255), half away from zero. */
  function Quantize(v: real): (q: nat)
    ensures q <= 255
    ensures q as real <= Clamp01(v) * 255.0 + 0.5 < q as real + 1.0
  {
    (Clamp01(v) * 255.0 + 0.5).Floor
  }

  /** r, g, b, a in bits 31-24, 23-16, 15-8 and 7-0 of one 32-bit key. */
  function PackBytes(r: nat, g: nat, b: nat, a: nat): (k: nat)
    requires r < 256 && g < 256 && b < 256 && a < 256
    ensures k < 0x1_0000_0000
  {
    r * 0x100_0000 + g * 0x1_0000 + b * 0x100 + a
  }

  /** The four bytes of a key, most significant first. */
  function UnpackBytes(k: nat): (nat, nat, nat, nat)
  {
    (k / 0x100_0000 % 0x100, k / 0x1_0000 % 0x100, k / 0x100 % 0x100, k % 0x100)
  }

  lemma UnpackPackBytes(r: nat, g: nat, b: nat, a: nat)
    requires r < 256 && g < 256 && b < 256 && a < 256
    ensures UnpackBytes(PackBytes(r, g, b, a)) == (r, g, b, a)
  {
    var k := PackBytes(r, g, b, a);
    assert k / 0x100 == r * 0x1_0000 + g * 0x100 + b;
    assert k / 0x1_0000 == r * 0x100 + g;
    assert k / 0x100_0000 == r;
  }

  /** The registry key of a colour. */
  function Pack(c: RGBA): (k: nat)
    ensures k < 0x1_0000_0000
  {
    PackBytes(Quantize(c.r), Quantize(c.g), Quantize(c.b), Quantize(c.a))
  }

  function QuantizedChannels(c: RGBA): (nat, nat, nat, nat)
  {
    (Quantize(c.r), Quantize(c.g), Quantize(c.b), Quantize(c.a))
  }

  /** Two colours share a key exactly when their four quantised channels agree. */
  lemma PackInjective(c1: RGBA, c2: RGBA)
    ensures Pack(c1) == Pack(c2) <==> QuantizedChannels(c1) == QuantizedChannels(c2)
  {
    UnpackPackBytes(Quantize(c1.r), Quantize(c1.g), Quantize(c1.b), Quantize(c1.a));
    UnpackPackBytes(Quantize(c2.r), Quantize(c2.g), Quantize(c2.b), Quantize(c2.a));
  }

  /** One instance of float noise absorbed by quantisation: red 0.001 rounds to the same
      byte as black. (Not every small difference is absorbed: two channels either side of
      a rounding boundary get different bytes.) */
  lemma PackAbsorbsJitter()
    ensures Pack(RGBA(0.0, 0.0, 0.0, 1.0)) == Pack(RGBA(0.001, 0.0, 0.0, 1.0))
  {
    assert Quantize(0.001) == 0;
  }

  /** Channels outside [0, 1] are clamped before quantisation, so they share the key of
      the clamped colour. */
  lemma PackIgnoresOutOfRange(c: RGBA)
    ensures Pack(c) == Pack(RGBA(Clamp01(c.r), Clamp01(c.g), Clamp01(c.b), Clamp01(c.a)))
  {
  }

  // ---------------------------------------------------------------------------
  // Material registry

  /** The registry invariant: lut maps each packed key of the palette to its
      position, one entry per palette colour, and nothing else. */
  predicate RegistryInv(lut: map<nat, nat>, mats: seq<RGBA>) {
    && |lut| == |mats|
    && (forall k :: k in lut ==> lut[k] < |mats|)
    && (forall i :: 0 <= i < |mats| ==> Pack(mats[i]) in lut && lut[Pack(mats[i])] == i)
  }

  /** Under the invariant the palette holds no two colours with the same key. */
  lemma {:induction false} RegistryKeysDistinct(lut: map<nat, nat>, mats: seq<RGBA>, i: nat, j: nat)
    requires RegistryInv(lut, mats)
    requires i < |mats| && j < |mats| && i != j
    ensures Pack(mats[i]) != Pack(mats[j])
  {
    assert lut[Pack(mats[i])] == i;
    assert lut[Pack(mats[j])] == j;
  }

  /** The palette of a registry holds each key at most once. */
  lemma PaletteKeysDistinct(lut: map<nat, nat>, mats: seq<RGBA>)
    ensures RegistryInv(lut, mats) ==> forall i, j :: 0 <= i < j < |mats| ==> Pack(mats[i]) != Pack(mats[j])
  {
    if RegistryInv(lut, mats) {
      forall i, j | 0 <= i < j < |mats|
        ensures Pack(mats[i]) != Pack(mats[j])
      {
        RegistryKeysDistinct(lut, mats, i, j);
      }
    }
  }

  /** A sequence without repeated elements has as many distinct elements as entries. */
  lemma {:induction false} DistinctKeysCard(ks: seq<nat>)
    requires forall i, j :: 0 <= i < j < |ks| ==> ks[i] != ks[j]
    ensures |set i | 0 <= i < |ks| :: ks[i]| == |ks|
  {
    if |ks| > 0 {
      var init := ks[..|ks| - 1];
      DistinctKeysCard(init);
      var s0 := set i | 0 <= i < |init| :: init[i];
      var s1 := set i | 0 <= i < |ks| :: ks[i];
      assert ks[|ks| - 1] !in s0;
      assert s1 == s0 + {ks[|ks| - 1]};
    }
  }

  lemma SubsetCard<T>(a: set<T>, b: set<T>)
    requires a <= b
    ensures |a| <= |b|
  {
    assert b == a + (b - a);
  }

  /** Under the invariant every key of lut is the key of the colour it points to. */
  lemma RegistryKeyResolves(lut: map<nat, nat>, mats: seq<RGBA>, k: nat)
    requires RegistryInv(lut, mats) && k in lut
    ensures lut[k] < |mats| && Pack(mats[lut[k]]) == k
  {
    var ks := seq(|mats|, i requires 0 <= i < |mats| => Pack(mats[i]));
    forall i, j | 0 <= i < j < |ks|
      ensures ks[i] != ks[j]
    {
      RegistryKeysDistinct(lut, mats, i, j);
    }
    DistinctKeysCard(ks);
    var s := set i | 0 <= i < |ks| :: ks[i];
    if k !in s {
      SubsetCard(s + {k}, lut.Keys);
      assert false;
    }
    var i :| 0 <= i < |ks| && ks[i] == k;
  }

  /** The registry after one GetOrCreate of `c` that returned `idx`. */
  ghost predicate Registered(lut0: map<nat, nat>, mats0: seq<RGBA>, lut1: map<nat, nat>, mats1: seq<RGBA>,
                             c: RGBA, idx: nat)
  {
    && mats1 == mats0 + (if Pack(c) in lut0 then [] else [c])
    && Pack(c) in lut1 && lut1[Pack(c)] == idx && idx < |mats1|
    && (Pack(c) !in lut0 ==> mats1[idx] == c)
    && (forall k :: k in lut0 ==> k in lut1 && lut1[k] == lut0[k])
    && (forall k :: k in lut1 ==> k in lut0 || k == Pack(c))
  }

  /** Two registrations of colours with different keys, one after the other. */
  lemma RegisteredTwice(lut0: map<nat, nat>, mats0: seq<RGBA>, lut1: map<nat, nat>, mats1: seq<RGBA>,
                        lut2: map<nat, nat>, mats2: seq<RGBA>, s: RGBA, i: nat, e: RGBA, j: nat)
    requires Registered(lut0, mats0, lut1, mats1, s, i)
    requires Registered(lut1, mats1, lut2, mats2, e, j)
    requires Pack(s) != Pack(e)
    ensures mats0 <= mats2 && |mats2| <= |mats0| + 2
    ensures forall k :: k in lut0 ==> k in lut2 && lut2[k] == lut0[k]
    ensures Pack(s) in lut2 && lut2[Pack(s)] == i && Pack(e) in lut2 && lut2[Pack(e)] == j
    ensures i < |mats2| && j < |mats2|
    ensures mats2 == mats0 + (if Pack(s) in lut0 then [] else [s]) + (if Pack(e) in lut0 then [] else [e])
    ensures Pack(s) !in lut0 ==> mats2[i] == s
    ensures Pack(e) !in lut0 ==> mats2[j] == e
  {
    assert Pack(e) in lut1 <==> Pack(e) in lut0;
    assert mats1 <= mats2;
  }

  class MaterialRegistry {
    var lut: map<nat, nat>
    var mats: seq<RGBA>

    ghost predicate Valid()
      reads this
    {
      RegistryInv(lut, mats)
    }

    constructor ()
      ensures Valid()
      ensures lut == map[] && mats == []
    {
      lut := map[];
      mats := [];
    }

    /** The palette, in index order: under the invariant no two entries share a key. */
    function Materials(): (m: seq<RGBA>)
      reads this
      ensures |m| == |mats|
      ensures RegistryInv(lut, mats) ==> forall i, j :: 0 <= i < j < |m| ==> Pack(m[i]) != Pack(m[j])
    {
      PaletteKeysDistinct(lut, mats);
      mats
    }

    /** Returns the index of the colour's key, appending the colour when the key is new. */
    method GetOrCreate(c: RGBA) returns (idx: nat)
      requires Valid()
      modifies this
      ensures Valid()
      ensures Pack(c) in old(lut) ==> idx == old(lut)[Pack(c)] && lut == old(lut) && mats == old(mats)
      ensures Pack(c) !in old(lut) ==>
        idx == |old(mats)| && mats == old(mats) + [c] && lut == old(lut)[Pack(c) := idx]
      ensures idx < |mats| && Pack(mats[idx]) == Pack(c)
      ensures Pack(c) in lut && lut[Pack(c)] == idx
      ensures old(mats) <= mats && |mats| <= |old(mats)| + 1
      ensures forall k :: k in old(lut) ==> k in lut && lut[k] == old(lut)[k]
      ensures Registered(old(lut), old(mats), lut, mats, c, idx)
    {
      var k := Pack(c);
      if k in lut {
        RegistryKeyResolves(lut, mats, k);
        return lut[k];
      }
      idx := |mats|;
      mats := mats + [c];
      lut := lut[k := idx];
    }
  }

  /** Looking a colour up twice gives the same index and leaves the palette alone;
      colours with different keys get different indices. */
  method RegistryScenario(reg: MaterialRegistry, c: RGBA, d: RGBA) returns (i1: nat, i2: nat, j: nat)
    requires reg.Valid()
    modifies reg
    ensures reg.Valid()
    ensures i1 == i2
    ensures Pack(c) != Pack(d) <==> i1 != j
    ensures |reg.mats| <= |old(reg.mats)| + 2
  {
    i1 := reg.GetOrCreate(c);
    var palette := reg.mats;
    i2 := reg.GetOrCreate(c);
    assert reg.mats == palette;
    j := reg.GetOrCreate(d);
    if Pack(c) != Pack(d) {
      RegistryKeysDistinct(reg.lut, reg.mats, i1, j);
    }
  }
}
