# CAD-to-GLB exporter core, modelled in Dafny

This project models the core of a STEP-to-glTF exporter. The exporter reads a CAD
assembly through an XCAF document. It turns every solid into triangle and edge
buckets, one bucket per material, and writes them as one binary glTF file (GLB).

The model has five modules, one per core source file:

- `Common` (common.dfy) covers the shared records of `include/Common.hpp`:
  - the triangle and edge buckets and their validity (every index names a vertex);
  - 4-byte padding;
  - the accessor bounds computed by `calcMinMax`;
  - `MaterialRegistry`, a class whose `lut` map and `mats` palette are updated in place
    by `GetOrCreate`, with the RGBA packing used as its key.
- `MeshExtractor` (mesh_extractor.dfy) covers `MeshShape`:
  - the colour choice (black becomes gray, with a contrasting edge colour);
  - the per-face vertex, normal and index accumulation over an `array` of accumulators,
    with orientation reversal;
  - edge sampling into line-list polylines;
  - the growth of the per-material bucket lists.
- `GlbBuilder` (glb_builder.dfy) covers the `GlbBuilder` class:
  - `AddBuckets` merges a model's buckets, shifting material indices past the palette
    already held;
  - `WriteGlb` lays the buckets out as buffer views, accessors and primitives, pads the
    JSON, and assembles the 12-byte header and the two chunks;
  - it fills in the export statistics.
  The layout is specified by pure folds (`BuildLayout`). The loops are methods proved
  equal to those folds. The layout is proved well formed: views contiguous and 4-byte
  aligned, accessors inside their views, primitives pointing at existing accessors and
  at a palette material (or at material 0 when the palette is empty). The container is proved to read back.
- `XcafTools` (xcaf_tools.dfy) covers:
  - label paths as file names;
  - the shallow and the deep component collection;
  - the colour lookup chain: own colour, then prototype colour, then the colour found
    by a shape search.
- `Exporter` (exporter.dfy) covers the command-line parser.

The CAD kernel, the file system and the JSON text are parameters of the model:
- a label tree (`AssemblyTree`) and a colour document (`ColorDoc`) stand in for the
  kernel's answers;
- `canOpen` says whether the output file can be opened;
- `render` produces the glTF JSON text;
- `unit` normalises a vector;
- `parentPath` gives a path's parent directory.

## Model

| member | source | states |
|---|---|---|
| Common.Pad4 | include/Common.hpp:41-43 | the padded size is a multiple of 4, at least n and less than n + 4 |
| Common.Pad4Least | include/Common.hpp:41-43 | the padded size is the least multiple of 4 not below n |
| Common.Pad4Idempotent | include/Common.hpp:41-43 | padding an already padded size changes nothing |
| Common.AxisMinIsLeast | include/Common.hpp:57-66 | the running minimum of an axis is attained by some vertex and is at most every vertex's coordinate |
| Common.AxisMaxIsGreatest | include/Common.hpp:57-66 | the running maximum of an axis is attained by some vertex and is at least every vertex's coordinate |
| Common.PositionBoundsEnclose | include/Common.hpp:57-71 | the six reported position bounds enclose every vertex; a bound snapped to 0 is off by less than 1e-9 |
| Common.CalcMinMax | include/Common.hpp:47-72 | the loop returns the specified bounds: six zeros for no vertices, -1/+1 for normals, otherwise the snapped per-axis minima and maxima |
| Common.Clamp01 | include/Common.hpp:108-112 | the clamped channel lies in [0, 1]: below 0 it is 0, above 1 it is 1, otherwise the input itself |
| Common.Quantize | include/Common.hpp:113-116 | a clamped channel becomes a byte 0..255 within one half of 255 times the channel |
| Common.PackBytes | include/Common.hpp:117-120 | four bytes packed most significant first fit in 32 bits |
| Common.UnpackPackBytes | include/Common.hpp:117-120 | unpacking a packed key gives back the four bytes |
| Common.Pack | include/Common.hpp:107-121 | the key fits in 32 bits (its four bytes are the quantised channels: UnpackPackBytes and PackInjective) |
| Common.PackInjective | include/Common.hpp:107-121 | two colours get the same key exactly when their quantised channels agree |
| Common.PackAbsorbsJitter | include/Common.hpp:113-120 | black and the colour with red 0.001 (otherwise black) share a key: this small jitter rounds to the same byte |
| Common.PackIgnoresOutOfRange | include/Common.hpp:108-116 | a colour shares its key with the colour whose channels are clamped to [0, 1] |
| Common.RegistryKeysDistinct | include/Common.hpp:123-133 | under the registry invariant no two palette colours share a key |
| Common.PaletteKeysDistinct | include/Common.hpp:123-133 | a registry's palette holds each key at most once |
| Common.RegistryKeyResolves | include/Common.hpp:125-128 | every key in the lookup table points at a palette colour with that key |
| Common.MaterialRegistry.constructor | include/Common.hpp:103-105 | a new registry is empty and satisfies the invariant |
| Common.MaterialRegistry.Materials | include/Common.hpp:135-137 | the palette returned has one entry per material and no repeated key |
| Common.MaterialRegistry.GetOrCreate | include/Common.hpp:123-133 | a known key returns its index and changes nothing; a new key appends the colour at index old size and records it; either way the index resolves to a colour with that key and old entries stay |
| Common.RegisteredTwice | include/Common.hpp:123-133 | two lookups of colours with different keys, one after the other, keep the old entries, resolve both keys, and append exactly the colours whose keys were new, in call order |
| Common.RegistryScenario | include/Common.hpp:123-133 | asking twice for a colour gives the same index, and two colours get different indices exactly when their keys differ |
| MeshExtractor.SurfaceColor | src/MeshExtractor.cpp:38-41 | pure black is replaced by gray (0.7, 0.7, 0.7, 1); any other colour is kept |
| MeshExtractor.EdgeColor | src/MeshExtractor.cpp:43-52 | the edge colour is an opaque gray, darker than 0.5 brightness exactly when the surface brightness exceeds 0.5 |
| MeshExtractor.ColorsContrast | src/MeshExtractor.cpp:44-52 | the surface colour is never black, and the edge colour is dark exactly when the surface is bright |
| MeshExtractor.TriangleNormals | src/MeshExtractor.cpp:95-99 | one face normal per triangle |
| MeshExtractor.AccAfter | src/MeshExtractor.cpp:101-103 | the per-node accumulators have one entry per node |
| MeshExtractor.UnreferencedNodeHasZeroAcc | src/MeshExtractor.cpp:101-103 | a node that no triangle uses keeps a zero accumulator |
| MeshExtractor.VertexNormals | src/MeshExtractor.cpp:110-113 | one vertex normal per accumulator |
| MeshExtractor.FaceIndices | src/MeshExtractor.cpp:105-107 | three indices per triangle |
| MeshExtractor.FaceIndicesAt | src/MeshExtractor.cpp:85-90 | index 3j+c is the bucket base plus the c-th oriented corner of triangle j, minus one |
| MeshExtractor.FaceIndicesInRange | src/MeshExtractor.cpp:73-107 | every index of a face lies in [base, base + node count) |
| MeshExtractor.ReversedFaceSwapsCorners | src/MeshExtractor.cpp:85-90 | a reversed face keeps each triangle's first corner and swaps its second and third |
| MeshExtractor.FaceAppendedValid | src/MeshExtractor.cpp:65-119 | a face keeps the bucket valid, adds its node count of vertices and three indices per triangle, extends the old contents and adds nothing when it is skipped |
| MeshExtractor.AsWrittenLosesNormals | src/MeshExtractor.cpp:110-118 | a face with an unused node (one case of a zero accumulated normal) gains vertices but no normals under the source's behaviour, breaking validity; the corrected step keeps it valid |
| MeshExtractor.FacesAppendedValid | src/MeshExtractor.cpp:65-119 | a run of faces keeps the bucket valid and only extends it |
| MeshExtractor.AccAfterStep | src/MeshExtractor.cpp:101-103 | adding a triangle's normal at its three corners gives the accumulators after that triangle |
| MeshExtractor.AddInto | src/MeshExtractor.cpp:101-103 | the array cell is incremented by the vector in place and nothing else changes |
| MeshExtractor.AccumulateTriangle | src/MeshExtractor.cpp:85-107 | one triangle step leaves the specified accumulators and appends its oriented indices |
| MeshExtractor.AccumulateTriangles | src/MeshExtractor.cpp:85-108 | the triangle loop leaves the specified accumulators and appends the face's indices |
| MeshExtractor.NormalizeAll | src/MeshExtractor.cpp:110-113 | the array is replaced in place by the vertex normals of its accumulators |
| MeshExtractor.AppendFace | src/MeshExtractor.cpp:73-113 | the face loop body gives the specified bucket after that face |
| MeshExtractor.EdgeDeflectionMonotone | src/MeshExtractor.cpp:135-137 | the sampling deflection is positive, grows with edge length and never exceeds the base deflection |
| MeshExtractor.PolylineIndices | src/MeshExtractor.cpp:146-150 | a polyline of k points yields 2(k-1) line indices |
| MeshExtractor.PolylineIndicesPairs | src/MeshExtractor.cpp:146-150 | segment i joins points base+i and base+i+1 |
| MeshExtractor.EdgesAppendedValid | src/MeshExtractor.cpp:122-156 | a run of edges keeps the edge bucket valid and only extends it |
| MeshExtractor.AppendPolyline | src/MeshExtractor.cpp:142-150 | a sampled polyline is appended with its segment indices and the edge base advances by the point count |
| MeshExtractor.EnsureTriBucket | src/MeshExtractor.cpp:54-62 | the triangle bucket list is grown with empty buckets to reach the index, the bucket there is tagged with it, others are kept |
| MeshExtractor.EnsureEdgeBucket | src/MeshExtractor.cpp:54-62 | the same for the edge bucket list |
| MeshExtractor.TriBucketsAfterValid | src/MeshExtractor.cpp:54-119 | accumulating a shape's faces keeps every triangle bucket valid |
| MeshExtractor.EdgeBucketsAfterValid | src/MeshExtractor.cpp:54-156 | accumulating a shape's edges keeps every edge bucket valid |
| MeshExtractor.AppendFaces | src/MeshExtractor.cpp:65-119 | the face loop gives the specified bucket after all faces |
| MeshExtractor.AppendEdges | src/MeshExtractor.cpp:122-156 | the edge loop gives the specified bucket after all edges |
| MeshExtractor.SurfaceAndEdgeKeysDiffer | src/MeshExtractor.cpp:38-52 | the surface colour and its edge colour never share a registry key |
| MeshExtractor.LookupShapeMaterials | src/MeshExtractor.cpp:38-55 | the surface and edge colours are registered and their indices returned; the palette gains exactly the colours whose keys were new, surface colour first, and each is stored at its index; the two keys always differ |
| MeshExtractor.AccumulateShape | src/MeshExtractor.cpp:54-156 | the bucket lists become the specified ones and stay valid |
| MeshExtractor.MeshShape | src/MeshExtractor.cpp:20-157 | a null shape changes nothing; otherwise the palette gains exactly the surface and edge colours whose keys were new (so black yields a gray palette entry), and the buckets at their indices receive the shape's faces, along the corrected zero-normal path, and its edges, staying valid |
| GlbBuilder.MaterialForInPalette | src/GlbBuilder.cpp:122-124 | a primitive's material is its bucket's index when that lies in the palette, else 0, and always lies in the palette |
| GlbBuilder.AppendRegionValid | src/GlbBuilder.cpp:77-82 | appending a 4-byte multiple region with its view and accessor keeps the layout well formed |
| GlbBuilder.WithTriBucketValid | src/GlbBuilder.cpp:85-127 | emitting a triangle bucket keeps the layout well formed |
| GlbBuilder.WithEdgeBucketValid | src/GlbBuilder.cpp:130-161 | emitting an edge bucket keeps the layout well formed |
| GlbBuilder.LayoutTrisValid | src/GlbBuilder.cpp:85-127 | the triangle loop keeps the layout well formed |
| GlbBuilder.LayoutEdgesValid | src/GlbBuilder.cpp:130-161 | the edge loop keeps the layout well formed |
| GlbBuilder.BuildLayoutValid | src/GlbBuilder.cpp:85-161 | the whole layout is well formed: contiguous aligned views, accessors inside views, primitives referencing existing accessors and a palette material, or material 0 when the palette is empty |
| GlbBuilder.ViewsDisjoint | src/GlbBuilder.cpp:77-82 | buffer views never overlap |
| GlbBuilder.ViewInsideBuffer | src/GlbBuilder.cpp:77-82 | every buffer view ends inside the binary buffer |
| GlbBuilder.BinNeedsNoPadding | src/GlbBuilder.cpp:164 | the binary buffer is already a multiple of 4 bytes, so padding it adds nothing |
| GlbBuilder.LayoutTrisCounts | src/GlbBuilder.cpp:85-127 | each drawn triangle bucket adds one primitive and three views and accessors; empty ones add nothing |
| GlbBuilder.WithTriBucketNormalsMatch | src/GlbBuilder.cpp:112-117 | for a valid bucket the primitive's normal accessor has as many elements as its position accessor |
| GlbBuilder.QuadScenario | src/GlbBuilder.cpp:85-127 | one quad bucket beside an empty edge bucket gives one TRIANGLES primitive over three views and accessors, a 120-byte buffer, four vertices and two triangles; the empty edge bucket is not drawn |
| GlbBuilder.LayoutEdgesCounts | src/GlbBuilder.cpp:130-161 | each drawn edge bucket adds one primitive and two views and accessors |
| GlbBuilder.BuildLayoutCounts | src/GlbBuilder.cpp:85-161 | the whole layout has one primitive per drawn bucket, and three views and three accessors per drawn triangle bucket plus two of each per drawn edge bucket |
| GlbBuilder.PadJson | src/GlbBuilder.cpp:240-242 | the padded JSON's length is the padded length |
| GlbBuilder.PadJsonShape | src/GlbBuilder.cpp:240-242 | padding keeps the text and adds fewer than four spaces to reach a multiple of 4 |
| GlbBuilder.ReadGlb | src/GlbBuilder.cpp:254-273 | a file accepted by the reader has aligned chunks and the size the header announces |
| GlbBuilder.FileSizeSplit | src/GlbBuilder.cpp:254-273 | the size of a container is the sum of its pieces |
| GlbBuilder.GlbRoundTrip | src/GlbBuilder.cpp:244-273 | the written container has the announced total length and reads back to its JSON and buffer length |
| GlbBuilder.WrittenFileReadsBack | src/GlbBuilder.cpp:164-273 | for any buckets, palette and JSON text, the file written reads back to the padded JSON and the laid-out buffer |
| GlbBuilder.MergedTriOrigin | src/GlbBuilder.cpp:17-24 | every merged triangle bucket is a non-empty input bucket with its material shifted |
| GlbBuilder.MergedEdgeOrigin | src/GlbBuilder.cpp:27-34 | every merged edge bucket is a non-empty input bucket with its material shifted |
| GlbBuilder.ShiftedMaterialResolves | src/GlbBuilder.cpp:13-24 | a shifted material index names the same colour in the combined palette |
| GlbBuilder.MergeTrisKeepsCounts | src/GlbBuilder.cpp:17-24 | merging keeps the vertex and triangle totals and yields valid, non-empty buckets |
| GlbBuilder.MergeEdgesKeepsCounts | src/GlbBuilder.cpp:27-34 | merging keeps the line total and yields valid, non-empty buckets |
| GlbBuilder.EmitTriBucket | src/GlbBuilder.cpp:88-126 | one pass of the triangle loop gives the specified layout |
| GlbBuilder.EmitEdgeBucket | src/GlbBuilder.cpp:133-160 | one pass of the edge loop gives the specified layout |
| GlbBuilder.LayOutTriBuckets | src/GlbBuilder.cpp:85-127 | the triangle loop gives the specified layout |
| GlbBuilder.LayOutEdgeBuckets | src/GlbBuilder.cpp:130-161 | the edge loop gives the specified layout |
| GlbBuilder.Totals | src/GlbBuilder.cpp:276-281 | the vertex, triangle and line counts of the statistics |
| GlbBuilder.GlbBuilder.constructor | include/GlbBuilder.hpp:22-24 | a new builder holds no buckets and no materials |
| GlbBuilder.GlbBuilder.AddBuckets | src/GlbBuilder.cpp:8-35 | the palette is extended by the new materials, and the non-empty buckets are appended with material indices shifted by the old palette size |
| GlbBuilder.GlbBuilder.WriteGlb | src/GlbBuilder.cpp:37-299 | writing succeeds exactly when there are buckets and the file opens; on failure nothing is written and the statistics are untouched; on success the file is the container of the padded JSON and the laid-out buffer, with matching statistics |
| XcafTools.LabelPathForFilename | src/XcafTools.cpp:18-28 | the file name has the entry's length, every ':' becomes '-', other characters are kept and no ':' is left |
| XcafTools.DashedShape | src/XcafTools.cpp:24-27 | the rewrite keeps the length, leaves no ':' and keeps other characters |
| XcafTools.DashedInjective | src/XcafTools.cpp:24-27 | entries without '-' never share a file name |
| XcafTools.DashedIdempotent | src/XcafTools.cpp:24-27 | rewriting a file name again changes nothing |
| XcafTools.CollectAssemblyComponentsShallow | src/XcafTools.cpp:121-140 | the output is extended by each root's direct children, or by the root itself when it has none |
| XcafTools.ShallowMembers | src/XcafTools.cpp:126-139 | a label is selected exactly when it is a root without children or a child of a root |
| XcafTools.ShallowCoversRoots | src/XcafTools.cpp:126-139 | the selection has at least one label per root |
| XcafTools.CollectLeafComponentsDeep | src/XcafTools.cpp:142-180 | the output becomes the specified deep selection |
| XcafTools.WalkPicksLeaves | src/XcafTools.cpp:158-171 | the walk only adds leaf components of the roots and only grows the seen set |
| XcafTools.WalkPicksEachEntryOnce | src/XcafTools.cpp:158-171 | no two labels added by the walk share an entry, and none was already seen |
| XcafTools.WalkPicksEveryLeaf | src/XcafTools.cpp:158-171 | every leaf component whose entry was not seen is picked |
| XcafTools.DeepSelectionShape | src/XcafTools.cpp:142-180 | the deep selection keeps the output, adds distinct leaf components, and falls back to the roots exactly when the output is still empty after the walk, that is, it started empty and no leaf was found |
| XcafTools.EffectiveColor | src/XcafTools.cpp:30-72 | no colour without a colour tool; a label's own colour wins, then its prototype's own colour (the full order is EffectiveColorIsFirstCandidate) |
| XcafTools.FirstColorIsFirst | src/XcafTools.cpp:30-72 | the lookup chain finds nothing exactly when no lookup has a colour; otherwise it returns the first lookup that has one |
| XcafTools.FirstColorAppend | src/XcafTools.cpp:30-72 | searching two lookup lists in turn is searching their concatenation |
| XcafTools.FirstColorOfLabel | src/XcafTools.cpp:39-44 | a label's own colour is its surface, then generic, then curve colour |
| XcafTools.EffectiveColorIsFirstCandidate | src/XcafTools.cpp:30-72 | with a colour tool, the effective colour is the first colour found in the order own, prototype, shape-search label |
| XcafTools.ResolveColorRGBA | src/XcafTools.cpp:74-84 | without an effective colour the default is returned; with one, its red, green and blue with alpha 1 |
| XcafTools.ResolvePrefersOwnSurface | src/XcafTools.cpp:30-84 | a label's own surface colour wins; without a colour tool the default is returned |
| Exporter.WithSeparatorShape | src/Exporter.cpp:68-73 | the directory gets a trailing '/' only when it is non-empty and lacks a separator, and is otherwise kept |
| Exporter.DefaultOutDirNormalized | src/Exporter.cpp:56-59 | the default output directory is the input's parent path with '/' appended, or empty |
| Exporter.ParseArgs | src/Exporter.cpp:51-78 | the argument loop returns the specified options |
| Exporter.ParseRestKeeps | src/Exporter.cpp:61-75 | parsing keeps the input, never clears a flag and keeps the directory normalised |
| Exporter.ParsedOptionsWellFormed | src/Exporter.cpp:51-78 | the input is the first argument and the output directory is empty or ends in a separator |
| Exporter.FlagsWithoutOutdir | src/Exporter.cpp:61-65 | without "--outdir", each flag is set exactly when its argument appears, and the directory keeps its default |
| Exporter.LastOutdirWins | src/Exporter.cpp:66-74 | a final "--outdir DIR" decides the directory |
| Exporter.LaterOutdirOverrides | src/Exporter.cpp:66-74 | a later "--outdir" pair overrides an earlier one, whatever flags lie between |
| Exporter.OutdirConsumesItsValue | src/Exporter.cpp:66-74 | the argument after "--outdir" is taken as the directory even when it looks like a flag |

## Left out

- Kernel operations are not computed. Tessellation, face location and orientation, edge
  arclength, uniform-deflection sampling, the XCAF label tree, shape search and colour
  queries are inputs or function parameters.
- The throwing paths of the kernel are modelled as input variants (`Faulty`,
  `FaultyEdge`, a missing length or sample). The one throwing path inside the core
  itself is listed under Findings.
- Floating point is modelled by `real`:
  - float32 rounding, `lround`'s tie rule and the 1e-9 snap threshold are exact
    comparisons on reals;
  - vector normalisation is the parameter `unit`.
- Fixed-width integers are not modelled:
  - uint32 indices and offsets, the `int` material index and the uint32 GLB total length
    are unbounded naturals;
  - no wrap-around of models larger than 4 GiB is modelled.
- The JSON text is the parameter `render`: GlbBuilder.GlbBuilder.WriteGlb does not model the
  JSON syntax, only its padding and placement.
- The binary buffer is modelled by its layout and length, not by its bytes.
- File I/O is the boolean `canOpen`; the stream writes are modelled as the sequence of
  container pieces.
- Timing (`elapsedSec`) and printing of statistics are not modelled.
- Diagnostics on standard error are not modelled: skipped faces and edges in the mesh
  extractor, and "no geometry" and "cannot open" in the GLB writer. Only their effect on
  the buckets and on the result is.
- MeshExtractor.MeshShape: follows the corrected face step. On a face with a node whose
  accumulated normal is zero (unused, only in degenerate triangles, or with cancelling
  normals), the source keeps no normals for that face (see Findings).
- GlbBuilder.BuildLayoutValid: with an empty palette a primitive refers to material 0,
  which does not exist, as the source writes it.
- Exporter.ParseArgs: `std::filesystem::path::parent_path` is the parameter `parentPath`.
  Printing usage and the process exit when fewer than two arguments are given are a
  precondition here.
- The rest of the exporter is not part of this model: STEP export, the assembly-tree
  dump, the JSON exporter, the PNG renderer and the orchestration in `run`.
- MeshExtractor.AccumulateTriangles: takes the face's triangle normals as a precomputed
  sequence (`TriangleNormals`) rather than computing them inside the loop.
- XcafTools.WalkPicksEveryLeaf: assumes the components' entries identify them. Two
  different labels with one entry are deduplicated by entry, as the source does.
- Exporter.LastOutdirWins: requires no other "--outdir" among the arguments before the
  final pair. An earlier complete pair is covered by Exporter.LaterOutdirOverrides; a
  dangling "--outdir" right before the pair would take the final "--outdir" as its value.

## Findings

| source | as written | input that shows it | evidently intended | confidence | as-written member | corrected member |
|---|---|---|---|---|---|---|
| src/MeshExtractor.cpp:110-118 | a node whose accumulated normal is zero (unused, only in degenerate triangles, or with cancelling normals) makes normalising raise, and the handler keeps the face's vertices and indices already appended but appends no normals | a face with nodes (0,0,0), (1,0,0), (0,1,0), (5,5,5) and the one triangle (1,2,3) | every vertex gets a normal (a zero accumulator left as zero), so the normal count matches the vertex count | not executed | MeshExtractor.AsWrittenLosesNormals | MeshExtractor.FaceAppendedValid |
