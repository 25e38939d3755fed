# per_corner_normals in Dafny

A model of libigl's `per_corner_normals` (libigl 2.3.0), the routine that
computes one smooth normal per corner of a mesh. A corner takes the sum of
the normals of the faces around its vertex, but only of those faces whose
normal makes an angle with the corner's own face normal below a threshold;
the sum is then normalized. Two overloads are modelled:

- the fixed-valence overload, for an `m` by `n` face table `F` with a given
  vertex-to-face adjacency `VF`, producing `CN` with one row per corner
  (corner `j` of face `i` at row `i * n + j`);
- the polygonal overload, for a compressed polygon table `(I, C)` (polygon
  `p` owns the corners `I[C[p] .. C[p+1])`), which builds its own adjacency,
  weights each neighbour polygon `n` by `AA(n)` (the double area of fan
  triangle `n`, not of polygon `n`; see Findings), produces `N` with one row
  per owned corner, and copies these rows onto the corners of the fan
  triangulation `FF` of the polygons as `NN` (three rows per triangle). It is
  modelled twice: as written (`PolygonCornerNormalsAsWritten`) and with each
  polygon weighted by its own double area (`PolygonCornerNormals`).

Modules, in dependency order:

- `Vectors` (vectors.dfy): exact three-component vectors over `real`.
- `Gating` (gating.dfy): the strict angle test and the gated sums, unweighted
  and weighted, defined over an adjacency list in list order.
- `FixedValence` (fixed_valence.dfy): the fixed-valence overload, imperative,
  over an array `CN`.
- `PolygonAdjacency` (polygon_adjacency.dfy): the polygon table and the
  imperative adjacency build.
- `Fan` (fan.dfy): the fan triangulation the remap relies on, its origin
  table, and the imperative remap from `N` to `NN`.
- `Areas` (areas.dfy): per-polygon area weights, and the weights as the
  source reads them (see Findings).
- `PolygonNormals` (polygon_normals.dfy): the imperative accumulation of `N`
  and the whole polygonal overload.

The cosine of the threshold is a parameter `cosT`, and normalization is a
function parameter `normalize`, so every result is stated as
`normalize(sum)` for an exactly specified `sum`. The outputs `CN`, `N` and
`NN` are fresh arrays; each method's postcondition ties the array's contents
to a specification function, and the lemmas state what those functions mean.

## Model

| member | source | states |
|---|---|---|
| Gating.IncludedCount | src/external/libigl-2.3.0/include/igl/per_corner_normals.cpp:83-99 | a neighbour face is summed once per occurrence in the adjacency list when it passes the strict test, and never when it fails |
| Gating.ThresholdMonotone | src/external/libigl-2.3.0/include/igl/per_corner_normals.cpp:91 | a wider angle threshold (smaller cosine) only adds neighbours to the included multiset, never drops one |
| Gating.GatedSumIsSumOfIncluded | src/external/libigl-2.3.0/include/igl/per_corner_normals.cpp:83-99 | the gated running sum equals the plain sum of exactly the passing neighbours |
| Gating.WeightedGatedSumIsSumOfIncluded | src/external/libigl-2.3.0/include/igl/per_corner_normals.cpp:155-166 | the weighted gated running sum equals the weighted plain sum of exactly the passing neighbours, each with its own weight |
| Gating.EqualWeightsScaleUnweighted | src/external/libigl-2.3.0/include/igl/per_corner_normals.cpp:155-166 | when every listed neighbour carries the same weight `c`, the weighted sum is `c` times the unweighted sum, so the weighting changes nothing after normalization |
| Gating.TwoPassingNeighbours | src/external/libigl-2.3.0/include/igl/per_corner_normals.cpp:155-166 | a list of two passing neighbours sums exactly their two weighted normals |
| Gating.AllPassIsPlainSum | src/external/libigl-2.3.0/include/igl/per_corner_normals.cpp:83-99 | when every neighbour passes, the corner sum is the plain vertex-normal sum over the adjacency list |
| Gating.NonePassIsZero | src/external/libigl-2.3.0/include/igl/per_corner_normals.cpp:73-99 | when no neighbour passes, the row keeps the zero it was initialized to |
| Gating.StrictTestAtZeroDegrees | src/external/libigl-2.3.0/include/igl/per_corner_normals.cpp:91 | with unit normals and cosine one, the strict test rejects every neighbour including the corner's own face, so the sum is zero |
| Gating.FlatPatchSum | src/external/libigl-2.3.0/include/igl/per_corner_normals.cpp:83-99 | on a flat patch every neighbour contributes the corner's own normal, so the sum is that normal times the list length |
| Gating.UnitWeightsAreUnweighted | src/external/libigl-2.3.0/include/igl/per_corner_normals.cpp:157-166 | with all weights one, the polygonal weighted sum equals the fixed-valence unweighted sum |
| Gating.ScaledWeightsScaleSum | src/external/libigl-2.3.0/include/igl/per_corner_normals.cpp:157-166 | scaling every weight by one factor scales the weighted sum by that factor |
| FixedValence.CornerTableLength | src/external/libigl-2.3.0/include/igl/per_corner_normals.cpp:68-73 | `q` faces of valence `n` fill exactly `q * n` rows of `CN` |
| FixedValence.CornerTableAt | src/external/libigl-2.3.0/include/igl/per_corner_normals.cpp:76-101 | corner `j` of face `i` is row `i * n + j`, which holds the normalized gated sum over `VF[F[i][j]]` against `FN[i]` |
| FixedValence.CornerNormals | src/external/libigl-2.3.0/include/igl/per_corner_normals.cpp:56-104 | `CN` has `m * n` rows and holds the corner table of all `m` faces, whose row `i * n + j` is the normalized gated sum over the faces listed at vertex `F[i][j]` that pass against `FN[i]` (`CornerTableAt`) |
| FixedValence.SingleTriangleAtZeroDegrees | src/external/libigl-2.3.0/include/igl/per_corner_normals.cpp:76-101 | one unit-normal triangle listed at each of its vertices, at cosine one: its own face fails the strict test and all three corner rows are the normalized zero vector |
| FixedValence.FillFaceRows | src/external/libigl-2.3.0/include/igl/per_corner_normals.cpp:79-103 | one pass of the face loop appends the `n` corner rows of face `i` after the rows already written and leaves the later rows zero |
| FixedValence.AccumulateCorner | src/external/libigl-2.3.0/include/igl/per_corner_normals.cpp:83-101 | starting from the zero row, the corner row becomes the normalized gated sum of its incident list and no other row changes |
| PolygonAdjacency.Adjacency | src/external/libigl-2.3.0/include/igl/per_corner_normals.cpp:136 | there is one adjacency list per vertex |
| PolygonAdjacency.BuildAdjacency | src/external/libigl-2.3.0/include/igl/per_corner_normals.cpp:136-145 | the lists built by appending `p` for every corner of every polygon in order are the adjacency `Adjacency(I, C, nv)` |
| PolygonAdjacency.ScanPolygon | src/external/libigl-2.3.0/include/igl/per_corner_normals.cpp:140-144 | one outer pass appends polygon `p` to the list of each of its corners' vertices, once per corner |
| PolygonAdjacency.ScannedStep | src/external/libigl-2.3.0/include/igl/per_corner_normals.cpp:142-143 | the `push_back` for corner `i` of polygon `p` extends the list of that corner's vertex by `p` and leaves every other list as it was |
| PolygonAdjacency.ScannedAll | src/external/libigl-2.3.0/include/igl/per_corner_normals.cpp:140-144 | after all corners of `p`, every list is the list of the first `p + 1` polygons |
| PolygonAdjacency.IncidentCount | src/external/libigl-2.3.0/include/igl/per_corner_normals.cpp:136-145 | after `q` polygons, `p` occurs in the list of `v` as often as `v` occurs among the corners of `p` when `p < q`, and not at all otherwise |
| PolygonAdjacency.OccurrencesIsMultiplicity | src/external/libigl-2.3.0/include/igl/per_corner_normals.cpp:143 | counting the entries equal to `v` gives the multiplicity of `v`, so duplicates are counted |
| PolygonAdjacency.IncidentSorted | src/external/libigl-2.3.0/include/igl/per_corner_normals.cpp:136-145 | every list holds only scanned polygon ids, in nondecreasing order |
| PolygonAdjacency.AdjacencyCounts | src/external/libigl-2.3.0/include/igl/per_corner_normals.cpp:136-145 | the finished `VF` has one list per vertex, counts each polygon once per corner at that vertex (duplicates kept), and is sorted by polygon id |
| PolygonAdjacency.PolygonInOwnCornerLists | src/external/libigl-2.3.0/include/igl/per_corner_normals.cpp:141-143 | every polygon is in the list of the vertex of each of its own corners |
| Fan.FanTriangles | src/external/libigl-2.3.0/include/igl/per_corner_normals.cpp:175-191 | the fan has one triangle per owned corner, `C[m] - C[0]` in all, which is the final value of the triangle counter |
| Fan.FanOrigins | src/external/libigl-2.3.0/include/igl/per_corner_normals.cpp:130 | the origin table has one entry per fan triangle |
| Fan.NextCornerIsMod | src/external/libigl-2.3.0/include/igl/per_corner_normals.cpp:183 | the wrap-around successor used for the second corner is `(i + 1) % np` |
| Fan.FanTriangleAt | src/external/libigl-2.3.0/include/igl/per_corner_normals.cpp:182-184 | row `C[p] - C[0] + i` of the fan is `(I[C[p]+i], I[C[p]+(i+1) mod np], nv+p)`, the triangle the source asserts |
| Fan.FanOriginAt | src/external/libigl-2.3.0/include/igl/per_corner_normals.cpp:130 | the fan triangle at row `C[p] - C[0] + i` comes from polygon `p` |
| Fan.FanNormals | src/external/libigl-2.3.0/include/igl/per_corner_normals.cpp:173 | `NN` has three rows per fan triangle |
| Fan.FanNormalsAt | src/external/libigl-2.3.0/include/igl/per_corner_normals.cpp:185-187 | for the triangle at counter `k` of polygon `p`, corner `i`: `NN[3k] = N[C[p]+i]`, `NN[3k+1] = N[C[p]+(i+1) mod np]`, `NN[3k+2] = FN[p]` |
| Fan.CentroidCornerIsFaceNormal | src/external/libigl-2.3.0/include/igl/per_corner_normals.cpp:187 | the centroid corner of every fan triangle carries the unaveraged face normal of the triangle's origin polygon |
| Fan.FanCornerNormals | src/external/libigl-2.3.0/include/igl/per_corner_normals.cpp:172-192 | `NN` has three rows per row of `FF` filled as `FanNormals`; the asserts on `FF` and on the final counter are discharged from the ordering precondition |
| Fan.FillPolygonFan | src/external/libigl-2.3.0/include/igl/per_corner_normals.cpp:179-189 | one outer pass writes the rows of polygon `p`'s triangles, keeps the rows before them and leaves the rows after them unchanged |
| Fan.FillCorner | src/external/libigl-2.3.0/include/igl/per_corner_normals.cpp:182-188 | the row `k` of `FF` at corner `i` of polygon `p` is the asserted triangle, its three `NN` rows are appended after the rows already written, and the later rows are unchanged |
| Fan.WriteTriangle | src/external/libigl-2.3.0/include/igl/per_corner_normals.cpp:185-187 | the three rows of triangle `k` are written, the rows before them are kept and the rows after them are unchanged |
| Areas.PolygonWeights | src/external/libigl-2.3.0/include/igl/per_corner_normals.cpp:133 | one weight per polygon, indexed by polygon id |
| Areas.PolygonWeightIsAttributedArea | src/external/libigl-2.3.0/include/igl/per_corner_normals.cpp:130-133 | the weight of polygon `p` is the sum of the double areas of exactly the fan triangles whose origin is `p` |
| Areas.WeightsSumToTotalArea | src/external/libigl-2.3.0/include/igl/per_corner_normals.cpp:133 | the polygon weights add up to the total double area of the fan |
| Areas.WeightsNonnegative | src/external/libigl-2.3.0/include/igl/per_corner_normals.cpp:133 | unsigned triangle areas give nonnegative polygon weights |
| Areas.AsWrittenWeights | src/external/libigl-2.3.0/include/igl/per_corner_normals.cpp:165 | the weights as read, one per polygon id; polygon `n` gets fan triangle `n`'s double area, and ids past the end of `AA` (never read, see `AsWrittenReadsTriangleAreas`) get zero |
| Areas.AsWrittenReadsTriangleAreas | src/external/libigl-2.3.0/include/igl/per_corner_normals.cpp:157-165 | when every polygon that owns a corner has an id below the number of fan triangles, every id listed in the built adjacency is such a polygon, and its weight as read is `AA(n)` itself |
| Areas.NonemptyPolygonsInBounds | src/external/libigl-2.3.0/include/igl/per_corner_normals.cpp:157-165 | with no empty polygon there are at least as many fan triangles as polygons, every read is in bounds, and the weights as read are the first `m` triangle areas |
| Areas.EmptyPolygonsStayInBounds | src/external/libigl-2.3.0/include/igl/per_corner_normals.cpp:165 | a triangle followed by three empty polygons has more polygons than fan triangles and still reads only in bounds |
| Areas.QuadAndTriangleWeights | src/external/libigl-2.3.0/include/igl/per_corner_normals.cpp:133 | in the quad-beside-triangle instance the polygon weights are 8 and 1.5 |
| Areas.AsWrittenWeightOfPolygonOne | src/external/libigl-2.3.0/include/igl/per_corner_normals.cpp:165 | as read, the weight of polygon 1 is the area of fan triangle 1, whose origin is polygon 0 |
| Areas.AsWrittenWeightsDiffer | src/external/libigl-2.3.0/include/igl/per_corner_normals.cpp:165 | for a quad next to a triangle, the weight read for the triangle is 2 while its double area is 1.5 |
| PolygonNormals.AccumulateCornerNormals | src/external/libigl-2.3.0/include/igl/per_corner_normals.cpp:147-170 | `N` has one row per entry of `I`, and row `j` of polygon `p` is the normalized weighted gated sum over `VF[I[j]]` against `FN[p]` |
| PolygonNormals.AccumulatePolygon | src/external/libigl-2.3.0/include/igl/per_corner_normals.cpp:149-169 | one pass of the polygon loop gives every corner row of polygon `p` its normal and changes no row outside polygon `p`'s block |
| PolygonNormals.AccumulateWeightedCorner | src/external/libigl-2.3.0/include/igl/per_corner_normals.cpp:155-168 | the corner row is reset, receives `W[n] * FN[n]` for every passing `n` in list order, is normalized, and no other row changes |
| PolygonNormals.PolygonCornerNormalsAsWritten | src/external/libigl-2.3.0/include/igl/per_corner_normals.cpp:116-193 | the overload as written, for inputs where every polygon that owns a corner has an id below `|AA|`: `N` has one row per entry of `I`, row `j` of polygon `p` is the normalized gated sum over the built adjacency at `I[j]` against `FN[p]` with neighbour `n` weighted by `AA[n]`, and `NN` has three rows per row of `FF` holding their fan remap |
| PolygonNormals.PolygonCornerNormals | src/external/libigl-2.3.0/include/igl/per_corner_normals.cpp:116-193 | the overload with the line-165 weighting corrected: as above, but neighbour `n` weighted by the double area of polygon `n` (the sum of its own fan-triangle areas) |
| PolygonNormals.AsWrittenWeightingIsUnweighted | src/external/libigl-2.3.0/include/igl/per_corner_normals.cpp:155-168 | at a quad corner whose vertex also lists a tilted triangle, the sum as written is exactly twice the unweighted sum (the same direction once normalized), while with the polygons' own areas it is `(0, 0.9, 9.2)` |
| PolygonNormals.QuadCornerSum | src/external/libigl-2.3.0/include/igl/per_corner_normals.cpp:155-166 | with weights 8 and 1.5 the quad corner's sum is `(0, 0.9, 9.2)` |
| PolygonNormals.BuiltAdjacencyIsValid | src/external/libigl-2.3.0/include/igl/per_corner_normals.cpp:136-145 | every polygon id in the built adjacency indexes any table of one entry per polygon |
| PolygonNormals.AdjacencyIsValidInput | src/external/libigl-2.3.0/include/igl/per_corner_normals.cpp:157-165 | every polygon id the accumulation reads from the built adjacency has a normal and a weight, under both readings of the weights |

## Left out

- Normalization (`normalize()` at lines 101 and 168) is the parameter `normalize`; its square root and its behaviour on a zero vector are not modelled.
- `cos(corner_threshold * PI / 180)` at lines 91 and 162 is the parameter `cosT`; floating point is not modelled, sums are exact over `real`.
- The convenience overloads at lines 15-48 only call the external face-normal and adjacency routines and delegate; they are not modelled.
- `per_face_normals` (line 130) and `doublearea` (line 133) are not part of this model: `FN`, `FF` and `AA` are inputs, and `FF` must be the fan triangulation described in `Fan` (this precondition mirrors the source's asserts at lines 182-184 and 191). `VV` and `J` are not produced; `Fan.FanOrigins` describes `J`.
- The explicit template instantiations and the Eigen genericity are not modelled.
- PolygonNormals.AccumulateCornerNormals: the source leaves rows of `N` outside `[C[0], C[m])` as whatever `resize` left; the model allocates them as zero and its postcondition says nothing about them.
- PolygonNormals.PolygonCornerNormals: weights neighbour polygon `n` by its own double area instead of the source's `AA(n)` at line 165 (the corrected half of the finding below); the overload exactly as written is `PolygonNormals.PolygonCornerNormalsAsWritten`.
- PolygonNormals.PolygonCornerNormalsAsWritten: requires `Areas.AsWrittenInBounds`, that every polygon owning a corner has an id below `|AA|`. The source reads `AA(n)` only for ids listed in `VF`, which are exactly the polygons that own a corner (lines 141-143), and reads past the end of `AA` only when such a polygon has an id `>= |AA|`. With strictly increasing offsets (no empty polygon) the condition always holds (`Areas.NonemptyPolygonsInBounds`); it excludes only some inputs with empty polygons, and inputs such as `C = [0, 3, 3, 3, 3]`, where `m` exceeds `|AA|` but every read is in bounds, are admitted (`Areas.EmptyPolygonsStayInBounds`).
- Fan.FillCorner: the source's local corner `(i + 0) % np` is written as `i`, which it equals for `0 <= i < np`.
- Integer widths (`int`, `size_t`, `Eigen::Index`) are unbounded `nat`; no overflow is modelled.

## Findings

| source | as written | input that shows it | evidently intended | confidence | as-written member | corrected member |
|---|---|---|---|---|---|---|
| src/external/libigl-2.3.0/include/igl/per_corner_normals.cpp:165 | neighbour polygon `n` is weighted by `AA(n)`, but `AA` has one entry per fan triangle, so this is the double area of fan triangle `n`, which mostly belongs to another polygon | `C = [0, 4, 7]`, `AA = [2, 2, 2, 2, 0.5, 0.5, 0.5]` (a quad beside a triangle): the triangle is weighted by 2, a triangle of the quad, instead of its own double area 1.5; at a corner of the quad whose vertex also lists a tilted triangle, both neighbours are read with weight 2, so the normal as written is the unweighted one (`PolygonNormals.AsWrittenWeightingIsUnweighted`) | weight polygon `n` by its own double area, the sum of `AA` over its fan triangles | not executed | Areas.AsWrittenWeightOfPolygonOne | Areas.PolygonWeightIsAttributedArea |

`PolygonNormals.AccumulateCornerNormals` takes the weights as a parameter:
`PolygonNormals.PolygonCornerNormalsAsWritten` calls it with
`Areas.AsWrittenWeights(AA, m)`, the accumulation exactly as written, and
`PolygonNormals.PolygonCornerNormals` calls it with the corrected
`Areas.PolygonWeights(AA, C)`.
