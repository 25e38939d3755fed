/**
 The polygonal overload of per_corner_normals: the adjacency is built from the
 polygon table, each owned corner row of `N` becomes the normalized,
 area-weighted, threshold-gated sum of the normals of the polygons listed at
 its vertex, and the rows are then copied onto the corners of the fan
 triangulation as `NN`.
 */
module PolygonNormals {
  import opened Vectors
  import opened Gating
  import opened PolygonAdjacency
  import opened Fan
  import opened Areas

  /**
   What the accumulation reads: every owned corner names a vertex with an
   adjacency list, and every polygon in such a list has a normal and a weight.
   */
  predicate ValidCornerInput(I: seq<nat>, C: seq<nat>, FN: seq<Vec3>, W: seq<real>, VF: seq<seq<nat>>) {
    && ValidOffsets(C, |I|)
    && |FN| >= PolygonCount(C)
    && (forall j | C[0] <= j < C[|C| - 1] :: I[j] < |VF| && IndicesIn(VF[I[j]], |FN|) && IndicesIn(VF[I[j]], |W|))
  }

  /** Row `j`, a corner of polygon `p`: the normalized weighted sum over the polygons listed at its vertex that pass the test against `FN[p]`. */
  function CornerNormal(I: seq<nat>, C: seq<nat>, FN: seq<Vec3>, W: seq<real>, VF: seq<seq<nat>>, cosT: real, normalize: Vec3 -> Vec3, p: nat, j: nat): Vec3
    requires ValidCornerInput(I, C, FN, W, VF) && p < PolygonCount(C) && C[p] <= j < C[p + 1]
  {
    normalize(WeightedGatedSum(FN, W, FN[p], VF[I[j]], cosT))
  }

  /**
   The accumulation loop of the polygonal overload: for every polygon `p`
   and every corner row `C[p] + i` of it, the row is reset and receives the
   weighted normals of the passing polygons at its vertex, then is normalized.
   */
  method AccumulateCornerNormals(I: seq<nat>, C: seq<nat>, FN: seq<Vec3>, W: seq<real>, VF: seq<seq<nat>>, cosT: real, normalize: Vec3 -> Vec3)
    returns (N: array<Vec3>)
    requires ValidCornerInput(I, C, FN, W, VF)
    ensures fresh(N) && N.Length == |I|
    ensures forall p, j | 0 <= p < PolygonCount(C) && C[p] <= j < C[p + 1] ::
      N[j] == CornerNormal(I, C, FN, W, VF, cosT, normalize, p, j)
  {
    var m := PolygonCount(C);
    N := new Vec3[|I|](_ => Zero);
    for p := 0 to m
      invariant forall p', j | 0 <= p' < p && C[p'] <= j < C[p' + 1] ::
        N[j] == CornerNormal(I, C, FN, W, VF, cosT, normalize, p', j)
    {
      AccumulatePolygon(N, I, C, FN, W, VF, cosT, normalize, p);
    }
  }

  /**
   One pass of the polygon loop: every corner row of polygon `p` receives its
   normal, the rows of the polygons before `p`, which end at `C[p]`, keep theirs,
   and no row outside polygon `p`'s block changes.
   */
  method AccumulatePolygon(N: array<Vec3>, I: seq<nat>, C: seq<nat>, FN: seq<Vec3>, W: seq<real>, VF: seq<seq<nat>>, cosT: real, normalize: Vec3 -> Vec3, p: nat)
    requires ValidCornerInput(I, C, FN, W, VF) && p < PolygonCount(C) && N.Length == |I|
    requires forall p', j | 0 <= p' < p && C[p'] <= j < C[p' + 1] ::
      N[j] == CornerNormal(I, C, FN, W, VF, cosT, normalize, p', j)
    modifies N
    ensures forall p', j | 0 <= p' <= p && C[p'] <= j < C[p' + 1] ::
      N[j] == CornerNormal(I, C, FN, W, VF, cosT, normalize, p', j)
    ensures forall r | 0 <= r < N.Length && !(C[p] <= r < C[p + 1]) :: N[r] == old(N[r])
  {
    var np := C[p + 1] - C[p];
    var fn := FN[p];
    for i := 0 to np
      invariant forall p', j | 0 <= p' < p && C[p'] <= j < C[p' + 1] ::
        N[j] == CornerNormal(I, C, FN, W, VF, cosT, normalize, p', j)
      invariant forall j | C[p] <= j < C[p] + i ::
        N[j] == CornerNormal(I, C, FN, W, VF, cosT, normalize, p, j)
      invariant forall r | 0 <= r < N.Length && !(C[p] <= r < C[p] + i) :: N[r] == old(N[r])
    {
      var j := C[p] + i;
      AccumulateWeightedCorner(N, j, FN, W, fn, VF[I[j]], cosT, normalize);
    }
  }

  /**
   The body of the corner loop: the row is reset to zero, receives `W[n]`
   times `FN[n]` for every passing entry `n` of the list in turn, and is
   normalized; no other row is touched.
   */
  method AccumulateWeightedCorner(N: array<Vec3>, row: nat, FN: seq<Vec3>, W: seq<real>, fn: Vec3, incident: seq<nat>, cosT: real, normalize: Vec3 -> Vec3)
    requires row < N.Length
    requires IndicesIn(incident, |FN|) && IndicesIn(incident, |W|)
    modifies N
    ensures N[row] == normalize(WeightedGatedSum(FN, W, fn, incident, cosT))
    ensures forall r | 0 <= r < N.Length && r != row :: N[r] == old(N[r])
  {
    N[row] := Zero;
    for k := 0 to |incident|
      invariant N[row] == WeightedGatedSum(FN, W, fn, incident[..k], cosT)
      invariant forall r | 0 <= r < N.Length && r != row :: N[r] == old(N[r])
    {
      assert incident[..k + 1][..k] == incident[..k];
      var n := incident[k];
      var ifn := FN[n];
      if Dot(fn, ifn) > cosT {
        N[row] := Add(N[row], Scale(W[n], ifn));
      }
    }
    assert incident[..|incident|] == incident;
    N[row] := normalize(N[row]);
  }

  /**
   The inputs of the polygonal overload once the external providers have run:
   one face normal per polygon, the fan triangulation in the order the remap
   relies on, and one double area per fan triangle.
   */
  predicate ValidPolygonInput(nv: nat, I: seq<nat>, C: seq<nat>, FN: seq<Vec3>, FF: seq<Tri>, AA: seq<real>) {
    && ValidPolygons(I, C, nv)
    && |FN| == PolygonCount(C)
    && FF == FanTriangles(I, C, nv, PolygonCount(C))
    && |AA| == |FF|
  }

  /**
   Per-corner normals of a polygon mesh, with the weighting corrected: builds
   the adjacency `VF`, weights every polygon by its own double area (not by
   `AA[n]` as the source does), accumulates the corner rows of `N`
   and remaps them onto the fan triangulation as `NN`.
   */
  method PolygonCornerNormals(nv: nat, I: seq<nat>, C: seq<nat>, FN: seq<Vec3>, FF: seq<Tri>, AA: seq<real>, cosT: real, normalize: Vec3 -> Vec3)
    returns (N: array<Vec3>, NN: array<Vec3>)
    requires ValidPolygonInput(nv, I, C, FN, FF, AA)
    ensures fresh(N) && fresh(NN)
    ensures N.Length == |I| && NN.Length == 3 * |FF|
    ensures forall p, j | 0 <= p < PolygonCount(C) && C[p] <= j < C[p + 1] ::
      N[j] == PolygonCornerNormal(nv, I, C, FN, AA, cosT, normalize, p, j)
    ensures NN[..] == FanNormals(N[..], FN, C, PolygonCount(C))
  {
    var VF := BuildAdjacency(nv, I, C);
    var W := PolygonWeights(AA, C);
    AdjacencyIsValidInput(nv, I, C, FN, FF, AA);
    N := AccumulateCornerNormals(I, C, FN, W, VF, cosT, normalize);
    NN := FanCornerNormals(I, C, nv, N[..], FN, FF);
  }

  /**
   The polygonal overload exactly as written: the same adjacency build,
   accumulation and remap, but neighbour polygon `n` is weighted by `AA[n]`,
   the double area of fan triangle `n` (see `Areas.AsWrittenWeights`). The
   source reads `AA[n]` for every polygon `n` that owns a corner, so each such
   id must index `AA`.
   */
  method PolygonCornerNormalsAsWritten(nv: nat, I: seq<nat>, C: seq<nat>, FN: seq<Vec3>, FF: seq<Tri>, AA: seq<real>, cosT: real, normalize: Vec3 -> Vec3)
    returns (N: array<Vec3>, NN: array<Vec3>)
    requires ValidPolygonInput(nv, I, C, FN, FF, AA) && AsWrittenInBounds(AA, C)
    ensures fresh(N) && fresh(NN)
    ensures N.Length == |I| && NN.Length == 3 * |FF|
    ensures forall p, j | 0 <= p < PolygonCount(C) && C[p] <= j < C[p + 1] ::
      N[j] == AsWrittenCornerNormal(nv, I, C, FN, AA, cosT, normalize, p, j)
    ensures NN[..] == FanNormals(N[..], FN, C, PolygonCount(C))
  {
    var VF := BuildAdjacency(nv, I, C);
    var W := AsWrittenWeights(AA, PolygonCount(C));
    AdjacencyIsValidInput(nv, I, C, FN, FF, AA);
    N := AccumulateCornerNormals(I, C, FN, W, VF, cosT, normalize);
    NN := FanCornerNormals(I, C, nv, N[..], FN, FF);
  }

  /** The polygon adjacency and both readings of the area weights meet what the accumulation reads. */
  lemma AdjacencyIsValidInput(nv: nat, I: seq<nat>, C: seq<nat>, FN: seq<Vec3>, FF: seq<Tri>, AA: seq<real>)
    requires ValidPolygonInput(nv, I, C, FN, FF, AA)
    ensures ValidAreas(AA, C)
    ensures ValidCornerInput(I, C, FN, PolygonWeights(AA, C), Adjacency(I, C, nv))
    ensures ValidCornerInput(I, C, FN, AsWrittenWeights(AA, PolygonCount(C)), Adjacency(I, C, nv))
  {
    BuiltAdjacencyIsValid(nv, I, C, FN, PolygonWeights(AA, C));
    BuiltAdjacencyIsValid(nv, I, C, FN, AsWrittenWeights(AA, PolygonCount(C)));
  }

  /** Every polygon id in the built adjacency is below `m`, so it indexes one normal and one weight per polygon. */
  lemma BuiltAdjacencyIsValid(nv: nat, I: seq<nat>, C: seq<nat>, FN: seq<Vec3>, W: seq<real>)
    requires ValidPolygons(I, C, nv) && |FN| == PolygonCount(C) && |W| == PolygonCount(C)
    ensures ValidCornerInput(I, C, FN, W, Adjacency(I, C, nv))
  {
    var VF := Adjacency(I, C, nv);
    forall j | C[0] <= j < C[|C| - 1]
      ensures I[j] < |VF| && IndicesIn(VF[I[j]], |FN|)
    {
      AdjacencyCounts(I, C, nv, I[j], 0);
    }
  }

  /** Row `j`, a corner of polygon `p`, of the polygonal overload's `N`, with each polygon weighted by its own double area. */
  function PolygonCornerNormal(nv: nat, I: seq<nat>, C: seq<nat>, FN: seq<Vec3>, AA: seq<real>, cosT: real, normalize: Vec3 -> Vec3, p: nat, j: nat): Vec3
    requires ValidPolygons(I, C, nv) && |FN| == PolygonCount(C) && ValidAreas(AA, C)
    requires p < PolygonCount(C) && C[p] <= j < C[p + 1]
  {
    BuiltAdjacencyIsValid(nv, I, C, FN, PolygonWeights(AA, C));
    CornerNormal(I, C, FN, PolygonWeights(AA, C), Adjacency(I, C, nv), cosT, normalize, p, j)
  }

  /** Row `j`, a corner of polygon `p`, of `N` as the source computes it, with `AA[n]` as the weight of polygon `n`. */
  function AsWrittenCornerNormal(nv: nat, I: seq<nat>, C: seq<nat>, FN: seq<Vec3>, AA: seq<real>, cosT: real, normalize: Vec3 -> Vec3, p: nat, j: nat): Vec3
    requires ValidPolygons(I, C, nv) && |FN| == PolygonCount(C)
    requires p < PolygonCount(C) && C[p] <= j < C[p + 1]
  {
    BuiltAdjacencyIsValid(nv, I, C, FN, AsWrittenWeights(AA, PolygonCount(C)));
    CornerNormal(I, C, FN, AsWrittenWeights(AA, PolygonCount(C)), Adjacency(I, C, nv), cosT, normalize, p, j)
  }

  /**
   A quad of double area 8 beside a tilted triangle of double area 1.5 (the
   fan areas of `Areas.AsWrittenWeightsDiffer`), seen from a corner of the
   quad whose vertex lists both. As written, both neighbours are read with
   weight 2, so the weighted sum is twice the unweighted one and normalizes
   to the unweighted direction; weighted by their own areas, the quad
   dominates.
   */
  lemma AsWrittenWeightingIsUnweighted()
    ensures WeightedGatedSum([Vec3(0.0, 0.0, 1.0), Vec3(0.0, 0.6, 0.8)], AsWrittenWeights([2.0, 2.0, 2.0, 2.0, 0.5, 0.5, 0.5], 2),
                             Vec3(0.0, 0.0, 1.0), [0, 1], 0.5)
         == Scale(2.0, GatedSum([Vec3(0.0, 0.0, 1.0), Vec3(0.0, 0.6, 0.8)], Vec3(0.0, 0.0, 1.0), [0, 1], 0.5))
    ensures WeightedGatedSum([Vec3(0.0, 0.0, 1.0), Vec3(0.0, 0.6, 0.8)], PolygonWeights([2.0, 2.0, 2.0, 2.0, 0.5, 0.5, 0.5], [0, 4, 7]),
                             Vec3(0.0, 0.0, 1.0), [0, 1], 0.5)
         == Vec3(0.0, 0.9, 9.2)
  {
    var FN := [Vec3(0.0, 0.0, 1.0), Vec3(0.0, 0.6, 0.8)];
    var W := AsWrittenWeights([2.0, 2.0, 2.0, 2.0, 0.5, 0.5, 0.5], 2);
    assert W == [2.0, 2.0];
    EqualWeightsScaleUnweighted(FN, W, 2.0, FN[0], [0, 1], 0.5);
    QuadAndTriangleWeights();
    QuadCornerSum();
  }

  /** The sum at the quad corner with the weights `[8, 1.5]`: both neighbours pass. */
  lemma QuadCornerSum()
    ensures WeightedGatedSum([Vec3(0.0, 0.0, 1.0), Vec3(0.0, 0.6, 0.8)], [8.0, 1.5], Vec3(0.0, 0.0, 1.0), [0, 1], 0.5)
         == Vec3(0.0, 0.9, 9.2)
  {
    var FN := [Vec3(0.0, 0.0, 1.0), Vec3(0.0, 0.6, 0.8)];
    TwoPassingNeighbours(FN, [8.0, 1.5], FN[0], 0, 1, 0.5);
  }
}
