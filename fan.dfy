/**
 The fan triangulation the polygonal overload relies on, and the remapping of
 corner normals onto it. The external triangulator adds one centroid vertex
 per polygon (vertex `nv + p` for polygon `p`, after the `nv` original
 vertices) and emits, polygon after polygon, one triangle per corner: local
 corners `i` and `(i + 1) mod np` and the centroid. `FF` must list exactly
 these rows in exactly this order; `NN` gets three rows per triangle.
 */
module Fan {
  import opened Vectors
  import opened PolygonAdjacency

  /** A row of `FF`: three vertex ids. */
  datatype Tri = Tri(a: nat, b: nat, c: nat)

  /** Number of corners of polygon `p`. */
  function Valence(C: seq<nat>, p: nat): nat
    requires |C| >= 1 && p < PolygonCount(C) && C[p] <= C[p + 1]
  {
    C[p + 1] - C[p]
  }

  /** The local corner after `i` in a polygon of `np` corners, wrapping round to corner 0. */
  function NextCorner(i: nat, np: nat): (r: nat)
    requires i < np
    ensures r < np
  {
    if i + 1 == np then 0 else i + 1
  }

  /** The wrap-around successor is the source's `(i + 1) % np`. */
  lemma NextCornerIsMod(i: nat, np: nat)
    requires i < np
    ensures NextCorner(i, np) == (i + 1) % np
  {
  }

  /** The fan of polygon `p`: triangle `i` joins local corners `i` and `NextCorner(i, np)` to the centroid `nv + p`. */
  function PolygonFan(I: seq<nat>, C: seq<nat>, nv: nat, p: nat): seq<Tri>
    requires ValidOffsets(C, |I|) && p < PolygonCount(C)
  {
    var np := Valence(C, p);
    seq(np, i requires 0 <= i < np => Tri(I[C[p] + i], I[C[p] + NextCorner(i, np)], nv + p))
  }

  /** The triangles of the first `q` polygons, in the order the normal remap expects: one per corner. */
  function FanTriangles(I: seq<nat>, C: seq<nat>, nv: nat, q: nat): (r: seq<Tri>)
    requires ValidOffsets(C, |I|) && q <= PolygonCount(C)
    ensures |r| == C[q] - C[0]
  {
    if q == 0 then [] else FanTriangles(I, C, nv, q - 1) + PolygonFan(I, C, nv, q - 1)
  }

  /** The polygon each fan triangle comes from (the triangulator's `J`): `p` once per corner of `p`. */
  function FanOrigins(C: seq<nat>, q: nat): (r: seq<nat>)
    requires |C| >= 1 && ValidOffsets(C, C[|C| - 1]) && q <= PolygonCount(C)
    ensures |r| == C[q] - C[0]
  {
    if q == 0 then [] else FanOrigins(C, q - 1) + Repeat(q - 1, Valence(C, q - 1))
  }

  /** The three `NN` rows of the triangle at local corner `i` of polygon `p`. */
  function CornerTriple(N: seq<Vec3>, FN: seq<Vec3>, C: seq<nat>, p: nat, i: nat): seq<Vec3>
    requires ValidOffsets(C, |N|) && p < PolygonCount(C) && p < |FN| && i < Valence(C, p)
  {
    var np := Valence(C, p);
    [N[C[p] + i], N[C[p] + NextCorner(i, np)], FN[p]]
  }

  /** The `NN` rows of the first `i` fan triangles of polygon `p`. */
  function PolygonFanNormals(N: seq<Vec3>, FN: seq<Vec3>, C: seq<nat>, p: nat, i: nat): (r: seq<Vec3>)
    requires ValidOffsets(C, |N|) && p < PolygonCount(C) && p < |FN| && i <= Valence(C, p)
    ensures |r| == 3 * i
  {
    if i == 0 then [] else PolygonFanNormals(N, FN, C, p, i - 1) + CornerTriple(N, FN, C, p, i - 1)
  }

  /** The `NN` rows of the fans of the first `q` polygons. */
  function FanNormals(N: seq<Vec3>, FN: seq<Vec3>, C: seq<nat>, q: nat): (r: seq<Vec3>)
    requires ValidOffsets(C, |N|) && q <= PolygonCount(C) && q <= |FN|
    ensures |r| == 3 * (C[q] - C[0])
  {
    if q == 0 then [] else FanNormals(N, FN, C, q - 1) + PolygonFanNormals(N, FN, C, q - 1, Valence(C, q - 1))
  }

  /** The triangle of local corner `i` of polygon `p` is row `C[p] - C[0] + i` of the fan, with the vertices the source asserts. */
  lemma {:induction false} FanTriangleAt(I: seq<nat>, C: seq<nat>, nv: nat, q: nat, p: nat, i: nat)
    requires ValidOffsets(C, |I|) && q <= PolygonCount(C)
    requires p < q && i < Valence(C, p)
    ensures C[p] - C[0] + i < |FanTriangles(I, C, nv, q)|
    ensures FanTriangles(I, C, nv, q)[C[p] - C[0] + i]
         == Tri(I[C[p] + i], I[C[p] + NextCorner(i, Valence(C, p))], nv + p)
  {
    var prev := FanTriangles(I, C, nv, q - 1);
    var np := Valence(C, p);
    if p < q - 1 {
      FanTriangleAt(I, C, nv, q - 1, p, i);
      assert C[p] - C[0] + i < C[q - 1] - C[0] == |prev|;
    } else {
      assert C[p] - C[0] + i == |prev| + i;
      assert PolygonFan(I, C, nv, p)[i] == Tri(I[C[p] + i], I[C[p] + NextCorner(i, np)], nv + p);
    }
  }

  /** The triangle at row `C[p] - C[0] + i` comes from polygon `p`. */
  lemma {:induction false} FanOriginAt(C: seq<nat>, q: nat, p: nat, i: nat)
    requires |C| >= 1 && ValidOffsets(C, C[|C| - 1]) && q <= PolygonCount(C)
    requires p < q && i < Valence(C, p)
    ensures C[p] - C[0] + i < |FanOrigins(C, q)| && FanOrigins(C, q)[C[p] - C[0] + i] == p
  {
    if p < q - 1 {
      FanOriginAt(C, q - 1, p, i);
    }
  }

  lemma {:induction false} PolygonFanNormalsAt(N: seq<Vec3>, FN: seq<Vec3>, C: seq<nat>, p: nat, i: nat, t: nat)
    requires ValidOffsets(C, |N|) && p < PolygonCount(C) && p < |FN| && i <= Valence(C, p)
    requires t < i
    ensures PolygonFanNormals(N, FN, C, p, i)[3 * t..3 * t + 3] == CornerTriple(N, FN, C, p, t)
  {
    var prev := PolygonFanNormals(N, FN, C, p, i - 1);
    var whole := prev + CornerTriple(N, FN, C, p, i - 1);
    if t < i - 1 {
      PolygonFanNormalsAt(N, FN, C, p, i - 1, t);
      assert whole[3 * t..3 * t + 3] == prev[3 * t..3 * t + 3];
    } else {
      assert whole[3 * t..3 * t + 3] == whole[|prev|..];
    }
  }

  /**
   The triangle of local corner `i` of polygon `p` (row `k = C[p] - C[0] + i`
   of `FF`) gets `NN[3k] = N[C[p] + i]`, `NN[3k+1] = N[C[p] + (i+1) mod np]`
   and `NN[3k+2] = FN[p]`.
   */
  lemma {:induction false} FanNormalsAt(N: seq<Vec3>, FN: seq<Vec3>, C: seq<nat>, q: nat, p: nat, i: nat)
    requires ValidOffsets(C, |N|) && q <= PolygonCount(C) && q <= |FN|
    requires p < q && i < Valence(C, p)
    ensures 3 * (C[p] - C[0] + i) + 2 < |FanNormals(N, FN, C, q)|
    ensures FanNormals(N, FN, C, q)[3 * (C[p] - C[0] + i)] == N[C[p] + i]
    ensures FanNormals(N, FN, C, q)[3 * (C[p] - C[0] + i) + 1] == N[C[p] + NextCorner(i, Valence(C, p))]
    ensures FanNormals(N, FN, C, q)[3 * (C[p] - C[0] + i) + 2] == FN[p]
  {
    if p < q - 1 {
      FanNormalsAt(N, FN, C, q - 1, p, i);
    } else {
      var fan := PolygonFanNormals(N, FN, C, p, Valence(C, p));
      PolygonFanNormalsAt(N, FN, C, p, Valence(C, p), i);
      assert fan[3 * i] == CornerTriple(N, FN, C, p, i)[0];
      assert fan[3 * i + 1] == CornerTriple(N, FN, C, p, i)[1];
      assert fan[3 * i + 2] == CornerTriple(N, FN, C, p, i)[2];
    }
  }

  /**
   The centroid corner of every fan triangle carries the face normal of the
   polygon the triangle comes from, never an averaged normal.
   */
  lemma {:induction false} CentroidCornerIsFaceNormal(N: seq<Vec3>, FN: seq<Vec3>, C: seq<nat>, q: nat, k: nat)
    requires ValidOffsets(C, |N|) && q <= PolygonCount(C) && q <= |FN|
    requires k < C[q] - C[0]
    ensures FanOrigins(C, q)[k] < |FN|
    ensures FanNormals(N, FN, C, q)[3 * k + 2] == FN[FanOrigins(C, q)[k]]
  {
    if k < C[q - 1] - C[0] {
      CentroidCornerIsFaceNormal(N, FN, C, q - 1, k);
    } else {
      var i := k - (C[q - 1] - C[0]);
      FanNormalsAt(N, FN, C, q, q - 1, i);
      FanOriginAt(C, q, q - 1, i);
    }
  }

  /**
   Fills `NN` from the corner normals `N` and the face normals `FN`, walking
   the polygons and their corners with a running triangle counter `k`. The
   source checks with `assert` that row `k` of `FF` is the expected fan
   triangle and, at the end, that `k` has reached the number of rows of `FF`;
   here both are proof obligations discharged from the precondition on `FF`.
   */
  method FanCornerNormals(I: seq<nat>, C: seq<nat>, nv: nat, N: seq<Vec3>, FN: seq<Vec3>, FF: seq<Tri>)
    returns (NN: array<Vec3>)
    requires ValidOffsets(C, |I|) && |N| == |I| && |FN| >= PolygonCount(C)
    requires FF == FanTriangles(I, C, nv, PolygonCount(C))
    ensures fresh(NN) && NN.Length == 3 * |FF|
    ensures NN[..] == FanNormals(N, FN, C, PolygonCount(C))
  {
    var m := PolygonCount(C);
    NN := new Vec3[3 * |FF|](_ => Zero);
    var k := 0;
    for p := 0 to m
      invariant k == C[p] - C[0]
      invariant NN[..3 * k] == FanNormals(N, FN, C, p)
    {
      FillPolygonFan(NN, I, C, nv, N, FN, FF, p);
      k := k + Valence(C, p);
    }
    assert k == |FF|;
    assert NN[..] == NN[..3 * k];
  }

  /**
   One pass of the outer loop of the remap: the triangles of polygon `p`,
   rows `C[p] - C[0]` onwards of `FF`, get their three rows of `NN` each.
   The rows of the earlier polygons are kept and the later rows are unchanged.
   */
  method FillPolygonFan(NN: array<Vec3>, I: seq<nat>, C: seq<nat>, nv: nat, N: seq<Vec3>, FN: seq<Vec3>, FF: seq<Tri>, p: nat)
    requires ValidOffsets(C, |I|) && |N| == |I| && |FN| >= PolygonCount(C) && p < PolygonCount(C)
    requires FF == FanTriangles(I, C, nv, PolygonCount(C)) && NN.Length == 3 * |FF|
    requires NN[..3 * (C[p] - C[0])] == FanNormals(N, FN, C, p)
    modifies NN
    ensures NN[..3 * (C[p + 1] - C[0])] == FanNormals(N, FN, C, p + 1)
    ensures forall r | 3 * (C[p + 1] - C[0]) <= r < NN.Length :: NN[r] == old(NN[r])
  {
    var np := Valence(C, p);
    ghost var row := 3 * (C[p] - C[0]);
    ghost var before := NN[..];
    for i := 0 to np
      invariant row == 3 * (C[p] - C[0] + i)
      invariant NN[..row] == FanNormals(N, FN, C, p) + PolygonFanNormals(N, FN, C, p, i)
      invariant forall r | row <= r < NN.Length :: NN[r] == before[r]
    {
      FillCorner(NN, I, C, nv, N, FN, FF, p, i);
      row := row + 3;
    }
  }

  /**
   The body of the corner loop of the remap: the triangle of local corner `i`
   of polygon `p` is row `k = C[p] - C[0] + i` of `FF`, which the source
   asserts to be `(I[C[p]+i], I[C[p]+(i+1) mod np], nv+p)`; its three rows of
   `NN` are written and every other row is kept.
   */
  method FillCorner(NN: array<Vec3>, I: seq<nat>, C: seq<nat>, nv: nat, N: seq<Vec3>, FN: seq<Vec3>, FF: seq<Tri>, p: nat, i: nat)
    requires ValidOffsets(C, |I|) && |N| == |I| && |FN| >= PolygonCount(C) && p < PolygonCount(C) && i < Valence(C, p)
    requires FF == FanTriangles(I, C, nv, PolygonCount(C)) && NN.Length == 3 * |FF|
    requires NN[..3 * (C[p] - C[0] + i)] == FanNormals(N, FN, C, p) + PolygonFanNormals(N, FN, C, p, i)
    modifies NN
    ensures NN[..3 * (C[p] - C[0] + i + 1)] == FanNormals(N, FN, C, p) + PolygonFanNormals(N, FN, C, p, i + 1)
    ensures forall r | 3 * (C[p] - C[0] + i + 1) <= r < NN.Length :: NN[r] == old(NN[r])
  {
    var np := Valence(C, p);
    var k := C[p] - C[0] + i;
    // the source's local corner (i + 0) % np is i itself, as i < np
    FanTriangleAt(I, C, nv, PolygonCount(C), p, i);
    assert FF[k] == Tri(I[C[p] + i], I[C[p] + NextCorner(i, np)], nv + p);
    ghost var done := FanNormals(N, FN, C, p);
    ghost var fan := PolygonFanNormals(N, FN, C, p, i);
    ghost var row := CornerTriple(N, FN, C, p, i);
    WriteTriangle(NN, k, N[C[p] + i], N[C[p] + NextCorner(i, np)], FN[p]);
    assert NN[..3 * (k + 1)] == (done + fan) + row;
    assert (done + fan) + row == done + (fan + row);
  }

  /** Writes the three rows of triangle `k`, leaving every other row as it was. */
  method WriteTriangle(NN: array<Vec3>, k: nat, a: Vec3, b: Vec3, c: Vec3)
    requires 3 * k + 2 < NN.Length
    modifies NN
    ensures NN[..3 * k + 3] == old(NN[..3 * k]) + [a, b, c]
    ensures forall r | 3 * k + 3 <= r < NN.Length :: NN[r] == old(NN[r])
  {
    NN[3 * k] := a;
    NN[3 * k + 1] := b;
    NN[3 * k + 2] := c;
    assert NN[..3 * k + 3] == NN[..3 * k] + [NN[3 * k], NN[3 * k + 1], NN[3 * k + 2]];
  }
}
