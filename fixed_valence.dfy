/**
 The fixed-valence overload of per_corner_normals (the one that is handed a
 precomputed vertex-to-face adjacency `VF`). `F` has `m` rows of `n` vertex
 ids; the output `CN` has one row per corner, corner `j` of face `i` at row
 `i * n + j`.
 */
module FixedValence {
  import opened Vectors
  import opened Gating

  /**
   What the caller must supply: `F` is an `m` by `n` table, there is a face
   normal for every face, and every face listed next to a corner's vertex has
   a face normal. `VF` itself is taken as given (it need not be exact adjacency).
   */
  predicate ValidInput(F: seq<seq<nat>>, n: nat, FN: seq<Vec3>, VF: seq<seq<nat>>) {
    && (forall i | 0 <= i < |F| :: |F[i]| == n)
    && |FN| >= |F|
    && (forall i, j | 0 <= i < |F| && 0 <= j < n :: F[i][j] < |VF| && IndicesIn(VF[F[i][j]], |FN|))
  }

  /** The rows face `i` contributes: corner `j` gets the normalized gated sum over the faces listed at its vertex. */
  function FaceRows(F: seq<seq<nat>>, n: nat, FN: seq<Vec3>, VF: seq<seq<nat>>, cosT: real, normalize: Vec3 -> Vec3, i: nat): seq<Vec3>
    requires ValidInput(F, n, FN, VF) && i < |F|
  {
    seq(n, j requires 0 <= j < n => normalize(GatedSum(FN, FN[i], VF[F[i][j]], cosT)))
  }

  /** The first `q` faces' rows of `CN`, face after face, corner after corner. */
  function CornerTable(F: seq<seq<nat>>, n: nat, FN: seq<Vec3>, VF: seq<seq<nat>>, cosT: real, normalize: Vec3 -> Vec3, q: nat): seq<Vec3>
    requires ValidInput(F, n, FN, VF) && q <= |F|
  {
    if q == 0 then [] else CornerTable(F, n, FN, VF, cosT, normalize, q - 1) + FaceRows(F, n, FN, VF, cosT, normalize, q - 1)
  }

  /** `q` faces fill exactly `q * n` rows. */
  lemma {:induction false} CornerTableLength(F: seq<seq<nat>>, n: nat, FN: seq<Vec3>, VF: seq<seq<nat>>, cosT: real, normalize: Vec3 -> Vec3, q: nat)
    requires ValidInput(F, n, FN, VF) && q <= |F|
    ensures |CornerTable(F, n, FN, VF, cosT, normalize, q)| == q * n
  {
    if q > 0 {
      CornerTableLength(F, n, FN, VF, cosT, normalize, q - 1);
      assert (q - 1) * n + n == q * n;
    }
  }

  lemma {:induction false} CornerTableGrows(F: seq<seq<nat>>, n: nat, FN: seq<Vec3>, VF: seq<seq<nat>>, cosT: real, normalize: Vec3 -> Vec3, p: nat, q: nat)
    requires ValidInput(F, n, FN, VF) && p <= q <= |F|
    ensures |CornerTable(F, n, FN, VF, cosT, normalize, p)| <= |CornerTable(F, n, FN, VF, cosT, normalize, q)|
  {
    if p < q {
      CornerTableGrows(F, n, FN, VF, cosT, normalize, p, q - 1);
    }
  }

  /**
   Corner `j` of face `i` lands at row `i * n + j`, and that row holds the
   normalized sum of the passing neighbour normals listed at its vertex.
   */
  lemma {:induction false} CornerTableAt(F: seq<seq<nat>>, n: nat, FN: seq<Vec3>, VF: seq<seq<nat>>, cosT: real, normalize: Vec3 -> Vec3, q: nat, i: nat, j: nat)
    requires ValidInput(F, n, FN, VF) && q <= |F|
    requires i < q && j < n
    ensures i * n + j < |CornerTable(F, n, FN, VF, cosT, normalize, q)|
    ensures CornerTable(F, n, FN, VF, cosT, normalize, q)[i * n + j] == normalize(GatedSum(FN, FN[i], VF[F[i][j]], cosT))
  {
    var prev := CornerTable(F, n, FN, VF, cosT, normalize, q - 1);
    CornerTableLength(F, n, FN, VF, cosT, normalize, q - 1);
    CornerTableLength(F, n, FN, VF, cosT, normalize, q);
    if i < q - 1 {
      CornerTableAt(F, n, FN, VF, cosT, normalize, q - 1, i, j);
      assert i * n + j < |prev|;
    } else {
      assert i * n + j == |prev| + j;
    }
  }

  /**
   Per-corner normals of a fixed-valence mesh. Every row is first set to zero,
   then row `i * n + j` receives `FN[k]` for each entry `k` of `VF[F[i][j]]`
   whose normal passes the strict test against `FN[i]`, and is then normalized.
   */
  method CornerNormals(F: seq<seq<nat>>, n: nat, FN: seq<Vec3>, VF: seq<seq<nat>>, cosT: real, normalize: Vec3 -> Vec3)
    returns (CN: array<Vec3>)
    requires ValidInput(F, n, FN, VF)
    ensures fresh(CN) && CN.Length == |F| * n
    ensures CN[..] == CornerTable(F, n, FN, VF, cosT, normalize, |F|)
  {
    var m := |F|;
    CN := new Vec3[m * n](_ => Zero);
    assert CN.Length == |CornerTable(F, n, FN, VF, cosT, normalize, m)| by {
      CornerTableLength(F, n, FN, VF, cosT, normalize, m);
    }
    var row := 0;
    for i := 0 to m
      invariant row == |CornerTable(F, n, FN, VF, cosT, normalize, i)| <= CN.Length
      invariant CN[..row] == CornerTable(F, n, FN, VF, cosT, normalize, i)
      invariant forall r | row <= r < CN.Length :: CN[r] == Zero
    {
      CornerTableGrows(F, n, FN, VF, cosT, normalize, i + 1, m);
      FillFaceRows(CN, row, F, n, FN, VF, cosT, normalize, i);
      row := row + n;
    }
    assert CN[..] == CN[..row];
  }

  /**
   One pass of the face loop: the `n` rows from `row` on, all zero on entry,
   receive the corners of face `i` in order. The rows before them are kept
   and the rows after them stay zero.
   */
  method FillFaceRows(CN: array<Vec3>, row: nat, F: seq<seq<nat>>, n: nat, FN: seq<Vec3>, VF: seq<seq<nat>>, cosT: real, normalize: Vec3 -> Vec3, i: nat)
    requires ValidInput(F, n, FN, VF) && i < |F|
    requires row + n <= CN.Length
    requires forall r | row <= r < CN.Length :: CN[r] == Zero
    modifies CN
    ensures CN[..row + n] == old(CN[..row]) + FaceRows(F, n, FN, VF, cosT, normalize, i)
    ensures forall r | row + n <= r < CN.Length :: CN[r] == Zero
  {
    var fn := FN[i];
    ghost var done := CN[..row];
    ghost var face := FaceRows(F, n, FN, VF, cosT, normalize, i);
    for j := 0 to n
      invariant CN[..row + j] == done + face[..j]
      invariant forall r | row + j <= r < CN.Length :: CN[r] == Zero
    {
      ghost var before := CN[..];
      AccumulateCorner(CN, row + j, FN, fn, VF[F[i][j]], cosT, normalize);
      assert CN[..row + j + 1] == before[..row + j] + [face[j]];
      assert face[..j + 1] == face[..j] + [face[j]];
    }
    assert face[..n] == face;
  }

  /**
   The body of the corner loop: the row, zero on entry, receives each passing
   neighbour normal of the incident list in turn and is then normalized; no
   other row is touched.
   */
  method AccumulateCorner(CN: array<Vec3>, row: nat, FN: seq<Vec3>, fn: Vec3, incident: seq<nat>, cosT: real, normalize: Vec3 -> Vec3)
    requires row < CN.Length && CN[row] == Zero
    requires IndicesIn(incident, |FN|)
    modifies CN
    ensures CN[row] == normalize(GatedSum(FN, fn, incident, cosT))
    ensures forall r | 0 <= r < CN.Length && r != row :: CN[r] == old(CN[r])
  {
    for k := 0 to |incident|
      invariant CN[row] == GatedSum(FN, fn, incident[..k], cosT)
      invariant forall r | 0 <= r < CN.Length && r != row :: CN[r] == old(CN[r])
    {
      assert incident[..k + 1][..k] == incident[..k];
      var ifn := FN[incident[k]];
      if Dot(fn, ifn) > cosT {
        CN[row] := Add(CN[row], ifn);
      }
    }
    assert incident[..|incident|] == incident;
    CN[row] := normalize(CN[row]);
  }

  /**
   A single triangle with unit normal `(0, 0, 1)` whose three vertices each
   list only that triangle, at a zero-degree threshold: its own face fails
   the strict test, so every corner row is the normalized zero vector.
   */
  lemma SingleTriangleAtZeroDegrees(normalize: Vec3 -> Vec3)
    ensures ValidInput([[0, 1, 2]], 3, [Vec3(0.0, 0.0, 1.0)], [[0], [0], [0]])
    ensures CornerTable([[0, 1, 2]], 3, [Vec3(0.0, 0.0, 1.0)], [[0], [0], [0]], 1.0, normalize, 1)
         == [normalize(Zero), normalize(Zero), normalize(Zero)]
  {
    var FN := [Vec3(0.0, 0.0, 1.0)];
    assert !Passes(FN, FN[0], 0, 1.0);
    assert [0][..0] == [];
    assert GatedSum(FN, FN[0], [0], 1.0) == Zero;
  }
}
