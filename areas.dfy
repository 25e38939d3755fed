/**
 The area weights of the polygonal overload. The area provider returns `AA`,
 one unsigned double area per row of the fan triangulation `FF`, so polygon
 `p` owns the block `AA[C[p] - C[0] .. C[p+1] - C[0])` and its double area is
 the sum of that block. The source instead weights polygon `n` by `AA(n)`,
 the double area of fan triangle `n`; both readings are modelled here.
 */
module Areas {
  import opened PolygonAdjacency
  import opened Fan

  /** Sum of a sequence of reals, added from the front. */
  function RealSum(s: seq<real>): real {
    if |s| == 0 then 0.0 else RealSum(s[..|s| - 1]) + s[|s| - 1]
  }

  /** The fan triangulation of a polygon table has one triangle, and so one area, per owned corner. */
  predicate ValidAreas(AA: seq<real>, C: seq<nat>) {
    && |C| >= 1
    && ValidOffsets(C, C[|C| - 1])
    && |AA| == C[|C| - 1] - C[0]
  }

  /** Double area of polygon `p`: the double areas of its own fan triangles added up. */
  function PolygonDoubleArea(AA: seq<real>, C: seq<nat>, p: nat): real
    requires ValidAreas(AA, C) && p < PolygonCount(C)
  {
    RealSum(AA[C[p] - C[0]..C[p + 1] - C[0]])
  }

  /** One weight per polygon, indexed by polygon id as the adjacency lists are. */
  function PolygonWeights(AA: seq<real>, C: seq<nat>): (W: seq<real>)
    requires ValidAreas(AA, C)
    ensures |W| == PolygonCount(C)
  {
    seq(PolygonCount(C), p requires 0 <= p < PolygonCount(C) => PolygonDoubleArea(AA, C, p as nat))
  }

  /**
   The weights as the source reads them: polygon `n` gets the double area of
   fan triangle `n`. The source only reads the weight of a polygon that owns a
   corner; the ids past the end of `AA` get 0, which is never read when
   `AsWrittenInBounds` holds.
   */
  function AsWrittenWeights(AA: seq<real>, m: nat): (W: seq<real>)
    ensures |W| == m
  {
    seq(m, n requires 0 <= n < m => if n < |AA| then AA[n] else 0.0)
  }

  /** Every polygon that owns a corner has an id that indexes `AA`, so every `AA(n)` the source reads is in bounds. */
  predicate AsWrittenInBounds(AA: seq<real>, C: seq<nat>)
    requires |C| >= 1
  {
    forall p | 0 <= p < PolygonCount(C) && C[p] < C[p + 1] :: p < |AA|
  }

  /**
   Under the in-bounds condition every weight the accumulation reads, that of
   a polygon id listed in the built adjacency, is the triangle area `AA(n)`:
   a listed polygon owns a corner at that vertex.
   */
  lemma AsWrittenReadsTriangleAreas(nv: nat, I: seq<nat>, C: seq<nat>, AA: seq<real>, v: nat, t: nat)
    requires ValidPolygons(I, C, nv) && AsWrittenInBounds(AA, C) && v < nv
    requires t < |Adjacency(I, C, nv)[v]|
    ensures Adjacency(I, C, nv)[v][t] < PolygonCount(C) && Adjacency(I, C, nv)[v][t] < |AA|
    ensures AsWrittenWeights(AA, PolygonCount(C))[Adjacency(I, C, nv)[v][t]] == AA[Adjacency(I, C, nv)[v][t]]
  {
    var l := Adjacency(I, C, nv)[v];
    var n := l[t];
    AdjacencyCounts(I, C, nv, v, n);
    assert n in multiset(l);
    assert C[n] < C[n + 1];
  }

  /**
   When no polygon is empty, as when the offsets are strictly increasing,
   there are at least as many fan triangles as polygons, so every read is in
   bounds and the weights as read are the first `m` triangle areas.
   */
  lemma NonemptyPolygonsInBounds(AA: seq<real>, C: seq<nat>)
    requires ValidAreas(AA, C)
    requires forall p | 0 <= p < PolygonCount(C) :: C[p] < C[p + 1]
    ensures PolygonCount(C) <= |AA|
    ensures AsWrittenInBounds(AA, C)
    ensures AsWrittenWeights(AA, PolygonCount(C)) == AA[..PolygonCount(C)]
  {
    NonemptyPolygonsCount(C, PolygonCount(C));
  }

  lemma {:induction false} NonemptyPolygonsCount(C: seq<nat>, q: nat)
    requires |C| >= 1 && ValidOffsets(C, C[|C| - 1]) && q <= PolygonCount(C)
    requires forall p | 0 <= p < PolygonCount(C) :: C[p] < C[p + 1]
    ensures q <= C[q] - C[0]
  {
    if q > 0 {
      NonemptyPolygonsCount(C, q - 1);
    }
  }

  /**
   With empty polygons the ids can outrun the triangles and the source still
   reads in bounds: a triangle followed by three empty polygons has four
   polygons and three fan triangles, and only polygon 0 is ever read.
   */
  lemma EmptyPolygonsStayInBounds()
    ensures ValidAreas([1.0, 1.0, 1.0], [0, 3, 3, 3, 3])
    ensures PolygonCount([0, 3, 3, 3, 3]) > |[1.0, 1.0, 1.0]|
    ensures AsWrittenInBounds([1.0, 1.0, 1.0], [0, 3, 3, 3, 3])
  {
  }

  /** The area an origin table `J` attributes to polygon `p`: the sum of `AA[k]` over the rows `k` with `J[k] == p`. */
  function AttributedArea(AA: seq<real>, J: seq<nat>, p: nat): real
    requires |AA| == |J|
  {
    if |J| == 0 then 0.0
    else AttributedArea(AA[..|AA| - 1], J[..|J| - 1], p) + (if J[|J| - 1] == p then AA[|AA| - 1] else 0.0)
  }

  lemma {:induction false} RealSumAppend(s: seq<real>, t: seq<real>)
    ensures RealSum(s + t) == RealSum(s) + RealSum(t)
  {
    if |t| > 0 {
      var t' := t[..|t| - 1];
      assert (s + t)[..|s + t| - 1] == s + t';
      RealSumAppend(s, t');
    } else {
      assert s + t == s;
    }
  }

  lemma {:induction false} RealSumNonnegative(s: seq<real>)
    requires forall k | 0 <= k < |s| :: s[k] >= 0.0
    ensures RealSum(s) >= 0.0
  {
    if |s| > 0 {
      RealSumNonnegative(s[..|s| - 1]);
    }
  }

  lemma {:induction false} AttributedAreaAppend(A1: seq<real>, J1: seq<nat>, A2: seq<real>, J2: seq<nat>, p: nat)
    requires |A1| == |J1| && |A2| == |J2|
    ensures AttributedArea(A1 + A2, J1 + J2, p) == AttributedArea(A1, J1, p) + AttributedArea(A2, J2, p)
  {
    if |A2| > 0 {
      var A2' := A2[..|A2| - 1];
      var J2' := J2[..|J2| - 1];
      assert (A1 + A2)[..|A1 + A2| - 1] == A1 + A2';
      assert (J1 + J2)[..|J1 + J2| - 1] == J1 + J2';
      AttributedAreaAppend(A1, J1, A2', J2', p);
    } else {
      assert A1 + A2 == A1 && J1 + J2 == J1;
    }
  }

  /** A block whose rows all come from polygon `r` attributes its whole sum to `r` and nothing to any other polygon. */
  lemma {:induction false} AttributedAreaOfBlock(A: seq<real>, r: nat, p: nat)
    ensures AttributedArea(A, Repeat(r, |A|), p) == if r == p then RealSum(A) else 0.0
  {
    if |A| > 0 {
      assert Repeat(r, |A|)[..|A| - 1] == Repeat(r, |A| - 1);
      AttributedAreaOfBlock(A[..|A| - 1], r, p);
    }
  }

  lemma {:induction false} AttributedAreaPrefix(AA: seq<real>, C: seq<nat>, q: nat, p: nat)
    requires ValidAreas(AA, C) && q <= PolygonCount(C)
    ensures C[q] - C[0] <= |AA|
    ensures AttributedArea(AA[..C[q] - C[0]], FanOrigins(C, q), p)
         == if p < q then PolygonDoubleArea(AA, C, p) else 0.0
  {
    if q > 0 {
      AttributedAreaPrefix(AA, C, q - 1, p);
      AttributedAreaStep(AA, C, q, p);
    }
  }

  /** Adding polygon `q - 1`'s fan block adds its double area to that polygon's attributed area and nothing to any other. */
  lemma AttributedAreaStep(AA: seq<real>, C: seq<nat>, q: nat, p: nat)
    requires ValidAreas(AA, C) && 0 < q <= PolygonCount(C)
    ensures C[q - 1] - C[0] <= C[q] - C[0] <= |AA|
    ensures AttributedArea(AA[..C[q] - C[0]], FanOrigins(C, q), p)
         == AttributedArea(AA[..C[q - 1] - C[0]], FanOrigins(C, q - 1), p) + (if p == q - 1 then PolygonDoubleArea(AA, C, p) else 0.0)
  {
    var lo := C[q - 1] - C[0];
    var hi := C[q] - C[0];
    var block := AA[lo..hi];
    var origins := Repeat(q - 1, Valence(C, q - 1));
    assert AA[..hi] == AA[..lo] + block;
    AttributedAreaAppend(AA[..lo], FanOrigins(C, q - 1), block, origins, p);
    AttributedAreaOfBlock(block, q - 1, p);
  }

  /**
   The weight of polygon `p` is exactly the area the triangulator's origin
   table `J` attributes to `p`: the double areas of the fan triangles whose
   origin is `p`, and no others.
   */
  lemma PolygonWeightIsAttributedArea(AA: seq<real>, C: seq<nat>, p: nat)
    requires ValidAreas(AA, C) && p < PolygonCount(C)
    ensures PolygonWeights(AA, C)[p] == AttributedArea(AA, FanOrigins(C, PolygonCount(C)), p)
  {
    AttributedAreaPrefix(AA, C, PolygonCount(C), p);
    assert AA[..C[PolygonCount(C)] - C[0]] == AA;
  }

  lemma {:induction false} WeightsPrefixSum(AA: seq<real>, C: seq<nat>, q: nat)
    requires ValidAreas(AA, C) && q <= PolygonCount(C)
    ensures C[q] - C[0] <= |AA|
    ensures RealSum(PolygonWeights(AA, C)[..q]) == RealSum(AA[..C[q] - C[0]])
  {
    if q > 0 {
      WeightsPrefixSum(AA, C, q - 1);
      WeightsPrefixStep(AA, C, q);
    }
  }

  /** One more polygon adds its weight on one side and its fan block on the other. */
  lemma WeightsPrefixStep(AA: seq<real>, C: seq<nat>, q: nat)
    requires ValidAreas(AA, C) && 0 < q <= PolygonCount(C)
    ensures C[q - 1] - C[0] <= C[q] - C[0] <= |AA|
    ensures RealSum(PolygonWeights(AA, C)[..q]) == RealSum(PolygonWeights(AA, C)[..q - 1]) + PolygonDoubleArea(AA, C, q - 1)
    ensures RealSum(AA[..C[q] - C[0]]) == RealSum(AA[..C[q - 1] - C[0]]) + PolygonDoubleArea(AA, C, q - 1)
  {
    RealSumLast(PolygonWeights(AA, C), q);
    RealSumSplit(AA, C[q - 1] - C[0], C[q] - C[0]);
  }

  lemma RealSumLast(s: seq<real>, q: nat)
    requires 0 < q <= |s|
    ensures RealSum(s[..q]) == RealSum(s[..q - 1]) + s[q - 1]
  {
    assert s[..q][..q - 1] == s[..q - 1];
  }

  lemma RealSumSplit(s: seq<real>, lo: nat, hi: nat)
    requires lo <= hi <= |s|
    ensures RealSum(s[..hi]) == RealSum(s[..lo]) + RealSum(s[lo..hi])
  {
    assert s[..hi] == s[..lo] + s[lo..hi];
    RealSumAppend(s[..lo], s[lo..hi]);
  }

  /** The polygon weights split the total double area of the fan: nothing is counted twice or lost. */
  lemma WeightsSumToTotalArea(AA: seq<real>, C: seq<nat>)
    requires ValidAreas(AA, C)
    ensures RealSum(PolygonWeights(AA, C)) == RealSum(AA)
  {
    var W := PolygonWeights(AA, C);
    WeightsPrefixSum(AA, C, PolygonCount(C));
    assert W[..PolygonCount(C)] == W;
    assert AA[..C[PolygonCount(C)] - C[0]] == AA;
  }

  /** Unsigned triangle areas give nonnegative polygon weights. */
  lemma WeightsNonnegative(AA: seq<real>, C: seq<nat>, p: nat)
    requires ValidAreas(AA, C) && p < PolygonCount(C)
    requires forall k | 0 <= k < |AA| :: AA[k] >= 0.0
    ensures PolygonWeights(AA, C)[p] >= 0.0
  {
    RealSumNonnegative(AA[C[p] - C[0]..C[p + 1] - C[0]]);
  }

  /**
   As written, the weight read for polygon 1 is the area of fan triangle 1,
   which belongs to polygon 0 whenever polygon 0 has at least two corners
   (every real polygon has at least three).
   */
  lemma AsWrittenWeightOfPolygonOne(AA: seq<real>, C: seq<nat>)
    requires ValidAreas(AA, C) && 2 <= PolygonCount(C) && C[1] - C[0] >= 2
    ensures 1 < |AA| && AsWrittenWeights(AA, PolygonCount(C))[1] == AA[1]
    ensures FanOrigins(C, PolygonCount(C))[1] == 0
  {
    FanOriginAt(C, PolygonCount(C), 0, 1);
  }

  /**
   A quad of double area 8 (four fan triangles of 2) next to a triangle of
   double area 1.5 (three fan triangles of 0.5): the source weights the
   triangle by 2, a quarter of the quad, instead of by 1.5.
   */
  lemma AsWrittenWeightsDiffer()
    ensures AsWrittenWeights([2.0, 2.0, 2.0, 2.0, 0.5, 0.5, 0.5], 2)[1] == 2.0
    ensures PolygonWeights([2.0, 2.0, 2.0, 2.0, 0.5, 0.5, 0.5], [0, 4, 7])[1] == 1.5
  {
    var AA := [2.0, 2.0, 2.0, 2.0, 0.5, 0.5, 0.5];
    var tri := [0.5, 0.5, 0.5];
    assert AA[4..7] == tri;
    assert tri[..2] == [0.5, 0.5] && [0.5, 0.5][..1] == [0.5] && [0.5][..0] == [];
    assert RealSum(tri) == 1.5;
  }

  /** The polygon weights of the quad-beside-triangle instance: 8 for the quad, 1.5 for the triangle. */
  lemma QuadAndTriangleWeights()
    ensures PolygonWeights([2.0, 2.0, 2.0, 2.0, 0.5, 0.5, 0.5], [0, 4, 7]) == [8.0, 1.5]
  {
    var AA := [2.0, 2.0, 2.0, 2.0, 0.5, 0.5, 0.5];
    var quad := [2.0, 2.0, 2.0, 2.0];
    assert AA[0..4] == quad;
    assert quad[..3] == [2.0, 2.0, 2.0] && [2.0, 2.0, 2.0][..2] == [2.0, 2.0] && [2.0, 2.0][..1] == [2.0] && [2.0][..0] == [];
    assert RealSum(quad) == 8.0;
    AsWrittenWeightsDiffer();
  }
}
