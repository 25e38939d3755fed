/**
 The threshold-gated sums at the heart of both overloads of per_corner_normals:
 a neighbour face `k` of a corner contributes when the dot product of the
 corner's own face normal with `FN[k]` is STRICTLY greater than the cosine
 of the corner threshold. Sums are taken over the adjacency list in its own
 order, one term per occurrence, exactly as the source's `+=` loops do.
 */
module Gating {
  import opened Vectors

  /** Every entry of `l` is a valid row index for a table of `bound` rows. */
  predicate IndicesIn(l: seq<nat>, bound: nat) {
    forall t | 0 <= t < |l| :: l[t] < bound
  }

  /** The strict angle test of the source. */
  predicate Passes(FN: seq<Vec3>, fn: Vec3, k: nat, cosT: real)
    requires k < |FN|
  {
    Dot(fn, FN[k]) > cosT
  }

  /** Unweighted gated sum (fixed-valence overload): the sum of `FN[k]` over the entries `k` of `l` that pass. */
  function GatedSum(FN: seq<Vec3>, fn: Vec3, l: seq<nat>, cosT: real): Vec3
    requires IndicesIn(l, |FN|)
  {
    if |l| == 0 then Zero
    else
      var s := GatedSum(FN, fn, l[..|l| - 1], cosT);
      var k := l[|l| - 1];
      if Passes(FN, fn, k, cosT) then Add(s, FN[k]) else s
  }

  /** Area-weighted gated sum (polygonal overload): the sum of `W[k] * FN[k]` over the entries `k` of `l` that pass. */
  function WeightedGatedSum(FN: seq<Vec3>, W: seq<real>, fn: Vec3, l: seq<nat>, cosT: real): Vec3
    requires IndicesIn(l, |FN|) && IndicesIn(l, |W|)
  {
    if |l| == 0 then Zero
    else
      var s := WeightedGatedSum(FN, W, fn, l[..|l| - 1], cosT);
      var k := l[|l| - 1];
      if Passes(FN, fn, k, cosT) then Add(s, Scale(W[k], FN[k])) else s
  }

  /** Ungated reference sum of `FN[k]` over every entry `k` of `l`. */
  function PlainSum(FN: seq<Vec3>, l: seq<nat>): Vec3
    requires IndicesIn(l, |FN|)
  {
    if |l| == 0 then Zero else Add(PlainSum(FN, l[..|l| - 1]), FN[l[|l| - 1]])
  }

  /** Ungated reference sum of `W[k] * FN[k]` over every entry `k` of `l`. */
  function WeightedPlainSum(FN: seq<Vec3>, W: seq<real>, l: seq<nat>): Vec3
    requires IndicesIn(l, |FN|) && IndicesIn(l, |W|)
  {
    if |l| == 0 then Zero
    else
      var k := l[|l| - 1];
      Add(WeightedPlainSum(FN, W, l[..|l| - 1]), Scale(W[k], FN[k]))
  }

  /** The entries of `l` that pass the test, in list order. */
  function Included(FN: seq<Vec3>, fn: Vec3, l: seq<nat>, cosT: real): (r: seq<nat>)
    requires IndicesIn(l, |FN|)
    ensures IndicesIn(r, |FN|)
    ensures |r| <= |l|
  {
    if |l| == 0 then []
    else
      var s := Included(FN, fn, l[..|l| - 1], cosT);
      var k := l[|l| - 1];
      if Passes(FN, fn, k, cosT) then s + [k] else s
  }

  /** A neighbour is included exactly as often as it occurs in the list when it passes, and never otherwise. */
  lemma {:induction false} IncludedCount(FN: seq<Vec3>, fn: Vec3, l: seq<nat>, cosT: real, k: nat)
    requires IndicesIn(l, |FN|) && k < |FN|
    ensures multiset(Included(FN, fn, l, cosT))[k] == if Passes(FN, fn, k, cosT) then multiset(l)[k] else 0
  {
    if |l| > 0 {
      var init := l[..|l| - 1];
      assert l == init + [l[|l| - 1]];
      IncludedCount(FN, fn, init, cosT, k);
    }
  }

  /** Raising the angle threshold (lowering its cosine) never drops a neighbour: the included multiset only grows. */
  lemma ThresholdMonotone(FN: seq<Vec3>, fn: Vec3, l: seq<nat>, cosLo: real, cosHi: real)
    requires IndicesIn(l, |FN|) && cosLo <= cosHi
    ensures multiset(Included(FN, fn, l, cosHi)) <= multiset(Included(FN, fn, l, cosLo))
  {
    forall k: nat | k < |FN|
      ensures multiset(Included(FN, fn, l, cosHi))[k] <= multiset(Included(FN, fn, l, cosLo))[k]
    {
      IncludedCount(FN, fn, l, cosHi, k);
      IncludedCount(FN, fn, l, cosLo, k);
    }
    forall k: nat | k >= |FN|
      ensures multiset(Included(FN, fn, l, cosHi))[k] == 0
    {
      var r := Included(FN, fn, l, cosHi);
      assert k !in r;
    }
  }

  /** The gated sum is the plain sum of the included neighbours. */
  lemma {:induction false} GatedSumIsSumOfIncluded(FN: seq<Vec3>, fn: Vec3, l: seq<nat>, cosT: real)
    requires IndicesIn(l, |FN|)
    ensures GatedSum(FN, fn, l, cosT) == PlainSum(FN, Included(FN, fn, l, cosT))
  {
    if |l| > 0 {
      var init := l[..|l| - 1];
      var s := Included(FN, fn, init, cosT);
      GatedSumIsSumOfIncluded(FN, fn, init, cosT);
      var k := l[|l| - 1];
      if Passes(FN, fn, k, cosT) {
        assert (s + [k])[..|s + [k]| - 1] == s;
      }
    }
  }

  /**
   The weighted gated sum is the weighted plain sum of the included
   neighbours, each weighted by its own entry of `W`.
   */
  lemma {:induction false} WeightedGatedSumIsSumOfIncluded(FN: seq<Vec3>, W: seq<real>, fn: Vec3, l: seq<nat>, cosT: real)
    requires IndicesIn(l, |FN|) && IndicesIn(l, |W|)
    ensures IndicesIn(Included(FN, fn, l, cosT), |W|)
    ensures WeightedGatedSum(FN, W, fn, l, cosT) == WeightedPlainSum(FN, W, Included(FN, fn, l, cosT))
  {
    if |l| > 0 {
      var init := l[..|l| - 1];
      var s := Included(FN, fn, init, cosT);
      WeightedGatedSumIsSumOfIncluded(FN, W, fn, init, cosT);
      var k := l[|l| - 1];
      if Passes(FN, fn, k, cosT) {
        assert (s + [k])[..|s + [k]| - 1] == s;
      }
    }
  }

  /** When every neighbour passes (a threshold of 180 degrees on a mesh without opposite normals), the gated sum is the plain vertex-normal sum. */
  lemma {:induction false} AllPassIsPlainSum(FN: seq<Vec3>, fn: Vec3, l: seq<nat>, cosT: real)
    requires IndicesIn(l, |FN|)
    requires forall t | 0 <= t < |l| :: Passes(FN, fn, l[t], cosT)
    ensures GatedSum(FN, fn, l, cosT) == PlainSum(FN, l)
  {
    if |l| > 0 {
      AllPassIsPlainSum(FN, fn, l[..|l| - 1], cosT);
    }
  }

  /** When no neighbour passes, the accumulator stays the zero row. */
  lemma {:induction false} NonePassIsZero(FN: seq<Vec3>, fn: Vec3, l: seq<nat>, cosT: real)
    requires IndicesIn(l, |FN|)
    requires forall t | 0 <= t < |l| :: !Passes(FN, fn, l[t], cosT)
    ensures GatedSum(FN, fn, l, cosT) == Zero
  {
    if |l| > 0 {
      NonePassIsZero(FN, fn, l[..|l| - 1], cosT);
    }
  }

  /**
   With unit face normals and a zero-degree threshold (cosine one), the strict
   test rejects every neighbour, the corner's own face included, so the sum is zero.
   */
  lemma StrictTestAtZeroDegrees(FN: seq<Vec3>, fn: Vec3, l: seq<nat>, cosT: real)
    requires IndicesIn(l, |FN|)
    requires cosT >= 1.0 && Dot(fn, fn) == 1.0
    requires forall t | 0 <= t < |l| :: Dot(FN[l[t]], FN[l[t]]) == 1.0
    ensures GatedSum(FN, fn, l, cosT) == Zero
  {
    forall t | 0 <= t < |l|
      ensures !Passes(FN, fn, l[t], cosT)
    {
      UnitDotAtMostOne(fn, FN[l[t]]);
    }
    NonePassIsZero(FN, fn, l, cosT);
  }

  /** On a flat patch, where every neighbour has the corner's own normal and that normal passes, the sum is that normal times the list length. */
  lemma {:induction false} FlatPatchSum(FN: seq<Vec3>, fn: Vec3, l: seq<nat>, cosT: real)
    requires IndicesIn(l, |FN|)
    requires forall t | 0 <= t < |l| :: FN[l[t]] == fn
    requires Dot(fn, fn) > cosT
    ensures GatedSum(FN, fn, l, cosT) == Scale(|l| as real, fn)
  {
    if |l| > 0 {
      FlatPatchSum(FN, fn, l[..|l| - 1], cosT);
      var c := (|l| - 1) as real;
      assert Scale(c + 1.0, fn) == Add(Scale(c, fn), fn);
    }
  }

  /** With unit weights the polygonal weighted sum is the fixed-valence unweighted sum. */
  lemma {:induction false} UnitWeightsAreUnweighted(FN: seq<Vec3>, W: seq<real>, fn: Vec3, l: seq<nat>, cosT: real)
    requires IndicesIn(l, |FN|) && IndicesIn(l, |W|)
    requires forall t | 0 <= t < |l| :: W[l[t]] == 1.0
    ensures WeightedGatedSum(FN, W, fn, l, cosT) == GatedSum(FN, fn, l, cosT)
  {
    if |l| > 0 {
      UnitWeightsAreUnweighted(FN, W, fn, l[..|l| - 1], cosT);
    }
  }

  /** When every listed neighbour has the same weight `c`, the weighted sum is `c` times the unweighted one, so it normalizes to the same direction. */
  lemma {:induction false} EqualWeightsScaleUnweighted(FN: seq<Vec3>, W: seq<real>, c: real, fn: Vec3, l: seq<nat>, cosT: real)
    requires IndicesIn(l, |FN|) && IndicesIn(l, |W|)
    requires forall t | 0 <= t < |l| :: W[l[t]] == c
    ensures WeightedGatedSum(FN, W, fn, l, cosT) == Scale(c, GatedSum(FN, fn, l, cosT))
  {
    if |l| > 0 {
      var init := l[..|l| - 1];
      EqualWeightsScaleUnweighted(FN, W, c, fn, init, cosT);
      var k := l[|l| - 1];
      if Passes(FN, fn, k, cosT) {
        var g := GatedSum(FN, fn, init, cosT);
        ScaleOverWeightedAdd(c, 1.0, c, g, Scale(c, g), FN[k]);
        assert Scale(1.0, FN[k]) == FN[k];
      }
    } else {
      assert Scale(c, Zero) == Zero;
    }
  }

  /** A list of two passing neighbours sums their weighted normals. */
  lemma TwoPassingNeighbours(FN: seq<Vec3>, W: seq<real>, fn: Vec3, a: nat, b: nat, cosT: real)
    requires a < |FN| && b < |FN| && a < |W| && b < |W|
    requires Passes(FN, fn, a, cosT) && Passes(FN, fn, b, cosT)
    ensures WeightedGatedSum(FN, W, fn, [a, b], cosT) == Add(Scale(W[a], FN[a]), Scale(W[b], FN[b]))
  {
    assert [a, b][..1] == [a] && [a][..0] == [];
    assert WeightedGatedSum(FN, W, fn, [a], cosT) == Add(Zero, Scale(W[a], FN[a])) == Scale(W[a], FN[a]);
  }

  /** Every weight multiplied by `s`. */
  function ScaleWeights(s: real, W: seq<real>): (r: seq<real>)
    ensures |r| == |W|
  {
    seq(|W|, k requires 0 <= k < |W| => s * W[k])
  }

  /**
   Multiplying every weight by the same factor multiplies the weighted sum by
   that factor: only the ratios of the weights decide the direction of the sum.
   */
  lemma {:induction false} ScaledWeightsScaleSum(FN: seq<Vec3>, W: seq<real>, s: real, fn: Vec3, l: seq<nat>, cosT: real)
    requires IndicesIn(l, |FN|) && IndicesIn(l, |W|)
    ensures WeightedGatedSum(FN, ScaleWeights(s, W), fn, l, cosT) == Scale(s, WeightedGatedSum(FN, W, fn, l, cosT))
  {
    if |l| > 0 {
      var init := l[..|l| - 1];
      ScaledWeightsScaleSum(FN, W, s, fn, init, cosT);
      var sw := ScaleWeights(s, W);
      var k := l[|l| - 1];
      var a := WeightedGatedSum(FN, W, fn, init, cosT);
      var b := WeightedGatedSum(FN, sw, fn, init, cosT);
      if Passes(FN, fn, k, cosT) {
        ScaleOverWeightedAdd(s, W[k], sw[k], a, b, FN[k]);
      }
    } else {
      assert Scale(s, Zero) == Zero;
    }
  }
}
