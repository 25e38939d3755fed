/**
 The compressed polygon table `(I, C)` of the polygonal overload and the
 vertex-to-polygon adjacency that overload builds from it. Polygon `p` owns
 the corners `I[C[p] .. C[p+1])`; there are `|C| - 1` polygons.
 */
module PolygonAdjacency {

  /**
   Offsets never decrease and stay inside a corner table of `len` entries.
   Equal neighbouring offsets (a polygon without corners) are allowed: every
   loop over such a polygon simply runs zero times.
   */
  predicate ValidOffsets(C: seq<nat>, len: nat) {
    && |C| >= 1
    && (forall p, q | 0 <= p <= q < |C| :: C[p] <= C[q])
    && C[|C| - 1] <= len
  }

  /** A polygon table over `nv` vertices: valid offsets and every corner that some polygon owns names a vertex. */
  predicate ValidPolygons(I: seq<nat>, C: seq<nat>, nv: nat) {
    && ValidOffsets(C, |I|)
    && (forall j | C[0] <= j < C[|C| - 1] :: I[j] < nv)
  }

  /** Number of polygons, `m = C.size() - 1`. */
  function PolygonCount(C: seq<nat>): nat
    requires |C| >= 1
  {
    |C| - 1
  }

  /** The vertex ids of polygon `p`, in corner order. */
  function Corners(I: seq<nat>, C: seq<nat>, p: nat): seq<nat>
    requires ValidOffsets(C, |I|) && p < PolygonCount(C)
  {
    I[C[p]..C[p + 1]]
  }

  /** `c` copies of `p`. */
  function Repeat(p: nat, c: nat): seq<nat> {
    seq(c, _ => p)
  }

  /** How many entries of `s` equal `v`, counted from the front. */
  function Occurrences(s: seq<nat>, v: nat): nat {
    if |s| == 0 then 0 else Occurrences(s[..|s| - 1], v) + (if s[|s| - 1] == v then 1 else 0)
  }

  /**
   The list `VF[v]` after the first `q` polygons have been scanned: for each
   polygon in turn, its id once per corner that names `v`.
   */
  function Incident(I: seq<nat>, C: seq<nat>, v: nat, q: nat): seq<nat>
    requires ValidOffsets(C, |I|) && q <= PolygonCount(C)
  {
    if q == 0 then []
    else Incident(I, C, v, q - 1) + Repeat(q - 1, Occurrences(Corners(I, C, q - 1), v))
  }

  /** The adjacency the builder produces: one list per vertex. */
  function Adjacency(I: seq<nat>, C: seq<nat>, nv: nat): (VF: seq<seq<nat>>)
    requires ValidOffsets(C, |I|)
    ensures |VF| == nv
  {
    seq(nv, v requires 0 <= v < nv => Incident(I, C, v as nat, PolygonCount(C)))
  }

  /**
   Builds `VF` as the source does: one empty list per vertex, then for every
   polygon `p` and every corner of `p` in order, `p` is appended to the list
   of that corner's vertex.
   */
  method BuildAdjacency(nv: nat, I: seq<nat>, C: seq<nat>) returns (VF: seq<seq<nat>>)
    requires ValidPolygons(I, C, nv)
    ensures VF == Adjacency(I, C, nv)
  {
    var lists := new seq<nat>[nv](_ => []);
    for p := 0 to PolygonCount(C)
      invariant forall v | 0 <= v < nv :: lists[v] == Incident(I, C, v, p)
    {
      ScanPolygon(lists, I, C, p);
    }
    VF := lists[..];
    assert forall v | 0 <= v < nv :: VF[v] == Adjacency(I, C, nv)[v];
  }

  /** One pass of the outer loop of the builder: polygon `p` is appended once per corner to the list of that corner's vertex. */
  method ScanPolygon(lists: array<seq<nat>>, I: seq<nat>, C: seq<nat>, p: nat)
    requires ValidPolygons(I, C, lists.Length) && p < PolygonCount(C)
    requires forall v | 0 <= v < lists.Length :: lists[v] == Incident(I, C, v, p)
    modifies lists
    ensures forall v | 0 <= v < lists.Length :: lists[v] == Incident(I, C, v, p + 1)
  {
    var np := C[p + 1] - C[p];
    for i := 0 to np
      invariant forall v | 0 <= v < lists.Length :: lists[v] == Scanned(I, C, p, i, v)
    {
      var v := I[C[p] + i];
      ScannedStep(I, C, p, i);
      lists[v] := lists[v] + [p];
    }
    ScannedAll(I, C, p, np);
  }

  /** The list of `v` part way through polygon `p`: the earlier polygons, then `p` once per corner among its first `i` that names `v`. */
  ghost function Scanned(I: seq<nat>, C: seq<nat>, p: nat, i: nat, v: nat): seq<nat>
    requires ValidOffsets(C, |I|) && p < PolygonCount(C) && i <= C[p + 1] - C[p]
  {
    Incident(I, C, v, p) + Repeat(p, Occurrences(I[C[p]..C[p] + i], v))
  }

  /** Corner `i` of polygon `p` extends the list of its own vertex by `p` and leaves every other list as it was. */
  lemma ScannedStep(I: seq<nat>, C: seq<nat>, p: nat, i: nat)
    requires ValidOffsets(C, |I|) && p < PolygonCount(C) && i < C[p + 1] - C[p]
    ensures forall w :: (Scanned(I, C, p, i + 1, w) == if w == I[C[p] + i] then Scanned(I, C, p, i, w) + [p] else Scanned(I, C, p, i, w))
  {
    var seen := I[C[p]..C[p] + i];
    assert I[C[p]..C[p] + i + 1][..i] == seen;
    forall w
      ensures Scanned(I, C, p, i + 1, w)
        == (if w == I[C[p] + i] then Scanned(I, C, p, i, w) + [p] else Scanned(I, C, p, i, w))
    {
      if w == I[C[p] + i] {
        assert Repeat(p, Occurrences(seen, w) + 1) == Repeat(p, Occurrences(seen, w)) + [p];
      }
    }
  }

  /** After all corners of `p`, the lists are those of the first `p + 1` polygons. */
  lemma ScannedAll(I: seq<nat>, C: seq<nat>, p: nat, np: nat)
    requires ValidOffsets(C, |I|) && p < PolygonCount(C) && np == C[p + 1] - C[p]
    ensures forall w :: Scanned(I, C, p, np, w) == Incident(I, C, w, p + 1)
  {
    assert I[C[p]..C[p] + np] == Corners(I, C, p);
  }

  lemma {:induction false} OccurrencesAppend(s: seq<nat>, t: seq<nat>, v: nat)
    ensures Occurrences(s + t, v) == Occurrences(s, v) + Occurrences(t, v)
  {
    if |t| > 0 {
      assert (s + t)[..|s + t| - 1] == s + t[..|t| - 1];
      OccurrencesAppend(s, t[..|t| - 1], v);
    } else {
      assert s + t == s;
    }
  }

  lemma {:induction false} RepeatOccurrences(p: nat, c: nat, k: nat)
    ensures Occurrences(Repeat(p, c), k) == if k == p then c else 0
  {
    if c > 0 {
      assert Repeat(p, c)[..c - 1] == Repeat(p, c - 1);
      RepeatOccurrences(p, c - 1, k);
    }
  }

  /** The counted occurrences are the multiplicity in the multiset of the sequence. */
  lemma {:induction false} OccurrencesIsMultiplicity(s: seq<nat>, v: nat)
    ensures Occurrences(s, v) == multiset(s)[v]
  {
    if |s| > 0 {
      var init := s[..|s| - 1];
      assert s == init + [s[|s| - 1]];
      OccurrencesIsMultiplicity(init, v);
    }
  }

  /**
   Polygon `p` appears in the list of vertex `v` exactly as many times as
   `v` occurs among the corners of `p` (so a vertex used twice by one polygon
   lists it twice), and polygons not yet scanned do not appear.
   */
  lemma {:induction false} IncidentCount(I: seq<nat>, C: seq<nat>, v: nat, q: nat, p: nat)
    requires ValidOffsets(C, |I|) && q <= PolygonCount(C)
    ensures Occurrences(Incident(I, C, v, q), p) == if p < q then Occurrences(Corners(I, C, p), v) else 0
  {
    if q > 0 {
      var c := Occurrences(Corners(I, C, q - 1), v);
      OccurrencesAppend(Incident(I, C, v, q - 1), Repeat(q - 1, c), p);
      IncidentCount(I, C, v, q - 1, p);
      RepeatOccurrences(q - 1, c, p);
    }
  }

  /** The entries of a list are ids of scanned polygons, in nondecreasing order. */
  lemma {:induction false} IncidentSorted(I: seq<nat>, C: seq<nat>, v: nat, q: nat)
    requires ValidOffsets(C, |I|) && q <= PolygonCount(C)
    ensures forall t | 0 <= t < |Incident(I, C, v, q)| :: Incident(I, C, v, q)[t] < q
    ensures forall s, t | 0 <= s <= t < |Incident(I, C, v, q)| :: Incident(I, C, v, q)[s] <= Incident(I, C, v, q)[t]
  {
    if q > 0 {
      IncidentSorted(I, C, v, q - 1);
    }
  }

  /** The finished adjacency: one list per vertex, each listing polygon `p` once per corner of `p` at that vertex, in nondecreasing polygon order. */
  lemma AdjacencyCounts(I: seq<nat>, C: seq<nat>, nv: nat, v: nat, p: nat)
    requires ValidOffsets(C, |I|) && v < nv
    ensures |Adjacency(I, C, nv)| == nv
    ensures multiset(Adjacency(I, C, nv)[v])[p] == if p < PolygonCount(C) then multiset(Corners(I, C, p))[v] else 0
    ensures forall t | 0 <= t < |Adjacency(I, C, nv)[v]| :: Adjacency(I, C, nv)[v][t] < PolygonCount(C)
    ensures forall s, t | 0 <= s <= t < |Adjacency(I, C, nv)[v]| :: Adjacency(I, C, nv)[v][s] <= Adjacency(I, C, nv)[v][t]
  {
    IncidentCount(I, C, v, PolygonCount(C), p);
    OccurrencesIsMultiplicity(Adjacency(I, C, nv)[v], p);
    if p < PolygonCount(C) {
      OccurrencesIsMultiplicity(Corners(I, C, p), v);
    }
    IncidentSorted(I, C, v, PolygonCount(C));
  }

  /** Every polygon is in the list of each of its own corners' vertices. */
  lemma PolygonInOwnCornerLists(I: seq<nat>, C: seq<nat>, nv: nat, p: nat, j: nat)
    requires ValidPolygons(I, C, nv) && p < PolygonCount(C)
    requires C[p] <= j < C[p + 1]
    ensures I[j] < nv && p in Adjacency(I, C, nv)[I[j]]
  {
    var corners := Corners(I, C, p);
    assert corners[j - C[p]] == I[j];
    assert I[j] in multiset(corners);
    AdjacencyCounts(I, C, nv, I[j], p);
  }
}
