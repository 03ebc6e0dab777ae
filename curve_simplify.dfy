/**
 * The index skeleton of the curve simplifiers: Pascal's rule in `binom`,
 * the Ramer-Douglas-Peucker refinement of the kept vertex indices
 * (`iterate`, `simplify_RDP`), the curvature and distance selection of
 * `simplypoly`, and the packing of the kept vertices in `vertsToPoints`.
 *
 * Altitudes and curvatures are inputs: `alt(a, b, p)` is the altitude of
 * vertex `p` over the chord from vertex `a` to vertex `b`, as `altitude`
 * computes it from the coordinates.
 */
module CurveSimplify {
  import opened Wrappers

  type Altitude = (int, int, int) -> real

  // ---------------------------------------------------------------- binom

  /** The binomial coefficient by Pascal's rule (0 when `m > n`). */
  function Choose(n: nat, m: nat): (r: nat)
  {
    if m == 0 then 1
    else if n == 0 then 0
    else Choose(n - 1, m - 1) + Choose(n - 1, m)
  }

  lemma {:induction false} ChooseAbove(n: nat, m: nat)
    requires m > n
    ensures Choose(n, m) == 0
  {
    if n > 0 {
      ChooseAbove(n - 1, m - 1);
      ChooseAbove(n - 1, m);
    }
  }

  /** The two ends of every row are 1. */
  lemma {:induction false} ChooseEdges(n: nat)
    ensures Choose(n, 0) == 1 && Choose(n, n) == 1
  {
    if n > 0 {
      ChooseEdges(n - 1);
      ChooseAbove(n - 1, n);
    }
  }

  /** Every row reads the same both ways. */
  lemma {:induction false} ChooseSymmetric(n: nat, m: nat)
    requires m <= n
    ensures Choose(n, m) == Choose(n, n - m)
  {
    if m == 0 || m == n {
      ChooseEdges(n);
    } else {
      ChooseSymmetric(n - 1, m - 1);
      ChooseSymmetric(n - 1, m);
      assert Choose(n, n - m) == Choose(n - 1, n - m - 1) + Choose(n - 1, n - m);
    }
  }

  /**
   * `binom`: row `n` of Pascal's triangle is built in one array, each row
   * from the one before it by adding neighbours from the right, and entry
   * `m` is returned. Python raises `IndexError` for `m > n`.
   */
  method Binom(n: nat, m: nat) returns (r: nat)
    requires m <= n
    ensures r == Choose(n, m)
  {
    var b := new nat[n + 1](_ => 0);
    b[0] := 1;
    for i := 1 to n + 1
      invariant b.Length == n + 1
      invariant forall k :: 0 <= k < i ==> b[k] == Choose(i - 1, k)
    {
      b[i] := 1;
      var j := i - 1;
      while j > 0
        invariant 0 <= j <= i - 1
        invariant b[i] == 1
        invariant forall k :: 0 <= k <= j ==> b[k] == Choose(i - 1, k)
        invariant forall k :: j < k < i ==> b[k] == Choose(i, k)
      {
        b[j] := b[j] + b[j - 1];
        j := j - 1;
      }
      ChooseEdges(i);
    }
    r := b[m];
  }

  // ------------------------------------------------------- iterate (RDP)

  /**
   * The first vertex of greatest altitude over the chord `a`-`b` among the
   * vertices strictly between `a` and `hi`.
   */
  function ArgMax(alt: Altitude, a: int, b: int, hi: int): (p: int)
    requires a + 1 < hi
    ensures a < p < hi
    ensures forall q :: a < q < hi ==> alt(a, b, q) <= alt(a, b, p)
    ensures forall q :: a < q < p ==> alt(a, b, q) < alt(a, b, p)
    decreases hi - a
  {
    if hi == a + 2 then a + 1
    else
      var p := ArgMax(alt, a, b, hi - 1);
      if alt(a, b, hi - 1) > alt(a, b, p) then hi - 1 else p
  }

  /**
   * The index `iterate` adds inside the gap between kept vertices `a` and
   * `b`: the first vertex of greatest altitude, when that altitude is
   * positive and above `error`; otherwise 0, which adds nothing.
   */
  function GapPick(alt: Altitude, a: int, b: int, error: real): (p: int)
  {
    if a + 1 < b then
      var m := ArgMax(alt, a, b, b);
      if alt(a, b, m) > 0.0 && alt(a, b, m) > error then m else 0
    else 0
  }

  /** What a gap adds to the list: its pick, or nothing. */
  function PickOf(alt: Altitude, a: int, b: int, error: real): seq<int>
  {
    var p := GapPick(alt, a, b, error);
    if p != 0 then [p] else []
  }

  /** The picks of all gaps of `vs`, in order. */
  function Picks(alt: Altitude, vs: seq<int>, error: real): seq<int>
  {
    if |vs| < 2 then []
    else Picks(alt, vs[..|vs| - 1], error) + PickOf(alt, vs[|vs| - 2], vs[|vs| - 1], error)
  }

  /** A gap picks a vertex exactly when one of its vertices is above both 0 and `error`, and then the first highest one. */
  lemma GapPickCharacterized(alt: Altitude, a: int, b: int, error: real)
    requires a >= 0
    ensures var p := GapPick(alt, a, b, error);
      (p == 0 <==> forall q :: a < q < b ==> alt(a, b, q) <= 0.0 || alt(a, b, q) <= error) &&
      (p != 0 ==> (a < p < b && alt(a, b, p) > 0.0 && alt(a, b, p) > error &&
        (forall q :: a < q < b ==> alt(a, b, q) <= alt(a, b, p)) &&
        (forall q :: a < q < p ==> alt(a, b, q) < alt(a, b, p))))
  {
  }

  /** The inner loop of `iterate` over the vertices of one gap. */
  method IterateGap(alt: Altitude, a: int, b: int, error: real) returns (bigVert: int)
    ensures bigVert == GapPick(alt, a, b, error)
  {
    bigVert := 0;
    var altiStore := 0.0;
    var count := if a + 1 < b then b - a - 1 else 0;
    for i := 0 to count
      invariant i == 0 ==> altiStore == 0.0 && bigVert == 0
      invariant i > 0 ==> var m := ArgMax(alt, a, b, a + 1 + i);
        altiStore == (if alt(a, b, m) > 0.0 then alt(a, b, m) else 0.0) &&
        bigVert == (if alt(a, b, m) > 0.0 && alt(a, b, m) > error then m else 0)
    {
      var alti := alt(a, b, a + 1 + i);
      if alti > altiStore {
        altiStore := alti;
        if altiStore > error {
          bigVert := i + 1 + a;
        }
      }
    }
  }

  /** `iterate`: the picks of every gap, or nothing (`False`) when no gap picks a vertex. */
  method Iterate(alt: Altitude, newVerts: seq<int>, error: real) returns (added: Option<seq<int>>)
    ensures added == if Picks(alt, newVerts, error) == [] then None else Some(Picks(alt, newVerts, error))
  {
    if |newVerts| < 2 {
      return None;
    }
    var picks: seq<int> := [];
    for k := 1 to |newVerts|
      invariant picks == Picks(alt, newVerts[..k], error)
    {
      var bigVert := IterateGap(alt, newVerts[k - 1], newVerts[k], error);
      if bigVert != 0 {
        picks := picks + [bigVert];
      }
      assert newVerts[..k + 1][..k] == newVerts[..k];
    }
    assert newVerts[..|newVerts|] == newVerts;
    if picks == [] {
      return None;
    }
    return Some(picks);
  }

  // --------------------------------------------------------- simplify_RDP

  predicate StrictlyIncreasing(s: seq<int>)
  {
    forall i, j :: 0 <= i < j < |s| ==> s[i] < s[j]
  }

  /** `vs` with each gap's pick placed inside it. */
  function Refine(alt: Altitude, vs: seq<int>, error: real): seq<int>
  {
    if |vs| < 2 then vs
    else Refine(alt, vs[..|vs| - 1], error) + PickOf(alt, vs[|vs| - 2], vs[|vs| - 1], error) + [vs[|vs| - 1]]
  }

  /** Two increasing lists, the first ending below the start of the second, make one increasing list. */
  lemma AppendIncreasing(s: seq<int>, t: seq<int>)
    requires StrictlyIncreasing(s) && StrictlyIncreasing(t)
    requires s != [] && t != [] ==> s[|s| - 1] < t[0]
    ensures StrictlyIncreasing(s + t)
  {
    forall i, j | 0 <= i < j < |s + t|
      ensures (s + t)[i] < (s + t)[j]
    {
      if i < |s| && j >= |s| {
        assert s[i] <= s[|s| - 1] by { if i < |s| - 1 { assert s[i] < s[|s| - 1]; } }
        assert t[0] <= t[j - |s|] by { if j - |s| > 0 { assert t[0] < t[j - |s|]; } }
      }
    }
  }

  /** Refining keeps the ends of the list and adds one entry per pick. */
  lemma {:induction false} RefineEnds(alt: Altitude, vs: seq<int>, error: real)
    requires |vs| >= 1
    ensures var r := Refine(alt, vs, error);
      |r| == |vs| + |Picks(alt, vs, error)| && r[0] == vs[0] && r[|r| - 1] == vs[|vs| - 1]
  {
    if |vs| >= 2 {
      RefineEnds(alt, vs[..|vs| - 1], error);
    }
  }

  /** Refining an increasing list of indices keeps it increasing: each pick lies strictly inside its gap. */
  lemma {:induction false} RefineIncreasing(alt: Altitude, vs: seq<int>, error: real)
    requires StrictlyIncreasing(vs) && |vs| >= 1 && vs[0] >= 0
    ensures StrictlyIncreasing(Refine(alt, vs, error))
  {
    if |vs| >= 2 {
      var init := vs[..|vs| - 1];
      var a, b := vs[|vs| - 2], vs[|vs| - 1];
      RefineIncreasing(alt, init, error);
      RefineEnds(alt, init, error);
      GapPickCharacterized(alt, a, b, error);
      var ri := Refine(alt, init, error);
      var pick := LastGapStep(alt, vs, error);
      AppendIncreasing(pick, [b]);
      AppendIncreasing(ri, pick + [b]);
      assert ri + pick + [b] == ri + (pick + [b]);
    }
  }

  /** Refining holds exactly the entries of the list and the picks. */
  lemma {:induction false} RefineEntries(alt: Altitude, vs: seq<int>, error: real)
    ensures multiset(Refine(alt, vs, error)) == multiset(vs + Picks(alt, vs, error))
  {
    if |vs| >= 2 {
      var init := vs[..|vs| - 1];
      var b := vs[|vs| - 1];
      RefineEntries(alt, init, error);
      var pick := LastGapStep(alt, vs, error);
      EntriesStep(init, Picks(alt, init, error), Refine(alt, init, error), pick, b);
    }
  }

  /** Refining and picking over a list of two or more indices, one gap at a time. */
  lemma LastGapStep(alt: Altitude, vs: seq<int>, error: real) returns (pick: seq<int>)
    requires |vs| >= 2
    ensures vs == vs[..|vs| - 1] + [vs[|vs| - 1]]
    ensures Refine(alt, vs, error) == Refine(alt, vs[..|vs| - 1], error) + pick + [vs[|vs| - 1]]
    ensures Picks(alt, vs, error) == Picks(alt, vs[..|vs| - 1], error) + pick
    ensures pick == PickOf(alt, vs[|vs| - 2], vs[|vs| - 1], error)
  {
    pick := PickOf(alt, vs[|vs| - 2], vs[|vs| - 1], error);
  }

  /** One step of `RefineEntries`: the gap's pick and its end join both sides. */
  lemma EntriesStep(init: seq<int>, picks: seq<int>, refined: seq<int>, pick: seq<int>, b: int)
    requires multiset(refined) == multiset(init + picks)
    ensures multiset(refined + pick + [b]) == multiset(init + [b] + (picks + pick))
  {
    calc {
      multiset(refined + pick + [b]);
      multiset(refined) + multiset(pick) + multiset([b]);
      multiset(init) + multiset(picks) + multiset(pick) + multiset([b]);
      multiset(init + [b] + (picks + pick));
    }
  }

  /** The last entry of an increasing list is its greatest. */
  lemma LastIsGreatest(xs: seq<int>, v: int)
    requires StrictlyIncreasing(xs) && v in xs
    ensures v <= xs[|xs| - 1]
  {
    var i :| 0 <= i < |xs| && xs[i] == v;
    if i < |xs| - 1 {
      assert xs[i] < xs[|xs| - 1];
    }
  }

  /** An increasing list has one arrangement only: it is what `sort` makes of any list with its entries. */
  lemma {:induction false} SortedUnique(xs: seq<int>, ys: seq<int>)
    requires StrictlyIncreasing(xs) && StrictlyIncreasing(ys)
    requires multiset(xs) == multiset(ys)
    ensures xs == ys
    decreases |xs|
  {
    assert |xs| == |multiset(xs)| == |multiset(ys)| == |ys|;
    if xs != [] {
      var x, y := xs[|xs| - 1], ys[|ys| - 1];
      assert x in multiset(ys) && y in multiset(xs);
      LastIsGreatest(ys, x);
      LastIsGreatest(xs, y);
      var xi, yi := DropLast(xs), DropLast(ys);
      SortedUnique(xi, yi);
      assert xs == xi + [x] && ys == yi + [y];
    }
  }

  /** An increasing list without its last entry: still increasing, and holding the other entries. */
  function DropLast(xs: seq<int>): (r: seq<int>)
    requires StrictlyIncreasing(xs) && xs != []
    ensures StrictlyIncreasing(r) && xs == r + [xs[|xs| - 1]]
    ensures multiset(r) == multiset(xs) - multiset{xs[|xs| - 1]}
  {
    var r := xs[..|xs| - 1];
    assert xs == r + [xs[|xs| - 1]];
    r
  }

  /** An increasing list of indices from 0 to `n - 1` has at most `n` entries. */
  lemma {:induction false} IncreasingBounded(vs: seq<int>, n: int)
    requires StrictlyIncreasing(vs) && |vs| >= 1 && vs[0] == 0 && vs[|vs| - 1] == n - 1
    ensures |vs| <= n
  {
    var i := 0;
    while i < |vs| - 1
      invariant 0 <= i <= |vs| - 1
      invariant vs[i] >= i
    {
      i := i + 1;
    }
  }

  /** The gaps of `[0, n - 1]` for fewer than two vertices hold no vertex. */
  lemma ShortCurveNoPicks(alt: Altitude, n: nat, error: real)
    requires n < 2
    ensures Picks(alt, [0, n - 1], error) == []
  {
    assert [0, n - 1][..1] == [0];
  }

  /**
   * The one way to add the picks of every gap and sort: a strictly
   * increasing sequence holding exactly the kept indices and the picks is
   * `Refine` of them.
   */
  lemma RefineIsSorted(alt: Altitude, vs: seq<int>, error: real, ys: seq<int>)
    requires StrictlyIncreasing(vs) && |vs| >= 1 && vs[0] >= 0
    requires StrictlyIncreasing(ys) && multiset(ys) == multiset(vs + Picks(alt, vs, error))
    ensures ys == Refine(alt, vs, error)
  {
    RefineEntries(alt, vs, error);
    RefineIncreasing(alt, vs, error);
    SortedUnique(ys, Refine(alt, vs, error));
  }

  /** `Refine` applied `k` times to `[0, n - 1]`: the kept indices of `simplify_RDP` after `k` passes that added something. */
  ghost function RefineTimes(alt: Altitude, n: nat, error: real, k: nat): seq<int>
  {
    if k == 0 then [0, n - 1] else Refine(alt, RefineTimes(alt, n, error, k - 1), error)
  }

  /** A pass that picks nothing leaves the kept indices as they are. */
  lemma {:induction false} RefineStationary(alt: Altitude, vs: seq<int>, error: real)
    requires Picks(alt, vs, error) == []
    ensures Refine(alt, vs, error) == vs
  {
    if |vs| >= 2 {
      var pick := LastGapStep(alt, vs, error);
      RefineStationary(alt, vs[..|vs| - 1], error);
    }
  }

  /**
   * `simplify_RDP` over `n` vertices: starting from the first and last
   * vertex, each pass of `iterate` adds to the kept indices and sorts them,
   * until a pass adds nothing.
   */
  method SimplifyRdp(alt: Altitude, n: nat, error: real) returns (newVerts: seq<int>)
    ensures n < 2 ==> newVerts == [0, n - 1]
    ensures n >= 2 ==> (StrictlyIncreasing(newVerts) && |newVerts| >= 2 &&
      newVerts[0] == 0 && newVerts[|newVerts| - 1] == n - 1)
    ensures Picks(alt, newVerts, error) == []
    ensures exists k: nat :: newVerts == RefineTimes(alt, n, error, k)
  {
    newVerts := [0, n - 1];
    ghost var rounds: nat := 0;
    while true
      invariant n < 2 ==> newVerts == [0, n - 1]
      invariant n >= 2 ==> (StrictlyIncreasing(newVerts) && |newVerts| >= 2 &&
        newVerts[0] == 0 && newVerts[|newVerts| - 1] == n - 1)
      invariant newVerts == RefineTimes(alt, n, error, rounds)
      decreases if n >= 2 then n - |newVerts| else 0
    {
      var added := Iterate(alt, newVerts, error);
      if added.None? {
        return;
      }
      if n < 2 {
        ShortCurveNoPicks(alt, n, error);
        assert false;
      }
      IncreasingBounded(newVerts, n);
      RefineEnds(alt, newVerts, error);
      RefineIncreasing(alt, newVerts, error);
      newVerts := Refine(alt, newVerts, error);
      rounds := rounds + 1;
      IncreasingBounded(newVerts, n);
    }
  }

  /** When refinement stops, every vertex lies within `error` of the chord over its gap, or at no positive altitude. */
  lemma {:induction false} NoPicksWithinError(alt: Altitude, vs: seq<int>, error: real, k: nat, q: int)
    requires Picks(alt, vs, error) == [] && StrictlyIncreasing(vs) && |vs| >= 1 && vs[0] >= 0
    requires k + 1 < |vs| && vs[k] < q < vs[k + 1]
    ensures alt(vs[k], vs[k + 1], q) <= 0.0 || alt(vs[k], vs[k + 1], q) <= error
  {
    var init := vs[..|vs| - 1];
    var pick := LastGapStep(alt, vs, error);
    assert Picks(alt, init, error) == [] && pick == [];
    if k + 2 < |vs| {
      assert init[k] == vs[k] && init[k + 1] == vs[k + 1];
      NoPicksWithinError(alt, init, error, k, q);
    } else {
      assert vs[k] >= 0 by { if k > 0 { assert vs[0] < vs[k]; } }
      GapPickCharacterized(alt, vs[k], vs[k + 1], error);
    }
  }

  // ----------------------------------------------------------- simplypoly

  /** The distance `simplypoly` gives vertex `i` of `n`: its altitude over its neighbours, and 0 for the first and last vertex. */
  function Distance(alt: Altitude, n: nat, i: nat): real
  {
    if 0 < i < n - 1 then alt(i - 1, i + 1, i) else 0.0
  }

  /** `distances` in `simplypoly`: one entry per vertex (two for fewer than two vertices). */
  method Distances(alt: Altitude, n: nat) returns (distances: seq<real>)
    ensures |distances| == if n >= 2 then n else 2
    ensures forall i :: 0 <= i < |distances| ==> distances[i] == Distance(alt, n, i)
  {
    distances := [0.0];
    var inner := if n >= 2 then n - 2 else 0;
    for i := 0 to inner
      invariant |distances| == i + 1
      invariant forall k :: 0 <= k <= i ==> distances[k] == Distance(alt, n, k)
    {
      distances := distances + [alt(i, i + 2, i + 1)];
    }
    distances := distances + [0.0];
  }

  /** Whether `simplypoly` keeps vertex `i`. */
  predicate Keeps(curvatures: seq<real>, distances: seq<real>, kThresh: real, disError: real, i: nat)
    requires i < |curvatures| && i < |distances|
  {
    curvatures[i] > kThresh * 0.1 || distances[i] > disError * 0.1
  }

  /**
   * `simplypoly` with the averaged curvatures given: the first index, every
   * index whose curvature or distance is above its threshold in increasing
   * order, and the last index.
   */
  method SimplyPoly(alt: Altitude, curvatures: seq<real>, kThresh: real, disError: real)
    returns (newVerts: seq<int>)
    ensures |newVerts| >= 2 && newVerts[0] == 0 && newVerts[|newVerts| - 1] == |curvatures| - 1
    ensures forall j :: 1 <= j < |newVerts| - 1 ==> 0 <= newVerts[j] < |curvatures|
    ensures var kept := newVerts[1..|newVerts| - 1];
      StrictlyIncreasing(kept) &&
      forall i :: 0 <= i < |curvatures| ==>
        (i in kept <==> curvatures[i] > kThresh * 0.1 || Distance(alt, |curvatures|, i) > disError * 0.1)
  {
    var distances := Distances(alt, |curvatures|);
    var kept: seq<int> := [];
    for i := 0 to |curvatures|
      invariant StrictlyIncreasing(kept)
      invariant forall k :: 0 <= k < |kept| ==> 0 <= kept[k] < i
      invariant forall k :: 0 <= k < i ==> (k in kept <==> Keeps(curvatures, distances, kThresh, disError, k))
    {
      if curvatures[i] > kThresh * 0.1 || distances[i] > disError * 0.1 {
        kept := kept + [i];
      }
    }
    newVerts := [0] + kept + [|curvatures| - 1];
    assert newVerts[1..|newVerts| - 1] == kept;
  }

  // --------------------------------------------------------- vertsToPoints

  datatype Vector = Vector(x: real, y: real, z: real)

  /** The numbers one vertex contributes: 3 coordinates for BEZIER, then a weight 1 for NURBS and 0 otherwise. */
  function PointOf(v: Vector, splineType: string): (r: seq<real>)
    ensures |r| == Stride(splineType)
  {
    if splineType == "BEZIER" then [v.x, v.y, v.z]
    else if splineType == "NURBS" then [v.x, v.y, v.z, 1.0]
    else [v.x, v.y, v.z, 0.0]
  }

  function Stride(splineType: string): nat
  {
    if splineType == "BEZIER" then 3 else 4
  }

  /** The kept vertices packed in the order of `newVerts`. */
  function Pack(newVerts: seq<int>, splineVerts: seq<Vector>, splineType: string): seq<real>
    requires forall j :: 0 <= j < |newVerts| ==> 0 <= newVerts[j] < |splineVerts|
  {
    if newVerts == [] then []
    else Pack(newVerts[..|newVerts| - 1], splineVerts, splineType) +
         PointOf(splineVerts[newVerts[|newVerts| - 1]], splineType)
  }

  /** `vertsToPoints`. */
  method VertsToPoints(newVerts: seq<int>, splineVerts: seq<Vector>, splineType: string) returns (newPoints: seq<real>)
    requires forall j :: 0 <= j < |newVerts| ==> 0 <= newVerts[j] < |splineVerts|
    ensures newPoints == Pack(newVerts, splineVerts, splineType)
  {
    newPoints := [];
    if splineType == "BEZIER" {
      for j := 0 to |newVerts|
        invariant newPoints == Pack(newVerts[..j], splineVerts, splineType)
      {
        var v := splineVerts[newVerts[j]];
        newPoints := newPoints + [v.x, v.y, v.z];
        assert newVerts[..j + 1][..j] == newVerts[..j];
      }
    } else {
      for j := 0 to |newVerts|
        invariant newPoints == Pack(newVerts[..j], splineVerts, splineType)
      {
        var v := splineVerts[newVerts[j]];
        newPoints := newPoints + [v.x, v.y, v.z];
        if splineType == "NURBS" {
          newPoints := newPoints + [1.0];
        } else {
          newPoints := newPoints + [0.0];
        }
        assert newVerts[..j + 1][..j] == newVerts[..j];
      }
    }
    assert newVerts[..|newVerts|] == newVerts;
  }

  /** Vertex `j` of `newVerts` fills entries `Stride * j` onwards, in order, and nothing else is packed. */
  lemma {:induction false} PackLayout(newVerts: seq<int>, splineVerts: seq<Vector>, splineType: string, j: nat, c: nat)
    requires forall i :: 0 <= i < |newVerts| ==> 0 <= newVerts[i] < |splineVerts|
    requires j < |newVerts| && c < Stride(splineType)
    ensures |Pack(newVerts, splineVerts, splineType)| == Stride(splineType) * |newVerts|
    ensures Pack(newVerts, splineVerts, splineType)[Stride(splineType) * j + c] ==
            PointOf(splineVerts[newVerts[j]], splineType)[c]
  {
    var init := newVerts[..|newVerts| - 1];
    var s := Stride(splineType);
    PackLength(init, splineVerts, splineType);
    if j < |newVerts| - 1 {
      PackLayout(init, splineVerts, splineType, j, c);
      assert s * j + c < s * |init| by {
        assert s * j + s <= s * |init|;
      }
    } else {
      assert s * j == s * |init|;
    }
  }

  lemma {:induction false} PackLength(newVerts: seq<int>, splineVerts: seq<Vector>, splineType: string)
    requires forall i :: 0 <= i < |newVerts| ==> 0 <= newVerts[i] < |splineVerts|
    ensures |Pack(newVerts, splineVerts, splineType)| == Stride(splineType) * |newVerts|
  {
    if newVerts != [] {
      PackLength(newVerts[..|newVerts| - 1], splineVerts, splineType);
    }
  }
}
