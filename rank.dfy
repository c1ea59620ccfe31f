/**
 * The mathematics every per-node engine implements, over real numbers:
 * one sweep maps the old generation of scores to the new one, and the
 * convergence distance is the sum of squared per-page differences.
 */
module Rank {
  import opened Graph

  /** a^k, the `pow` of the C math library at a natural exponent. */
  function Pow(a: real, k: nat): real
  {
    if k == 0 then 1.0 else a * Pow(a, k - 1)
  }

  /** The square of a per-page difference, written `pow(a, 2)` in some engines and `a * a` in others. */
  function Sq(a: real): real { Pow(a, 2) }

  /** `pow(a, 2)` and `a * a` are the same real number. */
  lemma SqIsProduct(a: real)
    ensures Sq(a) == a * a
  {
    calc {
      Sq(a);
      Pow(a, 2);
      a * Pow(a, 1);
      a * (a * Pow(a, 0));
      a * a;
    }
  }

  /** The dampening value (1 - d) / n every new slot starts from. */
  function Baseline(d: real, n: nat): real
    requires n > 0
  {
    (1.0 - d) / (n as real)
  }

  /** Sum over `srcs`, front to back, of v[src] / noutlinks(src): the `total` of the inlink loop. */
  function Inflow(pages: seq<Page>, v: seq<real>, srcs: seq<nat>): real
    requires |v| == |pages| && SourcesOk(pages, srcs)
    decreases |srcs|
  {
    if srcs == [] then 0.0
    else
      var last := srcs[|srcs| - 1];
      Inflow(pages, v, srcs[..|srcs| - 1]) + v[last] / (pages[last].noutlinks as real)
  }

  /** What page i gains on top of the baseline: d times its inflow, or nothing when it has no inlinks. */
  function Gain(pages: seq<Page>, d: real, v: seq<real>, i: nat): real
    requires WellFormed(pages) && |v| == |pages| && i < |pages|
  {
    var inl := pages[i].inlinks;
    if inl == [] then 0.0 else Inflow(pages, v, inl) * d
  }

  /** New score of page i: the baseline plus its gain. */
  function NewScore(pages: seq<Page>, d: real, v: seq<real>, i: nat): real
    requires WellFormed(pages) && |v| == |pages| && i < |pages|
  {
    Baseline(d, |pages|) + Gain(pages, d, v, i)
  }

  /** One sweep: the new generation computed from the old generation `v` alone. */
  function Sweep(pages: seq<Page>, d: real, v: seq<real>): (r: seq<real>)
    requires WellFormed(pages) && |v| == |pages| && |pages| > 0
    ensures |r| == |pages|
  {
    SweepUpTo(pages, d, v, |pages|)
  }

  /** The new scores of pages 0 .. k-1, in the order the sweep loop visits them. */
  function SweepUpTo(pages: seq<Page>, d: real, v: seq<real>, k: nat): (r: seq<real>)
    requires WellFormed(pages) && |v| == |pages| && k <= |pages|
    ensures |r| == k
    ensures forall i :: 0 <= i < k ==> r[i] == NewScore(pages, d, v, i)
  {
    if k == 0 then [] else SweepUpTo(pages, d, v, k - 1) + [NewScore(pages, d, v, k - 1)]
  }

  /** n copies of c. */
  function Constant(n: nat, c: real): (r: seq<real>)
    ensures |r| == n && forall i :: 0 <= i < n ==> r[i] == c
  {
    if n == 0 then [] else Constant(n - 1, c) + [c]
  }

  /** Every page's score before the first sweep: 1 / n. */
  function Uniform(n: nat): (r: seq<real>)
    requires n > 0
    ensures |r| == n
  {
    Constant(n, 1.0 / (n as real))
  }

  function Zeros(n: nat): (r: seq<real>)
    ensures |r| == n
  {
    Constant(n, 0.0)
  }

  /** The scores after k sweeps starting from the uniform vector. */
  function Iterate(pages: seq<Page>, d: real, k: nat): (r: seq<real>)
    requires WellFormed(pages) && |pages| > 0
    ensures |r| == |pages|
  {
    if k == 0 then Uniform(|pages|) else Sweep(pages, d, Iterate(pages, d, k - 1))
  }

  /** Sum of the elements, added front to back. */
  function Sum(s: seq<real>): real
  {
    if s == [] then 0.0 else Sum(s[..|s| - 1]) + s[|s| - 1]
  }

  /** Sum of squared differences over the first k positions. */
  function SqDistUpTo(a: seq<real>, b: seq<real>, k: nat): real
    requires |a| == |b| && k <= |a|
  {
    if k == 0 then 0.0 else SqDistUpTo(a, b, k - 1) + Sq(a[k - 1] - b[k - 1])
  }

  /** The convergence distance before the square root: sum of (a[i] - b[i])^2 over all pages. */
  function SqDist(a: seq<real>, b: seq<real>): real
    requires |a| == |b|
  {
    SqDistUpTo(a, b, |a|)
  }

  /** The same sum restricted to pages that have inlinks, over the first k positions. */
  function PartialSqDistUpTo(pages: seq<Page>, a: seq<real>, b: seq<real>, k: nat): real
    requires |a| == |b| == |pages| && k <= |a|
  {
    if k == 0 then 0.0
    else PartialSqDistUpTo(pages, a, b, k - 1) + (if pages[k - 1].inlinks == [] then 0.0 else Sq(a[k - 1] - b[k - 1]))
  }

  function PartialSqDist(pages: seq<Page>, a: seq<real>, b: seq<real>): real
    requires |a| == |b| == |pages|
  {
    PartialSqDistUpTo(pages, a, b, |a|)
  }

  /** The squared distance the loop test sees after k sweeps; before the first sweep it is 1. */
  function DistanceAfter(pages: seq<Page>, d: real, k: nat): real
    requires WellFormed(pages) && |pages| > 0
  {
    if k == 0 then 1.0 else SqDist(Iterate(pages, d, k), Iterate(pages, d, k - 1))
  }

  /** The same for the copying engine, whose distance skips pages without inlinks. */
  function PartialDistanceAfter(pages: seq<Page>, d: real, k: nat): real
    requires WellFormed(pages) && |pages| > 0
  {
    if k == 0 then 1.0 else PartialSqDist(pages, Iterate(pages, d, k), Iterate(pages, d, k - 1))
  }

  /** The loop test `distance > threshold` held before each of the first s sweeps. */
  predicate AboveUntil(pages: seq<Page>, d: real, threshold: real, s: nat)
    requires WellFormed(pages) && |pages| > 0
  {
    s == 0 || (AboveUntil(pages, d, threshold, s - 1) && DistanceAfter(pages, d, s - 1) > threshold)
  }

  /** The same for the copying engine's distance. */
  predicate PartialAboveUntil(pages: seq<Page>, d: real, threshold: real, s: nat)
    requires WellFormed(pages) && |pages| > 0
  {
    s == 0 || (PartialAboveUntil(pages, d, threshold, s - 1) && PartialDistanceAfter(pages, d, s - 1) > threshold)
  }

  /**
   * The loop `while (distance > threshold)`, cut off after at most maxSweeps sweeps,
   * stopped after exactly `sweeps` sweeps.
   */
  predicate HaltsAfter(pages: seq<Page>, d: real, threshold: real, maxSweeps: nat, sweeps: nat)
    requires WellFormed(pages) && |pages| > 0
  {
    && sweeps <= maxSweeps
    && AboveUntil(pages, d, threshold, sweeps)
    && (sweeps < maxSweeps ==> DistanceAfter(pages, d, sweeps) <= threshold)
  }

  predicate HaltsAfterPartial(pages: seq<Page>, d: real, threshold: real, maxSweeps: nat, sweeps: nat)
    requires WellFormed(pages) && |pages| > 0
  {
    && sweeps <= maxSweeps
    && PartialAboveUntil(pages, d, threshold, sweeps)
    && (sweeps < maxSweeps ==> PartialDistanceAfter(pages, d, sweeps) <= threshold)
  }

  /** AboveUntil says that every one of the first s distances exceeded the threshold. */
  lemma {:induction false} AboveUntilEveryEarlierSweep(pages: seq<Page>, d: real, threshold: real, s: nat)
    requires WellFormed(pages) && |pages| > 0
    ensures AboveUntil(pages, d, threshold, s) <==> forall j :: 0 <= j < s ==> DistanceAfter(pages, d, j) > threshold
  {
    if s > 0 {
      AboveUntilEveryEarlierSweep(pages, d, threshold, s - 1);
    }
  }

  lemma {:induction false} PartialAboveUntilEveryEarlierSweep(pages: seq<Page>, d: real, threshold: real, s: nat)
    requires WellFormed(pages) && |pages| > 0
    ensures PartialAboveUntil(pages, d, threshold, s) <==>
      forall j :: 0 <= j < s ==> PartialDistanceAfter(pages, d, j) > threshold
  {
    if s > 0 {
      PartialAboveUntilEveryEarlierSweep(pages, d, threshold, s - 1);
    }
  }

  // ---------------------------------------------------------------------------
  // Properties of one sweep
  // ---------------------------------------------------------------------------

  /** A page without inlinks gets exactly the baseline, whatever the old generation holds. */
  lemma SweepWithoutInlinks(pages: seq<Page>, d: real, v: seq<real>, i: nat)
    requires WellFormed(pages) && |v| == |pages| && i < |pages| && pages[i].inlinks == []
    ensures Sweep(pages, d, v)[i] == Baseline(d, |pages|)
  {
  }

  /** The inflow reads the old generation only at the listed sources. */
  lemma {:induction false} InflowReadsOnlySources(pages: seq<Page>, v: seq<real>, w: seq<real>, srcs: seq<nat>)
    requires |v| == |w| == |pages| && SourcesOk(pages, srcs)
    requires forall k :: 0 <= k < |srcs| ==> v[srcs[k]] == w[srcs[k]]
    ensures Inflow(pages, v, srcs) == Inflow(pages, w, srcs)
    decreases |srcs|
  {
    if srcs != [] {
      InflowReadsOnlySources(pages, v, w, srcs[..|srcs| - 1]);
    }
  }

  /**
   * A page's new score depends only on the old scores of its inlink sources:
   * no page reads another page's new slot, so the sweep order does not matter.
   */
  lemma SweepReadsOnlyInlinkSources(pages: seq<Page>, d: real, v: seq<real>, w: seq<real>, i: nat)
    requires WellFormed(pages) && |v| == |w| == |pages| && i < |pages|
    requires forall k :: 0 <= k < |pages[i].inlinks| ==> v[pages[i].inlinks[k]] == w[pages[i].inlinks[k]]
    ensures Sweep(pages, d, v)[i] == Sweep(pages, d, w)[i]
  {
    InflowReadsOnlySources(pages, v, w, pages[i].inlinks);
  }

  lemma {:induction false} InflowNonNegative(pages: seq<Page>, v: seq<real>, srcs: seq<nat>)
    requires |v| == |pages| && SourcesOk(pages, srcs)
    requires forall k :: 0 <= k < |v| ==> v[k] >= 0.0
    ensures Inflow(pages, v, srcs) >= 0.0
    decreases |srcs|
  {
    if srcs != [] {
      InflowNonNegative(pages, v, srcs[..|srcs| - 1]);
    }
  }

  /** With 0 < d <= 1, a sweep keeps every score non-negative. */
  lemma SweepNonNegative(pages: seq<Page>, d: real, v: seq<real>)
    requires WellFormed(pages) && |v| == |pages| && |pages| > 0
    requires 0.0 < d <= 1.0
    requires forall k :: 0 <= k < |v| ==> v[k] >= 0.0
    ensures forall i :: 0 <= i < |pages| ==> Sweep(pages, d, v)[i] >= 0.0
  {
    forall i | 0 <= i < |pages|
      ensures Sweep(pages, d, v)[i] >= 0.0
    {
      InflowNonNegative(pages, v, pages[i].inlinks);
    }
  }

  /** With 0 < d <= 1, every generation the engines produce is non-negative. */
  lemma {:induction false} IterateNonNegative(pages: seq<Page>, d: real, k: nat)
    requires WellFormed(pages) && |pages| > 0 && 0.0 < d <= 1.0
    ensures forall i :: 0 <= i < |pages| ==> Iterate(pages, d, k)[i] >= 0.0
  {
    if k > 0 {
      IterateNonNegative(pages, d, k - 1);
      SweepNonNegative(pages, d, Iterate(pages, d, k - 1));
    }
  }

  // ---------------------------------------------------------------------------
  // Properties of the convergence distance
  // ---------------------------------------------------------------------------

  lemma MulPositive(x: real, y: real)
    requires x > 0.0 && y > 0.0
    ensures x * y > 0.0
  {
  }

  lemma SqPositive(x: real)
    ensures Sq(x) >= 0.0
    ensures x != 0.0 ==> Sq(x) > 0.0
  {
    SqIsProduct(x);
    if x > 0.0 {
      calc { Sq(x); x * x; > { MulPositive(x, x); } 0.0; }
    } else if x < 0.0 {
      calc { Sq(x); x * x; (-x) * (-x); > { MulPositive(-x, -x); } 0.0; }
    }
  }

  lemma {:induction false} SqDistUpToNonNegative(a: seq<real>, b: seq<real>, k: nat)
    requires |a| == |b| && k <= |a|
    ensures SqDistUpTo(a, b, k) >= 0.0
    ensures SqDistUpTo(a, b, k) == 0.0 <==> forall i :: 0 <= i < k ==> a[i] == b[i]
  {
    if k > 0 {
      SqDistUpToNonNegative(a, b, k - 1);
      SqPositive(a[k - 1] - b[k - 1]);
    }
  }

  /** The distance is non-negative, and it is zero exactly when the two generations are equal. */
  lemma SqDistZeroIffEqual(a: seq<real>, b: seq<real>)
    requires |a| == |b|
    ensures SqDist(a, b) >= 0.0
    ensures SqDist(a, b) == 0.0 <==> a == b
  {
    SqDistUpToNonNegative(a, b, |a|);
    if SqDist(a, b) == 0.0 {
      assert forall i :: 0 <= i < |a| ==> a[i] == b[i];
    }
  }

  lemma {:induction false} PartialSqDistUpToBounds(pages: seq<Page>, a: seq<real>, b: seq<real>, k: nat)
    requires |a| == |b| == |pages| && k <= |a|
    ensures 0.0 <= PartialSqDistUpTo(pages, a, b, k) <= SqDistUpTo(a, b, k)
    ensures (forall i :: 0 <= i < k && pages[i].inlinks == [] ==> a[i] == b[i])
        ==> PartialSqDistUpTo(pages, a, b, k) == SqDistUpTo(a, b, k)
  {
    if k > 0 {
      PartialSqDistUpToBounds(pages, a, b, k - 1);
      SqPositive(a[k - 1] - b[k - 1]);
    }
  }

  /**
   * The copying engine's distance skips pages without inlinks: it is never more
   * than the full distance, and from the second sweep on the two agree, since a
   * page without inlinks keeps the baseline after its first sweep.
   */
  lemma PartialSqDistAfterFirstSweep(pages: seq<Page>, d: real, v: seq<real>)
    requires WellFormed(pages) && |v| == |pages| && |pages| > 0
    ensures 0.0 <= PartialSqDist(pages, Sweep(pages, d, v), v) <= SqDist(Sweep(pages, d, v), v)
    ensures PartialSqDist(pages, Sweep(pages, d, Sweep(pages, d, v)), Sweep(pages, d, v))
         == SqDist(Sweep(pages, d, Sweep(pages, d, v)), Sweep(pages, d, v))
  {
    var w := Sweep(pages, d, v);
    PartialSqDistUpToBounds(pages, w, v, |pages|);
    PartialSqDistUpToBounds(pages, Sweep(pages, d, w), w, |pages|);
  }

  /** The same, stated for the generations the engines produce. */
  lemma PartialDistanceAgreesFromSecondSweep(pages: seq<Page>, d: real, k: nat)
    requires WellFormed(pages) && |pages| > 0 && k >= 2
    ensures PartialDistanceAfter(pages, d, k) == DistanceAfter(pages, d, k)
  {
    PartialSqDistAfterFirstSweep(pages, d, Iterate(pages, d, k - 2));
  }

  // ---------------------------------------------------------------------------
  // Concrete graphs
  // ---------------------------------------------------------------------------

  lemma {:induction false} SumOfConstant(c: real, s: seq<real>)
    requires forall i :: 0 <= i < |s| ==> s[i] == c
    ensures Sum(s) == (|s| as real) * c
  {
    if s != [] {
      SumOfConstant(c, s[..|s| - 1]);
    }
  }

  /** The starting vector sums to 1. */
  lemma UniformSumsToOne(n: nat)
    requires n > 0
    ensures Sum(Uniform(n)) == 1.0
  {
    SumOfConstant(1.0 / (n as real), Uniform(n));
  }

  /** When A (out-degree 1) is B's only in-neighbour, B's new score is (1-d)/n + d * A's old score. */
  lemma SoleInNeighbour(pages: seq<Page>, d: real, v: seq<real>, a: nat, b: nat)
    requires WellFormed(pages) && |v| == |pages| && a < |pages| && b < |pages|
    requires pages[b].inlinks == [a] && pages[a].noutlinks == 1
    ensures Sweep(pages, d, v)[b] == Baseline(d, |pages|) + d * v[a]
  {
    assert [a][..0] == [];
    assert Inflow(pages, v, [a]) == v[a] / 1.0;
  }

  /** The three-page cycle 0 -> 1 -> 2 -> 0: the uniform vector 1/3 is a fixed point of the sweep. */
  lemma CycleUniformIsFixedPoint(d: real)
    ensures var pages := [Page(1, [2]), Page(1, [0]), Page(1, [1])];
      WellFormed(pages) && Sweep(pages, d, Uniform(3)) == Uniform(3)
  {
    var pages := [Page(1, [2]), Page(1, [0]), Page(1, [1])];
    forall i | 0 <= i < 3
      ensures Sweep(pages, d, Uniform(3))[i] == Uniform(3)[i]
    {
      SoleInNeighbour(pages, d, Uniform(3), if i == 0 then 2 else i - 1, i);
    }
  }

  /**
   * Adding up per-page stored squared gaps (the `difference` field) front to back
   * gives the squared distance over the same pages.
   */
  lemma {:induction false} SumOfSquaredGaps(s: seq<real>, a: seq<real>, b: seq<real>, k: nat)
    requires |s| == |a| == |b| && k <= |s|
    requires forall j :: 0 <= j < |s| ==> s[j] == Sq(a[j] - b[j])
    ensures Sum(s[..k]) == SqDistUpTo(a, b, k)
  {
    if k == 0 {
      assert s[..0] == [];
    } else {
      SumOfSquaredGaps(s, a, b, k - 1);
      assert s[..k][..k - 1] == s[..k - 1];
    }
  }

  /**
   * The rooted engines test sqrt(sum) > epsilon.  For the root r >= 0 of the sum and
   * epsilon > 0 this is the same test as r * r > epsilon * epsilon, which is why the
   * model keeps the sum and compares it with epsilon^2.
   */
  lemma RootComparison(r: real, epsilon: real)
    requires r >= 0.0 && epsilon > 0.0
    ensures r > epsilon <==> r * r > epsilon * epsilon
  {
    if r > epsilon {
      calc {
        r * r;
        > { MulPositive(r - epsilon, r); }
        epsilon * r;
        >= { MulPositive(r - epsilon, epsilon); }
        epsilon * epsilon;
      }
    } else if r < epsilon {
      calc {
        epsilon * epsilon;
        > { MulPositive(epsilon - r, epsilon); }
        r * epsilon;
        >= { if r > 0.0 { MulPositive(epsilon - r, r); } }
        r * r;
      }
    }
  }
}
