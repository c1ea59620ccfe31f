/**
 * The dense-matrix formulation of the iteration: the n x n transition matrix
 * the matrix engine builds from the inlink lists and patches on dangling
 * columns, one matrix-vector step, and what that step preserves.  Row i of
 * the matrix belongs to the page whose score it computes, column j to the
 * page whose old score it reads.
 */
module Transition {
  import opened Graph
  import opened Rank

  // ---------------------------------------------------------------------------
  // Row-major layout of a flat matrix
  // ---------------------------------------------------------------------------

  /** Offset of row i in a row-major matrix whose rows are w entries wide (i * w, built row by row). */
  function RowStart(w: nat, i: nat): nat
  {
    if i == 0 then 0 else RowStart(w, i - 1) + w
  }

  /** The row offset is the product `i * w` of the C indexing expressions. */
  lemma {:induction false} RowStartIsProduct(w: nat, i: nat)
    ensures RowStart(w, i) == i * w
  {
    if i > 0 {
      RowStartIsProduct(w, i - 1);
      assert (i - 1) * w + w == i * w;
    }
  }

  /** Rows follow one another: row i ends before row j starts. */
  lemma {:induction false} RowStartsApart(w: nat, i: nat, j: nat)
    requires i < j
    ensures RowStart(w, i) + w <= RowStart(w, j)
    decreases j
  {
    if i + 1 < j {
      RowStartsApart(w, i, j - 1);
    }
  }

  /** Cell (i, c) of an n x n matrix is one of its n * n entries. */
  lemma {:induction false} CellInside(n: nat, i: nat, c: nat)
    requires i < n && c < n
    ensures RowStart(n, i) + c < n * n
  {
    RowStartsApart(n, i, n);
    RowStartIsProduct(n, n);
  }

  /** Distinct cells of a matrix with rows n wide have distinct offsets. */
  lemma {:induction false} CellsDistinct(n: nat, i: nat, c: nat, i2: nat, c2: nat)
    requires c < n && c2 < n && (i != i2 || c != c2)
    ensures RowStart(n, i) + c != RowStart(n, i2) + c2
  {
    if i < i2 {
      RowStartsApart(n, i, i2);
    } else if i2 < i {
      RowStartsApart(n, i2, i);
    }
  }

  // ---------------------------------------------------------------------------
  // Even shares
  //
  // The build writes `d / noutlinks` and the fill `d / npages`.  The model names
  // that quotient by what it means, the amount of which c copies add up to d,
  // so that a column sum reduces to counting copies by addition.  Division by a
  // variable then stays out of the column-sum proofs, and ShareIsQuotient ties
  // the share back to the quotient the C code computes.  Copies counts with a
  // nat rather than summing a sequence, for the same reason.
  // ---------------------------------------------------------------------------

  /** c copies of w added up. */
  function Copies(c: nat, w: real): real
  {
    if c == 0 then 0.0 else Copies(c - 1, w) + w
  }

  /** c copies of w add up to c * w. */
  lemma {:induction false} CopiesIsProduct(c: nat, w: real)
    ensures Copies(c, w) == (c as real) * w
  {
    if c > 0 {
      CopiesIsProduct(c - 1, w);
      assert ((c - 1) as real) * w + w == (c as real) * w;
    }
  }

  /**
   * The share of d that each of c parts receives when d is split evenly: the
   * amount of which c copies add up to d.
   */
  ghost function Share(d: real, c: nat): (w: real)
    requires c > 0
    ensures Copies(c, w) == d
  {
    CopiesIsProduct(c, d / (c as real));
    var w :| Copies(c, w) == d; w
  }

  /** The share is the quotient d / c the C code computes. */
  lemma {:induction false} ShareIsQuotient(d: real, c: nat)
    requires c > 0
    ensures Share(d, c) == d / (c as real)
  {
    CopiesIsProduct(c, Share(d, c));
  }

  /** A positive amount gives every part a positive share. */
  lemma {:induction false} SharePositive(d: real, c: nat)
    requires c > 0 && d > 0.0
    ensures Share(d, c) > 0.0
  {
    ShareIsQuotient(d, c);
  }

  /** Scaling a score by a share of d is scaling the score's share by d. */
  lemma {:induction false} ScaledShare(a: real, d: real, c: nat)
    requires c > 0
    ensures a * Share(d, c) == (a / (c as real)) * d
  {
    ShareIsQuotient(d, c);
  }

  // ---------------------------------------------------------------------------
  // The transition matrix
  // ---------------------------------------------------------------------------

  /**
   * Entry (i, j) as the build loop leaves it: d / noutlinks(j) where page j links
   * to page i, 0 elsewhere.  On a well-formed graph every listed source has
   * outbound links (ListedHasOutlinks), so the test on noutlinks never fails there.
   */
  ghost function LinkEntry(pages: seq<Page>, d: real, i: nat, j: nat): real
    requires i < |pages| && j < |pages|
  {
    if j in pages[i].inlinks && pages[j].noutlinks > 0 then Share(d, pages[j].noutlinks) else 0.0
  }

  /**
   * Entry (i, j) of the matrix the iteration multiplies by: a column no page
   * links from (a dangling page) is d / n in every row; other columns keep
   * their link entries.
   */
  ghost function Entry(pages: seq<Page>, d: real, i: nat, j: nat): real
    requires i < |pages| && j < |pages|
  {
    if InCount(pages, j, |pages|) == 0 then Share(d, |pages|) else LinkEntry(pages, d, i, j)
  }

  /** Rows of a matrix, each as long as there are rows. */
  predicate IsSquare(e: seq<seq<real>>)
  {
    forall y :: 0 <= y < |e| ==> |e[y]| == |e|
  }

  /** The patched transition matrix, row by row. */
  ghost function TransitionMatrix(pages: seq<Page>, d: real): (e: seq<seq<real>>)
    ensures |e| == |pages| && IsSquare(e)
    ensures forall y, x {:trigger Entry(pages, d, y, x)} :: 0 <= y < |pages| && 0 <= x < |pages| ==> e[y][x] == Entry(pages, d, y, x)
  {
    seq(|pages|, y requires 0 <= y < |pages| => seq(|pages|, x requires 0 <= x < |pages| => Entry(pages, d, y, x)))
  }

  /** A page that some page lists as an inlink has outbound links. */
  lemma {:induction false} ListedHasOutlinks(pages: seq<Page>, i: nat, j: nat)
    requires WellFormed(pages) && i < |pages| && j in pages[i].inlinks
    ensures pages[j].noutlinks > 0
  {
    var k :| 0 <= k < |pages[i].inlinks| && pages[i].inlinks[k] == j;
  }

  /** With d > 0 a link entry is non-zero exactly where page j links to page i. */
  lemma {:induction false} LinkEntryNonZero(pages: seq<Page>, d: real, i: nat, j: nat)
    requires WellFormed(pages) && i < |pages| && j < |pages| && d > 0.0
    ensures LinkEntry(pages, d, i, j) != 0.0 <==> j in pages[i].inlinks
  {
    if j in pages[i].inlinks {
      ListedHasOutlinks(pages, i, j);
      SharePositive(d, pages[j].noutlinks);
    }
  }

  /**
   * With d > 0, column j of the built matrix is all zero exactly when no page
   * lists j among its inlinks: the fill loop's zero test finds the dangling pages.
   */
  lemma {:induction false} ZeroColumnIffDangling(pages: seq<Page>, d: real, j: nat)
    requires WellFormed(pages) && j < |pages| && d > 0.0
    ensures (forall i :: 0 <= i < |pages| ==> LinkEntry(pages, d, i, j) == 0.0) <==> InCount(pages, j, |pages|) == 0
  {
    forall i | 0 <= i < |pages|
      ensures LinkEntry(pages, d, i, j) != 0.0 <==> j in pages[i].inlinks
    {
      LinkEntryNonZero(pages, d, i, j);
    }
  }

  // ---------------------------------------------------------------------------
  // Column sums
  // ---------------------------------------------------------------------------

  /** Sum of the first k entries of column j. */
  function ColumnSum(e: seq<seq<real>>, j: nat, k: nat): real
    requires IsSquare(e) && j < |e| && k <= |e|
  {
    if k == 0 then 0.0 else ColumnSum(e, j, k - 1) + e[k - 1][j]
  }

  /** Down a linked column every page listing j contributes one share of d among noutlinks(j). */
  lemma {:induction false} LinkedColumnSum(pages: seq<Page>, d: real, j: nat, k: nat)
    requires j < |pages| && k <= |pages| && pages[j].noutlinks > 0
    requires InCount(pages, j, |pages|) > 0
    ensures ColumnSum(TransitionMatrix(pages, d), j, k) == Copies(InCount(pages, j, k), Share(d, pages[j].noutlinks))
  {
    if k > 0 {
      LinkedColumnSum(pages, d, j, k - 1);
    }
  }

  /** Down a dangling column every row contributes one share of d among n. */
  lemma {:induction false} DanglingColumnSum(pages: seq<Page>, d: real, j: nat, k: nat)
    requires j < |pages| && k <= |pages| && InCount(pages, j, |pages|) == 0
    ensures ColumnSum(TransitionMatrix(pages, d), j, k) == Copies(k, Share(d, |pages|))
  {
    if k > 0 {
      DanglingColumnSum(pages, d, j, k - 1);
    }
  }

  /**
   * When every page's out-degree is the number of pages listing it, every
   * column of the patched matrix sums to d.
   */
  lemma {:induction false} ColumnSumIsDampener(pages: seq<Page>, d: real, j: nat)
    requires ConsistentOutDegrees(pages) && j < |pages|
    ensures ColumnSum(TransitionMatrix(pages, d), j, |pages|) == d
  {
    if InCount(pages, j, |pages|) == 0 {
      DanglingColumnSum(pages, d, j, |pages|);
    } else {
      LinkedColumnSum(pages, d, j, |pages|);
    }
  }

  // ---------------------------------------------------------------------------
  // One step of the matrix engine
  // ---------------------------------------------------------------------------

  /** Row y of the matrix times the old scores over columns 0 .. k-1, added for x ascending. */
  function EntryDot(e: seq<seq<real>>, y: nat, v: seq<real>, k: nat): real
    requires IsSquare(e) && y < |e| && |v| == |e| && k <= |e|
  {
    if k == 0 then 0.0 else EntryDot(e, y, v, k - 1) + v[k - 1] * e[y][k - 1]
  }

  /** Rows 0 .. k-1 of one step by matrix e: the baseline b plus the row times the old scores. */
  function StepUpTo(e: seq<seq<real>>, b: real, v: seq<real>, k: nat): (r: seq<real>)
    requires IsSquare(e) && |v| == |e| && k <= |e|
    ensures |r| == k
    ensures forall y :: 0 <= y < k ==> r[y] == b + EntryDot(e, y, v, |e|)
  {
    if k == 0 then [] else StepUpTo(e, b, v, k - 1) + [b + EntryDot(e, k - 1, v, |e|)]
  }

  /** One step of the matrix engine: the new score vector from the old one, (1-d)/n plus the matrix times it. */
  ghost function MatStep(pages: seq<Page>, d: real, v: seq<real>): (r: seq<real>)
    requires |v| == |pages| > 0
    ensures |r| == |pages|
  {
    StepUpTo(TransitionMatrix(pages, d), Baseline(d, |pages|), v, |pages|)
  }

  /** The score vector after k steps from the uniform vector. */
  ghost function MatIterate(pages: seq<Page>, d: real, k: nat): (r: seq<real>)
    requires |pages| > 0
    ensures |r| == |pages|
  {
    if k == 0 then Uniform(|pages|) else MatStep(pages, d, MatIterate(pages, d, k - 1))
  }

  /** The squared distance the matrix engine's loop test sees after k steps; 1 before the first. */
  ghost function MatDistanceAfter(pages: seq<Page>, d: real, k: nat): real
    requires |pages| > 0
  {
    if k == 0 then 1.0 else SqDist(MatIterate(pages, d, k), MatIterate(pages, d, k - 1))
  }

  /** The loop test held before each of the first s steps. */
  ghost predicate MatAboveUntil(pages: seq<Page>, d: real, threshold: real, s: nat)
    requires |pages| > 0
  {
    s == 0 || (MatAboveUntil(pages, d, threshold, s - 1) && MatDistanceAfter(pages, d, s - 1) > threshold)
  }

  /** The matrix engine's loop, cut off after at most maxSweeps steps, stopped after exactly `sweeps`. */
  ghost predicate MatHaltsAfter(pages: seq<Page>, d: real, threshold: real, maxSweeps: nat, sweeps: nat)
    requires |pages| > 0
  {
    && sweeps <= maxSweeps
    && MatAboveUntil(pages, d, threshold, sweeps)
    && (sweeps < maxSweeps ==> MatDistanceAfter(pages, d, sweeps) <= threshold)
  }

  lemma {:induction false} MatAboveUntilEveryEarlierStep(pages: seq<Page>, d: real, threshold: real, s: nat)
    requires |pages| > 0
    ensures MatAboveUntil(pages, d, threshold, s) <==>
      forall j :: 0 <= j < s ==> MatDistanceAfter(pages, d, j) > threshold
  {
    if s > 0 {
      MatAboveUntilEveryEarlierStep(pages, d, threshold, s - 1);
    }
  }

  // ---------------------------------------------------------------------------
  // Mass preservation
  // ---------------------------------------------------------------------------

  /** Σ_{x<m} v[x] * (sum of the first k entries of column x). */
  function WeightedColumnSums(e: seq<seq<real>>, v: seq<real>, k: nat, m: nat): real
    requires IsSquare(e) && |v| == |e| && k <= |e| && m <= |e|
  {
    if m == 0 then 0.0 else WeightedColumnSums(e, v, k, m - 1) + v[m - 1] * ColumnSum(e, m - 1, k)
  }

  /** Σ_{y<k} of row y times the old scores. */
  function RowProducts(e: seq<seq<real>>, v: seq<real>, k: nat): real
    requires IsSquare(e) && |v| == |e| && k <= |e|
  {
    if k == 0 then 0.0 else RowProducts(e, v, k - 1) + EntryDot(e, k - 1, v, |e|)
  }

  /** Taking one more row into the column sums adds that row's product with v. */
  lemma {:induction false} OneMoreRow(e: seq<seq<real>>, v: seq<real>, k: nat, m: nat)
    requires IsSquare(e) && |v| == |e| && k < |e| && m <= |e|
    ensures WeightedColumnSums(e, v, k + 1, m) == WeightedColumnSums(e, v, k, m) + EntryDot(e, k, v, m)
  {
    if m > 0 {
      OneMoreRow(e, v, k, m - 1);
      ColumnSumStep(e, v[m - 1], k, m - 1);
    }
  }

  /** Weighting column x by a, one row more adds a times the new entry. */
  lemma {:induction false} ColumnSumStep(e: seq<seq<real>>, a: real, k: nat, x: nat)
    requires IsSquare(e) && k < |e| && x < |e|
    ensures a * ColumnSum(e, x, k + 1) == a * ColumnSum(e, x, k) + a * e[k][x]
  {
    MulAddRight(a, ColumnSum(e, x, k), e[k][x]);
  }

  /** Adding the products row by row equals weighting the column sums: the exchange of the double sum. */
  lemma {:induction false} RowsByColumns(e: seq<seq<real>>, v: seq<real>, k: nat)
    requires IsSquare(e) && |v| == |e| && k <= |e|
    ensures RowProducts(e, v, k) == WeightedColumnSums(e, v, k, |e|)
  {
    if k == 0 {
      NoRowsWeighNothing(e, v, |e|);
    } else {
      RowsByColumns(e, v, k - 1);
      OneMoreRow(e, v, k - 1, |e|);
    }
  }

  lemma {:induction false} NoRowsWeighNothing(e: seq<seq<real>>, v: seq<real>, m: nat)
    requires IsSquare(e) && |v| == |e| && m <= |e|
    ensures WeightedColumnSums(e, v, 0, m) == 0.0
  {
    if m > 0 {
      NoRowsWeighNothing(e, v, m - 1);
    }
  }

  /** When every column sums to d, the weighted column sums are d times the sum of v. */
  lemma {:induction false} WeightedByDampener(e: seq<seq<real>>, d: real, v: seq<real>, m: nat)
    requires IsSquare(e) && |v| == |e| && m <= |e|
    requires forall x :: 0 <= x < |e| ==> ColumnSum(e, x, |e|) == d
    ensures WeightedColumnSums(e, v, |e|, m) == d * Sum(v[..m])
  {
    if m == 0 {
      assert v[..0] == [];
    } else {
      var x := m - 1;
      var before := Sum(v[..x]);
      WeightedByDampener(e, d, v, x);
      assert v[..m][..x] == v[..x];
      calc {
        WeightedColumnSums(e, v, |e|, m);
        WeightedColumnSums(e, v, |e|, x) + v[x] * ColumnSum(e, x, |e|);
        d * before + v[x] * d;
        { MulAddRight(d, before, v[x]); }
        d * (before + v[x]);
        d * Sum(v[..m]);
      }
    }
  }

  /** Multiplication distributes over addition. */
  lemma {:induction false} MulAddRight(a: real, b: real, c: real)
    ensures a * b + c * a == a * (b + c)
    ensures a * (b + c) == a * b + a * c
  {
  }

  /** The first k rows of one step add up to k baselines plus the first k row products. */
  lemma {:induction false} StepUpToSum(e: seq<seq<real>>, b: real, v: seq<real>, k: nat)
    requires IsSquare(e) && |v| == |e| && k <= |e|
    ensures Sum(StepUpTo(e, b, v, k)) == Copies(k, b) + RowProducts(e, v, k)
  {
    if k > 0 {
      StepUpToSum(e, b, v, k - 1);
      var r := StepUpTo(e, b, v, k);
      assert r[..k - 1] == StepUpTo(e, b, v, k - 1);
    }
  }

  /** The n baselines (1 - d) / n add up to 1 - d. */
  lemma {:induction false} BaselinesAddUp(d: real, n: nat)
    requires n > 0
    ensures Copies(n, Baseline(d, n)) == 1.0 - d
  {
    CopiesIsProduct(n, Baseline(d, n));
  }

  /** When every column sums to d, one matrix step maps total mass s to (1 - d) + d * s. */
  lemma {:induction false} StepMassFromColumnSums(pages: seq<Page>, d: real, v: seq<real>)
    requires |v| == |pages| > 0
    requires forall x :: 0 <= x < |pages| ==> ColumnSum(TransitionMatrix(pages, d), x, |pages|) == d
    ensures Sum(MatStep(pages, d, v)) == (1.0 - d) + d * Sum(v)
  {
    var n := |pages|;
    var e := TransitionMatrix(pages, d);
    var c := Copies(n, Baseline(d, n));
    var r := RowProducts(e, v, n);
    var w := WeightedColumnSums(e, v, n, n);
    var s0 := Sum(v[..n]);
    assert Sum(MatStep(pages, d, v)) == c + r by { StepUpToSum(e, Baseline(d, n), v, n); }
    assert c == 1.0 - d by { BaselinesAddUp(d, n); }
    assert r == w by { RowsByColumns(e, v, n); }
    assert w == d * s0 by { WeightedByDampener(e, d, v, n); }
    assert s0 == Sum(v) by { SumOfWhole(v); }
    MassParts(Sum(MatStep(pages, d, v)), c, r, w, s0, Sum(v), d);
  }

  /** Puts the parts of the mass of one step together: baselines c, row products r, weighted column sums w. */
  lemma {:induction false} MassParts(mass: real, c: real, r: real, w: real, s0: real, s: real, d: real)
    requires mass == c + r && c == 1.0 - d && r == w && w == d * s0 && s0 == s
    ensures mass == (1.0 - d) + d * s
  {
  }

  /**
   * With consistent out-degrees one matrix step maps total mass s to
   * (1 - d) + d * s: the baselines add up to 1 - d and the columns to d.
   */
  lemma {:induction false} MatStepMass(pages: seq<Page>, d: real, v: seq<real>)
    requires ConsistentOutDegrees(pages) && |v| == |pages| > 0
    ensures Sum(MatStep(pages, d, v)) == (1.0 - d) + d * Sum(v)
  {
    forall x | 0 <= x < |pages|
      ensures ColumnSum(TransitionMatrix(pages, d), x, |pages|) == d
    {
      ColumnSumIsDampener(pages, d, x);
    }
    StepMassFromColumnSums(pages, d, v);
  }

  lemma {:induction false} SumOfWhole(v: seq<real>)
    ensures Sum(v[..|v|]) == Sum(v)
  {
    assert v[..|v|] == v;
  }

  /** With consistent out-degrees every score vector of the matrix engine sums to 1. */
  lemma {:induction false} MatIterateSumsToOne(pages: seq<Page>, d: real, k: nat)
    requires ConsistentOutDegrees(pages) && |pages| > 0
    ensures Sum(MatIterate(pages, d, k)) == 1.0
  {
    if k == 0 {
      UniformSumsToOne(|pages|);
    } else {
      MatIterateSumsToOne(pages, d, k - 1);
      MatStepMass(pages, d, MatIterate(pages, d, k - 1));
    }
  }

  // ---------------------------------------------------------------------------
  // Agreement with the per-node sweep
  // ---------------------------------------------------------------------------

  /** What column x contributes to an inflow over `srcs`: v[x] / noutlinks(x) if x is listed, else 0. */
  function ListedShare(pages: seq<Page>, v: seq<real>, srcs: seq<nat>, x: nat): real
    requires |v| == |pages| && x < |pages|
  {
    if x in srcs && pages[x].noutlinks > 0 then v[x] / (pages[x].noutlinks as real) else 0.0
  }

  /** The inflow over `srcs` taken column by column: the contributions of columns 0 .. m-1. */
  function MaskedInflow(pages: seq<Page>, v: seq<real>, srcs: seq<nat>, m: nat): real
    requires |v| == |pages| && m <= |pages|
  {
    if m == 0 then 0.0 else MaskedInflow(pages, v, srcs, m - 1) + ListedShare(pages, v, srcs, m - 1)
  }

  /** Two running sums whose parts are d times each other are d times each other. */
  lemma {:induction false} AddScaled(a: real, b: real, a0: real, b0: real, ta: real, tb: real, d: real)
    requires a == a0 + ta && b == b0 + tb && a0 == b0 * d && ta == tb * d
    ensures a == b * d
  {
  }

  /** With no dangling page, column x's term of row y times v is d times its contribution to page y's inflow. */
  lemma {:induction false} ColumnTerm(pages: seq<Page>, d: real, y: nat, v: seq<real>, x: nat)
    requires y < |pages| && x < |pages| && |v| == |pages| && InCount(pages, x, |pages|) > 0
    ensures v[x] * TransitionMatrix(pages, d)[y][x] == ListedShare(pages, v, pages[y].inlinks, x) * d
  {
    var inl := pages[y].inlinks;
    if x in inl && pages[x].noutlinks > 0 {
      var out := pages[x].noutlinks;
      ScaledShare(v[x], d, out);
      SameProducts(v[x], Entry(pages, d, y, x), Share(d, out), ListedShare(pages, v, inl, x), v[x] / (out as real), d);
    } else {
      SameProducts(v[x], Entry(pages, d, y, x), 0.0, ListedShare(pages, v, inl, x), 0.0, d);
    }
  }

  /** Replacing factors by equal ones keeps a product equation. */
  lemma {:induction false} SameProducts(a: real, e: real, e0: real, l: real, l0: real, d: real)
    requires e == e0 && l == l0 && a * e0 == l0 * d
    ensures a * e == l * d
  {
  }

  /** Where every column's term of row y is d times its share of the inflow over `srcs`, so is the row's sum. */
  lemma {:induction false} EntryDotByColumnTerms(e: seq<seq<real>>, d: real, y: nat, pages: seq<Page>, v: seq<real>, srcs: seq<nat>, m: nat)
    requires IsSquare(e) && |e| == |pages| && y < |e| && |v| == |e| && m <= |e|
    requires forall x :: 0 <= x < |e| ==> v[x] * e[y][x] == ListedShare(pages, v, srcs, x) * d
    ensures EntryDot(e, y, v, m) == MaskedInflow(pages, v, srcs, m) * d
  {
    if m > 0 {
      var x := m - 1;
      EntryDotByColumnTerms(e, d, y, pages, v, srcs, x);
      AddScaled(EntryDot(e, y, v, m), MaskedInflow(pages, v, srcs, m),
                EntryDot(e, y, v, x), MaskedInflow(pages, v, srcs, x),
                v[x] * e[y][x], ListedShare(pages, v, srcs, x), d);
    }
  }

  /** With no dangling page, row y times v over the first m columns is d times page y's masked inflow. */
  lemma {:induction false} EntryDotIsMaskedInflow(pages: seq<Page>, d: real, y: nat, v: seq<real>, m: nat)
    requires NoDanglingPages(pages) && y < |pages| && |v| == |pages| && m <= |pages|
    ensures EntryDot(TransitionMatrix(pages, d), y, v, m) == MaskedInflow(pages, v, pages[y].inlinks, m) * d
  {
    var e := TransitionMatrix(pages, d);
    forall x | 0 <= x < |pages|
      ensures v[x] * e[y][x] == ListedShare(pages, v, pages[y].inlinks, x) * d
    {
      ColumnTerm(pages, d, y, v, x);
    }
    EntryDotByColumnTerms(e, d, y, pages, v, pages[y].inlinks, m);
  }

  /** Listing one more source s adds its contribution to the masked inflow, if s is among the first m columns. */
  lemma {:induction false} MaskedInflowAddSource(pages: seq<Page>, v: seq<real>, srcs: seq<nat>, s: nat, m: nat)
    requires |v| == |pages| && m <= |pages| && s < |pages| && s !in srcs
    ensures MaskedInflow(pages, v, srcs + [s], m)
         == MaskedInflow(pages, v, srcs, m) + (if s < m then ListedShare(pages, v, [s], s) else 0.0)
  {
    if m > 0 {
      MaskedInflowAddSource(pages, v, srcs, s, m - 1);
    }
  }

  /** Over a list of sources without repeats, the column-by-column inflow is the inlink loop's inflow. */
  lemma {:induction false} MaskedInflowIsInflow(pages: seq<Page>, v: seq<real>, srcs: seq<nat>)
    requires |v| == |pages| && SourcesOk(pages, srcs)
    requires forall a, b :: 0 <= a < b < |srcs| ==> srcs[a] != srcs[b]
    ensures MaskedInflow(pages, v, srcs, |pages|) == Inflow(pages, v, srcs)
    decreases |srcs|
  {
    if srcs == [] {
      NothingListed(pages, v, |pages|);
    } else {
      var init := srcs[..|srcs| - 1];
      var s := srcs[|srcs| - 1];
      assert srcs == init + [s];
      assert s !in init by {
        forall a | 0 <= a < |init| ensures init[a] != s {
          assert srcs[a] != srcs[|srcs| - 1];
        }
      }
      MaskedInflowIsInflow(pages, v, init);
      MaskedInflowAddSource(pages, v, init, s, |pages|);
    }
  }

  lemma {:induction false} NothingListed(pages: seq<Page>, v: seq<real>, m: nat)
    requires |v| == |pages| && m <= |pages|
    ensures MaskedInflow(pages, v, [], m) == 0.0
  {
    if m > 0 {
      NothingListed(pages, v, m - 1);
    }
  }

  /**
   * With no dangling page and no repeated source, row y of the matrix times the
   * old scores is exactly the gain the per-node sweep gives page y.
   */
  lemma {:induction false} RowProductIsGain(pages: seq<Page>, d: real, y: nat, v: seq<real>)
    requires WellFormed(pages) && NoDanglingPages(pages) && DistinctInlinks(pages)
    requires y < |pages| && |v| == |pages|
    ensures EntryDot(TransitionMatrix(pages, d), y, v, |pages|) == Gain(pages, d, v, y)
  {
    EntryDotIsMaskedInflow(pages, d, y, v, |pages|);
    if pages[y].inlinks == [] {
      NothingListed(pages, v, |pages|);
    } else {
      MaskedInflowIsInflow(pages, v, pages[y].inlinks);
    }
  }

  /**
   * Where no page is dangling and no inlink list repeats a source, one matrix
   * step computes exactly the per-node sweep: the two kinds of engine agree.
   */
  lemma {:induction false} SweepIsMatStep(pages: seq<Page>, d: real, v: seq<real>)
    requires WellFormed(pages) && NoDanglingPages(pages) && DistinctInlinks(pages) && |v| == |pages| > 0
    ensures Sweep(pages, d, v) == MatStep(pages, d, v)
  {
    forall y | 0 <= y < |pages|
      ensures Sweep(pages, d, v)[y] == MatStep(pages, d, v)[y]
    {
      RowProductIsGain(pages, d, y, v);
    }
  }

  /** ... and so do all the generations they produce. */
  lemma {:induction false} IterateIsMatIterate(pages: seq<Page>, d: real, k: nat)
    requires WellFormed(pages) && NoDanglingPages(pages) && DistinctInlinks(pages) && |pages| > 0
    ensures Iterate(pages, d, k) == MatIterate(pages, d, k)
  {
    if k > 0 {
      IterateIsMatIterate(pages, d, k - 1);
      SweepIsMatStep(pages, d, Iterate(pages, d, k - 1));
    }
  }

  /** The two-page graph of DanglingPageLeaksMass: page 0 links to page 1, page 1 links nowhere. */
  function LeakyPair(): (pages: seq<Page>)
    ensures WellFormed(pages) && ConsistentOutDegrees(pages)
  {
    var pages := [Page(1, []), Page(0, [0])];
    assert InCount(pages, 0, 2) == 1 && InCount(pages, 1, 2) == 0;
    pages
  }

  /** One sweep of LeakyPair with d = 1/2 from the uniform vector gives 1/4 and 1/2. */
  lemma LeakyPairSweep()
    ensures Sweep(LeakyPair(), 0.5, Uniform(2)) == [0.25, 0.5]
  {
    var pages := LeakyPair();
    var u := Uniform(2);
    assert [0][..0] == [];
    assert Inflow(pages, u, [0]) == 0.5;
  }

  /**
   * A dangling page leaks mass in the per-node sweep but not in the matrix step:
   * with d = 1/2 one sweep of LeakyPair from the uniform vector keeps only 3/4
   * of the mass, while the matrix step, whose column 1 is patched to d / n,
   * keeps all of it.
   */
  lemma {:induction false} DanglingPageLeaksMass()
    ensures Sum(Sweep(LeakyPair(), 0.5, Uniform(2))) == 0.75
    ensures Sum(MatStep(LeakyPair(), 0.5, Uniform(2))) == 1.0
  {
    LeakyPairSweep();
    var w: seq<real> := [0.25, 0.5];
    assert w[..1] == [0.25] && w[..1][..0] == [];
    UniformSumsToOne(2);
    MatStepMass(LeakyPair(), 0.5, Uniform(2));
  }

  /**
   * A second divergence of the two kinds of engine.  In this two-page graph page 1
   * links to page 0, and page 0 links to page 1, whose inlink list names page 0
   * twice.  The per-node inlink loop adds a repeated source once per occurrence,
   * while the matrix build assigns the entry, so the matrix counts it once:
   * RepeatedPairSweep and RepeatedPairMatStep give page 1 different scores.
   */
  function RepeatedPair(): (pages: seq<Page>)
    ensures WellFormed(pages)
  {
    [Page(1, [1]), Page(1, [0, 0])]
  }

  /**
   * RepeatedPair meets every hypothesis of SweepIsMatStep but DistinctInlinks:
   * its out-degrees match its inlink lists and no page is dangling.
   */
  lemma RepeatedPairRepeatsASource()
    ensures ConsistentOutDegrees(RepeatedPair()) && NoDanglingPages(RepeatedPair())
    ensures !DistinctInlinks(RepeatedPair())
  {
    var pages := RepeatedPair();
    assert InCount(pages, 0, 2) == 1 && InCount(pages, 1, 2) == 1;
    assert pages[1].inlinks[0] == pages[1].inlinks[1];
  }

  /** One sweep of RepeatedPair with d = 1/2 from the uniform vector gives page 1 the score 3/4. */
  lemma RepeatedPairSweep()
    ensures Sweep(RepeatedPair(), 0.5, Uniform(2))[1] == 0.75
  {
    var pages := RepeatedPair();
    var u := Uniform(2);
    assert [0, 0][..1] == [0] && [0][..0] == [];
    assert Inflow(pages, u, [0, 0]) == 1.0;
  }

  /** A row product of a two-by-two matrix, written out. */
  lemma {:induction false} EntryDotOfTwo(e: seq<seq<real>>, y: nat, v: seq<real>)
    requires IsSquare(e) && |e| == 2 && y < 2 && |v| == 2
    ensures EntryDot(e, y, v, 2) == v[0] * e[y][0] + v[1] * e[y][1]
  {
    assert EntryDot(e, y, v, 1) == v[0] * e[y][0];
  }

  /** One matrix step of RepeatedPair with d = 1/2 from the uniform vector gives page 1 the score 1/2. */
  lemma {:induction false} RepeatedPairMatStep()
    ensures MatStep(RepeatedPair(), 0.5, Uniform(2))[1] == 0.5
  {
    var pages := RepeatedPair();
    var e := TransitionMatrix(pages, 0.5);
    ShareIsQuotient(0.5, 1);
    assert e[1][0] == Entry(pages, 0.5, 1, 0) == 0.5;
    assert e[1][1] == Entry(pages, 0.5, 1, 1) == 0.0;
    EntryDotOfTwo(e, 1, Uniform(2));
  }
}
