/**
 * The dense-matrix engine: a flat row-major n x n array built from the inlink
 * lists, patched on all-zero (dangling) columns, and multiplied with the score
 * vector once per iteration; the two score vectors change roles by exchanging
 * references, never by copying.
 */
module MatrixEngine {
  import opened Wrappers
  import opened Graph
  import opened Rank
  import opened Transition
  import opened Engines

  // ---------------------------------------------------------------------------
  // Row-major offsets `y * w + x`
  // ---------------------------------------------------------------------------

  /** Offset of entry (y, x) in a row-major matrix whose rows are w entries wide: `y * w + x` (FlatIsProduct). */
  function Flat(w: nat, y: nat, x: nat): nat
  {
    RowStart(w, y) + x
  }

  /** The offset is the C expression `y * w + x`. */
  lemma FlatIsProduct(w: nat, y: nat, x: nat)
    ensures Flat(w, y, x) == y * w + x
  {
    RowStartIsProduct(w, y);
  }

  /** Number of entries of an n x n matrix: `n * n` (AreaIsProduct). */
  function Area(n: nat): nat
  {
    RowStart(n, n)
  }

  lemma AreaIsProduct(n: nat)
    ensures Area(n) == n * n
  {
    RowStartIsProduct(n, n);
  }

  /** Row y of an n x n matrix, read up to column k, stays inside the matrix. */
  lemma FlatRowEnd(n: nat, y: nat, k: nat)
    requires y < n && k <= n
    ensures Flat(n, y, k) <= Area(n)
  {
    RowStartsApart(n, y, n);
  }

  /** Entry (y, x) of an n x n matrix lies inside its n * n entries. */
  lemma FlatInside(n: nat, y: nat, x: nat)
    requires y < n && x < n
    ensures Flat(n, y, x) < Area(n)
  {
    FlatRowEnd(n, y, n);
  }

  /** Distinct entries of a matrix with rows n wide have distinct offsets. */
  lemma FlatDistinct(n: nat, y: nat, x: nat, y2: nat, x2: nat)
    requires x < n && x2 < n && (y != y2 || x != x2)
    ensures Flat(n, y, x) != Flat(n, y2, x2)
  {
    CellsDistinct(n, y, x, y2, x2);
  }

  /** Entry (y, x) of an n x n matrix stored row-major in the flat sequence m. */
  function Cell(m: seq<real>, n: nat, y: nat, x: nat): real
    requires |m| == Area(n) && y < n && x < n
  {
    FlatInside(n, y, x);
    m[Flat(n, y, x)]
  }

  // ---------------------------------------------------------------------------
  // `multiply`
  // ---------------------------------------------------------------------------

  /** Σ_{x<k} v[x] * m[y * w + x], added for x ascending: the inner loop of `multiply`. */
  function RowDot(m: seq<real>, w: nat, y: nat, v: seq<real>, k: nat): real
    requires k <= |v| && Flat(w, y, k) <= |m|
  {
    if k == 0 then 0.0 else RowDot(m, w, y, v, k - 1) + v[k - 1] * m[Flat(w, y, k - 1)]
  }

  /**
   * `multiply`: with a result array, entry y of the result becomes the
   * dampening value plus row y of `mata` (rows `mataWidth` wide) times the
   * first `matbHeight` entries of `matb`, for every row y < `mataHeight`; the
   * result is the only array written, so a null result changes nothing.
   */
  method Multiply(mata: array<real>, mataWidth: nat, mataHeight: nat, matb: array<real>, matbHeight: nat,
                  result: array?<real>, dampeningValue: real)
    requires matbHeight <= matb.Length
    requires forall y :: 0 <= y < mataHeight ==> Flat(mataWidth, y, matbHeight) <= mata.Length
    requires result != null ==> mataHeight <= result.Length && result != mata && result != matb
    modifies result
    ensures result != null ==> forall y :: 0 <= y < mataHeight ==>
      result[y] == dampeningValue + RowDot(mata[..], mataWidth, y, matb[..], matbHeight)
    ensures result != null ==> forall y :: mataHeight <= y < result.Length ==> result[y] == old(result[y])
  {
    if result != null {
      var y := 0;
      while y < mataHeight
        invariant 0 <= y <= mataHeight
        invariant forall k :: 0 <= k < y ==> result[k] == dampeningValue + RowDot(mata[..], mataWidth, k, matb[..], matbHeight)
        invariant forall k :: y <= k < result.Length ==> result[k] == old(result[k])
      {
        MultiplyRow(mata, mataWidth, matb, matbHeight, result, dampeningValue, y);
        y := y + 1;
      }
    }
  }

  /** One row of `multiply`: result[y] becomes the dampening value plus row y times `matb`; no other entry changes. */
  method MultiplyRow(mata: array<real>, mataWidth: nat, matb: array<real>, matbHeight: nat,
                     result: array<real>, dampeningValue: real, y: nat)
    requires matbHeight <= matb.Length && Flat(mataWidth, y, matbHeight) <= mata.Length
    requires y < result.Length && result != mata && result != matb
    modifies result
    ensures result[y] == dampeningValue + RowDot(mata[..], mataWidth, y, matb[..], matbHeight)
    ensures forall k :: 0 <= k < result.Length && k != y ==> result[k] == old(result[k])
  {
    result[y] := dampeningValue;
    var x := 0;
    while x < matbHeight
      invariant 0 <= x <= matbHeight
      invariant result[y] == dampeningValue + RowDot(mata[..], mataWidth, y, matb[..], x)
      invariant forall k :: 0 <= k < result.Length && k != y ==> result[k] == old(result[k])
    {
      FlatIsProduct(mataWidth, y, x);
      result[y] := result[y] + matb[x] * mata[y * mataWidth + x];
      x := x + 1;
    }
  }

  /** The flat array `m` holds entry (y, x) of the patched transition matrix at offset y * n + x. */
  ghost predicate HoldsTransition(m: seq<real>, pages: seq<Page>, d: real)
  {
    && |m| == Area(|pages|)
    && forall y, x {:trigger Cell(m, |pages|, y, x)} :: 0 <= y < |pages| && 0 <= x < |pages| ==> Cell(m, |pages|, y, x) == Entry(pages, d, y, x)
  }

  /** Over a flat array holding the transition matrix, `multiply`'s row sum is row y times v. */
  lemma {:induction false} RowDotIsEntryDot(m: seq<real>, pages: seq<Page>, d: real, y: nat, v: seq<real>, k: nat)
    requires HoldsTransition(m, pages, d) && y < |pages| && |v| == |pages| && k <= |pages|
    ensures Flat(|pages|, y, k) <= |m|
    ensures RowDot(m, |pages|, y, v, k) == EntryDot(TransitionMatrix(pages, d), y, v, k)
  {
    FlatRowEnd(|pages|, y, k);
    if k > 0 {
      RowDotIsEntryDot(m, pages, d, y, v, k - 1);
      assert Cell(m, |pages|, y, k - 1) == TransitionMatrix(pages, d)[y][k - 1];
    }
  }

  /**
   * `multiply(matrix, n, n, score_vector, n, rank_vector, (1 - d) / n)` over the
   * transition matrix computes one step of the matrix iteration.
   */
  lemma MultiplyIsMatStep(m: seq<real>, pages: seq<Page>, d: real, v: seq<real>, r: seq<real>)
    requires HoldsTransition(m, pages, d) && |v| == |r| == |pages| > 0
    requires forall y :: 0 <= y < |pages| ==> Flat(|pages|, y, |pages|) <= |m|
    requires forall y :: 0 <= y < |pages| ==> r[y] == Baseline(d, |pages|) + RowDot(m, |pages|, y, v, |pages|)
    ensures r == MatStep(pages, d, v)
  {
    forall y | 0 <= y < |pages|
      ensures r[y] == MatStep(pages, d, v)[y]
    {
      RowDotIsEntryDot(m, pages, d, y, v, |pages|);
    }
  }

  // ---------------------------------------------------------------------------
  // Building the matrix
  // ---------------------------------------------------------------------------

  /** On a well-formed graph a link entry is the quotient d / noutlinks(x) the build loop stores, or 0. */
  lemma LinkEntryIsQuotient(pages: seq<Page>, d: real, y: nat, x: nat)
    requires WellFormed(pages) && y < |pages| && x < |pages|
    ensures LinkEntry(pages, d, y, x) == if x in pages[y].inlinks then d / (pages[x].noutlinks as real) else 0.0
  {
    if x in pages[y].inlinks {
      ListedHasOutlinks(pages, y, x);
      ShareIsQuotient(d, pages[x].noutlinks);
    }
  }

  /** Writing offset y0 * n + x0 changes entry (y0, x0) and no other entry. */
  lemma CellUpdate(m: seq<real>, n: nat, y0: nat, x0: nat, v: real, y: nat, x: nat)
    requires |m| == Area(n) && y0 < n && x0 < n && y < n && x < n
    ensures Flat(n, y0, x0) < |m|
    ensures Cell(m[Flat(n, y0, x0) := v], n, y, x) == if y == y0 && x == x0 then v else Cell(m, n, y, x)
  {
    FlatInside(n, y0, x0);
    FlatInside(n, y, x);
    if y != y0 || x != x0 {
      FlatDistinct(n, y, x, y0, x0);
    }
  }

  /** A freshly zeroed matrix has every entry 0. */
  lemma ZeroCells(m: seq<real>, n: nat, y: nat, x: nat)
    requires |m| == Area(n) && y < n && x < n
    requires forall k :: 0 <= k < |m| ==> m[k] == 0.0
    ensures Cell(m, n, y, x) == 0.0
  {
    FlatInside(n, y, x);
  }

  /**
   * The build loop of `pagerank_mm`: a zeroed n x n array in which row i gets
   * d / noutlinks(src) at column src for every inlink src of page i.
   */
  method BuildLinkMatrix(pages: seq<Page>, npages: nat, dampener: real) returns (matrix: array<real>)
    requires |pages| == npages && WellFormed(pages)
    ensures fresh(matrix) && matrix.Length == Area(npages)
    ensures forall y, x :: 0 <= y < npages && 0 <= x < npages ==>
      Cell(matrix[..], npages, y, x) == LinkEntry(pages, dampener, y, x)
  {
    matrix := new real[npages * npages](_ => 0.0);
    AreaIsProduct(npages);
    forall y, x | 0 <= y < npages && 0 <= x < npages
      ensures Cell(matrix[..], npages, y, x) == 0.0
    {
      ZeroCells(matrix[..], npages, y, x);
    }
    var i := 0;
    while i < npages
      invariant 0 <= i <= npages && matrix.Length == Area(npages)
      invariant forall y, x :: 0 <= y < npages && 0 <= x < npages ==>
        Cell(matrix[..], npages, y, x) == if y < i then LinkEntry(pages, dampener, y, x) else 0.0
    {
      AddRow(matrix, pages, npages, dampener, i);
      i := i + 1;
    }
  }

  /** The inner loop of the build: row i gets the entries of page i's inlinks, nothing else changes. */
  method AddRow(matrix: array<real>, pages: seq<Page>, npages: nat, dampener: real, i: nat)
    requires |pages| == npages && WellFormed(pages) && i < npages && matrix.Length == Area(npages)
    requires forall x :: 0 <= x < npages ==> Cell(matrix[..], npages, i, x) == 0.0
    modifies matrix
    ensures forall x :: 0 <= x < npages ==> Cell(matrix[..], npages, i, x) == LinkEntry(pages, dampener, i, x)
    ensures forall y, x :: 0 <= y < npages && 0 <= x < npages && y != i ==>
      Cell(matrix[..], npages, y, x) == old(Cell(matrix[..], npages, y, x))
  {
    ghost var start := matrix[..];
    var inl := pages[i].inlinks;
    var k := 0;
    while k < |inl|
      invariant 0 <= k <= |inl| && matrix.Length == Area(npages)
      invariant forall y, x :: 0 <= y < npages && 0 <= x < npages ==>
        Cell(matrix[..], npages, y, x)
          == if y != i then Cell(start, npages, y, x)
             else if x in inl[..k] then dampener / (pages[x].noutlinks as real) else 0.0
    {
      var src := inl[k];
      var share := dampener / (pages[src].noutlinks as real);
      ghost var before := matrix[..];
      FlatInside(npages, i, src);
      FlatIsProduct(npages, i, src);
      matrix[i * npages + src] := share;
      assert matrix[..] == before[Flat(npages, i, src) := share];
      assert inl[..k + 1] == inl[..k] + [src];
      forall y, x | 0 <= y < npages && 0 <= x < npages
        ensures Cell(matrix[..], npages, y, x) == if y == i && x == src then share else Cell(before, npages, y, x)
      {
        CellUpdate(before, npages, i, src, share, y, x);
      }
      k := k + 1;
    }
    assert inl[..k] == inl;
    forall x | 0 <= x < npages
      ensures Cell(matrix[..], npages, i, x) == LinkEntry(pages, dampener, i, x)
    {
      LinkEntryIsQuotient(pages, dampener, i, x);
    }
  }

  // ---------------------------------------------------------------------------
  // The dangling-column fill
  // ---------------------------------------------------------------------------

  /**
   * The scan of column j with `sum` and `break`: the column is zero exactly
   * when every one of its n entries is 0.  Reads the matrix, changes nothing.
   */
  method ColumnIsZero(matrix: array<real>, npages: nat, j: nat) returns (zero: bool)
    requires j < npages && matrix.Length == Area(npages)
    ensures zero <==> forall y :: 0 <= y < npages ==> Cell(matrix[..], npages, y, j) == 0.0
  {
    var sum := 0.0;
    var i := 0;
    while i < npages
      invariant 0 <= i <= npages
      invariant forall y :: 0 <= y < i ==> Cell(matrix[..], npages, y, j) == 0.0
    {
      FlatInside(npages, i, j);
      FlatIsProduct(npages, i, j);
      assert Cell(matrix[..], npages, i, j) == matrix[i * npages + j];
      if matrix[i * npages + j] != 0.0 {
        sum := 1.0;
        break;
      }
      i := i + 1;
    }
    zero := sum == 0.0;
  }

  /** The fill of a zero column: every entry of column j becomes `value`, no other entry changes. */
  method FillColumn(matrix: array<real>, npages: nat, j: nat, value: real)
    requires j < npages && matrix.Length == Area(npages)
    modifies matrix
    ensures forall y, x :: 0 <= y < npages && 0 <= x < npages ==>
      Cell(matrix[..], npages, y, x) == if x == j then value else old(Cell(matrix[..], npages, y, x))
  {
    ghost var start := matrix[..];
    var i := 0;
    while i < npages
      invariant 0 <= i <= npages && matrix.Length == Area(npages)
      invariant forall y, x :: 0 <= y < npages && 0 <= x < npages ==>
        Cell(matrix[..], npages, y, x) == if x == j && y < i then value else Cell(start, npages, y, x)
    {
      ghost var before := matrix[..];
      FlatInside(npages, i, j);
      FlatIsProduct(npages, i, j);
      matrix[i * npages + j] := value;
      assert matrix[..] == before[Flat(npages, i, j) := value];
      forall y, x | 0 <= y < npages && 0 <= x < npages
        ensures Cell(matrix[..], npages, y, x) == if y == i && x == j then value else Cell(before, npages, y, x)
      {
        CellUpdate(before, npages, i, j, value, y, x);
      }
      i := i + 1;
    }
  }

  /**
   * The second loop of `pagerank_mm`: every score becomes 1/n, and every column
   * left all zero by the build (a dangling page's) becomes d/n in every row,
   * which turns the link matrix into the patched transition matrix.
   */
  method FillDanglingColumns(matrix: array<real>, scoreVector: array<real>, ghost pages: seq<Page>, npages: nat,
                             dampener: real)
    requires |pages| == npages > 0 && WellFormed(pages) && dampener > 0.0
    requires matrix.Length == Area(npages) && scoreVector.Length == npages && matrix != scoreVector
    requires forall y, x :: 0 <= y < npages && 0 <= x < npages ==>
      Cell(matrix[..], npages, y, x) == LinkEntry(pages, dampener, y, x)
    modifies matrix, scoreVector
    ensures HoldsTransition(matrix[..], pages, dampener)
    ensures scoreVector[..] == Uniform(npages)
  {
    var j := 0;
    while j < npages
      invariant 0 <= j <= npages
      invariant forall y, x :: 0 <= y < npages && 0 <= x < npages ==>
        Cell(matrix[..], npages, y, x) == if x < j then Entry(pages, dampener, y, x) else LinkEntry(pages, dampener, y, x)
      invariant forall k :: 0 <= k < j ==> scoreVector[k] == 1.0 / (npages as real)
    {
      scoreVector[j] := 1.0 / (npages as real);
      var zero := ColumnIsZero(matrix, npages, j);
      ZeroColumnIffDangling(pages, dampener, j);
      if zero {
        ShareIsQuotient(dampener, npages);
        FillColumn(matrix, npages, j, dampener / (npages as real));
      }
      j := j + 1;
    }
    assert scoreVector[..] == Uniform(npages);
  }

  // ---------------------------------------------------------------------------
  // The engine `pagerank_mm`
  // ---------------------------------------------------------------------------

  /** The distance loop of `pagerank_mm`: the sum of (a[i] - b[i])^2 over all pages.  Changes nothing. */
  method SquaredDistance(a: array<real>, b: array<real>) returns (diff: real)
    requires a.Length == b.Length
    ensures diff == SqDist(a[..], b[..])
  {
    diff := 0.0;
    var i := 0;
    while i < a.Length
      invariant 0 <= i <= a.Length
      invariant diff == SqDistUpTo(a[..], b[..], i)
    {
      SqIsProduct(a[i] - b[i]);
      diff := diff + (a[i] - b[i]) * (a[i] - b[i]);
      i := i + 1;
    }
  }

  /**
   * `pagerank_mm`: build the matrix, patch its dangling columns, start from
   * 1/n, then multiply and measure until sqrt(distance) <= epsilon, exchanging
   * the two score vectors by reference after each multiply; the reported
   * scores are the vector last written.
   */
  method PagerankMm(plist: Option<seq<Page>>, ncores: int, npages: int, nedges: int, dampener: real,
                    epsilon: real, maxSweeps: nat)
    returns (ranks: Option<seq<real>>, sweeps: nat)
    requires epsilon > 0.0 && Callable(plist, ncores, npages, nedges, dampener)
    ensures InvalidParams(plist, ncores, npages, nedges, dampener) ==> ranks == None && sweeps == 0
    ensures !InvalidParams(plist, ncores, npages, nedges, dampener) ==>
      && ranks == Some(MatIterate(plist.value, dampener, sweeps))
      && MatHaltsAfter(plist.value, dampener, epsilon * epsilon, maxSweeps, sweeps)
  {
    if InvalidParams(plist, ncores, npages, nedges, dampener) {
      return None, 0;
    }
    var scores;
    scores, sweeps := RunMatrix(plist.value, npages, dampener, epsilon, maxSweeps);
    ranks := Some(scores);
  }

  /**
   * One multiply and distance loop of `pagerank_mm`: the rank vector receives the
   * matrix step of the score vector, which is read and left as it was, and the
   * distance is the one between the two.
   */
  method MatrixRound(matrix: array<real>, scoreVector: array<real>, rankVector: array<real>, ghost pages: seq<Page>,
                     dampener: real, dampeningValue: real, ghost sweeps: nat)
    returns (diff: real)
    requires |pages| > 0 && HoldsTransition(matrix[..], pages, dampener) && dampeningValue == Baseline(dampener, |pages|)
    requires scoreVector.Length == |pages| == rankVector.Length
    requires scoreVector != rankVector && matrix != scoreVector && matrix != rankVector
    requires scoreVector[..] == MatIterate(pages, dampener, sweeps)
    modifies rankVector
    ensures rankVector[..] == MatIterate(pages, dampener, sweeps + 1)
    ensures diff == MatDistanceAfter(pages, dampener, sweeps + 1)
  {
    var npages := scoreVector.Length;
    forall y | 0 <= y < npages
      ensures Flat(npages, y, npages) <= matrix.Length
    {
      FlatRowEnd(npages, y, npages);
    }
    Multiply(matrix, npages, npages, scoreVector, npages, rankVector, dampeningValue);
    MultiplyIsMatStep(matrix[..], pages, dampener, scoreVector[..], rankVector[..]);
    diff := SquaredDistance(rankVector, scoreVector);
  }

  /** The set-up before the loop: the two score vectors, the link matrix, its dangling columns patched. */
  method SetUpMatrix(pages: seq<Page>, npages: nat, dampener: real)
    returns (matrix: array<real>, scoreVector: array<real>, rankVector: array<real>)
    requires |pages| == npages > 0 && WellFormed(pages) && dampener > 0.0
    ensures fresh(matrix) && fresh(scoreVector) && fresh(rankVector)
    ensures scoreVector.Length == npages && rankVector.Length == npages && scoreVector != rankVector
    ensures matrix != scoreVector && matrix != rankVector && HoldsTransition(matrix[..], pages, dampener)
    ensures scoreVector[..] == Uniform(npages)
  {
    scoreVector := new real[npages];
    rankVector := new real[npages];
    matrix := BuildLinkMatrix(pages, npages, dampener);
    FillDanglingColumns(matrix, scoreVector, pages, npages, dampener);
  }

  /** The body of `PagerankMm` on a valid call, from allocation to the scores it reports. */
  method RunMatrix(pages: seq<Page>, npages: nat, dampener: real, epsilon: real, maxSweeps: nat)
    returns (ranks: seq<real>, sweeps: nat)
    requires |pages| == npages > 0 && WellFormed(pages) && dampener > 0.0
    ensures ranks == MatIterate(pages, dampener, sweeps)
    ensures MatHaltsAfter(pages, dampener, epsilon * epsilon, maxSweeps, sweeps)
  {
    var matrix, scoreVector, rankVector := SetUpMatrix(pages, npages, dampener);
    ranks, sweeps := IterateMatrix(matrix, scoreVector, rankVector, pages, dampener, epsilon, maxSweeps);
  }

  /**
   * The loop of `PagerankMm`: multiply, measure the distance, swap the two
   * vectors, until the distance is small enough.
   */
  method IterateMatrix(matrix: array<real>, scoreVector: array<real>, rankVector: array<real>, ghost pages: seq<Page>,
                       dampener: real, epsilon: real, maxSweeps: nat)
    returns (ranks: seq<real>, sweeps: nat)
    requires |pages| > 0 && HoldsTransition(matrix[..], pages, dampener)
    requires scoreVector.Length == |pages| == rankVector.Length
    requires scoreVector != rankVector && matrix != scoreVector && matrix != rankVector
    requires scoreVector[..] == Uniform(|pages|)
    modifies scoreVector, rankVector
    ensures ranks == MatIterate(pages, dampener, sweeps)
    ensures MatHaltsAfter(pages, dampener, epsilon * epsilon, maxSweeps, sweeps)
    ensures (if sweeps % 2 == 0 then scoreVector else rankVector)[..] == ranks
    ensures sweeps > 0 ==> (if sweeps % 2 == 0 then rankVector else scoreVector)[..] == MatIterate(pages, dampener, sweeps - 1)
  {
    var npages := scoreVector.Length;
    var dampeningValue := (1.0 - dampener) / (npages as real);
    var diff := 1.0;
    var current, next := scoreVector, rankVector;
    // `even` says whether `current` is still `scoreVector`; `previous` is the generation in `next`.
    ghost var even, pairs, previous := true, 0, [];
    sweeps := 0;
    while diff > epsilon * epsilon && sweeps < maxSweeps
      invariant even ==> current == scoreVector && next == rankVector
      invariant !even ==> current == rankVector && next == scoreVector
      invariant sweeps == 2 * pairs + (if even then 0 else 1)
      invariant current[..] == MatIterate(pages, dampener, sweeps)
      invariant sweeps > 0 ==> next[..] == previous && previous == MatIterate(pages, dampener, sweeps - 1)
      invariant diff == MatDistanceAfter(pages, dampener, sweeps)
      invariant sweeps <= maxSweeps && MatAboveUntil(pages, dampener, epsilon * epsilon, sweeps)
      decreases maxSweeps - sweeps
    {
      previous := current[..];
      diff := MatrixRound(matrix, current, next, pages, dampener, dampeningValue, sweeps);
      current, next := next, current;
      if !even {
        pairs := pairs + 1;
      }
      even := !even;
      sweeps := sweeps + 1;
    }
    ranks := current[..];
    ParityOfPairs(sweeps, pairs, even);
  }

  /** A count of `pairs` pairs plus one more when `even` is false is even exactly when `even` holds. */
  lemma ParityOfPairs(n: nat, pairs: nat, even: bool)
    requires n == 2 * pairs + (if even then 0 else 1)
    ensures even == (n % 2 == 0)
  {
  }
}
