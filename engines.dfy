/**
 * The per-node engines: parameter check, initialisation, and sweeps repeated
 * while the convergence distance exceeds the threshold.  Each engine returns
 * None when it returns on invalid parameters.  Otherwise it returns the scores
 * its store holds for the current generation when the loop stops, and the
 * number of sweeps it ran.  Most engines print exactly these scores.
 * `pagerank_padding` and `pagerank` print nothing.  `maxSweeps` bounds the
 * loop, which the program leaves unbounded.
 */
module Engines {
  import opened Wrappers
  import opened Graph
  import opened Rank
  import opened ScoreStore
  import opened Sweeps

  /** `END_ITER`, 5e-3 squared: the threshold of `pagerank_padding`. */
  function EndIter(): real
  {
    0.005 * 0.005
  }

  /** The literal threshold of `pagerank`. */
  function PagerankThreshold(): real
  {
    0.000025
  }

  /** What every engine demands of a valid call: the list holds npages pages, each inlink naming a page with outlinks. */
  predicate Callable(plist: Option<seq<Page>>, ncores: int, npages: int, nedges: int, dampener: real)
  {
    !InvalidParams(plist, ncores, npages, nedges, dampener) ==> |plist.value| == npages && WellFormed(plist.value)
  }

  /**
   * `pagerank_nopow` (and `pagerank_pow`, which differs only in writing the square
   * as `pow(a, 2)`): parity-flag sweeps until sqrt(distance) <= epsilon, then the
   * scores in slot !x.
   */
  method PagerankNopow(plist: Option<seq<Page>>, ncores: int, npages: int, nedges: int, dampener: real,
                       epsilon: real, maxSweeps: nat)
    returns (ranks: Option<seq<real>>, sweeps: nat)
    requires epsilon > 0.0 && Callable(plist, ncores, npages, nedges, dampener)
    ensures InvalidParams(plist, ncores, npages, nedges, dampener) ==> ranks == None && sweeps == 0
    ensures !InvalidParams(plist, ncores, npages, nedges, dampener) ==>
      && ranks == Some(Iterate(plist.value, dampener, sweeps))
      && HaltsAfter(plist.value, dampener, epsilon * epsilon, maxSweeps, sweeps)
  {
    if InvalidParams(plist, ncores, npages, nedges, dampener) {
      return None, 0;
    }
    var scores;
    scores, sweeps := RunFused(plist.value, npages, dampener, epsilon, maxSweeps);
    ranks := Some(scores);
  }

  /** The loop of `PagerankNopow` on a valid call, from initialisation to the scores it reports. */
  method RunFused(pages: seq<Page>, npages: nat, dampener: real, epsilon: real, maxSweeps: nat)
    returns (ranks: seq<real>, sweeps: nat)
    requires |pages| == npages > 0 && WellFormed(pages)
    ensures ranks == Iterate(pages, dampener, sweeps)
    ensures HaltsAfter(pages, dampener, epsilon * epsilon, maxSweeps, sweeps)
  {
    var score, _ := InitPageranks(npages);
    var dampeningValue := (1.0 - dampener) / (npages as real);
    var x := 1;
    var diff := 1.0;
    sweeps := 0;
    ghost var current := Uniform(npages);
    while diff > epsilon * epsilon && sweeps < maxSweeps
      invariant score.Length0 == npages && score.Length1 == 2 && 0 <= x < 2
      invariant current == Iterate(pages, dampener, sweeps)
      invariant forall k :: 0 <= k < npages ==> score[k, Not(x)] == current[k]
      invariant diff == DistanceAfter(pages, dampener, sweeps)
      invariant sweeps <= maxSweeps
      invariant AboveUntil(pages, dampener, epsilon * epsilon, sweeps)
      decreases maxSweeps - sweeps
    {
      diff := SweepFused(score, pages, dampener, dampeningValue, x, current);
      current := Sweep(pages, dampener, current);
      x := NextParity(x);
      sweeps := sweeps + 1;
    }
    ColumnIs(score, Not(x), current);
    ranks := Column(score, Not(x));
  }

  /** `pagerank_unroll`: as `pagerank_nopow`, with the sweep unrolled by four. */
  method PagerankUnroll(plist: Option<seq<Page>>, ncores: int, npages: int, nedges: int, dampener: real,
                        epsilon: real, maxSweeps: nat)
    returns (ranks: Option<seq<real>>, sweeps: nat)
    requires epsilon > 0.0 && Callable(plist, ncores, npages, nedges, dampener)
    ensures InvalidParams(plist, ncores, npages, nedges, dampener) ==> ranks == None && sweeps == 0
    ensures !InvalidParams(plist, ncores, npages, nedges, dampener) ==>
      && ranks == Some(Iterate(plist.value, dampener, sweeps))
      && HaltsAfter(plist.value, dampener, epsilon * epsilon, maxSweeps, sweeps)
  {
    if InvalidParams(plist, ncores, npages, nedges, dampener) {
      return None, 0;
    }
    var scores;
    scores, sweeps := RunUnrolled(plist.value, npages, dampener, epsilon, maxSweeps);
    ranks := Some(scores);
  }

  /** The loop of `PagerankUnroll` on a valid call, from initialisation to the scores it reports. */
  method RunUnrolled(pages: seq<Page>, npages: nat, dampener: real, epsilon: real, maxSweeps: nat)
    returns (ranks: seq<real>, sweeps: nat)
    requires |pages| == npages > 0 && WellFormed(pages)
    ensures ranks == Iterate(pages, dampener, sweeps)
    ensures HaltsAfter(pages, dampener, epsilon * epsilon, maxSweeps, sweeps)
  {
    var score, _ := InitPageranks(npages);
    var dampeningValue := (1.0 - dampener) / (npages as real);
    var x := 1;
    var diff := 1.0;
    sweeps := 0;
    ghost var current := Uniform(npages);
    while diff > epsilon * epsilon && sweeps < maxSweeps
      invariant score.Length0 == npages && score.Length1 == 2 && 0 <= x < 2
      invariant current == Iterate(pages, dampener, sweeps)
      invariant forall k :: 0 <= k < npages ==> score[k, Not(x)] == current[k]
      invariant diff == DistanceAfter(pages, dampener, sweeps)
      invariant sweeps <= maxSweeps
      invariant AboveUntil(pages, dampener, epsilon * epsilon, sweeps)
      decreases maxSweeps - sweeps
    {
      diff := SweepUnrolled(score, pages, dampener, dampeningValue, x, current);
      current := Sweep(pages, dampener, current);
      x := NextParity(x);
      sweeps := sweeps + 1;
    }
    ColumnIs(score, Not(x), current);
    ranks := Column(score, Not(x));
  }

  /**
   * `pagerank_pow_old`: sweep into new_score, copy new_score into old_score, until
   * sqrt of the distance without inlink-less pages is <= epsilon; then new_score,
   * which still holds the zeros of initialisation if no sweep ran.
   */
  method PagerankPowOld(plist: Option<seq<Page>>, ncores: int, npages: int, nedges: int, dampener: real,
                        epsilon: real, maxSweeps: nat)
    returns (ranks: Option<seq<real>>, sweeps: nat)
    requires epsilon > 0.0 && Callable(plist, ncores, npages, nedges, dampener)
    ensures InvalidParams(plist, ncores, npages, nedges, dampener) ==> ranks == None && sweeps == 0
    ensures !InvalidParams(plist, ncores, npages, nedges, dampener) ==>
      && ranks == Some(if sweeps == 0 then Zeros(npages) else Iterate(plist.value, dampener, sweeps))
      && HaltsAfterPartial(plist.value, dampener, epsilon * epsilon, maxSweeps, sweeps)
  {
    if InvalidParams(plist, ncores, npages, nedges, dampener) {
      return None, 0;
    }
    var scores;
    scores, sweeps := RunCopying(plist.value, npages, dampener, epsilon, maxSweeps);
    ranks := Some(scores);
  }

  /** The loop of `PagerankPowOld` on a valid call, from initialisation to the scores it reports. */
  method RunCopying(pages: seq<Page>, npages: nat, dampener: real, epsilon: real, maxSweeps: nat)
    returns (ranks: seq<real>, sweeps: nat)
    requires |pages| == npages > 0 && WellFormed(pages)
    ensures ranks == if sweeps == 0 then Zeros(npages) else Iterate(pages, dampener, sweeps)
    ensures HaltsAfterPartial(pages, dampener, epsilon * epsilon, maxSweeps, sweeps)
  {
    var score := InitPageranks2D(npages);
    var dampeningValue := (1.0 - dampener) / (npages as real);
    var diff := 1.0;
    sweeps := 0;
    ghost var current := Uniform(npages);
    while diff > epsilon * epsilon && sweeps < maxSweeps
      invariant score.Length0 == npages && score.Length1 == 2
      invariant current == Iterate(pages, dampener, sweeps)
      invariant forall k :: 0 <= k < npages ==> score[k, OldScore2D] == current[k]
      invariant sweeps == 0 ==> forall k :: 0 <= k < npages ==> score[k, NewScore2D] == 0.0
      invariant sweeps > 0 ==> forall k :: 0 <= k < npages ==> score[k, NewScore2D] == current[k]
      invariant diff == PartialDistanceAfter(pages, dampener, sweeps)
      invariant sweeps <= maxSweeps
      invariant PartialAboveUntil(pages, dampener, epsilon * epsilon, sweeps)
      decreases maxSweeps - sweeps
    {
      diff := RoundCopying(score, pages, dampener, dampeningValue, current);
      current := Sweep(pages, dampener, current);
      sweeps := sweeps + 1;
    }
    if sweeps == 0 {
      ColumnIs(score, NewScore2D, Zeros(npages));
    } else {
      ColumnIs(score, NewScore2D, current);
    }
    ranks := Column(score, NewScore2D);
  }

  /**
   * `pagerank_padding`: sweep from slot old_index into slot new_index, add up the
   * squared gaps in a second loop, exchange the indices by XOR, until the sum is
   * <= END_ITER; the current scores are then in slot old_index.  The source's
   * print loop has an empty body, so the result is what the store holds.
   */
  method PagerankPadding(plist: Option<seq<Page>>, ncores: int, npages: int, nedges: int, dampener: real,
                         maxSweeps: nat)
    returns (ranks: Option<seq<real>>, sweeps: nat)
    requires Callable(plist, ncores, npages, nedges, dampener)
    ensures InvalidParams(plist, ncores, npages, nedges, dampener) ==> ranks == None && sweeps == 0
    ensures !InvalidParams(plist, ncores, npages, nedges, dampener) ==>
      && ranks == Some(Iterate(plist.value, dampener, sweeps))
      && HaltsAfter(plist.value, dampener, EndIter(), maxSweeps, sweeps)
  {
    if InvalidParams(plist, ncores, npages, nedges, dampener) {
      return None, 0;
    }
    var scores;
    scores, sweeps := RunPadded(plist.value, npages, dampener, maxSweeps);
    ranks := Some(scores);
  }

  /** The loop of `PagerankPadding` on a valid call, from initialisation to the scores it reports. */
  method RunPadded(pages: seq<Page>, npages: nat, dampener: real, maxSweeps: nat)
    returns (ranks: seq<real>, sweeps: nat)
    requires |pages| == npages > 0 && WellFormed(pages)
    ensures ranks == Iterate(pages, dampener, sweeps)
    ensures HaltsAfter(pages, dampener, EndIter(), maxSweeps, sweeps)
  {
    var score := InitPageranksPadding(npages);
    var dampeningValue := (1.0 - dampener) / (npages as real);
    var diff := 1.0;
    var oldIndex: bv32 := LastSlot;
    var newIndex: bv32 := FirstSlot;
    sweeps := 0;
    ghost var current := Uniform(npages);
    while diff > EndIter() && sweeps < maxSweeps
      invariant score.Length0 == npages && score.Length1 == PaddedSlots
      invariant PaddedSlotPair(oldIndex, newIndex)
      invariant current == Iterate(pages, dampener, sweeps)
      invariant forall k :: 0 <= k < npages ==> score[k, Slot(oldIndex)] == current[k]
      invariant diff == DistanceAfter(pages, dampener, sweeps)
      invariant sweeps <= maxSweeps
      invariant AboveUntil(pages, dampener, EndIter(), sweeps)
      decreases maxSweeps - sweeps
    {
      diff := RoundPadded(score, pages, dampener, dampeningValue, oldIndex, newIndex, current);
      XorSwapKeepsSlotPair(oldIndex, newIndex);
      var swapped := XorSwap(oldIndex, newIndex);
      oldIndex, newIndex := swapped.0, swapped.1;
      current := Sweep(pages, dampener, current);
      sweeps := sweeps + 1;
    }
    ColumnIs(score, Slot(oldIndex), current);
    ranks := Column(score, Slot(oldIndex));
  }

  /**
   * `pagerank`: parity-flag sweeps that store each page's squared gap in its record,
   * a second loop adding the stored gaps, until the sum is <= 0.000025; the
   * current scores are then in slot !x.  The source's print loop has an empty
   * body, so the result is what the store holds.
   */
  method Pagerank(plist: Option<seq<Page>>, ncores: int, npages: int, nedges: int, dampener: real, maxSweeps: nat)
    returns (ranks: Option<seq<real>>, sweeps: nat)
    requires Callable(plist, ncores, npages, nedges, dampener)
    ensures InvalidParams(plist, ncores, npages, nedges, dampener) ==> ranks == None && sweeps == 0
    ensures !InvalidParams(plist, ncores, npages, nedges, dampener) ==>
      && ranks == Some(Iterate(plist.value, dampener, sweeps))
      && HaltsAfter(plist.value, dampener, PagerankThreshold(), maxSweeps, sweeps)
  {
    if InvalidParams(plist, ncores, npages, nedges, dampener) {
      return None, 0;
    }
    var scores;
    scores, sweeps := RunRecordingDifferences(plist.value, npages, dampener, maxSweeps);
    ranks := Some(scores);
  }

  /** The loop of `Pagerank` on a valid call, from initialisation to the scores it reports. */
  method RunRecordingDifferences(pages: seq<Page>, npages: nat, dampener: real, maxSweeps: nat)
    returns (ranks: seq<real>, sweeps: nat)
    requires |pages| == npages > 0 && WellFormed(pages)
    ensures ranks == Iterate(pages, dampener, sweeps)
    ensures HaltsAfter(pages, dampener, PagerankThreshold(), maxSweeps, sweeps)
  {
    var score, difference := InitPageranks(npages);
    var dampeningValue := (1.0 - dampener) / (npages as real);
    var x := 1;
    var diff := 1.0;
    sweeps := 0;
    ghost var current := Uniform(npages);
    while diff > PagerankThreshold() && sweeps < maxSweeps
      invariant score.Length0 == npages && score.Length1 == 2 && difference.Length == npages && 0 <= x < 2
      invariant current == Iterate(pages, dampener, sweeps)
      invariant forall k :: 0 <= k < npages ==> score[k, Not(x)] == current[k]
      invariant diff == DistanceAfter(pages, dampener, sweeps)
      invariant sweeps <= maxSweeps
      invariant AboveUntil(pages, dampener, PagerankThreshold(), sweeps)
      decreases maxSweeps - sweeps
    {
      diff := RoundRecordingDifferences(score, difference, pages, dampener, dampeningValue, x, current);
      current := Sweep(pages, dampener, current);
      x := NextParity(x);
      sweeps := sweeps + 1;
    }
    ColumnIs(score, Not(x), current);
    ranks := Column(score, Not(x));
  }
}
