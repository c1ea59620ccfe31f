/**
 * One sweep of each per-node engine: every page's new slot is set to the
 * baseline and then, if it has inlinks, d times the inflow read from the old
 * slot is added.  The variants differ in loop shape and in how they
 * accumulate the convergence distance.
 */
module Sweeps {
  import opened Graph
  import opened Rank
  import opened ScoreStore

  /** 2^64: `size_t` is taken to be 64 bits wide. */
  const SizeTModulus: int := 0x1_0000_0000_0000_0000

  /** An `int` converted to `size_t`, as C's usual arithmetic conversions do. */
  function ToSizeT(v: int): (r: nat)
    ensures r < SizeTModulus
    ensures 0 <= v < SizeTModulus ==> r == v
    ensures -SizeTModulus <= v < 0 ==> r == v + SizeTModulus
  {
    v % SizeTModulus
  }

  /** The unrolled loop's test as written: the signed `npages - 4` compared against an unsigned index. */
  predicate UnrolledGuardAsWritten(i: nat, npages: int)
  {
    i <= ToSizeT(npages - 4)
  }

  /**
   * For 1 <= npages < 4 the guard as written admits i = 0, and that batch then
   * updates records 0..3, at least one of which lies past the last record.
   */
  lemma UnrolledGuardOverrunsSmallInputs(npages: int)
    requires 1 <= npages < 4
    ensures UnrolledGuardAsWritten(0, npages)
    ensures !(0 + 3 < npages)
  {
  }

  /** For npages >= 4 the guard as written is the intended `i + 4 <= npages`. */
  lemma UnrolledGuardAgreesForFourOrMore(i: nat, npages: int)
    requires 4 <= npages < SizeTModulus && i < SizeTModulus
    ensures UnrolledGuardAsWritten(i, npages) <==> i + 4 <= npages
  {
  }

  // ---------------------------------------------------------------------------
  // Sweeps over the two-slot record, parity flag x
  // ---------------------------------------------------------------------------

  /**
   * The per-page step every two-slot sweep performs: slot x of page i is set to the
   * baseline, `update_score` adds the inflow read from slot !x, and its squared
   * difference is added to the running distance.  Slot x of page i becomes page i's
   * score in the sweep of `prev`, and nothing else changes.  (`pagerank_nopow` and
   * `pagerank_pow` write the same statements inline.)
   */
  method RefreshPage(score: array2<real>, pages: seq<Page>, dampener: real, dampeningValue: real, x: int, i: nat,
                     ghost prev: seq<real>, diffIn: real)
    returns (diff: real)
    requires WellFormed(pages) && |pages| > 0 && score.Length0 == |pages| == |prev| && score.Length1 == 2
    requires 0 <= x < 2 && i < |pages| && dampeningValue == Baseline(dampener, |pages|)
    requires forall k :: 0 <= k < |pages| ==> score[k, Not(x)] == prev[k]
    requires diffIn == SqDistUpTo(Sweep(pages, dampener, prev), prev, i)
    modifies score
    ensures score[i, x] == Sweep(pages, dampener, prev)[i]
    ensures forall k :: 0 <= k < |pages| ==> score[k, Not(x)] == prev[k]
    ensures forall k :: 0 <= k < |pages| && k != i ==> score[k, x] == old(score[k, x])
    ensures diff == SqDistUpTo(Sweep(pages, dampener, prev), prev, i + 1)
  {
    ghost var next := Sweep(pages, dampener, prev);
    score[i, x] := dampeningValue;
    var d := UpdateScore(score, pages, i, dampener, x, prev);
    assert score[i, x] == next[i];
    assert d == Sq(next[i] - prev[i]);
    diff := diffIn + d;
  }

  /**
   * The loop of `pagerank_nopow` and `pagerank_pow`: pages 0 to n - 1 in order, each
   * new slot x computed from slot !x, and (new - old)^2 added for every page.
   */
  method SweepFused(score: array2<real>, pages: seq<Page>, dampener: real, dampeningValue: real, x: int,
                    ghost prev: seq<real>)
    returns (diff: real)
    requires WellFormed(pages) && |pages| > 0 && score.Length0 == |pages| && score.Length1 == 2
    requires 0 <= x < 2 && dampeningValue == Baseline(dampener, |pages|)
    requires |prev| == |pages| && forall k :: 0 <= k < |pages| ==> score[k, Not(x)] == prev[k]
    modifies score
    ensures forall k :: 0 <= k < |pages| ==> score[k, Not(x)] == prev[k]
    ensures forall k :: 0 <= k < |pages| ==> score[k, x] == Sweep(pages, dampener, prev)[k]
    ensures diff == SqDist(Sweep(pages, dampener, prev), prev)
  {
    ghost var next := Sweep(pages, dampener, prev);
    diff := 0.0;
    var i := 0;
    while i < |pages|
      invariant 0 <= i <= |pages|
      invariant forall k :: 0 <= k < |pages| ==> score[k, Not(x)] == prev[k]
      invariant forall k :: 0 <= k < i ==> score[k, x] == next[k]
      invariant diff == SqDistUpTo(next, prev, i)
    {
      diff := RefreshPage(score, pages, dampener, dampeningValue, x, i, prev, diff);
      i := i + 1;
    }
  }

  /**
   * The body of the unrolled loop: RefreshPage on pages i, i + 1, i + 2 and i + 3,
   * each adding its squared difference to the running distance.
   */
  method RefreshFour(score: array2<real>, pages: seq<Page>, dampener: real, dampeningValue: real, x: int, i: nat,
                     ghost prev: seq<real>, diffIn: real)
    returns (diff: real)
    requires WellFormed(pages) && |pages| > 0 && score.Length0 == |pages| == |prev| && score.Length1 == 2
    requires 0 <= x < 2 && i + 4 <= |pages| && dampeningValue == Baseline(dampener, |pages|)
    requires forall k :: 0 <= k < |pages| ==> score[k, Not(x)] == prev[k]
    requires diffIn == SqDistUpTo(Sweep(pages, dampener, prev), prev, i)
    modifies score
    ensures forall k :: 0 <= k < |pages| ==> score[k, Not(x)] == prev[k]
    ensures forall k :: i <= k < i + 4 ==> score[k, x] == Sweep(pages, dampener, prev)[k]
    ensures forall k :: 0 <= k < |pages| && !(i <= k < i + 4) ==> score[k, x] == old(score[k, x])
    ensures diff == SqDistUpTo(Sweep(pages, dampener, prev), prev, i + 4)
  {
    diff := RefreshPage(score, pages, dampener, dampeningValue, x, i, prev, diffIn);
    diff := RefreshPage(score, pages, dampener, dampeningValue, x, i + 1, prev, diff);
    diff := RefreshPage(score, pages, dampener, dampeningValue, x, i + 2, prev, diff);
    diff := RefreshPage(score, pages, dampener, dampeningValue, x, i + 3, prev, diff);
  }

  /**
   * The sweep of `pagerank_unroll`: batches of four pages, then a remainder loop.
   * The batch bound is the intended signed `i <= npages - 4` (UnrolledGuardAsWritten
   * is the bound as the source evaluates it).  Its contract is SweepFused's: the
   * same scores and the same distance as the plain loop, so the two loops together
   * refresh every page.
   */
  method SweepUnrolled(score: array2<real>, pages: seq<Page>, dampener: real, dampeningValue: real, x: int,
                       ghost prev: seq<real>)
    returns (diff: real)
    requires WellFormed(pages) && |pages| > 0 && score.Length0 == |pages| && score.Length1 == 2
    requires 0 <= x < 2 && dampeningValue == Baseline(dampener, |pages|)
    requires |prev| == |pages| && forall k :: 0 <= k < |pages| ==> score[k, Not(x)] == prev[k]
    modifies score
    ensures forall k :: 0 <= k < |pages| ==> score[k, Not(x)] == prev[k]
    ensures forall k :: 0 <= k < |pages| ==> score[k, x] == Sweep(pages, dampener, prev)[k]
    ensures diff == SqDist(Sweep(pages, dampener, prev), prev)
  {
    ghost var next := Sweep(pages, dampener, prev);
    var npages := |pages|;
    diff := 0.0;
    var i := 0;
    while i <= npages - 4
      invariant 0 <= i <= npages
      invariant forall k :: 0 <= k < |pages| ==> score[k, Not(x)] == prev[k]
      invariant forall k :: 0 <= k < i ==> score[k, x] == next[k]
      invariant diff == SqDistUpTo(next, prev, i)
    {
      diff := RefreshFour(score, pages, dampener, dampeningValue, x, i, prev, diff);
      i := i + 4;
    }

    while i < npages
      invariant 0 <= i <= npages
      invariant forall k :: 0 <= k < |pages| ==> score[k, Not(x)] == prev[k]
      invariant forall k :: 0 <= k < i ==> score[k, x] == next[k]
      invariant diff == SqDistUpTo(next, prev, i)
    {
      diff := RefreshPage(score, pages, dampener, dampeningValue, x, i, prev, diff);
      i := i + 1;
    }
  }

  // ---------------------------------------------------------------------------
  // The copying engine over `page_score_2D`
  // ---------------------------------------------------------------------------

  /**
   * One page of `pagerank_pow_old`: new_score is set to the baseline and, when the
   * page has inlinks, d times the inflow read from old_score is added and
   * (new - old)^2 joins the distance; a page without inlinks adds (old - old)^2 = 0.
   */
  method RefreshPageCopying(score: array2<real>, pages: seq<Page>, dampener: real, dampeningValue: real, i: nat,
                            ghost prev: seq<real>, diffIn: real)
    returns (diff: real)
    requires WellFormed(pages) && |pages| > 0 && score.Length0 == |pages| == |prev| && score.Length1 == 2
    requires i < |pages| && dampeningValue == Baseline(dampener, |pages|)
    requires forall k :: 0 <= k < |pages| ==> score[k, OldScore2D] == prev[k]
    requires diffIn == PartialSqDistUpTo(pages, Sweep(pages, dampener, prev), prev, i)
    modifies score
    ensures score[i, NewScore2D] == Sweep(pages, dampener, prev)[i]
    ensures forall k :: 0 <= k < |pages| ==> score[k, OldScore2D] == prev[k]
    ensures forall k :: 0 <= k < |pages| && k != i ==> score[k, NewScore2D] == old(score[k, NewScore2D])
    ensures diff == PartialSqDistUpTo(pages, Sweep(pages, dampener, prev), prev, i + 1)
  {
    ghost var next := Sweep(pages, dampener, prev);
    score[i, NewScore2D] := dampeningValue;
    AddGain(score, pages, i, dampener, OldScore2D, NewScore2D, prev);
    assert score[i, NewScore2D] == next[i];
    if pages[i].inlinks == [] {
      SqIsProduct(score[i, OldScore2D] - score[i, OldScore2D]);
      diff := diffIn + Sq(score[i, OldScore2D] - score[i, OldScore2D]);
    } else {
      diff := diffIn + Sq(score[i, NewScore2D] - score[i, OldScore2D]);
    }
  }

  /**
   * The first loop of `pagerank_pow_old`: new_score of every page becomes its score in
   * the sweep of old_score, old_score is untouched, and the distance is the one that
   * leaves out pages without inlinks.
   */
  method SweepCopying(score: array2<real>, pages: seq<Page>, dampener: real, dampeningValue: real, ghost prev: seq<real>)
    returns (diff: real)
    requires WellFormed(pages) && |pages| > 0 && score.Length0 == |pages| && score.Length1 == 2
    requires dampeningValue == Baseline(dampener, |pages|)
    requires |prev| == |pages| && forall k :: 0 <= k < |pages| ==> score[k, OldScore2D] == prev[k]
    modifies score
    ensures forall k :: 0 <= k < |pages| ==> score[k, OldScore2D] == prev[k]
    ensures forall k :: 0 <= k < |pages| ==> score[k, NewScore2D] == Sweep(pages, dampener, prev)[k]
    ensures diff == PartialSqDist(pages, Sweep(pages, dampener, prev), prev)
  {
    ghost var next := Sweep(pages, dampener, prev);
    diff := 0.0;
    var i := 0;
    while i < |pages|
      invariant 0 <= i <= |pages|
      invariant forall k :: 0 <= k < |pages| ==> score[k, OldScore2D] == prev[k]
      invariant forall k :: 0 <= k < i ==> score[k, NewScore2D] == next[k]
      invariant diff == PartialSqDistUpTo(pages, next, prev, i)
    {
      diff := RefreshPageCopying(score, pages, dampener, dampeningValue, i, prev, diff);
      i := i + 1;
    }
  }

  /** The second loop of `pagerank_pow_old`: old_score := new_score for every page. */
  method CopyNewToOld(score: array2<real>)
    requires score.Length1 == 2
    modifies score
    ensures forall k :: 0 <= k < score.Length0 ==> score[k, OldScore2D] == old(score[k, NewScore2D])
    ensures forall k :: 0 <= k < score.Length0 ==> score[k, NewScore2D] == old(score[k, NewScore2D])
  {
    var i := 0;
    while i < score.Length0
      invariant 0 <= i <= score.Length0
      invariant forall k :: 0 <= k < i ==> score[k, OldScore2D] == old(score[k, NewScore2D])
      invariant forall k :: 0 <= k < score.Length0 ==> score[k, NewScore2D] == old(score[k, NewScore2D])
      invariant forall k :: i <= k < score.Length0 ==> score[k, OldScore2D] == old(score[k, OldScore2D])
    {
      score[i, OldScore2D] := score[i, NewScore2D];
      i := i + 1;
    }
  }

  /**
   * One round of `pagerank_pow_old`, its two loops in turn: afterwards both fields of
   * every record hold the new generation, and the distance is the one without
   * inlink-less pages.
   */
  method RoundCopying(score: array2<real>, pages: seq<Page>, dampener: real, dampeningValue: real, ghost prev: seq<real>)
    returns (diff: real)
    requires WellFormed(pages) && |pages| > 0 && score.Length0 == |pages| && score.Length1 == 2
    requires dampeningValue == Baseline(dampener, |pages|)
    requires |prev| == |pages| && forall k :: 0 <= k < |pages| ==> score[k, OldScore2D] == prev[k]
    modifies score
    ensures forall k :: 0 <= k < |pages| ==> score[k, OldScore2D] == Sweep(pages, dampener, prev)[k]
    ensures forall k :: 0 <= k < |pages| ==> score[k, NewScore2D] == Sweep(pages, dampener, prev)[k]
    ensures diff == PartialSqDist(pages, Sweep(pages, dampener, prev), prev)
  {
    diff := SweepCopying(score, pages, dampener, dampeningValue, prev);
    CopyNewToOld(score);
  }

  // ---------------------------------------------------------------------------
  // The padded engine: slot indices old_index and new_index
  // ---------------------------------------------------------------------------

  /** The two slot indices of the padded engine are 0 and 15, one each. */
  predicate PaddedSlotPair(oldIndex: bv32, newIndex: bv32)
  {
    (oldIndex == LastSlot && newIndex == FirstSlot) || (oldIndex == FirstSlot && newIndex == LastSlot)
  }

  /** The XOR exchange keeps the pair {0, 15} and keeps the two indices apart. */
  lemma XorSwapKeepsSlotPair(oldIndex: bv32, newIndex: bv32)
    requires PaddedSlotPair(oldIndex, newIndex)
    ensures PaddedSlotPair(XorSwap(oldIndex, newIndex).0, XorSwap(oldIndex, newIndex).1)
    ensures XorSwap(oldIndex, newIndex).0 != XorSwap(oldIndex, newIndex).1
  {
  }

  /**
   * The first loop of `pagerank_padding`: slot new_index of every page becomes its
   * score in the sweep of slot old_index, which is untouched; a page without inlinks
   * keeps the baseline.  No distance is accumulated here.
   */
  method SweepPadded(score: array2<real>, pages: seq<Page>, dampener: real, dampeningValue: real,
                     oldIndex: bv32, newIndex: bv32, ghost prev: seq<real>)
    requires WellFormed(pages) && |pages| > 0 && score.Length0 == |pages| && score.Length1 == PaddedSlots
    requires PaddedSlotPair(oldIndex, newIndex) && dampeningValue == Baseline(dampener, |pages|)
    requires |prev| == |pages| && forall k :: 0 <= k < |pages| ==> score[k, Slot(oldIndex)] == prev[k]
    modifies score
    ensures forall k :: 0 <= k < |pages| ==> score[k, Slot(oldIndex)] == prev[k]
    ensures forall k :: 0 <= k < |pages| ==> score[k, Slot(newIndex)] == Sweep(pages, dampener, prev)[k]
    ensures forall k, c :: 0 <= k < |pages| && 0 <= c < PaddedSlots && c != Slot(newIndex) ==>
              score[k, c] == old(score[k, c])
  {
    ghost var next := Sweep(pages, dampener, prev);
    var i := 0;
    while i < |pages|
      invariant 0 <= i <= |pages|
      invariant forall k :: 0 <= k < |pages| ==> score[k, Slot(oldIndex)] == prev[k]
      invariant forall k :: 0 <= k < i ==> score[k, Slot(newIndex)] == next[k]
      invariant forall k, c :: 0 <= k < |pages| && 0 <= c < PaddedSlots && c != Slot(newIndex) ==>
                  score[k, c] == old(score[k, c])
    {
      score[i, Slot(newIndex)] := dampeningValue;
      AddGain(score, pages, i, dampener, Slot(oldIndex), Slot(newIndex), prev);
      assert score[i, Slot(newIndex)] == next[i];
      i := i + 1;
    }
  }

  /**
   * The reduction loop of `pagerank_padding`: the sum over all pages of the squared
   * gap between two slots.  It reads the store and changes nothing.
   */
  method SlotDistance(score: array2<real>, newSlot: nat, oldSlot: nat) returns (diff: real)
    requires newSlot < score.Length1 && oldSlot < score.Length1
    ensures diff == SqDist(Column(score, newSlot), Column(score, oldSlot))
  {
    diff := 0.0;
    var i := 0;
    while i < score.Length0
      invariant 0 <= i <= score.Length0
      invariant diff == SqDistUpTo(Column(score, newSlot), Column(score, oldSlot), i)
    {
      diff := diff + Sq(score[i, newSlot] - score[i, oldSlot]);
      i := i + 1;
    }
  }

  /**
   * One round of `pagerank_padding`, its two loops in turn: slot new_index holds the
   * new generation, slot old_index the old one, and the distance is over all pages.
   */
  method RoundPadded(score: array2<real>, pages: seq<Page>, dampener: real, dampeningValue: real,
                     oldIndex: bv32, newIndex: bv32, ghost prev: seq<real>)
    returns (diff: real)
    requires WellFormed(pages) && |pages| > 0 && score.Length0 == |pages| && score.Length1 == PaddedSlots
    requires PaddedSlotPair(oldIndex, newIndex) && dampeningValue == Baseline(dampener, |pages|)
    requires |prev| == |pages| && forall k :: 0 <= k < |pages| ==> score[k, Slot(oldIndex)] == prev[k]
    modifies score
    ensures forall k :: 0 <= k < |pages| ==> score[k, Slot(oldIndex)] == prev[k]
    ensures forall k :: 0 <= k < |pages| ==> score[k, Slot(newIndex)] == Sweep(pages, dampener, prev)[k]
    ensures forall k, c :: 0 <= k < |pages| && 0 <= c < PaddedSlots && c != Slot(newIndex) ==>
              score[k, c] == old(score[k, c])
    ensures diff == SqDist(Sweep(pages, dampener, prev), prev)
  {
    SweepPadded(score, pages, dampener, dampeningValue, oldIndex, newIndex, prev);
    diff := SlotDistance(score, Slot(newIndex), Slot(oldIndex));
    ColumnIs(score, Slot(newIndex), Sweep(pages, dampener, prev));
    ColumnIs(score, Slot(oldIndex), prev);
  }

  // ---------------------------------------------------------------------------
  // The engine `pagerank`: per-page differences stored in the record
  // ---------------------------------------------------------------------------

  /**
   * The first loop of `pagerank`: the same per-page statements as `update_score`,
   * except that (new - old)^2 is stored in the page's `difference` field instead
   * of being added up.
   */
  method SweepRecordingDifferences(score: array2<real>, difference: array<real>, pages: seq<Page>, dampener: real,
                                   dampeningValue: real, x: int, ghost prev: seq<real>)
    requires WellFormed(pages) && |pages| > 0 && score.Length0 == |pages| == difference.Length && score.Length1 == 2
    requires 0 <= x < 2 && dampeningValue == Baseline(dampener, |pages|)
    requires |prev| == |pages| && forall k :: 0 <= k < |pages| ==> score[k, Not(x)] == prev[k]
    modifies score, difference
    ensures forall k :: 0 <= k < |pages| ==> score[k, Not(x)] == prev[k]
    ensures forall k :: 0 <= k < |pages| ==> score[k, x] == Sweep(pages, dampener, prev)[k]
    ensures forall k :: 0 <= k < |pages| ==> difference[k] == Sq(Sweep(pages, dampener, prev)[k] - prev[k])
  {
    ghost var next := Sweep(pages, dampener, prev);
    var i := 0;
    while i < |pages|
      invariant 0 <= i <= |pages|
      invariant forall k :: 0 <= k < |pages| ==> score[k, Not(x)] == prev[k]
      invariant forall k :: 0 <= k < i ==> score[k, x] == next[k]
      invariant forall k :: 0 <= k < i ==> difference[k] == Sq(next[k] - prev[k])
    {
      score[i, x] := dampeningValue;
      var d := UpdateScore(score, pages, i, dampener, x, prev);
      difference[i] := d;
      i := i + 1;
    }
  }

  /** The reduction loop of `pagerank`: the stored differences added up. */
  method SumDifferences(difference: array<real>) returns (diff: real)
    ensures diff == Sum(difference[..])
  {
    diff := 0.0;
    var i := 0;
    while i < difference.Length
      invariant 0 <= i <= difference.Length
      invariant diff == Sum(difference[..i])
    {
      assert difference[..i + 1][..i] == difference[..i];
      diff := diff + difference[i];
      i := i + 1;
    }
    assert difference[..i] == difference[..];
  }

  /**
   * One round of `pagerank`, its two loops in turn: slot x holds the new generation,
   * slot !x the old one, and the stored differences add up to the distance over all
   * pages.
   */
  method RoundRecordingDifferences(score: array2<real>, difference: array<real>, pages: seq<Page>, dampener: real,
                                   dampeningValue: real, x: int, ghost prev: seq<real>)
    returns (diff: real)
    requires WellFormed(pages) && |pages| > 0 && score.Length0 == |pages| == difference.Length && score.Length1 == 2
    requires 0 <= x < 2 && dampeningValue == Baseline(dampener, |pages|)
    requires |prev| == |pages| && forall k :: 0 <= k < |pages| ==> score[k, Not(x)] == prev[k]
    modifies score, difference
    ensures forall k :: 0 <= k < |pages| ==> score[k, Not(x)] == prev[k]
    ensures forall k :: 0 <= k < |pages| ==> score[k, x] == Sweep(pages, dampener, prev)[k]
    ensures forall k :: 0 <= k < |pages| ==> difference[k] == Sq(Sweep(pages, dampener, prev)[k] - prev[k])
    ensures diff == SqDist(Sweep(pages, dampener, prev), prev)
  {
    SweepRecordingDifferences(score, difference, pages, dampener, dampeningValue, x, prev);
    diff := SumDifferences(difference);
    ghost var gaps := difference[..];
    SumOfSquaredGaps(gaps, Sweep(pages, dampener, prev), prev, |pages|);
    assert gaps[..|pages|] == gaps;
  }
}
