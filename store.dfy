/**
 * The score stores and the small operations on them.  Each store is an
 * array of per-page records; a record's score slots are the columns of an
 * `array2<real>`: two slots for `page_score` and `page_score_2D`, sixteen for
 * the cache-line padded record, of which only slots 0 and 15 are used.
 */
module ScoreStore {
  import opened Graph
  import opened Rank

  /** Columns of the `page_score_2D` record. */
  const NewScore2D: nat := 0
  const OldScore2D: nat := 1

  /** Slots per padded record, and the two slots the padded engine uses. */
  const PaddedSlots: nat := 16
  const FirstSlot: bv32 := 0
  const LastSlot: bv32 := 15

  /** The record position a slot index of the padded engine names; it only ever holds 0 or 15. */
  function Slot(b: bv32): (c: nat)
    requires b == FirstSlot || b == LastSlot
    ensures c < PaddedSlots && (c == 0 <==> b == FirstSlot)
  {
    if b == FirstSlot then 0 else 15
  }

  /** Slot `c` of every record, in page order. */
  function Column(a: array2<real>, c: nat): (s: seq<real>)
    reads a
    requires c < a.Length1
    ensures |s| == a.Length0 && forall i :: 0 <= i < a.Length0 ==> s[i] == a[i, c]
  {
    seq(a.Length0, i requires 0 <= i < a.Length0 reads a => a[i, c])
  }

  /** A slot that matches `s` record by record is `s`. */
  lemma ColumnIs(a: array2<real>, c: nat, s: seq<real>)
    requires c < a.Length1 && |s| == a.Length0
    requires forall i :: 0 <= i < |s| ==> a[i, c] == s[i]
    ensures Column(a, c) == s
  {
  }

  /** C's logical negation `!x` of a parity flag. */
  function Not(x: int): int
  {
    if x == 0 then 1 else 0
  }

  /** `x = (x + 1) % 2`: the parity flag moves to the slot that was just read. */
  function NextParity(x: int): (r: int)
    requires 0 <= x < 2
    ensures 0 <= r < 2 && r != x
    ensures r == Not(x) && Not(r) == x
  {
    (x + 1) % 2
  }

  /** The three XORs of the padded engine exchange the two slot indices. */
  function XorSwap(oldIndex: bv32, newIndex: bv32): (r: (bv32, bv32))
    ensures r.0 == newIndex && r.1 == oldIndex
  {
    var o1 := oldIndex ^ newIndex;
    var n1 := newIndex ^ o1;
    var o2 := o1 ^ n1;
    (o2, n1)
  }

  /** `init_pageranks`: both slots of every record hold 1/n and the difference is 0. */
  method InitPageranks(npages: nat) returns (score: array2<real>, difference: array<real>)
    requires npages > 0
    ensures fresh(score) && fresh(difference)
    ensures score.Length0 == npages && score.Length1 == 2 && difference.Length == npages
    ensures Column(score, 0) == Uniform(npages) && Column(score, 1) == Uniform(npages)
    ensures difference[..] == Zeros(npages)
  {
    score := new real[npages, 2];
    difference := new real[npages];
    var initialValue := 1.0 / (npages as real);
    var i := 0;
    while i < npages
      invariant 0 <= i <= npages
      invariant forall k :: 0 <= k < i ==> score[k, 0] == initialValue && score[k, 1] == initialValue
      invariant forall k :: 0 <= k < i ==> difference[k] == 0.0
    {
      score[i, 0] := initialValue;
      score[i, 1] := initialValue;
      difference[i] := 0.0;
      i := i + 1;
    }
  }

  /** `init_pageranks_2D`: the old score is 1/n and the new score 0. */
  method InitPageranks2D(npages: nat) returns (score: array2<real>)
    requires npages > 0
    ensures fresh(score)
    ensures score.Length0 == npages && score.Length1 == 2
    ensures Column(score, OldScore2D) == Uniform(npages) && Column(score, NewScore2D) == Zeros(npages)
  {
    score := new real[npages, 2];
    var initialValue := 1.0 / (npages as real);
    var i := 0;
    while i < npages
      invariant 0 <= i <= npages
      invariant forall k :: 0 <= k < i ==> score[k, OldScore2D] == initialValue && score[k, NewScore2D] == 0.0
    {
      score[i, OldScore2D] := initialValue;
      score[i, NewScore2D] := 0.0;
      i := i + 1;
    }
  }

  /**
   * `init_pageranks_padding`: slots 0 and 15 of every record hold 1/n.  The other
   * fourteen slots are left as allocated and are never read.
   */
  method InitPageranksPadding(npages: nat) returns (score: array2<real>)
    requires npages > 0
    ensures fresh(score)
    ensures score.Length0 == npages && score.Length1 == PaddedSlots
    ensures Column(score, 0) == Uniform(npages) && Column(score, 15) == Uniform(npages)
  {
    score := new real[npages, PaddedSlots];
    var initialValue := 1.0 / (npages as real);
    var i := 0;
    while i < npages
      invariant 0 <= i <= npages
      invariant forall k :: 0 <= k < i ==> score[k, 0] == initialValue && score[k, 15] == initialValue
    {
      score[i, 0] := initialValue;
      score[i, 15] := initialValue;
      i := i + 1;
    }
  }

  /**
   * The inlink loop: walks the inlink list and adds old[src] / noutlinks(src),
   * where `prev` is what slot `slot` holds; nothing else is read.
   */
  method AccumulateInflow(score: array2<real>, pages: seq<Page>, srcs: seq<nat>, slot: nat, ghost prev: seq<real>)
    returns (total: real)
    requires SourcesOk(pages, srcs) && score.Length0 == |pages| == |prev| && slot < score.Length1
    requires forall k :: 0 <= k < |pages| ==> score[k, slot] == prev[k]
    ensures total == Inflow(pages, prev, srcs)
  {
    total := 0.0;
    var k := 0;
    while k < |srcs|
      invariant 0 <= k <= |srcs|
      invariant total == Inflow(pages, prev, srcs[..k])
    {
      var src := srcs[k];
      assert srcs[..k + 1][..k] == srcs[..k];
      total := total + score[src, slot] / (pages[src].noutlinks as real);
      k := k + 1;
    }
    assert srcs[..k] == srcs;
  }

  /**
   * The inlink loop followed by `score[to] += total * dampener`, as every per-node
   * engine writes it: slot `to` of page i gains d times the inflow read from slot
   * `from` (which holds `prev`) when the page has inlinks, and no other cell changes.
   */
  method AddGain(score: array2<real>, pages: seq<Page>, i: nat, dampener: real, from: nat, to: nat, ghost prev: seq<real>)
    requires WellFormed(pages) && score.Length0 == |pages| == |prev| && i < |pages|
    requires from < score.Length1 && to < score.Length1 && from != to
    requires forall k :: 0 <= k < |pages| ==> score[k, from] == prev[k]
    modifies score
    ensures score[i, to] == old(score[i, to]) + Gain(pages, dampener, prev, i)
    ensures forall k, c :: 0 <= k < score.Length0 && 0 <= c < score.Length1 && (k != i || c != to) ==>
      score[k, c] == old(score[k, c])
  {
    var inlist := pages[i].inlinks;
    if inlist == [] {
      return;
    }
    var total := AccumulateInflow(score, pages, inlist, from, prev);
    score[i, to] := score[i, to] + total * dampener;
  }

  /**
   * `update_score`: adds the gain of page i, read from slot !x (which holds `prev`),
   * to slot x, and returns (score[x] - score[!x])^2.
   */
  method UpdateScore(score: array2<real>, pages: seq<Page>, i: nat, dampener: real, x: int, ghost prev: seq<real>)
    returns (diff: real)
    requires WellFormed(pages) && score.Length0 == |pages| == |prev| && score.Length1 == 2
    requires i < |pages| && 0 <= x < 2
    requires forall k :: 0 <= k < |pages| ==> score[k, Not(x)] == prev[k]
    modifies score
    ensures score[i, x] == old(score[i, x]) + Gain(pages, dampener, prev, i)
    ensures forall k :: 0 <= k < |pages| ==> score[k, Not(x)] == prev[k]
    ensures forall k :: 0 <= k < |pages| && k != i ==> score[k, x] == old(score[k, x])
    ensures diff == Sq(score[i, x] - score[i, Not(x)])
  {
    AddGain(score, pages, i, dampener, Not(x), x, prev);
    diff := Sq(score[i, x] - score[i, Not(x)]);
  }
}
