# PageRank iteration engines

This project models the engine family of `src/pagerank.c` and proves properties about it. Each engine computes PageRank scores by power iteration. It starts every page at `1/n`. Each sweep gives a page the baseline `(1-d)/n`, plus `d` times the sum of `old[src] / noutlinks(src)` over its inlink sources. It stops once the convergence distance falls to a threshold. The distance is the sum of squared per-page changes, either as is or under a square root.

The engines and what sets them apart:

- `pagerank_nopow` and `pagerank_pow` keep two score slots per page record. A parity flag `x` names the slot being written, and the other slot, `!x`, is read.
- `pagerank_unroll` is the same computation. Its sweep is batched by four and finished by a remainder loop, and each page's update goes through `update_score`.
- `pagerank_pow_old` writes `new_score` from `old_score`, then copies every `new_score` into `old_score`.
- `pagerank_padding` keeps sixteen slots per record but uses only slots 0 and 15. The two slot indices are exchanged by three XORs, and the distance is added up in a second loop.
- `pagerank` stores each page's squared change in the record, and a second loop adds them up.
- `pagerank_mm` builds a dense n×n transition matrix from the inlink lists. It sets every all-zero (dangling) column to `d/n` in every row. Each iteration multiplies the matrix by the score vector with `multiply`, then exchanges the two score vectors by reference.

Modules:

- `Graph`: the page list the engines read. Position i of the list holds page index i.
- `Rank`: the real-number mathematics of a sweep, the distance, the iterated generations and the loop's halting condition.
- `ScoreStore`: the score records as `array2<real>` columns, the three initialisers and `update_score`.
- `Sweeps`: one sweep of each per-node engine, proved against `Rank.Sweep`.
- `Engines`: the per-node engines, proved against `Rank.Iterate` and `Rank.HaltsAfter`.
- `Transition`: the patched transition matrix, one matrix step, mass preservation, and agreement with the per-node sweep.
- `MatrixEngine`: `multiply`, the matrix build, the dangling-column fill and the `pagerank_mm` loop.

Where the code does something a reader might not expect, the model follows the code:

- `init_pageranks_2D` sets `new_score` to 0, not to `1/n` (src/pagerank.c:298-299).
- `pagerank_pow_old` adds `(old - old)^2 = 0` for a page without inlinks instead of its real change (src/pagerank.c:337). Its distance is `Rank.PartialSqDist`. `Rank.PartialDistanceAgreesFromSecondSweep` shows that it equals the full distance from the second sweep on.
- `pagerank_pow_old` copies generations; it does not swap them.
- `pagerank_padding` and `pagerank` compare the sum of squares without a root against fixed thresholds (`END_ITER` = 5e-3 squared, and 0.000025).
- The comment before the dangling fill says `1/N`, but the code writes `dampener/npages` (src/pagerank.c:526, 540). The model uses `d/n`.

## Model

| member | source | states |
|---|---|---|
| Graph.InvalidParams | src/pagerank.c:96 | the engines' early-return test, the same at lines 163, 225, 317, 406, 504 and 609: plist is NULL, ncores <= 0, npages <= 0, nedges < 0 or dampener <= 0 |
| Graph.InCount | src/pagerank.c:531-537 | how many of the first k pages list x as an inlink, at most k. It is 0 exactly when none of them does, which is when the source finds column x all zero |
| Rank.Baseline | src/pagerank.c:168 | `dampening_value`, `(1 - d) / n`, the score every page starts a sweep with |
| Rank.Inflow | src/pagerank.c:194-197 | the inlink loop's `total`: `old[src] / noutlinks(src)` added up over the list in list order |
| Rank.Gain | src/pagerank.c:185-198 | what a page adds on top of the baseline: nothing for a NULL inlink list, otherwise `total * dampener` |
| Rank.NewScore | src/pagerank.c:177-198 | a page's score after the sweep: the baseline plus its gain |
| Rank.Sweep | src/pagerank.c:176-200 | the generation one sweep computes from the old one, as long as the page list, with page i holding its new score |
| Rank.Sq | src/pagerank.c:247-261 | the square of one page's change, which the engines write as `pow(new - old, 2)` or as `a * a`. Rank.SqIsProduct shows the two forms agree |
| Rank.Uniform | src/pagerank.c:42-54 | the initial generation: `1/npages` for each of the n pages, as `init_pageranks` and the other initialisers store it |
| Rank.SqDist | src/pagerank.c:185-199 | the sum over all pages of `(new - old)^2`, the value `diff` holds before the root |
| Rank.PartialSqDist | src/pagerank.c:336-351 | the copying engine's sum, which adds 0 for a page with a NULL inlink list |
| Rank.Iterate | src/pagerank.c:174-203 | generation k: `1/n` for every page at 0, then one sweep of the previous generation |
| Rank.DistanceAfter | src/pagerank.c:171-202 | the loop's `diff` after k sweeps: 1 before the first, then the squared distance between the last two generations |
| Rank.AboveUntil | src/pagerank.c:174 | the loop test passed before each of the first s sweeps |
| Rank.HaltsAfter | src/pagerank.c:174-203 | the loop stopped after s sweeps: every earlier test passed, and the test now fails or the sweep bound is reached |
| Rank.PartialDistanceAfter | src/pagerank.c:323-358 | the copying engine's `diff` after k sweeps, built from PartialSqDist |
| Rank.PartialAboveUntil | src/pagerank.c:326 | the copying engine's loop test passed before each of the first s sweeps |
| Rank.HaltsAfterPartial | src/pagerank.c:326-358 | the copying engine's loop stopped after s sweeps |
| Rank.SqIsProduct | src/pagerank.c:247 | `pow(a, 2)` equals `a * a`, so the pow and no-pow engines add the same squares |
| Rank.SweepWithoutInlinks | src/pagerank.c:177-187 | a page without inlinks gets exactly the baseline `(1-d)/n`, whatever the old scores are |
| Rank.InflowReadsOnlySources | src/pagerank.c:194-197 | the inlink total depends only on the old scores of the listed sources |
| Rank.SweepReadsOnlyInlinkSources | src/pagerank.c:176-200 | a page's new score depends only on its inlink sources' old scores, so no page reads a value written in the same sweep |
| Rank.SweepNonNegative | src/pagerank.c:176-200 | with 0 < d <= 1, a sweep of non-negative scores gives non-negative scores |
| Rank.IterateNonNegative | src/pagerank.c:174-203 | with 0 < d <= 1, every generation the engines produce is non-negative |
| Rank.SqDistUpToNonNegative | src/pagerank.c:185-199 | a partial sum of squared changes is >= 0, and it is 0 exactly when the first k pages did not change |
| Rank.SqDistZeroIffEqual | src/pagerank.c:199-202 | the convergence distance is >= 0, and it is 0 exactly when the two generations are equal |
| Rank.PartialSqDistUpToBounds | src/pagerank.c:336-351 | the distance that skips inlink-less pages lies between 0 and the full distance, and equals it when those pages did not move |
| Rank.PartialSqDistAfterFirstSweep | src/pagerank.c:336-351 | the copying engine's distance is at most the full one after a first sweep and equals it after a second |
| Rank.PartialDistanceAgreesFromSecondSweep | src/pagerank.c:326-358 | from the second sweep on, the copying engine's loop test sees the same distance as the other engines |
| Rank.AboveUntilEveryEarlierSweep | src/pagerank.c:174-203 | the loop ran s sweeps exactly when each of the distances before them exceeded the threshold |
| Rank.PartialAboveUntilEveryEarlierSweep | src/pagerank.c:326-358 | the same for the copying engine's distance |
| Rank.UniformSumsToOne | src/pagerank.c:44-49 | the starting scores `1/n` add up to 1 |
| Rank.SoleInNeighbour | src/pagerank.c:194-198 | when A has out-degree 1 and is B's only inlink, B's new score is `(1-d)/n + d * old[A]` |
| Rank.CycleUniformIsFixedPoint | src/pagerank.c:174-203 | on the cycle 0→1→2→0 the uniform vector is a fixed point of the sweep |
| Rank.SumOfSquaredGaps | src/pagerank.c:648-654 | adding up the stored per-page squared changes gives the squared distance |
| Rank.RootComparison | src/pagerank.c:130 | for a root r >= 0 and epsilon > 0, `r > epsilon` holds exactly when `r*r > epsilon*epsilon`, so testing the sum against epsilon squared is the rooted test |
| ScoreStore.Not | src/pagerank.c:185 | `!x` on a slot index 0 or 1: the other slot |
| ScoreStore.NextParity | src/pagerank.c:129 | `x = (x + 1) % 2` keeps x in {0, 1}, moves it to the other slot, and makes the new `!x` the old x |
| ScoreStore.XorSwap | src/pagerank.c:455-457 | the three XORs exchange `old_index` and `new_index` |
| ScoreStore.InitPageranks | src/pagerank.c:42-54 | both score slots of every record hold `1/n` and every difference is 0 |
| ScoreStore.InitPageranks2D | src/pagerank.c:292-303 | every `old_score` holds `1/n` and every `new_score` holds 0 |
| ScoreStore.InitPageranksPadding | src/pagerank.c:381-392 | slots 0 and 15 of every record hold `1/n` |
| ScoreStore.AccumulateInflow | src/pagerank.c:71-77 | the inlink loop's `total` is the sum of `old[src] / noutlinks(src)` over the list, read from the old slot |
| ScoreStore.AddGain | src/pagerank.c:62-79 | a page with inlinks gains `d * total` in its new slot, a page without keeps it, and no other cell changes |
| ScoreStore.UpdateScore | src/pagerank.c:56-82 | `update_score` adds the gain to slot x, leaves slot !x and every other page untouched, and returns `(score[x] - score[!x])^2` |
| Sweeps.ToSizeT | src/pagerank.c:110 | converting an int to a 64-bit `size_t` keeps values in [0, 2^64) and wraps negative values by 2^64 |
| Sweeps.UnrolledGuardAsWritten | src/pagerank.c:110 | the batch loop's test as C evaluates it, `i <= (size_t)(npages - 4)` |
| Sweeps.UnrolledGuardOverrunsSmallInputs | src/pagerank.c:110-121 | for 1 <= npages < 4, the guard as written lets the batch starting at 0 run, and that batch touches a record past the end |
| Sweeps.UnrolledGuardAgreesForFourOrMore | src/pagerank.c:110 | for npages >= 4, the guard as written is the intended `i + 4 <= npages` |
| Sweeps.RefreshPage | src/pagerank.c:111-112 | setting one page's slot x to the baseline and calling `update_score` gives that page its score in the sweep. Slot !x is unchanged and the running distance grows by that page's squared change |
| Sweeps.SweepFused | src/pagerank.c:176-200 | slot x of every page becomes its score in the sweep of slot !x, slot !x is unchanged, and the distance is the full sum of squares |
| Sweeps.RefreshFour | src/pagerank.c:111-121 | the unrolled body updates pages i..i+3 to their sweep scores, changes no other new slot, and adds their four squared changes |
| Sweeps.SweepUnrolled | src/pagerank.c:108-127 | the batched loop plus the remainder loop give every page its sweep score and the same distance as the plain loop, so together they refresh each page once |
| Sweeps.RefreshPageCopying | src/pagerank.c:329-351 | one page of the copying engine gets its sweep score in `new_score` and leaves `old_score` alone. It adds its squared change, or 0 when it has no inlinks |
| Sweeps.SweepCopying | src/pagerank.c:327-352 | every `new_score` becomes the sweep of the `old_score` column, which is unchanged, and the distance skips inlink-less pages |
| Sweeps.CopyNewToOld | src/pagerank.c:354-356 | every `old_score` becomes its record's `new_score`, and `new_score` is unchanged |
| Sweeps.RoundCopying | src/pagerank.c:327-356 | after one round both fields of every record hold the new generation |
| Sweeps.XorSwapKeepsSlotPair | src/pagerank.c:415-457 | when the two indices are 0 and 15 in either order, the XOR exchange leaves them 0 and 15 in the other order, so they stay distinct |
| Sweeps.SweepPadded | src/pagerank.c:421-448 | slot `new_index` of every page becomes its sweep score, and every other slot, `old_index` and the fourteen unused ones, is unchanged |
| Sweeps.SlotDistance | src/pagerank.c:450-453 | the reduction loop computes the sum of squared gaps between the two slots over all pages |
| Sweeps.RoundPadded | src/pagerank.c:421-453 | one padded round leaves the new generation in `new_index` and the old in `old_index`, with the full distance, and changes no other slot |
| Sweeps.SweepRecordingDifferences | src/pagerank.c:623-649 | slot x becomes the sweep of slot !x, and each page's `difference` is its squared change |
| Sweeps.SumDifferences | src/pagerank.c:651-654 | the reduction loop adds up the stored differences |
| Sweeps.RoundRecordingDifferences | src/pagerank.c:623-654 | one round of `pagerank` gives the new generation in slot x and leaves slot !x alone. `difference[k]` holds page k's squared change, and the result is the full squared distance |
| Engines.PagerankNopow | src/pagerank.c:161-211 | an invalid parameter returns with nothing. Otherwise the reported scores are the generation after the sweeps run, and the loop ran exactly while the distance exceeded epsilon squared |
| Engines.RunFused | src/pagerank.c:166-208 | the parity-flag loop keeps slot !x equal to the current generation and reports it after the loop |
| Engines.PagerankUnroll | src/pagerank.c:94-148 | as PagerankNopow, for the unrolled engine |
| Engines.RunUnrolled | src/pagerank.c:100-145 | the unrolled loop produces the same generations and halting point as the plain one |
| Engines.PagerankPowOld | src/pagerank.c:315-366 | an invalid parameter returns with nothing. Otherwise the engine reports the last generation, or the initial zeros if no sweep ran, and halts on the distance that skips inlink-less pages |
| Engines.RunCopying | src/pagerank.c:320-363 | the copying loop keeps `old_score` equal to the current generation and reports `new_score` |
| Engines.EndIter | src/pagerank.c:10 | `END_ITER`, the constant `5e-3 * 5e-3`. `pagerank_padding` stops on it, comparing the squared distance with no root |
| Engines.PagerankThreshold | src/pagerank.c:622 | the literal bound 0.000025, which `pagerank`'s loop compares with the squared distance |
| Engines.PagerankPadding | src/pagerank.c:404-467 | an invalid parameter returns with nothing. Otherwise the loop halts once the distance is <= `END_ITER`, and the result is the last generation, which slot `old_index` of the store then holds (the engine prints nothing) |
| Engines.RunPadded | src/pagerank.c:410-458 | slot `old_index` holds the current generation across the XOR swaps |
| Engines.Pagerank | src/pagerank.c:607-665 | an invalid parameter returns with nothing. Otherwise the loop halts once the distance is <= 0.000025, and the result is the last generation, which slot !x of the store then holds (the engine prints nothing) |
| Engines.RunRecordingDifferences | src/pagerank.c:613-657 | the loop keeps slot !x equal to the current generation, and the summed differences are its distance |
| Transition.LinkEntry | src/pagerank.c:515-524 | the entry the build writes at (i, j): `d / noutlinks(j)` when page i lists j, otherwise the `calloc` zero |
| Transition.Entry | src/pagerank.c:515-543 | the entry after the fill: `d / n` in a column no page lists, otherwise the built entry |
| Transition.TransitionMatrix | src/pagerank.c:510-543 | the n×n matrix that `matrix` holds after the link fill and the dangling-column fill, with the Transition.Entry value in each cell |
| Transition.MatStep | src/pagerank.c:471-490 | one `multiply` of the patched matrix by the score vector plus `dampening_value` |
| Transition.MatIterate | src/pagerank.c:561-582 | the matrix engine's generation k: `1/n` at 0, then one matrix step of the previous generation |
| Transition.MatDistanceAfter | src/pagerank.c:512-568 | the matrix loop's `diff` after k steps: 1 before the first, then the squared distance between the last two generations |
| Transition.MatAboveUntil | src/pagerank.c:561 | the matrix loop test passed before each of the first s steps |
| Transition.MatHaltsAfter | src/pagerank.c:561-582 | the matrix loop stopped after s steps: every earlier test passed, and the test now fails or the step bound is reached |
| Transition.RowStartIsProduct | src/pagerank.c:519 | the row offset built row by row is `i * n` |
| Transition.ShareIsQuotient | src/pagerank.c:519 | the even share of d among c parts is `d / c` |
| Transition.ListedHasOutlinks | src/pagerank.c:519 | on a well-formed graph a listed inlink source has a positive out-degree, so the build never divides by 0 |
| Transition.LinkEntryNonZero | src/pagerank.c:515-524 | with d > 0, a built entry (i, j) is non-zero exactly when j is an inlink of page i |
| Transition.ZeroColumnIffDangling | src/pagerank.c:531-538 | with d > 0, a built column is all zero exactly when no page lists that page as an inlink |
| Transition.LinkedColumnSum | src/pagerank.c:515-524 | down the first k rows of a linked column j, the sum is `d / noutlinks(j)` once for each of those pages that lists j |
| Transition.DanglingColumnSum | src/pagerank.c:538-542 | down the first k rows of a patched (dangling) column, the sum is k times `d / n` |
| Transition.ColumnSumIsDampener | src/pagerank.c:515-543 | when out-degrees match the inlink lists, every column of the patched matrix sums to d |
| Transition.MatAboveUntilEveryEarlierStep | src/pagerank.c:561-582 | the matrix loop ran s steps exactly when each distance before them exceeded the threshold |
| Transition.OneMoreRow | src/pagerank.c:480-486 | adding one row to the column sums adds that row's product with the vector |
| Transition.RowsByColumns | src/pagerank.c:480-486 | summing the row products equals weighting each column's sum by the vector, which exchanges the double sum |
| Transition.WeightedByDampener | src/pagerank.c:480-486 | if every column sums to d, the weighted column sums are d times the sum of the vector |
| Transition.StepUpToSum | src/pagerank.c:480-486 | the first k entries of one step add up to k baselines plus the first k row products |
| Transition.BaselinesAddUp | src/pagerank.c:511 | the n baselines `(1-d)/n` add up to `1-d` |
| Transition.StepMassFromColumnSums | src/pagerank.c:563 | if every column sums to d, a step maps total mass s to `(1-d) + d*s` |
| Transition.MatStepMass | src/pagerank.c:563 | with consistent out-degrees, one matrix step maps total mass s to `(1-d) + d*s` |
| Transition.MatIterateSumsToOne | src/pagerank.c:561-581 | with consistent out-degrees, every score vector of the matrix engine sums to 1 |
| Transition.EntryDotByColumnTerms | src/pagerank.c:480-486 | if each column term of a row is d times its share of the inflow, so is the whole row product |
| Transition.ColumnTerm | src/pagerank.c:519 | when page x is someone's inlink, column x's term in row y is d times x's contribution to y's inflow (0 when x is not one of y's inlinks) |
| Transition.EntryDotIsMaskedInflow | src/pagerank.c:515-524 | with no dangling page, a matrix row times the scores is d times the page's inflow taken column by column |
| Transition.MaskedInflowAddSource | src/pagerank.c:194-197 | listing one more source adds its contribution to the column-by-column inflow |
| Transition.MaskedInflowIsInflow | src/pagerank.c:194-197 | over a source list without repeats, the column-by-column inflow equals the inlink loop's total |
| Transition.RowProductIsGain | src/pagerank.c:480-486 | with no dangling page and no repeated inlink, a row product is exactly the per-node gain of that page |
| Transition.SweepIsMatStep | src/pagerank.c:471-490 | under those conditions one matrix step equals one per-node sweep |
| Transition.IterateIsMatIterate | src/pagerank.c:561-582 | under those conditions the matrix engine and the per-node engines produce the same generations |
| Transition.LeakyPair | src/pagerank.c:526-543 | the two-page graph in which page 0 links to page 1 and page 1 links nowhere (page 1 is dangling) is well formed and has consistent out-degrees |
| Transition.LeakyPairSweep | src/pagerank.c:176-200 | one sweep of that graph with d = 1/2 from 1/2, 1/2 gives 1/4, 1/2 |
| Transition.DanglingPageLeaksMass | src/pagerank.c:526-543 | on that graph a per-node sweep keeps only 3/4 of the mass, while the patched matrix step keeps all of it |
| Transition.RepeatedPair | src/pagerank.c:194-197 | the two-page graph whose page 1 lists page 0 twice as an inlink is well formed |
| Transition.RepeatedPairRepeatsASource | src/pagerank.c:515-524 | that graph has consistent out-degrees and no dangling page, but an inlink list with a repeated source |
| Transition.RepeatedPairSweep | src/pagerank.c:194-197 | with d = 1/2 from 1/2, 1/2, the per-node sweep counts the repeated source twice and gives page 1 the score 3/4 |
| Transition.EntryDotOfTwo | src/pagerank.c:480-486 | a row product of a 2×2 matrix is `v[0]*e[y][0] + v[1]*e[y][1]` |
| Transition.RepeatedPairMatStep | src/pagerank.c:515-524 | with the same inputs the matrix step counts the source once and gives page 1 the score 1/2 |
| MatrixEngine.FlatIsProduct | src/pagerank.c:485 | the model's flat offset is the C index `y * w + x` |
| MatrixEngine.AreaIsProduct | src/pagerank.c:510 | the model's matrix size is `npages * npages` |
| MatrixEngine.FlatRowEnd | src/pagerank.c:480-486 | reading row y up to column k stays inside the n×n entries |
| MatrixEngine.FlatInside | src/pagerank.c:519 | entry (y, x) of an n×n matrix lies inside its n*n entries |
| MatrixEngine.FlatDistinct | src/pagerank.c:519 | distinct entries have distinct offsets |
| MatrixEngine.RowDot | src/pagerank.c:480-486 | the inner sum of `multiply` over the first k columns, `Σ_{x<k} matb[x] * mata[y*w + x]`, added for x ascending |
| MatrixEngine.Multiply | src/pagerank.c:471-490 | with a result array, `result[y]` becomes `dv + Σ_x matb[x] * mata[y*w + x]` for every row, and the other entries keep their values. A null result changes nothing |
| MatrixEngine.MultiplyRow | src/pagerank.c:480-486 | one row of the product: `result[y]` gets the row sum, and no other entry changes |
| MatrixEngine.RowDotIsEntryDot | src/pagerank.c:480-486 | over a flat array holding the transition matrix, the C row sum is the matrix row times the vector |
| MatrixEngine.MultiplyIsMatStep | src/pagerank.c:563 | `multiply` on the transition matrix computes one matrix step |
| MatrixEngine.LinkEntryIsQuotient | src/pagerank.c:519 | a built entry is `d / noutlinks(src)` where src is an inlink, and 0 elsewhere |
| MatrixEngine.CellUpdate | src/pagerank.c:519 | writing offset `y0 * n + x0` changes entry (y0, x0) and no other |
| MatrixEngine.ZeroCells | src/pagerank.c:510 | the zero-filled allocation has every entry 0 |
| MatrixEngine.BuildLinkMatrix | src/pagerank.c:510-524 | entry (i, src) is `d / noutlinks(src)` for every inlink src of page i, and 0 elsewhere |
| MatrixEngine.AddRow | src/pagerank.c:516-522 | the inlink loop of one page fills its row and changes no other row |
| MatrixEngine.ColumnIsZero | src/pagerank.c:531-537 | the scan with `sum` and `break` reports zero exactly when every entry of the column is 0 |
| MatrixEngine.FillColumn | src/pagerank.c:539-541 | every entry of column j becomes the value, and no other entry changes |
| MatrixEngine.FillDanglingColumns | src/pagerank.c:527-543 | every score becomes `1/n`, and every all-zero column becomes `d/n` while other columns are unchanged, which gives the patched transition matrix |
| MatrixEngine.HoldsTransition | src/pagerank.c:510-543 | the flat array has n*n cells, and the cell at offset `y * npages + x` holds Transition.Entry for row y and column x |
| MatrixEngine.SquaredDistance | src/pagerank.c:566-568 | the distance loop computes the sum of squared differences of the two vectors |
| MatrixEngine.MatrixRound | src/pagerank.c:562-569 | one multiply plus distance loop turns generation s into generation s+1 in the rank vector and yields the step's distance |
| MatrixEngine.SetUpMatrix | src/pagerank.c:508-543 | the setup allocates fresh, distinct vectors and matrix, with the patched matrix and a uniform score vector |
| MatrixEngine.IterateMatrix | src/pagerank.c:561-582 | the loop, exchanging the two score vectors after every step, reports the last generation and runs exactly while the distance exceeds epsilon squared. After an even number of steps `score_vector` holds the last generation, and after an odd number `rank_vector` does. Once a step has run, the other vector holds the generation before |
| MatrixEngine.RunMatrix | src/pagerank.c:508-582 | on a valid call the engine reports the matrix iteration's last generation and halts as the loop test says |
| MatrixEngine.PagerankMm | src/pagerank.c:502-594 | an invalid parameter returns with nothing. Otherwise the engine reports the last matrix generation and halts on epsilon squared |

## Left out

- OpenMP (the `#pragma omp` regions, `omp_set_num_threads`): every loop is modelled sequentially. Per-index writes are disjoint and each reduction is a plain sum.
- Floating point: `double` is modelled as `real`. Rounding, and the order sensitivity of sums that it causes, are not modelled.
- `sqrt`: the rooted engines keep the sum of squares and compare it with `epsilon * epsilon` (see Rank.RootComparison).
- `EPSILON` comes from `pagerank.h`, which is not part of this model. It is a positive parameter of the rooted engines.
- Termination: the `while (diff > …)` loops are not proved to converge. Every engine takes a `maxSweeps` bound and ensures that it stopped either on the loop test or at the bound.
- Output: `printf` of the results and page names is not modelled. Each engine instead returns, in page order, the scores its store holds for the last generation. For most engines these are the scores it prints.
- Engines.Pagerank and Engines.PagerankPadding: the source prints nothing, because their print loops have empty bodies (src/pagerank.c:461-464, 659-662). The returned ranks are the generation the store holds when the loop stops.
- Memory: `malloc`, `calloc`, `free` and `clean_up` are not modelled, except for the zero filling of `calloc`. Allocation failure is not modelled.
- Inputs: `main`, `read_input`, timing, and the `list`/`node`/`page` types are not modelled. The page list is a sequence of `Graph.Page`.
- test/test.c is not part of this model. It tests a list/map utility unrelated to the engines.
- The filler fields of `page_score` and the fourteen unused slots of the padded record are layout only.
- NULL vs empty inlink lists: a page without inlinks is an empty sequence and is treated as the source treats a NULL list. A non-NULL empty list would make `pagerank_pow_old` add the page's real squared change instead of 0.
- Engines.PagerankNopow: also stands for `pagerank_pow`. The two differ only in `pow(a, 2)` vs `a * a` (Rank.SqIsProduct).
- Engines.PagerankNopow and the other engines: require, through `Callable`, that a valid call's list holds `npages` pages whose inlinks name pages with positive out-degree. The source assumes this and does not check it.
- MatrixEngine.Multiply: requires the result array to be distinct from both inputs and long enough for every row. The source always calls it that way, and aliasing is not modelled.
- ScoreStore.InitPageranksPadding: does not state the other fourteen slots of each record. The source leaves them uninitialised and never reads them.
- Sweeps.SweepUnrolled: uses the intended signed batch bound rather than the `size_t` bound as written (see Findings).
- Engines.PagerankUnroll: its contract holds for the corrected batch bound only. For npages < 4 the source as written overruns the record array.
- The per-node engines' handling of dangling pages (their mass is lost) is modelled as the source does it, not corrected (Transition.DanglingPageLeaksMass).
- Transition.SweepIsMatStep: assumes no inlink list repeats a source. A repeated source counts once per occurrence in the per-node inlink loops (src/pagerank.c:194-197). It counts once in `pagerank_mm`, whose build assigns the entry (src/pagerank.c:519). The model keeps both behaviours, and Transition.RepeatedPairSweep and Transition.RepeatedPairMatStep exhibit the difference.
- MatrixEngine.BuildLinkMatrix: offsets are unbounded integers. The source's `int` products `npages * npages` and `i * npages + j` (src/pagerank.c:510, 519, 533, 540) overflow for npages > 46340, which is undefined behaviour in C. The model, like MatrixEngine.ColumnIsZero, MatrixEngine.FillColumn, MatrixEngine.Flat and MatrixEngine.Area, assumes they do not overflow.

## Findings

| source | as written | input that shows it | evidently intended | confidence | as-written member | corrected member |
|---|---|---|---|---|---|---|
| src/pagerank.c:110 | `for (; i <= npages - 4; i += 4)` with `size_t i`: the `int` bound `npages - 4` is converted to `size_t`, so a negative bound wraps to nearly 2^64 | npages = 1, 2 or 3: the guard admits i = 0, and the batch writes records 0..3, past the last record | batch while `i + 4 <= npages`, i.e. a signed comparison, then the remainder loop | not executed | Sweeps.UnrolledGuardOverrunsSmallInputs | Sweeps.SweepUnrolled |
