/**
 * The read-only graph view the engines consume: a list of pages, each with
 * its out-degree and the list of pages that link to it.  Position i of the
 * list is page index i, so an inlink is recorded as the index of its source.
 */
module Graph {
  import opened Wrappers

  /** One page: its number of outbound links and the sources of its inbound links. */
  datatype Page = Page(noutlinks: nat, inlinks: seq<nat>)

  /** Every source in `srcs` is a page of the list with at least one outbound link. */
  predicate SourcesOk(pages: seq<Page>, srcs: seq<nat>)
  {
    forall k :: 0 <= k < |srcs| ==> srcs[k] < |pages| && pages[srcs[k]].noutlinks > 0
  }

  /** Every inlink names a page of the list, and that page has a positive out-degree. */
  predicate WellFormed(pages: seq<Page>)
  {
    forall i :: 0 <= i < |pages| ==> SourcesOk(pages, pages[i].inlinks)
  }

  /** The guard every engine tests first: any one of these makes it return at once. */
  predicate InvalidParams(plist: Option<seq<Page>>, ncores: int, npages: int, nedges: int, dampener: real)
  {
    plist.None? || ncores <= 0 || npages <= 0 || nedges < 0 || dampener <= 0.0
  }

  /** Number of pages among the first `k` whose inlink list contains `x`. */
  function InCount(pages: seq<Page>, x: nat, k: nat): (c: nat)
    requires k <= |pages|
    ensures c <= k
    ensures c == 0 <==> forall y :: 0 <= y < k ==> x !in pages[y].inlinks
  {
    if k == 0 then 0
    else InCount(pages, x, k - 1) + (if x in pages[k - 1].inlinks then 1 else 0)
  }

  /** Out-degrees agree with the inlink lists: page x is listed as a source by exactly noutlinks(x) pages. */
  predicate ConsistentOutDegrees(pages: seq<Page>)
  {
    forall x :: 0 <= x < |pages| ==> pages[x].noutlinks == InCount(pages, x, |pages|)
  }

  /** No source is listed twice in one inlink list. */
  predicate DistinctInlinks(pages: seq<Page>)
  {
    forall i, a, b :: 0 <= i < |pages| && 0 <= a < b < |pages[i].inlinks| ==> pages[i].inlinks[a] != pages[i].inlinks[b]
  }

  /** Every page is the source of at least one inlink: no page is dangling. */
  predicate NoDanglingPages(pages: seq<Page>)
  {
    forall x :: 0 <= x < |pages| ==> InCount(pages, x, |pages|) > 0
  }
}
