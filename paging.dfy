/** The ten-row pages the user table and the note table show. */
module Paging {

  const RowsPerPage: nat := 10

  /** (n + ROWS_PER_PAGE - 1) / ROWS_PER_PAGE, equal to ceil(n / 10.0) for the non-negative n here. */
  function CeilPages(n: nat): (c: nat)
    ensures c * RowsPerPage >= n
    ensures c > 0 ==> (c - 1) * RowsPerPage < n
    ensures c == 0 <==> n == 0
  {
    (n + RowsPerPage - 1) / RowsPerPage
  }

  /** The rows of page p: [p*10, min(p*10+10, n)), and nothing for a page past the end. */
  function PageSlice<T>(xs: seq<T>, p: nat): (r: seq<T>)
    ensures |r| <= RowsPerPage
    ensures p * RowsPerPage >= |xs| ==> r == []
    ensures p * RowsPerPage < |xs| ==>
      |r| == (if p * RowsPerPage + RowsPerPage <= |xs| then RowsPerPage else |xs| - p * RowsPerPage)
    ensures forall k :: 0 <= k < |r| ==> p * RowsPerPage + k < |xs| && r[k] == xs[p * RowsPerPage + k]
  {
    var from := p * RowsPerPage;
    if from >= |xs| then []
    else
      var to := if from + RowsPerPage <= |xs| then from + RowsPerPage else |xs|;
      xs[from..to]
  }

  /** Pages 0 .. k-1 one after another. */
  function Pages<T>(xs: seq<T>, k: nat): seq<T>
  {
    if k == 0 then [] else Pages(xs, k - 1) + PageSlice(xs, k - 1)
  }

  /** The first k pages are the first min(10k, n) rows, in order. */
  lemma {:induction false} PagesArePrefix<T>(xs: seq<T>, k: nat)
    ensures Pages(xs, k) == xs[..if k * RowsPerPage <= |xs| then k * RowsPerPage else |xs|]
  {
    if k > 0 {
      PagesArePrefix(xs, k - 1);
      var from := (k - 1) * RowsPerPage;
      assert k * RowsPerPage == from + RowsPerPage;
      assert Pages(xs, k) == Pages(xs, k - 1) + PageSlice(xs, k - 1);
      if from < |xs| {
        var to := if from + RowsPerPage <= |xs| then from + RowsPerPage else |xs|;
        assert Pages(xs, k - 1) == xs[..from];
        assert PageSlice(xs, k - 1) == xs[from..to];
        assert xs[..from] + xs[from..to] == xs[..to];
      } else {
        assert PageSlice(xs, k - 1) == [];
        assert Pages(xs, k - 1) == xs[..|xs|];
      }
    }
  }

  /** Paging through all CeilPages(n) pages shows every row exactly once, in model order. */
  lemma AllPagesShowAll<T>(xs: seq<T>)
    ensures Pages(xs, CeilPages(|xs|)) == xs
  {
    PagesArePrefix(xs, CeilPages(|xs|));
    assert xs[..|xs|] == xs;
  }
}
