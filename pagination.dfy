/**
 * The dashboard's Pagination component: `Math.ceil(total / 50)` pages and one
 * button per page, labelled from 1. `total` is the admin's quotation count.
 */
module Pagination {

  const PageSize: nat := 50

  /** `Math.ceil(total / 50)`: the fewest pages of fifty that hold `total` rows. */
  function PageCount(total: nat): (pages: nat)
    ensures total == 0 <==> pages == 0
    ensures total > 0 ==> (pages - 1) * PageSize < total <= pages * PageSize
  {
    (total + PageSize - 1) / PageSize
  }

  /** `[...Array(pages)].map((_, i) => i + 1)`: the button labels. */
  function Labels(total: nat): (labels: seq<nat>)
    ensures |labels| == PageCount(total)
  {
    seq(PageCount(total), i => i + 1)
  }

  /** No rows, no buttons. */
  lemma NoRowsNoButtons()
    ensures Labels(0) == []
  {
  }

  /** The labels are the numbers 1 to the page count, each once, in increasing order. */
  lemma LabelsOneToPages(total: nat)
    ensures forall i, j :: 0 <= i < j < |Labels(total)| ==> Labels(total)[i] < Labels(total)[j]
    ensures forall n :: n in Labels(total) <==> 1 <= n <= PageCount(total)
  {
    var labels := Labels(total);
    forall n | 1 <= n <= PageCount(total) ensures n in labels {
      assert labels[n - 1] == n;
    }
  }

  /** Each page but the last is full: the page count is minimal. */
  lemma PageCountMinimal(total: nat, pages: nat)
    requires total <= pages * PageSize
    ensures PageCount(total) <= pages
  {
  }
}
