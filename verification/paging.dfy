/**
  The page loop of the Compass sync: `begin` runs over 0, PageSize, 2 * PageSize, ...
  while it is below the project count, and each `begin` selects the window
  `offset: begin, limit: PageSize` of the stored projects.
*/
module Paging {
  import opened Metric
  import opened Sequences

  /** The fixed page size. */
  const PageSize: nat := 100

  /** The number of pages for `n` projects, ceil(n / PageSize). */
  function PageCount(n: nat): nat
  {
    (n + PageSize - 1) / PageSize
  }

  /** The offsets of the pages for `n` projects, in increasing order. */
  function PageOffsets(n: nat): seq<nat>
  {
    seq(PageCount(n), i => i * PageSize)
  }

  /** The page loop itself: counting `begin` up by PageSize until it reaches `n`. */
  method PageSchedule(n: nat) returns (offsets: seq<nat>)
    ensures forall i :: 0 <= i < |offsets| ==> offsets[i] == i * PageSize && offsets[i] < n
    ensures |offsets| * PageSize >= n
    ensures n == 0 <==> offsets == []
    ensures offsets == PageOffsets(n)
  {
    offsets := [];
    var begin := 0;
    while begin < n
      invariant begin == |offsets| * PageSize
      invariant forall i :: 0 <= i < |offsets| ==> offsets[i] == i * PageSize && offsets[i] < n
      invariant |offsets| == 0 || (|offsets| - 1) * PageSize < n
    {
      offsets := offsets + [begin];
      begin := begin + PageSize;
    }
    CountIsCeiling(n, |offsets|);
  }

  /** `k` is the least number of pages whose windows reach `n` exactly when it is the page count. */
  lemma CountIsCeiling(n: nat, k: nat)
    requires k * PageSize >= n
    requires k == 0 || (k - 1) * PageSize < n
    ensures k == PageCount(n)
  {
  }

  /** Index `k` lies in the window of page `i`. */
  predicate InPage(k: nat, i: nat)
  {
    i * PageSize <= k < (i + 1) * PageSize
  }

  /**
    The page windows partition the indices below `n`: each index lies in the
    window of one page that the loop visits, and in no other window.
  */
  lemma PagesPartition(n: nat, k: nat)
    requires k < n
    ensures k / PageSize < PageCount(n) && InPage(k, k / PageSize)
    ensures forall i :: InPage(k, i) ==> i == k / PageSize
  {
  }

  /** The stored projects the query `offset`/`limit` returns, in store order. */
  function FindPage(store: seq<Project>, offset: nat, limit: nat): (page: seq<Project>)
    ensures |page| == if offset < |store| then Min(limit, |store| - offset) else 0
    ensures forall j :: 0 <= j < |page| ==> page[j] == store[offset + j]
  {
    if offset < |store| then store[offset .. offset + Min(limit, |store| - offset)] else []
  }

  /** The project pages the loop fetches, one per offset of the page loop. */
  function Pages(store: seq<Project>): (r: seq<seq<Project>>)
    ensures |r| == PageCount(|store|)
    ensures forall i :: 0 <= i < |r| ==> 0 < |r[i]| <= PageSize
    ensures forall i :: 0 <= i < |r| - 1 ==> |r[i]| == PageSize
  {
    var r := seq(PageCount(|store|), i requires 0 <= i => FindPage(store, i * PageSize, PageSize));
    forall i | 0 <= i < |r|
      ensures 0 < |r[i]| <= PageSize
      ensures i < |r| - 1 ==> |r[i]| == PageSize
    {
      OffsetBelowCount(|store|, i);
      if i < |r| - 1 {
        OffsetBelowCount(|store|, i + 1);
      }
    }
    r
  }

  /** Page i is the window the query fetches at the page loop's i-th offset, and there is one page per offset. */
  lemma PagesAtOffsets(store: seq<Project>)
    ensures |Pages(store)| == |PageOffsets(|store|)|
    ensures forall i :: 0 <= i < |Pages(store)| ==>
      Pages(store)[i] == FindPage(store, PageOffsets(|store|)[i], PageSize)
  {
  }

  /** The first `m` pages are exactly the first `m * PageSize` projects. */
  lemma {:induction false} PagesPrefix(store: seq<Project>, m: nat)
    requires m <= PageCount(|store|)
    ensures Flatten(Pages(store)[..m]) == store[..Min(m * PageSize, |store|)]
  {
    if m > 0 {
      var pages := Pages(store);
      var lo := (m - 1) * PageSize;
      var hi := Min(m * PageSize, |store|);
      PagesPrefix(store, m - 1);
      LastPage(store, m);
      assert Flatten(pages[..m]) == Flatten(pages[..m - 1]) + pages[m - 1] by {
        assert pages[..m][..m - 1] == pages[..m - 1];
      }
      assert store[..hi] == store[..lo] + store[lo .. hi];
    }
  }

  /** Page `m - 1` is the slice of the store from its offset to the next one or the end. */
  lemma LastPage(store: seq<Project>, m: nat)
    requires 0 < m <= PageCount(|store|)
    ensures (m - 1) * PageSize < |store|
    ensures Min((m - 1) * PageSize, |store|) == (m - 1) * PageSize
    ensures Pages(store)[m - 1] == store[(m - 1) * PageSize .. Min(m * PageSize, |store|)]
  {
    OffsetBelowCount(|store|, m - 1);
  }

  /** Every visited offset is below the project count. */
  lemma OffsetBelowCount(n: nat, i: nat)
    requires i < PageCount(n)
    ensures i * PageSize < n
  {
  }

  /** Taken together, the pages are the whole store, in order, without gaps or repeats. */
  lemma PagesCover(store: seq<Project>)
    ensures Flatten(Pages(store)) == store
  {
    var pages := Pages(store);
    PagesPrefix(store, |pages|);
    assert pages[..|pages|] == pages;
    CountIsCeilingBack(|store|);
  }

  /** The page count's windows reach past the last project. */
  lemma CountIsCeilingBack(n: nat)
    ensures PageCount(n) * PageSize >= n
    ensures PageCount(n) == 0 || (PageCount(n) - 1) * PageSize < n
  {
  }
}
