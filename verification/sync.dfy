/**
  The whole `syncMetricActivity` handler: the page loop over the stored projects,
  one project loop and one bulk-insert call per page. The bulk insert is fired
  without waiting for its outcome, so a run is described by the buffers it hands
  over, in order, and by whether it got to the end.
*/
module Sync {
  import opened Metric
  import opened Sequences
  import opened Paging
  import opened Page

  /** What one run of the handler does. */
  datatype Run =
    | Completed(flushes: seq<seq<CompassActivityMetricDto>>)
      // every page was processed; flushes[i] went to the bulk insert for page i
    | Stopped(flushes: seq<seq<CompassActivityMetricDto>>, url: string)
      // the query for `url` rejected the handler after these flushes; later pages are never fetched

  /** Each of `flushes` is what the project loop `collect` gives for the page at its position. */
  predicate FlushedInOrder(pages: seq<seq<Project>>, collect: seq<Project> -> Outcome, flushes: seq<seq<CompassActivityMetricDto>>)
  {
    forall j :: 0 <= j < |flushes| ==> j < |pages| && collect(pages[j]) == Done(flushes[j])
  }

  /** The project loop `collect` finishes on every page from `i` on. */
  predicate DoneFrom(pages: seq<seq<Project>>, collect: seq<Project> -> Outcome, i: nat)
  {
    forall j :: i <= j < |pages| ==> collect(pages[j]).Done?
  }

  /**
    The page loop from page `i` on, over already selected pages, after `flushes`
    went out for pages 0 to i - 1; `collect` is the project loop run on one page.
  */
  function SyncFrom(pages: seq<seq<Project>>, collect: seq<Project> -> Outcome, i: nat, flushes: seq<seq<CompassActivityMetricDto>>)
    : (r: Run)
    requires i <= |pages| && |flushes| == i
    requires FlushedInOrder(pages, collect, flushes)
    ensures i <= |r.flushes| <= |pages|
    ensures r.Completed? <==> DoneFrom(pages, collect, i)
    ensures r.Completed? ==> |r.flushes| == |pages|
    ensures FlushedInOrder(pages, collect, r.flushes)
    ensures r.Stopped? ==> |r.flushes| < |pages| && collect(pages[|r.flushes|]) == Aborted(r.url)
    decreases |pages| - i
  {
    if i == |pages| then Completed(flushes)
    else
      match collect(pages[i])
      case Aborted(url) => Stopped(flushes, url)
      case Done(buffer) =>
        var next := flushes + [buffer];
        assert FlushedInOrder(pages, collect, next) by {
          assert forall j :: 0 <= j < i ==> next[j] == flushes[j];
        }
        SyncFrom(pages, collect, i + 1, next)
  }

  /**
    The handler: one flush per page, page `i` flushing the buffer its project loop
    collects from the projects at offsets `i * PageSize` onwards; no projects, no
    pages and no flushes.
  */
  function SyncMetricActivity(store: seq<Project>, remote: Remote): (r: Run)
    ensures |store| == 0 ==> r == Completed([])
    ensures |r.flushes| <= PageCount(|store|)
    ensures r.Completed? ==> |r.flushes| == PageCount(|store|)
    ensures forall i :: 0 <= i < |r.flushes| ==>
      CollectPage(FindPage(store, i * PageSize, PageSize), remote) == Done(r.flushes[i])
    ensures r.Stopped? ==>
      && |r.flushes| < PageCount(|store|)
      && CollectPage(FindPage(store, |r.flushes| * PageSize, PageSize), remote) == Aborted(r.url)
  {
    SyncFrom(Pages(store), p => CollectPage(p, remote), 0, [])
  }

  /** Project `k` of the store is entry `k % PageSize` of page `k / PageSize`. */
  lemma PageEntry(store: seq<Project>, k: nat)
    requires k < |store|
    ensures k / PageSize < |Pages(store)|
    ensures k % PageSize < |Pages(store)[k / PageSize]|
    ensures Pages(store)[k / PageSize][k % PageSize] == store[k]
  {
    PagesPartition(|store|, k);
  }

  /** The run completes exactly when the remote query succeeds for every stored project. */
  lemma CompletesIffAllFetched(store: seq<Project>, remote: Remote)
    ensures SyncMetricActivity(store, remote).Completed? <==> AllFetched(store, remote)
  {
    if SyncMetricActivity(store, remote).Completed? {
      forall k | 0 <= k < |store|
        ensures remote(store[k].htmlUrl).Fetched?
      {
        FlushedFetchedAt(store, remote, k);
      }
    } else {
      StoppedHasRejected(store, remote);
    }
  }

  /** Every project of a page that was flushed had its query succeed. */
  lemma FlushedFetchedAt(store: seq<Project>, remote: Remote, k: nat)
    requires k < |store| && k / PageSize < |SyncMetricActivity(store, remote).flushes|
    ensures remote(store[k].htmlUrl).Fetched?
  {
    var pages := Pages(store);
    PageEntry(store, k);
    var page := pages[k / PageSize];
    assert CollectPage(page, remote).Done?;
    assert AllFetched(page, remote);
    assert page[k % PageSize] == store[k];
  }

  /** A run that stops does so on a stored project whose query rejects. */
  lemma StoppedHasRejected(store: seq<Project>, remote: Remote)
    requires SyncMetricActivity(store, remote).Stopped?
    ensures !AllFetched(store, remote)
  {
    var pages := Pages(store);
    var r := SyncMetricActivity(store, remote);
    var i := |r.flushes|;
    var page := pages[i];
    assert page == FindPage(store, i * PageSize, PageSize);
    assert !AllFetched(page, remote);
    var k :| 0 <= k < |page| && remote(page[k].htmlUrl).Rejected?;
    assert page[k] == store[i * PageSize + k];
  }

  /**
    A run stops at the first stored project whose query rejects: every project
    before it was fetched, and the pages before that project's page were flushed.
  */
  lemma StoppedAtFirstRejected(store: seq<Project>, remote: Remote)
    requires SyncMetricActivity(store, remote).Stopped?
    ensures exists k :: StoppedAt(store, remote, k)
  {
    var r := SyncMetricActivity(store, remote);
    var i := |r.flushes|;
    var page := FindPage(store, i * PageSize, PageSize);
    assert CollectFrom([], page, remote) == Aborted(r.url);
    CollectAborted([], page, remote);
    var k': nat :| FirstRejected(page, remote, k') && page[k'].htmlUrl == r.url;
    WithinPageFetched(store, remote, i, k');
    FetchedBefore(store, remote, i, k');
    assert StoppedAt(store, remote, i * PageSize + k');
  }

  /** Project `k` is where the run stopped, with every project before it fetched. */
  predicate StoppedAt(store: seq<Project>, remote: Remote, k: nat)
  {
    var r := SyncMetricActivity(store, remote);
    && r.Stopped? && k < |store| && store[k].htmlUrl == r.url && remote(r.url).Rejected?
    && AllFetched(store[..k], remote) && |r.flushes| == k / PageSize
  }

  /** Entry `k'` of page `i` is project `i * PageSize + k'`, and so are the ones before it. */
  lemma WithinPageFetched(store: seq<Project>, remote: Remote, i: nat, k': nat)
    requires k' < |FindPage(store, i * PageSize, PageSize)|
    requires AllFetched(FindPage(store, i * PageSize, PageSize)[..k'], remote)
    ensures (i * PageSize + k') / PageSize == i
    ensures FindPage(store, i * PageSize, PageSize)[k'] == store[i * PageSize + k']
    ensures forall m :: i * PageSize <= m < i * PageSize + k' ==> remote(store[m].htmlUrl).Fetched?
  {
    var page := FindPage(store, i * PageSize, PageSize);
    forall m | i * PageSize <= m < i * PageSize + k'
      ensures remote(store[m].htmlUrl).Fetched?
    {
      assert page[..k'][m - i * PageSize] == store[m];
    }
  }

  /**
    The projects before entry `k'` of page `i` were fetched when the pages before
    page `i` were flushed and the entries of page `i` before `k'` were fetched.
  */
  lemma FetchedBefore(store: seq<Project>, remote: Remote, i: nat, k': nat)
    requires i * PageSize + k' <= |store| && i <= |SyncMetricActivity(store, remote).flushes|
    requires forall m :: i * PageSize <= m < i * PageSize + k' ==> remote(store[m].htmlUrl).Fetched?
    ensures AllFetched(store[..i * PageSize + k'], remote)
  {
    var k := i * PageSize + k';
    forall m | 0 <= m < k
      ensures remote(store[..k][m].htmlUrl).Fetched?
    {
      assert store[..k][m] == store[m];
      if m < i * PageSize {
        assert m / PageSize < i;
        FlushedFetchedAt(store, remote, m);
      }
    }
  }

  /** Every record a page flushes belongs to a project of that page. */
  lemma FlushProvenance(store: seq<Project>, remote: Remote, i: nat, j: nat)
    requires i < |SyncMetricActivity(store, remote).flushes|
    requires j < |SyncMetricActivity(store, remote).flushes[i]|
    ensures exists k :: 0 <= k < |store| && InPage(k, i)
                        && SyncMetricActivity(store, remote).flushes[i][j].projectId == store[k].id
  {
    var page := FindPage(store, i * PageSize, PageSize);
    var d := SyncMetricActivity(store, remote).flushes[i][j];
    assert CollectFrom([], page, remote) == Done(SyncMetricActivity(store, remote).flushes[i]);
    CollectProvenance([], page, remote, j);
    var k' :| 0 <= k' < |page| && d.projectId == page[k'].id;
    assert InPage(i * PageSize + k', i);
  }

  /**
    When project ids are unique in the store, the records of a project are
    flushed only with that project's page: records never cross page boundaries.
  */
  lemma FlushLocality(store: seq<Project>, remote: Remote, i: nat, j: nat, k: nat)
    requires forall a, b :: 0 <= a < b < |store| ==> store[a].id != store[b].id
    requires i < |SyncMetricActivity(store, remote).flushes|
    requires j < |SyncMetricActivity(store, remote).flushes[i]|
    requires k < |store| && SyncMetricActivity(store, remote).flushes[i][j].projectId == store[k].id
    ensures i == k / PageSize
  {
    FlushProvenance(store, remote, i, j);
    var k' :| 0 <= k' < |store| && InPage(k', i)
              && SyncMetricActivity(store, remote).flushes[i][j].projectId == store[k'].id;
    assert k' == k;
    PagesPartition(|store|, k);
  }
}
