/**
  How one project's remote series is added to the page buffer: the series is
  reversed into chronological order, an empty series is skipped, and each entry
  is mapped and pushed, the per-entry loop breaking when the buffer length is
  exactly Cap after a push.
*/
module Accumulate {
  import opened Metric
  import opened Sequences

  /** The buffer length at which the per-entry loop breaks. */
  const Cap: nat := 5

  /**
    How many of `available` entries a project adds to a buffer already holding
    `filled` records: up to the cap while below it, and every entry once the
    buffer has reached it, since the length test is an equality and is never
    met again.
  */
  function Quota(filled: nat, available: nat): nat
  {
    if filled < Cap then Min(available, Cap - filled) else available
  }

  /** The per-entry loop: push each mapped entry, stopping right after a push that makes the length Cap. */
  function AppendSeries(buf: seq<CompassActivityMetricDto>, projectId: int, metric: seq<MetricActivity>)
    : (r: seq<CompassActivityMetricDto>)
    ensures r == buf + ToDtos(projectId, metric[..Quota(|buf|, |metric|)])
    decreases |metric|
  {
    if metric == [] then buf
    else
      var pushed := buf + [ToDto(projectId, metric[0])];
      if |pushed| == Cap then
        PushOne(buf, projectId, metric, 0);
        pushed
      else
        QuotaStep(|buf|, |metric|);
        PushOne(buf, projectId, metric, Quota(|pushed|, |metric| - 1));
        AppendSeries(pushed, projectId, metric[1..])
  }

  /** Outside the breaking push, taking one entry first leaves one fewer to take. */
  lemma QuotaStep(filled: nat, available: nat)
    requires available > 0 && filled + 1 != Cap
    ensures Quota(filled + 1, available - 1) + 1 == Quota(filled, available)
  {
  }

  /** Pushing the first entry and then `k` more is pushing the first `k + 1`. */
  lemma PushOne(buf: seq<CompassActivityMetricDto>, projectId: int, metric: seq<MetricActivity>, k: nat)
    requires k < |metric|
    ensures buf + [ToDto(projectId, metric[0])] + ToDtos(projectId, metric[1..][..k])
         == buf + ToDtos(projectId, metric[..k + 1])
  {
    assert metric[..k + 1] == [metric[0]] + metric[1..][..k];
    ToDtosAppend(projectId, [metric[0]], metric[1..][..k]);
  }

  /** One turn of the project loop, given the project's series as the remote service delivers it (most recent first). */
  function ProjectStep(buf: seq<CompassActivityMetricDto>, project: Project, series: seq<MetricActivity>)
    : (r: seq<CompassActivityMetricDto>)
    ensures r == buf + ToDtos(project.id, Reverse(series)[..Quota(|buf|, |series|)])
    ensures series == [] ==> r == buf
    ensures |r| == |buf| + Quota(|buf|, |series|)
    ensures |buf| >= Cap ==> r == buf + ToDtos(project.id, Reverse(series))
  {
    var metric := Reverse(series);
    if |metric| == 0 then buf else AppendSeries(buf, project.id, metric)
  }

  /**
    A project's records come out oldest first: the i-th record the project adds
    is the entry the remote service delivered i-th from the end.
  */
  lemma Chronological(buf: seq<CompassActivityMetricDto>, project: Project, series: seq<MetricActivity>, i: nat)
    requires i < |ProjectStep(buf, project, series)| - |buf|
    ensures ProjectStep(buf, project, series)[|buf| + i] == ToDto(project.id, series[|series| - 1 - i])
  {
  }
}
