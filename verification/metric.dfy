/**
  The records the Compass sync moves around: the locally stored GitHub project,
  one entry of the remote `metricActivity` series, and the storage-ready
  `CompassActivityMetricDto` built from it.
*/
module Metric {

  /** A JSON scalar as the remote service delivers it; the mapper never inspects it. */
  datatype Scalar = Null | Number(value: real) | Text(text: string)

  /** The two columns of a stored GitHub project that the sync reads. */
  datatype Project = Project(id: int, htmlUrl: string)

  /**
    One entry of the remote series: every field the `MetricActivity` query selects.
    `label` and `type` are Dafny keywords, hence `metricLabel` and `kind`.
  */
  datatype MetricActivity = MetricActivity(
    activeC1IssueCommentsContributorCount: Scalar,
    activeC1IssueCreateContributorCount: Scalar,
    activeC1PrCommentsContributorCount: Scalar,
    activeC1PrCreateContributorCount: Scalar,
    activeC2ContributorCount: Scalar,
    activityScore: Scalar,
    closedIssuesCount: Scalar,
    codeReviewCount: Scalar,
    commentFrequency: Scalar,
    commitFrequency: Scalar,
    contributorCount: Scalar,
    createdSince: Scalar,
    grimoireCreationDate: Scalar,
    metricLabel: Scalar,
    level: Scalar,
    orgCount: Scalar,
    recentReleasesCount: Scalar,
    shortCode: Scalar,
    kind: Scalar,
    updatedIssuesCount: Scalar,
    updatedSince: Scalar
  )

  /**
    The storage-ready record; `id` is a placeholder the database replaces on insert,
    and `metricLabel` holds the entry's `label`.
  */
  datatype CompassActivityMetricDto = CompassActivityMetricDto(
    id: int,
    projectId: int,
    metricLabel: Scalar,
    closedIssuesCount: Scalar,
    commentFrequency: Scalar,
    commitFrequency: Scalar,
    codeReviewCount: Scalar,
    updatedIssuesCount: Scalar,
    recentReleasesCount: Scalar,
    contributorCount: Scalar,
    orgCount: Scalar,
    grimoireCreationDate: Scalar
  )

  /** The ten remote fields a record keeps, in the record's column order. */
  function KeptFields(a: MetricActivity): seq<Scalar>
  {
    [a.metricLabel, a.closedIssuesCount, a.commentFrequency, a.commitFrequency, a.codeReviewCount,
     a.updatedIssuesCount, a.recentReleasesCount, a.contributorCount, a.orgCount, a.grimoireCreationDate]
  }

  /** The record's columns that come from the remote entry, in the same order. */
  function RecordFields(d: CompassActivityMetricDto): seq<Scalar>
  {
    [d.metricLabel, d.closedIssuesCount, d.commentFrequency, d.commitFrequency, d.codeReviewCount,
     d.updatedIssuesCount, d.recentReleasesCount, d.contributorCount, d.orgCount, d.grimoireCreationDate]
  }

  /** The ten remote fields the record keeps agree between `a` and `b`. */
  predicate SameKeptFields(a: MetricActivity, b: MetricActivity)
  {
    KeptFields(a) == KeptFields(b)
  }

  /**
    The record for entry `a` of the project with local id `projectId`: a
    placeholder key, the owning project, and the kept fields of `a` unchanged.
  */
  function ToDto(projectId: int, a: MetricActivity): (r: CompassActivityMetricDto)
    ensures r.id == 0 && r.projectId == projectId
    ensures RecordFields(r) == KeptFields(a)
  {
    CompassActivityMetricDto(
      0, projectId, a.metricLabel, a.closedIssuesCount, a.commentFrequency, a.commitFrequency,
      a.codeReviewCount, a.updatedIssuesCount, a.recentReleasesCount, a.contributorCount,
      a.orgCount, a.grimoireCreationDate)
  }

  /** Every entry of `s` mapped in order for one project. */
  function ToDtos(projectId: int, s: seq<MetricActivity>): seq<CompassActivityMetricDto>
  {
    seq(|s|, i requires 0 <= i < |s| => ToDto(projectId, s[i]))
  }

  /** The record carries the placeholder key, the owning project and the kept fields unchanged. */
  lemma ToDtoFields(projectId: int, a: MetricActivity)
    ensures ToDto(projectId, a).id == 0
    ensures ToDto(projectId, a).projectId == projectId
    ensures ToDto(projectId, a).metricLabel == a.metricLabel
    ensures ToDto(projectId, a).closedIssuesCount == a.closedIssuesCount
    ensures ToDto(projectId, a).commentFrequency == a.commentFrequency
    ensures ToDto(projectId, a).commitFrequency == a.commitFrequency
    ensures ToDto(projectId, a).codeReviewCount == a.codeReviewCount
    ensures ToDto(projectId, a).updatedIssuesCount == a.updatedIssuesCount
    ensures ToDto(projectId, a).recentReleasesCount == a.recentReleasesCount
    ensures ToDto(projectId, a).contributorCount == a.contributorCount
    ensures ToDto(projectId, a).orgCount == a.orgCount
    ensures ToDto(projectId, a).grimoireCreationDate == a.grimoireCreationDate
  {
  }

  /**
    The mapping is a projection onto exactly the kept fields: two entries give the
    same record if and only if they belong to the same project and agree on the
    ten kept fields, whatever the eleven dropped fields hold.
  */
  lemma ToDtoProjection(p: int, a: MetricActivity, q: int, b: MetricActivity)
    ensures ToDto(p, a) == ToDto(q, b) <==> p == q && SameKeptFields(a, b)
  {
  }

  /** Mapping distributes over concatenation. */
  lemma ToDtosAppend(projectId: int, s: seq<MetricActivity>, t: seq<MetricActivity>)
    ensures ToDtos(projectId, s + t) == ToDtos(projectId, s) + ToDtos(projectId, t)
  {
  }
}
