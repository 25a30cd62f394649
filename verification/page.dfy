/**
  One page of the Compass sync: a fresh buffer, the project loop over the page's
  projects in store order, and the buffer handed to the bulk insert. The remote
  query is a parameter; a failed query rejects the whole handler, since nothing
  catches it.
*/
module Page {
  import opened Metric
  import opened Sequences
  import opened Accumulate

  /** What the remote query for one project URL yields. */
  datatype Fetch =
    | Fetched(series: seq<MetricActivity>)  // most recent entry first
    | Rejected                              // transport failure or a response without a series

  /** The remote metrics service, keyed by project URL. */
  type Remote = string -> Fetch

  /** The result of a project loop: the buffer to flush, or the URL whose query rejected. */
  datatype Outcome = Done(buffer: seq<CompassActivityMetricDto>) | Aborted(url: string)

  /** Every project's query succeeds. */
  predicate AllFetched(projects: seq<Project>, remote: Remote)
  {
    forall k :: 0 <= k < |projects| ==> remote(projects[k].htmlUrl).Fetched?
  }

  /** The series a query yields (a rejected query yields none). */
  function SeriesOf(f: Fetch): seq<MetricActivity>
  {
    match f
    case Fetched(series) => series
    case Rejected => []
  }

  /** The number of entries a query yields. */
  function SeriesLength(f: Fetch): (n: nat)
    ensures n == |SeriesOf(f)|
  {
    match f
    case Fetched(series) => |series|
    case Rejected => 0
  }

  /** The number of entries the remote service holds for `projects`. */
  function Entries(projects: seq<Project>, remote: Remote): nat
  {
    if projects == [] then 0
    else SeriesLength(remote(projects[0].htmlUrl)) + Entries(projects[1..], remote)
  }

  /** The buffer length the project loop reaches from `filled` records, by the cap rule alone. */
  function ReachedLength(filled: nat, projects: seq<Project>, remote: Remote): nat
    decreases |projects|
  {
    if projects == [] then filled
    else
      var m := SeriesLength(remote(projects[0].htmlUrl));
      ReachedLength(filled + Quota(filled, m), projects[1..], remote)
  }

  /** The sum of `q`. */
  function Sum(q: seq<nat>): nat
  {
    if q == [] then 0 else q[0] + Sum(q[1..])
  }

  /** `q` says, for each project, how many of its entries to keep: at most all of them. */
  predicate Picks(projects: seq<Project>, remote: Remote, q: seq<nat>)
  {
    && |q| == |projects|
    && forall k :: 0 <= k < |q| ==> q[k] <= |SeriesOf(remote(projects[k].htmlUrl))|
  }

  /**
    The records that keeping `q[k]` entries of project `k` gives: for each project in
    order, the mapping of the first `q[k]` entries of its series in chronological order.
  */
  function Kept(projects: seq<Project>, remote: Remote, q: seq<nat>): seq<CompassActivityMetricDto>
    requires Picks(projects, remote, q)
    decreases |projects|
  {
    if projects == [] then []
    else
      assert Picks(projects[1..], remote, q[1..]) by {
        assert forall k :: 0 <= k < |q| - 1 ==> q[1..][k] == q[k + 1] && projects[1..][k] == projects[k + 1];
      }
      ToDtos(projects[0].id, Reverse(SeriesOf(remote(projects[0].htmlUrl)))[..q[0]])
      + Kept(projects[1..], remote, q[1..])
  }

  /**
    How many entries the cap rule keeps of each project, from a buffer of `filled`
    records: project `k` keeps `Quota` of its series at the length the projects
    before it have brought the buffer to.
  */
  function Quotas(filled: nat, projects: seq<Project>, remote: Remote): (q: seq<nat>)
    ensures |q| == |projects|
    decreases |projects|
  {
    if projects == [] then []
    else
      var first := Quota(filled, SeriesLength(remote(projects[0].htmlUrl)));
      [first] + Quotas(filled + first, projects[1..], remote)
  }

  /** No project is asked for more entries than its series holds. */
  lemma {:induction false} QuotasPick(filled: nat, projects: seq<Project>, remote: Remote)
    ensures Picks(projects, remote, Quotas(filled, projects, remote))
    decreases |projects|
  {
    if projects != [] {
      var first := Quota(filled, SeriesLength(remote(projects[0].htmlUrl)));
      var rest := Quotas(filled + first, projects[1..], remote);
      var q := Quotas(filled, projects, remote);
      assert q == [first] + rest;
      QuotasPick(filled + first, projects[1..], remote);
      forall k | 0 < k < |q|
        ensures q[k] <= |SeriesOf(remote(projects[k].htmlUrl))|
      {
        assert q[k] == rest[k - 1] && projects[k] == projects[1..][k - 1];
      }
    }
  }

  /** Entry `k` of `Quotas` is the cap rule's quota at the running length of the buffer. */
  lemma {:induction false} QuotaAt(filled: nat, projects: seq<Project>, remote: Remote, k: nat)
    requires k < |projects|
    ensures var q := Quotas(filled, projects, remote);
      q[k] == Quota(filled + Sum(q[..k]), SeriesLength(remote(projects[k].htmlUrl)))
    decreases k
  {
    var q := Quotas(filled, projects, remote);
    if k == 0 {
      assert q[..0] == [];
    } else {
      var first := Quota(filled, SeriesLength(remote(projects[0].htmlUrl)));
      var rest := Quotas(filled + first, projects[1..], remote);
      assert q == [first] + rest;
      SumFront(first, rest, k);
      QuotaAt(filled + first, projects[1..], remote, k - 1);
      assert projects[1..][k - 1] == projects[k];
    }
  }

  /** Summing a prefix of `[x] + s` counts `x` and then the shorter prefix of `s`. */
  lemma SumFront(x: nat, s: seq<nat>, k: nat)
    requires 0 < k <= |s| + 1
    ensures Sum(([x] + s)[..k]) == x + Sum(s[..k - 1])
  {
    assert ([x] + s)[..k][1..] == s[..k - 1];
  }

  /** The cap rule's length is where the quotas of all the projects take the buffer. */
  lemma {:induction false} ReachedIsQuotaSum(filled: nat, projects: seq<Project>, remote: Remote)
    ensures ReachedLength(filled, projects, remote) == filled + Sum(Quotas(filled, projects, remote))
    decreases |projects|
  {
    if projects != [] {
      var first := Quota(filled, SeriesLength(remote(projects[0].htmlUrl)));
      var rest := Quotas(filled + first, projects[1..], remote);
      ReachedIsQuotaSum(filled + first, projects[1..], remote);
      assert Quotas(filled, projects, remote) == [first] + rest;
      assert ([first] + rest)[1..] == rest;
    }
  }

  /** Every entry of `Quotas` is the cap rule's quota at the running length of the buffer. */
  lemma QuotasRunning(filled: nat, projects: seq<Project>, remote: Remote)
    ensures var q := Quotas(filled, projects, remote);
      forall k :: 0 <= k < |q| ==>
        q[k] == Quota(filled + Sum(q[..k]), SeriesLength(remote(projects[k].htmlUrl)))
  {
    forall k | 0 <= k < |Quotas(filled, projects, remote)| {
      QuotaAt(filled, projects, remote, k);
    }
  }

  /** The project loop over `projects`, continuing a buffer `buf`; it only ever appends. */
  function CollectFrom(buf: seq<CompassActivityMetricDto>, projects: seq<Project>, remote: Remote): (r: Outcome)
    ensures r.Done? <==> AllFetched(projects, remote)
    ensures r.Done? ==> buf <= r.buffer
    decreases |projects|
  {
    if projects == [] then Done(buf)
    else
      var project := projects[0];
      match remote(project.htmlUrl)
      case Rejected => Aborted(project.htmlUrl)
      case Fetched(series) =>
        var r := CollectFrom(ProjectStep(buf, project, series), projects[1..], remote);
        assert forall k :: 0 <= k < |projects| - 1 ==> projects[1..][k] == projects[k + 1];
        r
  }

  /** Project `k` is the first one whose query rejects. */
  predicate FirstRejected(projects: seq<Project>, remote: Remote, k: nat)
  {
    k < |projects| && remote(projects[k].htmlUrl).Rejected? && AllFetched(projects[..k], remote)
  }

  /** A project loop that aborts does so at the first project whose query rejects. */
  lemma {:induction false} CollectAborted(buf: seq<CompassActivityMetricDto>, projects: seq<Project>, remote: Remote)
    requires CollectFrom(buf, projects, remote).Aborted?
    ensures exists k: nat :: FirstRejected(projects, remote, k)
                        && projects[k].htmlUrl == CollectFrom(buf, projects, remote).url
    decreases |projects|
  {
    var project := projects[0];
    if remote(project.htmlUrl).Rejected? {
      assert projects[..0] == [];
      assert FirstRejected(projects, remote, 0);
    } else {
      var step := ProjectStep(buf, project, remote(project.htmlUrl).series);
      assert CollectFrom(buf, projects, remote) == CollectFrom(step, projects[1..], remote);
      CollectAborted(step, projects[1..], remote);
      var k: nat :| FirstRejected(projects[1..], remote, k)
               && projects[1..][k].htmlUrl == CollectFrom(buf, projects, remote).url;
      assert projects[1..][..k] == projects[1..k + 1];
      assert FirstRejected(projects, remote, k + 1);
    }
  }

  /** Every record a project loop adds belongs to one of its projects. */
  lemma {:induction false} CollectProvenance(buf: seq<CompassActivityMetricDto>, projects: seq<Project>, remote: Remote, j: nat)
    requires CollectFrom(buf, projects, remote).Done?
    requires |buf| <= j < |CollectFrom(buf, projects, remote).buffer|
    ensures exists k :: 0 <= k < |projects| && CollectFrom(buf, projects, remote).buffer[j].projectId == projects[k].id
    decreases |projects|
  {
    var project := projects[0];
    var step := ProjectStep(buf, project, remote(project.htmlUrl).series);
    assert CollectFrom(buf, projects, remote) == CollectFrom(step, projects[1..], remote);
    if j < |step| {
      assert step[j].projectId == project.id;
    } else {
      CollectProvenance(step, projects[1..], remote, j);
      var k :| 0 <= k < |projects| - 1
               && CollectFrom(step, projects[1..], remote).buffer[j].projectId == projects[1..][k].id;
      assert projects[1..][k] == projects[k + 1];
    }
  }

  /**
    `buffer` holds, project by project, the mapping of the oldest entries of each
    series that the cap rule keeps, oldest first.
  */
  predicate KeepsOldest(projects: seq<Project>, remote: Remote, buffer: seq<CompassActivityMetricDto>)
  {
    && Picks(projects, remote, Quotas(0, projects, remote))
    && buffer == Kept(projects, remote, Quotas(0, projects, remote))
  }

  /**
    The buffer one page flushes: the project loop from an empty buffer. It is
    flushed only when every query succeeds, and it holds, project by project,
    the oldest entries the cap rule keeps of each series, oldest first.
  */
  function CollectPage(projects: seq<Project>, remote: Remote): (r: Outcome)
    ensures r.Done? <==> AllFetched(projects, remote)
    ensures r.Done? ==> KeepsOldest(projects, remote, r.buffer)
  {
    if AllFetched(projects, remote) then
      CollectContents([], projects, remote);
      CollectFrom([], projects, remote)
    else
      CollectFrom([], projects, remote)
  }

  /**
    A finished project loop appends to `buf`, for each project in order, the
    mapping of the first `Quotas` entries of its series in chronological order.
  */
  lemma {:induction false} CollectContents(buf: seq<CompassActivityMetricDto>, projects: seq<Project>, remote: Remote)
    requires AllFetched(projects, remote)
    ensures Picks(projects, remote, Quotas(|buf|, projects, remote))
    ensures CollectFrom(buf, projects, remote).buffer == buf + Kept(projects, remote, Quotas(|buf|, projects, remote))
    decreases |projects|
  {
    QuotasPick(|buf|, projects, remote);
    if projects == [] {
      assert Kept(projects, remote, Quotas(|buf|, projects, remote)) == [];
    } else {
      var series := remote(projects[0].htmlUrl).series;
      var first := Quota(|buf|, |series|);
      var dtos := ToDtos(projects[0].id, Reverse(series)[..first]);
      var step := ProjectStep(buf, projects[0], series);
      assert |step| == |buf| + first;
      var rest := Kept(projects[1..], remote, Quotas(|step|, projects[1..], remote));
      calc {
        CollectFrom(buf, projects, remote).buffer;
        == { FirstTurn(buf, projects, remote); }
        CollectFrom(step, projects[1..], remote).buffer;
        == { CollectContents(step, projects[1..], remote); }
        step + rest;
        == { AppendAssoc(buf, dtos, rest); }
        buf + (dtos + rest);
        == { KeptFirst(|buf|, projects, remote); }
        buf + Kept(projects, remote, Quotas(|buf|, projects, remote));
      }
    }
  }

  /** The records `Quotas` keeps: the first project's share, then the rest's from the length it leaves. */
  lemma KeptFirst(filled: nat, projects: seq<Project>, remote: Remote)
    requires projects != [] && remote(projects[0].htmlUrl).Fetched?
    ensures Picks(projects, remote, Quotas(filled, projects, remote))
    ensures Picks(projects[1..], remote, Quotas(filled + Quota(filled, |remote(projects[0].htmlUrl).series|), projects[1..], remote))
    ensures var series := remote(projects[0].htmlUrl).series;
      var first := Quota(filled, |series|);
      Kept(projects, remote, Quotas(filled, projects, remote))
      == ToDtos(projects[0].id, Reverse(series)[..first])
         + Kept(projects[1..], remote, Quotas(filled + first, projects[1..], remote))
  {
    var q := Quotas(filled, projects, remote);
    var series := remote(projects[0].htmlUrl).series;
    QuotasPick(filled, projects, remote);
    QuotasPick(filled + Quota(filled, |series|), projects[1..], remote);
    assert SeriesOf(remote(projects[0].htmlUrl)) == series;
    assert q[1..] == Quotas(filled + Quota(filled, |series|), projects[1..], remote);
  }

  /** Some choice of how many entries each project keeps accounts for a finished project loop. */
  lemma CollectKeepsPrefixes(buf: seq<CompassActivityMetricDto>, projects: seq<Project>, remote: Remote)
    requires AllFetched(projects, remote)
    ensures exists q :: Picks(projects, remote, q) && CollectFrom(buf, projects, remote).buffer == buf + Kept(projects, remote, q)
  {
    CollectContents(buf, projects, remote);
  }

  /** A finished project loop leaves the buffer at the length the cap rule predicts. */
  lemma CollectReaches(buf: seq<CompassActivityMetricDto>, projects: seq<Project>, remote: Remote)
    requires AllFetched(projects, remote)
    ensures |CollectFrom(buf, projects, remote).buffer| == ReachedLength(|buf|, projects, remote)
  {
    CollectContents(buf, projects, remote);
    KeptLength(projects, remote, Quotas(|buf|, projects, remote));
    ReachedIsQuotaSum(|buf|, projects, remote);
  }

  /** The records `q` keeps number the sum of `q`. */
  lemma {:induction false} KeptLength(projects: seq<Project>, remote: Remote, q: seq<nat>)
    requires Picks(projects, remote, q)
    ensures |Kept(projects, remote, q)| == Sum(q)
    decreases |projects|
  {
    if projects != [] {
      assert Picks(projects[1..], remote, q[1..]) by {
        assert forall k :: 0 <= k < |q| - 1 ==> q[1..][k] == q[k + 1] && projects[1..][k] == projects[k + 1];
      }
      KeptLength(projects[1..], remote, q[1..]);
    }
  }

  /** The first project's turn of the project loop, when every project is fetched. */
  lemma FirstTurn(buf: seq<CompassActivityMetricDto>, projects: seq<Project>, remote: Remote)
    requires projects != [] && AllFetched(projects, remote)
    ensures var step := ProjectStep(buf, projects[0], remote(projects[0].htmlUrl).series);
      && AllFetched(projects[1..], remote)
      && CollectFrom(buf, projects, remote) == CollectFrom(step, projects[1..], remote)
  {
    TailFetched(projects, remote);
    CollectFirst(buf, projects, remote);
  }

  /** The projects after the first are fetched when all are. */
  lemma TailFetched(projects: seq<Project>, remote: Remote)
    requires projects != [] && AllFetched(projects, remote)
    ensures AllFetched(projects[1..], remote)
  {
    assert forall k :: 0 <= k < |projects| - 1 ==> projects[1..][k] == projects[k + 1];
  }

  /** The project loop's first turn, for a fetched first project. */
  lemma CollectFirst(buf: seq<CompassActivityMetricDto>, projects: seq<Project>, remote: Remote)
    requires projects != [] && remote(projects[0].htmlUrl).Fetched?
    ensures CollectFrom(buf, projects, remote)
      == CollectFrom(ProjectStep(buf, projects[0], remote(projects[0].htmlUrl).series), projects[1..], remote)
  {
  }

  /**
    The cap rule's length, given the `e` entries the projects hold: never more
    than `filled + e`; either all of them or at least Cap; and all of them when
    the total stays within the cap or the buffer already starts at or past it.
  */
  lemma {:induction false} ReachedBounds(filled: nat, projects: seq<Project>, remote: Remote)
    ensures var n, e := ReachedLength(filled, projects, remote), Entries(projects, remote);
      && n <= filled + e
      && (n == filled + e || n >= Cap)
      && (filled + e <= Cap || filled >= Cap ==> n == filled + e)
    decreases |projects|
  {
    if projects != [] {
      var m := SeriesLength(remote(projects[0].htmlUrl));
      ReachedBounds(filled + Quota(filled, m), projects[1..], remote);
      LengthStep(filled, m, Entries(projects[1..], remote), ReachedLength(filled, projects, remote));
    }
  }

  /**
    The arithmetic of one project's turn: if the rest of the page takes a buffer of
    length `s + Quota(s, m)` to length `n` within the bounds, then so does the
    whole page from length `s`.
  */
  lemma LengthStep(s: nat, m: nat, e: nat, n: nat)
    requires var t := s + Quota(s, m);
      && n <= t + e
      && (n == t + e || n >= Cap)
      && (t + e <= Cap || t >= Cap ==> n == t + e)
    ensures n <= s + m + e
    ensures n == s + m + e || n >= Cap
    ensures s + m + e <= Cap || s >= Cap ==> n == s + m + e
  {
  }

  /**
    How long a flushed buffer is, given the `e` entries the page's projects hold:
    at most `e`; either all `e` or at least Cap; exactly `e` when `e` is within the cap.
  */
  lemma CollectLength(projects: seq<Project>, remote: Remote)
    requires AllFetched(projects, remote)
    ensures var n, e := |CollectPage(projects, remote).buffer|, Entries(projects, remote);
      && n <= e
      && (n == e || n >= Cap)
      && (e <= Cap ==> n == e)
  {
    CollectReaches([], projects, remote);
    ReachedBounds(0, projects, remote);
  }

  /** A page whose projects all have empty series still flushes, with an empty buffer. */
  lemma EmptySeriesFlushEmpty(projects: seq<Project>, remote: Remote)
    requires forall k :: 0 <= k < |projects| ==> remote(projects[k].htmlUrl) == Fetched([])
    ensures CollectPage(projects, remote) == Done([])
  {
    assert AllFetched(projects, remote);
    assert Entries(projects, remote) == 0 by {
      EntriesZero(projects, remote);
    }
    CollectLength(projects, remote);
  }

  /** Projects whose series are all empty hold no entries. */
  lemma {:induction false} EntriesZero(projects: seq<Project>, remote: Remote)
    requires forall k :: 0 <= k < |projects| ==> remote(projects[k].htmlUrl) == Fetched([])
    ensures Entries(projects, remote) == 0
    decreases |projects|
  {
    if projects != [] {
      assert forall k :: 0 <= k < |projects| - 1 ==> projects[1..][k] == projects[k + 1];
      EntriesZero(projects[1..], remote);
    }
  }

  /**
    The cap does not bound the buffer: three projects with three entries each give
    all three of the first, the first two of the second (the push that reaches
    length Cap breaks), and all three of the third, eight records in all.
  */
  lemma ThreeByThree(p1: Project, p2: Project, p3: Project,
                     a: seq<MetricActivity>, b: seq<MetricActivity>, c: seq<MetricActivity>, remote: Remote)
    requires |a| == 3 && |b| == 3 && |c| == 3
    requires remote(p1.htmlUrl) == Fetched(a)
    requires remote(p2.htmlUrl) == Fetched(b)
    requires remote(p3.htmlUrl) == Fetched(c)
    ensures CollectPage([p1, p2, p3], remote)
         == Done(ToDtos(p1.id, Reverse(a)) + ToDtos(p2.id, Reverse(b)[..2]) + ToDtos(p3.id, Reverse(c)))
    ensures |CollectPage([p1, p2, p3], remote).buffer| == 8
  {
    var ps := [p1, p2, p3];
    var s1 := ProjectStep([], p1, a);
    assert Reverse(a)[..3] == Reverse(a);
    assert s1 == ToDtos(p1.id, Reverse(a));
    var s2 := ProjectStep(s1, p2, b);
    assert s2 == s1 + ToDtos(p2.id, Reverse(b)[..2]);
    var s3 := ProjectStep(s2, p3, c);
    assert Reverse(c)[..3] == Reverse(c);
    assert s3 == s2 + ToDtos(p3.id, Reverse(c));
    assert ps[1..] == [p2, p3] && [p2, p3][1..] == [p3] && [p3][1..] == [];
    calc {
      CollectPage(ps, remote);
      CollectFrom(s1, [p2, p3], remote);
      CollectFrom(s2, [p3], remote);
      CollectFrom(s3, [], remote);
      Done(s3);
    }
  }
}
