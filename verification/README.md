# Compass activity sync, modelled in Dafny

This project models the `syncMetricActivity` handler of the OSS evaluation
service (controllers/compass.js). The handler copies OSS Compass activity
metrics into local storage for every GitHub project the service tracks:

- it counts the stored projects and walks them in pages of 100
  (`offset`/`limit` windows 0, 100, 200, … below the count);
- for each project of a page, in store order, it asks the Compass GraphQL
  service for the project's `metricActivity` series, which arrives most recent
  first;
- it reverses the series, skips it if empty, maps every entry to a
  `CompassActivityMetricDto` and pushes it onto a fresh per-page buffer, leaving
  the per-entry loop as soon as a push makes the buffer length exactly 5;
- it hands each page's buffer, empty or not, to one bulk insert.

All I/O becomes input. The project table is a `seq<Project>`. The Compass
service is a function `Remote` from project URL to `Fetched(series)` or
`Rejected`. A run of the handler is the pure value `Run`: the buffers given
to the bulk insert, in order, and whether the run got to the end.

Modules, one per concern of the handler:

- `Metric` (metric.dfy): the project row, the 21-field remote entry, the record and the mapping.
- `Paging` (paging.dfy): the page loop, the page windows and the `offset`/`limit` query.
- `Accumulate` (accumulate.dfy): one project's turn, with reversal, the empty-series skip and the `=== 5` break.
- `Page` (page.dfy): the project loop over one page, starting from a fresh buffer.
- `Sync` (sync.dfy): the whole handler.
- `Sequences` (sequences.dfy): minimum, reversal and concatenation helpers.

Two consequences of the code are worth stating, because they are easy to miss:

- Nothing catches a rejected `request` (controllers/compass.js:75-82). One
  rejected query therefore rejects the whole handler, after the bulk inserts of
  the earlier pages have already been started. `Run.Stopped` models this.
- The `length === 5` test (controllers/compass.js:102) breaks only the per-entry
  loop. Once a page's buffer has reached 5, later projects of the page add all
  of their entries, so a page buffer can hold more than 5 records. Three
  projects with three entries each give 3 + 2 + 3 = 8 records
  (`Page.ThreeByThree`).

## Model

| member | source | states |
|---|---|---|
| `Metric.ToDto` | controllers/compass.js:89-101 | the record for an entry has placeholder key 0 and the owning project's id, and its ten entry columns are the entry's label and nine metric fields, in the constructor's order (controllers/compass.js:119-145) |
| `Metric.ToDtoFields` | controllers/compass.js:119-145 | a record has placeholder key 0 and the owning project's id, and holds the label and the nine metric fields of its entry unchanged |
| `Metric.ToDtoProjection` | controllers/compass.js:89-101 | two entries map to the same record if and only if they belong to the same project and agree on the ten kept fields; the eleven other remote fields are dropped |
| `Paging.PageSchedule` | controllers/compass.js:60-63 | the page loop visits offsets i·100, each below the count, until their windows reach the count; no projects means no offsets; the offsets are exactly `PageOffsets`, ceil(N/100) of them |
| `Paging.CountIsCeiling` | controllers/compass.js:63 | the least number of 100-wide windows that reach N is the page count ceil(N/100) |
| `Paging.PagesPartition` | controllers/compass.js:63-69 | every project index below N lies in the window of exactly one visited page, namely page index/100 |
| `Paging.FindPage` | controllers/compass.js:65-69 | the `offset`/`limit` query returns min(limit, N - offset) projects, or none past the end; entry j is stored project offset + j |
| `Paging.Pages` | controllers/compass.js:63-69 | the loop fetches ceil(N/100) pages; every page holds between 1 and 100 projects, and every page but the last holds exactly 100 |
| `Paging.PagesAtOffsets` | controllers/compass.js:63-69 | there is one page per offset of the `begin` loop, and page i is the `offset`/`limit` window at the loop's i-th offset |
| `Paging.PagesPrefix` | controllers/compass.js:63-69 | the first m pages, concatenated, are exactly the first min(100·m, N) stored projects |
| `Paging.PagesCover` | controllers/compass.js:63-69 | all pages concatenated are the whole project store, in order, with no gap and no repeat |
| `Sequences.Reverse` | controllers/compass.js:82 | reversal keeps the length and moves entry i to position length - 1 - i, so the series that arrives newest first is walked oldest first |
| `Accumulate.AppendSeries` | controllers/compass.js:87-105 | the per-entry loop with its `=== 5` break appends the mapped first `Quota` entries: min(entries, 5 - length) while the buffer is below 5, every entry once it is at or past 5 |
| `Accumulate.ProjectStep` | controllers/compass.js:82-105 | a project's turn appends the mapped prefix of its reversed series that the cap rule allows; an empty series leaves the buffer unchanged; the buffer grows by exactly `Quota`; at or past 5 the whole reversed series is appended |
| `Accumulate.Chronological` | controllers/compass.js:82-101 | the i-th record a project adds is the mapping of the entry delivered i-th from the end, so records go out oldest first |
| `Page.CollectFrom` | controllers/compass.js:73-106 | the project loop finishes if and only if every project's query succeeds, and it only ever appends to the buffer it continues |
| `Page.CollectPage` | controllers/compass.js:71-106 | the project loop from a fresh buffer yields a buffer to flush if and only if every query of the page succeeds; that buffer holds, project by project in page order, the mapped oldest entries that `Quotas` allows of each reversed series |
| `Page.CollectContents` | controllers/compass.js:73-105 | the finished project loop appends to the buffer it continues exactly the concatenation, over the projects in order, of the mapping of the first `Quotas` entries of each reversed series, and those quotas never exceed a series' length |
| `Page.CollectKeepsPrefixes` | controllers/compass.js:73-105 | the buffer of a finished project loop is the buffer it continued followed by a prefix of each project's reversed and mapped series, in project order |
| `Page.QuotaAt` | controllers/compass.js:102-104 | project k keeps `Quota` of its series at the buffer length reached by the quotas of the projects before it |
| `Page.QuotasRunning` | controllers/compass.js:102-104 | every project's quota is `Quota` of its series at the running buffer length |
| `Page.ReachedIsQuotaSum` | controllers/compass.js:87-104 | the cap rule's length is the starting length plus the sum of the per-project quotas, so the length account and the contents account agree |
| `Page.KeptLength` | controllers/compass.js:87-104 | keeping q[k] entries of each project gives exactly the sum of q records |
| `Page.QuotasPick` | controllers/compass.js:87-104 | no project keeps more entries than its series holds |
| `Page.CollectAborted` | controllers/compass.js:73-81 | a project loop that aborts does so at the first project whose query rejects, with every earlier project fetched |
| `Page.CollectProvenance` | controllers/compass.js:73-101 | every record the project loop adds carries the id of one of the page's projects |
| `Page.CollectReaches` | controllers/compass.js:73-105 | the finished loop leaves the buffer at the length the cap rule predicts, project by project |
| `Page.ReachedBounds` | controllers/compass.js:102-104 | with e entries available, the cap rule's length is at most start + e, either all of them or at least 5, and exactly start + e when that stays within 5 or the buffer starts at or past 5 |
| `Page.CollectLength` | controllers/compass.js:71-105 | a flushed page buffer holds at most the page's e entries, either all of them or at least 5, and all of them when e is at most 5 |
| `Page.EmptySeriesFlushEmpty` | controllers/compass.js:71-108 | a page whose projects all return empty series is still flushed, with an empty buffer |
| `Page.ThreeByThree` | controllers/compass.js:102-104 | three projects with three entries each flush all of the first, the first two of the second and all of the third: 8 records, more than the cap |
| `Sync.SyncFrom` | controllers/compass.js:63-110 | for any project loop, one flush per processed page, in page order, each the buffer of that page's project loop; the run completes if and only if every remaining page's loop finishes; a stopped run stops at the first page whose loop aborts |
| `Sync.SyncMetricActivity` | controllers/compass.js:57-113 | no projects gives a completed run with no flushes; a completed run flushes exactly ceil(N/100) times; flush i is the fresh-buffer project loop over the window at offset 100·i; a stopped run stops inside the window after its last flush |
| `Sync.CompletesIffAllFetched` | controllers/compass.js:73-81 | the run completes if and only if the remote query succeeds for every stored project |
| `Sync.StoppedHasRejected` | controllers/compass.js:75-81 | a run that stops has a stored project whose query rejects |
| `Sync.StoppedAtFirstRejected` | controllers/compass.js:63-110 | a stopped run stops at the first stored project whose query rejects; every earlier project was fetched, and exactly the pages before that project's page were flushed |
| `Sync.FlushedFetchedAt` | controllers/compass.js:73-108 | every project of a flushed page had its query succeed |
| `Sync.FlushProvenance` | controllers/compass.js:71-108 | every record in flush i carries the id of a stored project in window i |
| `Sync.FlushLocality` | controllers/compass.js:63-108 | when project ids are unique, a project's records are flushed only with that project's page: records never cross page boundaries |

## Left out

- The GraphQL request (controllers/compass.js:6-32, 75-81) is not modelled. It is the `Remote` parameter. A transport failure and a response without a `metricActivity` array are both `Rejected`; the model does not tell them apart. Because `Remote` is one fixed function of the URL, the model assumes the service answers a given URL the same way throughout a run, even though the source sends a separate request per project.
- `getMetricActivity` (controllers/compass.js:41-48) is not modelled. It forwards the request body to the remote service and returns the answer unchanged.
- `GithubProjects.count` and `findAll` are not modelled. The store is a sequence and the count is its length, so the table is assumed not to change during a run.
- `Paging.FindPage`: every `findAll` call reads one shared row order, the order of the sequence. The source does not guarantee this. The call at controllers/compass.js:65-69 passes no `order`, so separate `OFFSET`/`LIMIT` queries may return rows in different orders. Pages could then overlap or skip rows. `Paging.PagesPartition`, `Paging.PagesCover` and `Sync.FlushLocality` hold only under the shared-order assumption.
- `bulkInsertCompassData` (controllers/compass.js:153-160) is not modelled beyond receiving the buffer. It starts `CompassActivity.bulkCreate` without awaiting it and only logs the outcome, so no persistence result reaches the handler.
- Logging (`debug.log`, `console.log`) is not modelled.
- The HTTP response at controllers/compass.js:112 is not modelled. It calls `res.status(200).data(...)`, and Express responses have no `data` method.
- Field values are `Scalar`: JSON null, number or string. The mapper copies them without inspecting them, so their JSON types are not modelled further.
- The handler is async, but every remote query and every call of `bulkInsertCompassData` is awaited in turn. The sequential model is faithful, so nothing concurrent is modelled.
- routes/sync.js is not part of this model. It only wires routes, and it imports a `syncCompassHandler` that controllers/compass.js does not export.
- The handler is deterministic, so re-running it on unchanged inputs gives the same flushes. This holds because `SyncMetricActivity` is a function; no lemma states it separately.
