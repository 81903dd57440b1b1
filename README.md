# Scan life cycle of the penetration-testing backend

This project models the core of a small web-security scanning service in Dafny and proves what that core promises.

A caller submits a URL. The backend then:

1. finds or creates the `Website` row for that URL;
2. creates a PENDING `Scan` with one PENDING/NOT_RUN `ScanResult` per entry of the test catalog;
3. runs in the background one unit per result. Each unit marks its row IN_PROGRESS, runs a check, and writes a terminal status and verdict;
4. aggregates the rows into the scan's own status.

Two read endpoints return the scan. The report endpoint refuses a scan that has not ended.

The catalog has ten entries. One of them has a real probe; the other nine are placeholders. Every probe runs inside a fail-closed wrapper.

- **The HTTPS probe** (`Cryptography and SSL/TLS Testing`). It follows redirects and looks at the URI scheme of the final URL. The scheme follows section 3.1 of RFC 3986. It also maps the `requests` exception hierarchy to verdicts.
- **The placeholder probes.** Every other catalog entry picks PASSED, VULNERABLE or INFO at random.
- **The fail-closed wrapper.** Any unexpected exception turns the result into ERROR/NOT_RUN.

Layout, one module per file:

- `wrappers.dfy` (`Wrappers`): `Option` and `Result`.
- `models.dfy` (`Models`): the two enumerations with their stable string forms, the four row shapes and the insert defaults of `backend/models.py`.
- `tables.dfy` (`Tables`): the store as one value `Db`. It holds four maps from primary key to row and four auto-increment counters. It also holds the schema's constraints: unique URLs, unique test names, and the foreign keys. Finally it has the query listing a scan's result ids.
- `probes.dfy` (`Probes`): the check logic of `run_single_test` as pure functions. The exchange with the site is an input.
- `lifecycle.dfy` (`Lifecycle`): the specification functions, one per operation of `backend/main.py`, and the lemmas stating what the code promises about them:
  - seeding, scan creation, begin/classify/finish, the fan-out, aggregation and the read guards;
  - that every operation keeps the schema's constraints;
  - that FAILED is never written;
  - an end-to-end run.
- `service.dfy` (`Service`): the imperative backend. `class Backend` holds the four tables and counters as fields. Each method updates them in place and is proved to leave exactly the store its `Lifecycle` function computes. The aggregation loop with its `break` is the method `Aggregate`. The read endpoints are methods that change nothing.

Failures of the outside world are inputs of the model:

- whether each of a unit's two commits succeeds;
- whether the listing of result ids raises;
- what the HTTP request produces;
- which element `random.choice` picks.

Timestamps are an abstract clock reading passed in by the caller.

Three behaviours of the code are modelled as written:

- **A scan with no results.** The background run marks such a scan COMPLETED, and only while it is still PENDING; otherwise it leaves the scan alone (`backend/main.py:298-309`). The code's own comment hesitates between COMPLETED and ERROR here. See `Lifecycle.RunAllNoResults`.
- **Begin is unconditional.** The begin step sets IN_PROGRESS whatever the row's current status is (`backend/main.py:154`). A unit run a second time on a finished row therefore moves it back to IN_PROGRESS. See `Lifecycle.Begin`.
- **The final marking is unconditional.** The end of a background run writes the aggregate whatever the scan's current status is (`backend/main.py:356-357`). See `Lifecycle.MarkScan`.

## Model

| member | source | states |
|---|---|---|
| Models.StatusFromValue | backend/models.py:9-14 | looking a status up by its string form yields a member whose string form is that string |
| Models.ResultFromValue | backend/models.py:16-20 | looking a verdict up by its string form yields a member whose string form is that string |
| Models.StatusValueRoundTrip | backend/models.py:9-14 | every one of the five statuses is recovered from its string form, and no two statuses share a string form |
| Models.ResultValueRoundTrip | backend/models.py:16-20 | every one of the four verdicts is recovered from its string form, and no two verdicts share a string form |
| Tables.ResultIds | backend/main.py:282-284 | the listing holds only rows of the given scan with key below the bound, holds every such row, and is strictly ascending (so without repeats) |
| Tables.Valid | backend/models.py:59-60 | the schema's constraints: keys below their counters, unique URLs and names, and every foreign key resolving; in a valid store every result reaches an existing scan and, through it, an existing website |
| Tables.ResultIdsComplete | backend/main.py:282-284 | when every key is below the counter, the listing holds exactly the scan's results |
| Tables.ResultIdsEmptyIff | backend/main.py:298 | when every key is below the counter, the listing is empty exactly when the scan has no result row |
| Tables.ResultIdsSameRows | backend/main.py:330 | the listing depends only on which rows exist and which scan each belongs to, not on the status columns |
| Probes.FindColon | backend/main.py:180 | finds the first colon of the URL, or reports that there is none |
| Probes.SchemeOf | backend/main.py:180-182 | a reported scheme is a well-formed scheme in the sense of section 3.1 of RFC 3986, followed by a colon, and lower-cased |
| Probes.SchemeOfPrefixed | backend/main.py:180-182 | a URL that opens with a well-formed scheme and a colon reports that scheme, lower-cased |
| Probes.HttpsSchemeIff | backend/main.py:182 | the final URL counts as https exactly when it starts with `https:` in any letter case |
| Probes.CatchRequestError | backend/main.py:195-218 | exactly the request-library exceptions are caught, always as COMPLETED; VULNERABLE exactly for certificate errors and INFO for every other one; a timeout is reported as a timeout |
| Probes.CheckHttps | backend/main.py:172-218 | the HTTPS probe escapes exactly on an unexpected exception; otherwise it concludes COMPLETED with a verdict other than NOT_RUN; an error status goes through the request-error handlers |
| Probes.HttpsDecisionTable | backend/main.py:172-218 | the HTTPS check escapes only on an unexpected exception; otherwise it is COMPLETED, PASSED exactly when a non-error response ends on https, VULNERABLE exactly when it ends on another scheme or on a certificate error, INFO exactly for an error status or any other request exception |
| Probes.SslHandlerPrecedesConnectionHandler | backend/main.py:195-212 | a certificate error is also a connection error yet yields VULNERABLE; a connect timeout is both a timeout and a connection error and yields the timeout's INFO |
| Probes.HttpFinalUrlIsVulnerable | backend/main.py:187-193 | a successful response whose final URL is `http://…` is COMPLETED/VULNERABLE |
| Probes.HttpsFinalUrlPasses | backend/main.py:182-193 | a successful response whose final URL is `https://…` is COMPLETED/PASSED |
| Probes.Simulate | backend/main.py:228-236 | a placeholder probe concludes COMPLETED with the pick among PASSED, VULNERABLE and INFO that the draw selects |
| Probes.Classify | backend/main.py:162-244 | the computed status is always terminal: ERROR exactly when the verdict is NOT_RUN, exactly when the HTTPS probe meets an unexpected exception; otherwise the verdict is the HTTPS probe's for its entry and the placeholder's for every other entry |
| Lifecycle.InsertIfAbsent | backend/main.py:123-129 | afterwards the entry's name is taken; a taken name leaves the store unchanged; at most the next key is added, other tables untouched, and with keys below the counter every existing definition is kept |
| Lifecycle.Seed | backend/main.py:123-129 | seeding touches only the definitions table, and with keys below the counter afterwards every listed name is taken |
| Lifecycle.SeedAddsMissingNames | backend/main.py:123-129 | seeding keeps the constraints and every existing definition, touches no other table, and afterwards the definition names are the old ones plus the catalog's |
| Lifecycle.SeedUnchangedWhenAllPresent | backend/main.py:123-129 | when every catalog name is already taken, seeding changes nothing |
| Lifecycle.SeedIdempotent | backend/main.py:123-129 | seeding twice gives the same store as seeding once, and names stay unique |
| Lifecycle.FindOrCreateWebsite | backend/main.py:394-401 | yields a website row with the requested URL and changes no table other than `websites` |
| Lifecycle.FindOrCreateWebsiteEffect | backend/main.py:394-401 | the found website is the existing row when the URL is known and then no website changes; otherwise exactly one row is added for it; URLs stay unique |
| Lifecycle.FindExistingWebsite | backend/main.py:394-396 | with unique URLs, an existing row for the URL is the one found, and nothing is inserted |
| Lifecycle.FindNewWebsite | backend/main.py:398-401 | an unknown URL gets one new row, with the next key, no last scan time and the current creation time |
| Lifecycle.AddResults | backend/main.py:424-431 | creating result rows changes no table other than `scan_results` and never lowers its counter |
| Lifecycle.AddResultsForNewScan | backend/main.py:424-431 | for a scan with no rows yet, the new rows are exactly the scan's results: one PENDING/NOT_RUN row per definition, every definition covered once, as many rows as definitions |
| Lifecycle.OpenScan | backend/main.py:415-436 | a new scan at the next key, PENDING and created now, on the website `w`; `w`'s `last_scan_at` is now and no other website changes; the catalog is untouched |
| Lifecycle.StartScan | backend/main.py:407-412 | creation fails exactly when the catalog is empty, and the failure commits nothing |
| Lifecycle.StartScanPreservesValid | backend/models.py:26 | a successful creation keeps URLs and names unique, keys below their counters, and every foreign key resolving |
| Lifecycle.StartScanWebsite | backend/main.py:394-436 | the scan's website has the requested URL and `last_scan_at` now; it is the existing row when the URL was known, else exactly one new row; no other website changes |
| Lifecycle.StartScanCreatesScan | backend/main.py:416-421 | exactly one new scan, PENDING, created now, not completed; no other scan changes; the catalog is untouched |
| Lifecycle.StartScanCreatesResults | backend/main.py:424-431 | older results are untouched; the new scan's results are exactly the new rows, one PENDING/NOT_RUN row per definition |
| Lifecycle.StartScanListsResults | backend/main.py:424-431 | after creation the new scan's listing is non-empty and holds exactly its results |
| Lifecycle.Begin | backend/main.py:147-155 | the unit proceeds exactly when the row, its definition and the commit are all there; then only that row changes, to IN_PROGRESS with `started_at` now and every other column kept, and the definition's name is returned |
| Lifecycle.Finish | backend/main.py:249-266 | a missing row or failed commit changes nothing; otherwise only that row changes, taking the verdict's status and outcome, the finding as summary and details, the recommendation (none after a crash) and `completed_at` now, every other column kept |
| Lifecycle.BeginKeepsRows | backend/main.py:154-155 | marking a row IN_PROGRESS adds and removes no row and changes no key or link |
| Lifecycle.FinishKeepsRows | backend/main.py:256-262 | writing a verdict adds and removes no row and changes no key or link |
| Lifecycle.RunSingleTest | backend/main.py:135-270 | a unit changes no table but `scan_results` and no row but its own; if it changes its row, the row and definition existed, the first commit succeeded and `started_at` is now |
| Lifecycle.RunSingleTestFrame | backend/main.py:135-270 | a unit changes only status-like columns of its own row |
| Lifecycle.RunSingleTestOutcome | backend/main.py:135-270 | without row, definition or first commit nothing changes; with a failed last commit the row stays IN_PROGRESS; otherwise it ends COMPLETED or ERROR with the classified verdict, started and completed now |
| Lifecycle.RunSingleTestLocal | backend/main.py:143-155 | a unit's effect on its row depends only on that row and the catalog |
| Lifecycle.RunUnits | backend/main.py:312-320 | the fan-out changes no table but `scan_results`, adds or removes no row, and leaves every unlisted row unchanged |
| Lifecycle.RunUnitsPointwise | backend/main.py:312-320 | after all units of distinct ids, each listed row is what its own unit makes of it alone and every other row is unchanged |
| Lifecycle.RunUnitsOrderIndependent | backend/main.py:312-320 | running the same units in any order gives the same store, so the concurrent fan-out is equivalent to a sequential one |
| Lifecycle.Overall | backend/main.py:336-354 | the aggregate is COMPLETED or ERROR, and COMPLETED exactly when the reloaded count equals the launched count and every status is COMPLETED |
| Lifecycle.OverallIgnoresOrder | backend/main.py:342-351 | the aggregate does not depend on the order the results are reloaded in |
| Lifecycle.OverallOfListed | backend/main.py:336-354 | for listed rows, the aggregate is COMPLETED exactly when every listed row is COMPLETED |
| Lifecycle.MarkScan | backend/main.py:356-357 | only the named scan changes, taking the status and `completed_at` now; an unknown scan leaves the store unchanged |
| Lifecycle.MarkScanKeepsRows | backend/main.py:356-357 | marking a scan sets its status and `completed_at` and changes nothing else |
| Lifecycle.RunAll | backend/main.py:273-360 | a background run changes neither websites nor definitions, adds or removes no row, changes no other scan and no result of another scan, and touches no result when the listing fails |
| Lifecycle.RunAllFetchFailed | backend/main.py:285-296 | a failed listing marks the scan ERROR, completed now, and touches no result |
| Lifecycle.RunAllNoResults | backend/main.py:298-309 | a scan with no results becomes COMPLETED if it is still PENDING, and otherwise the store is left unchanged |
| Lifecycle.RunAllShape | backend/main.py:312-357 | with results to run, the run is every unit followed by marking the scan with the aggregate of its reloaded rows |
| Lifecycle.MarkAggregate | backend/main.py:334-357 | marking after disjoint units leaves each row as its unit made it, and the scan COMPLETED exactly when every unit left its row COMPLETED, otherwise ERROR, completed now |
| Lifecycle.RunAllAggregates | backend/main.py:326-357 | with results to run, each listed row ends as its own unit leaves it; the scan ends COMPLETED exactly when every unit ends COMPLETED, otherwise ERROR; `completed_at` is now |
| Lifecycle.RunAllKeepsRows | backend/main.py:273-360 | a background run adds and removes no row and changes no key or link |
| Lifecycle.RunAllPreservesValid | backend/models.py:59-60 | every background run keeps uniqueness and the foreign keys |
| Lifecycle.PendingRowsKeepNoFailed | backend/models.py:47 | adding a PENDING scan and fresh PENDING results to a store without FAILED rows introduces none |
| Lifecycle.StartScanNeverFails | backend/models.py:13 | scan creation never writes the FAILED status |
| Lifecycle.RunSingleTestNeverFails | backend/main.py:154-262 | a unit writes IN_PROGRESS, COMPLETED or ERROR into its row, never FAILED |
| Lifecycle.RunAllNeverFails | backend/main.py:294-356 | a background run never leaves a scan or a result FAILED |
| Lifecycle.View | backend/main.py:477-485 | the view carries the scan row and its results as (key, row) pairs: each pair is a result of that scan under its own key, every result of the scan is listed, and the keys ascend strictly, so none is listed twice |
| Lifecycle.AscendingKeysCount | backend/main.py:477-485 | a strictly ascending key listing has exactly as many entries as distinct keys |
| Lifecycle.ViewListsEachResultOnce | backend/main.py:477-485 | with every key below the counter, the view lists exactly as many rows as the scan has results, so each result appears exactly once |
| Lifecycle.RunAllMakesReportReady | backend/main.py:503-505 | after its background run an existing scan's report is available, unless it had no results and had already left PENDING |
| Lifecycle.UnitsKeepNoFailed | backend/main.py:312-320 | units that each leave their own row non-FAILED leave the store without FAILED rows |
| Lifecycle.UnitConcludes | backend/main.py:169-218 | a unit whose commits succeed and whose check raises nothing unexpected leaves its row COMPLETED |
| Lifecycle.ScanCompletesWhenEveryProbeConcludes | backend/main.py:380-458 | a scan created against a non-empty catalog whose units all commit and raise nothing unexpected ends COMPLETED with every result COMPLETED, and its report is ready |
| Lifecycle.ListedScanCompletes | backend/main.py:273-360 | a run on a scan whose listing is exactly its non-empty set of results, with every unit committing and no unexpected exception, ends COMPLETED with every result COMPLETED |
| Service.Aggregate | backend/main.py:336-354 | the loop with its early exits computes the aggregation rule |
| Service.Backend.PopulateTestDefinitions | backend/main.py:105-129 | the seeding loop leaves exactly the seeded store and keeps the constraints |
| Service.Backend.SeedEntries | backend/main.py:123-129 | the loop over the entries leaves exactly the store seeding specifies |
| Service.Backend.StartScan | backend/main.py:380-436 | fails with nothing committed exactly when the catalog is empty; otherwise commits the created store and returns the new scan's key; keeps the constraints |
| Service.Backend.OpenScan | backend/main.py:415-436 | inserts the scan and its results and stamps the website, as creation specifies |
| Service.Backend.AddResultRows | backend/main.py:424-431 | the loop over the catalog inserts one fresh row per definition, in key order |
| Service.Backend.Begin | backend/main.py:139-160 | updates the store as the begin step specifies and returns the test's name, or nothing when the unit aborts |
| Service.Backend.Finish | backend/main.py:247-270 | updates the store as the finish step specifies and keeps the constraints |
| Service.Backend.RunSingleTest | backend/main.py:135-270 | runs begin, classification and finish as one unit specifies |
| Service.Backend.Mark | backend/main.py:356-357 | sets the scan's status and completion time and keeps the constraints |
| Service.Backend.RunUnits | backend/main.py:312-320 | runs every listed unit, leaving the store the fan-out specifies |
| Service.Backend.RunAllTestsForScan | backend/main.py:273-360 | leaves exactly the store the background run specifies and keeps the constraints |
| Service.Backend.GetScanStatus | backend/main.py:474-485 | not found exactly for an unknown scan, otherwise the scan's view |
| Service.Backend.DownloadScanReport | backend/main.py:489-505 | not found exactly for an unknown scan; refused with the current status exactly while the scan is neither COMPLETED nor ERROR; otherwise the scan's view |

## Left out

- `backend/database.py` is not part of this model. It covers engine and session creation, environment loading and table creation. `Service.Backend.constructor` stands for a store with every table empty.
- The web framework is not modelled: routing, request and response schemas, CORS and the server runner. The endpoints are methods that take the already-parsed arguments.
- Transactions are not modelled as such. A failed commit is a boolean input, and the store after it is the store before it.
- Other database failures during scan creation are not modelled. The source catches them and answers with a generic server error (`backend/main.py:467-471`). The re-read of the new scan inside the same transaction (`backend/main.py:447-449`) cannot fail on an in-memory store.
- The network is not modelled. The `requests.get` call is an abstract `Exchange`: a final status code and URL, or an exception class from the `requests` hierarchy.
- Probes.SchemeOf: does not model the stripping of leading whitespace and of tab and newline characters that `urlparse` performs. Only the scheme-before-first-colon rule of section 3.1 of RFC 3986 is modelled.
- The random delay of placeholder checks is not modelled. The `random.choice` pick is an input, indexing the three verdicts modulo three.
- Lifecycle.Finish: the narrative columns (summary, details, recommendations) hold a `Finding` tag saying which message is written, not the message text.
- Timestamps are abstract clock values passed in by the caller. The model records when a timestamp is set, not the wall clock.
- Lifecycle.RunUnits: the concurrent tasks and `asyncio.gather` are modelled as a sequential loop over the ids. `Lifecycle.RunUnitsOrderIndependent` shows that every order gives the same store. The handler around `gather` (`backend/main.py:321-324`) is left out, because each unit catches its own failures.
- Unexpected exceptions outside a check are not modelled. That covers failures in a unit's own bookkeeping, beyond the two commit flags, and failures of the final aggregation transaction.
- Tables.ResultIds: SQL returns rows in no particular order. The model lists them in ascending key order.
- Lifecycle.AddResults: the catalog query at `backend/main.py:408` has no ORDER BY. The model creates the new scan's results in ascending definition-key order, and `Service.Backend.AddResultRows` follows the same order.
- Lifecycle.View: the response's nested website and test-definition objects and its serialisation are not modelled. The view is the scan row and its result rows, each with its key.
- Service.Backend.DownloadScanReport: the placeholder JSON body is not modelled. The success case returns the same view as the status endpoint.
- Logging output is not modelled.
