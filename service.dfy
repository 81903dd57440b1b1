/**
 * The store as the backend mutates it: one object whose four tables and
 * four key counters the operations of backend/main.py update in place. Each
 * method is proved to leave exactly the store the matching function of
 * Lifecycle computes from the old one, and to keep the schema's constraints.
 */
module Service {
  import opened Wrappers
  import opened Models
  import opened Tables
  import opened Probes
  import opened Lifecycle

  /**
   * The aggregation loop over the reloaded results: a count mismatch marks
   * the scan unaccounted for; the first ERROR stops the loop with ERROR; the
   * first row neither ERROR nor COMPLETED stops it with ERROR and marks the
   * scan unaccounted for; an unaccounted scan is ERROR.
   */
  method Aggregate(statuses: seq<TestStatus>, launched: nat) returns (status: TestStatus)
    ensures status == Overall(statuses, launched)
  {
    status := Completed;
    var accounted := |statuses| == launched;
    var i := 0;
    while i < |statuses|
      invariant 0 <= i <= |statuses|
      invariant status == Completed
      invariant accounted <==> |statuses| == launched
      invariant forall j :: 0 <= j < i ==> statuses[j] == Completed
    {
      if statuses[i] == Error {
        status := Error;
        break;
      } else if statuses[i] != Completed {
        status := Error;
        accounted := false;
        break;
      }
      i := i + 1;
    }
    if !accounted {
      status := Error;
    }
  }

  class Backend {
    var websites: map<Id, Website>
    var websiteSeq: Id
    var definitions: map<Id, TestDefinition>
    var definitionSeq: Id
    var scans: map<Id, Scan>
    var scanSeq: Id
    var results: map<Id, ScanResult>
    var resultSeq: Id

    /** The store's contents as a value. */
    function State(): Db
      reads this
    {
      Db(websites, websiteSeq, definitions, definitionSeq, scans, scanSeq, results, resultSeq)
    }

    ghost predicate Valid()
      reads this
    {
      Tables.Valid(State())
    }

    /** Table creation: every table empty. */
    constructor ()
      ensures State() == Empty && Valid()
    {
      websites, websiteSeq := map[], 0;
      definitions, definitionSeq := map[], 0;
      scans, scanSeq := map[], 0;
      results, resultSeq := map[], 0;
      EmptyValid();
    }

    /** Start-up seeding: each catalog entry whose name is not yet taken is inserted, in order. */
    method PopulateTestDefinitions()
      requires Valid()
      modifies this
      ensures Valid()
      ensures State() == Seed(old(State()), Catalog)
    {
      SeedEntries(Catalog);
      SeedAddsMissingNames(old(State()), Catalog);
    }

    /** The seeding loop over `es`: insert each entry whose name is not yet taken. */
    method SeedEntries(es: seq<Entry>)
      modifies this
      ensures State() == Seed(old(State()), es)
    {
      var i := 0;
      while i < |es|
        invariant 0 <= i <= |es|
        invariant State() == Seed(old(State()), es[..i])
      {
        var entry := es[i];
        SeedStep(old(State()), es, i);
        if !NameTaken(definitions, entry.name) {
          definitions := definitions[definitionSeq := TestDefinition(entry.name, Some(entry.description))];
          definitionSeq := definitionSeq + 1;
        }
        i := i + 1;
      }
      assert es[..|es|] == es;
    }

    /**
     * The scan-creation transaction. The website row is staged before the
     * catalog is consulted; an empty catalog rolls everything back.
     */
    method StartScan(url: string, now: Clock) returns (r: Result<Id, StartError>)
      requires Valid()
      modifies this
      ensures Valid()
      ensures Lifecycle.StartScan(old(State()), url, now).Failure? ==>
        r == Failure(NoTestDefinitions) && State() == old(State())
      ensures Lifecycle.StartScan(old(State()), url, now).Success? ==>
        r == Success(Lifecycle.StartScan(old(State()), url, now).value.1)
        && State() == Lifecycle.StartScan(old(State()), url, now).value.0
    {
      ghost var db := State();
      var w: Id;
      var staged := websites;
      var stagedSeq := websiteSeq;
      if UrlTaken(websites, url) {
        w :| w in websites && websites[w].url == url;
        FindExistingWebsite(db, url, now, w);
      } else {
        w := websiteSeq;
        staged := websites[w := Website(url, now, None)];
        stagedSeq := websiteSeq + 1;
        FindNewWebsite(db, url, now);
      }
      ghost var found := Db(staged, stagedSeq, definitions, definitionSeq, scans, scanSeq, results, resultSeq);
      assert FindOrCreateWebsite(db, url, now) == (found, w);
      if definitions == map[] {
        return Failure(NoTestDefinitions);
      }
      StartScanOpens(db, url, now, found, w);
      websites, websiteSeq := staged, stagedSeq;
      var s := OpenScan(w, now);
      r := Success(s);
      StartScanPreservesValid(db, url, now, State(), s);
    }

    /** Steps 3 to 5 of creation on the website `w`: a PENDING scan, its results, the website's `last_scan_at`. */
    method OpenScan(w: Id, now: Clock) returns (s: Id)
      requires w in websites
      modifies this
      ensures (State(), s) == Lifecycle.OpenScan(old(State()), w, now)
    {
      s := scanSeq;
      scans := scans[s := NewScan(w, now)];
      scanSeq := s + 1;
      AddResultRows(s);
      websites := websites[w := websites[w].(lastScanAt := Some(now))];
    }

    /** Step 4 of creation: one PENDING/NOT_RUN row of scan `s` per definition, in key order. */
    method AddResultRows(s: Id)
      modifies this
      ensures State() == AddResults(old(State()), s, old(definitionSeq))
    {
      var t := 0;
      while t < definitionSeq
        invariant 0 <= t <= definitionSeq
        invariant State() == AddResults(old(State()), s, t)
      {
        if t in definitions {
          results := results[resultSeq := NewScanResult(s, t)];
          resultSeq := resultSeq + 1;
        }
        t := t + 1;
      }
    }

    /** Step 1 of a unit: mark the row IN_PROGRESS and return its test's name. */
    method Begin(id: Id, now: Clock, commits: bool) returns (name: Option<string>)
      requires Valid()
      modifies this
      ensures Valid()
      ensures Lifecycle.Begin(old(State()), id, now, commits).None? ==> name == None && State() == old(State())
      ensures Lifecycle.Begin(old(State()), id, now, commits).Some? ==>
        name == Some(Lifecycle.Begin(old(State()), id, now, commits).value.1)
        && State() == Lifecycle.Begin(old(State()), id, now, commits).value.0
    {
      if id !in results || results[id].testDefinitionId !in definitions || !commits {
        return None;
      }
      var row := results[id];
      results := results[id := row.(status := InProgress, startedAt := Some(now))];
      name := Some(definitions[row.testDefinitionId].name);
      BeginKeepsRows(old(State()), id, now, commits);
      SameRowsValid(old(State()), State());
    }

    /** Step 3 of a unit: write the verdict into the row, if it is still there and the commit succeeds. */
    method Finish(id: Id, v: Verdict, now: Clock, commits: bool)
      requires Valid()
      modifies this
      ensures Valid()
      ensures State() == Lifecycle.Finish(old(State()), id, v, now, commits)
    {
      if id in results && commits {
        var row := results[id];
        results := results[id := row.(status := v.status, result := v.outcome,
                                      summary := Some(v.finding), details := Some(v.finding),
                                      recommendations := Recommendation(v), completedAt := Some(now))];
      }
      FinishKeepsRows(old(State()), id, v, now, commits);
      SameRowsValid(old(State()), State());
    }

    /** One unit: begin, classify, finish. */
    method RunSingleTest(id: Id, env: UnitEnv, now: Clock)
      requires Valid()
      modifies this
      ensures Valid()
      ensures State() == Lifecycle.RunSingleTest(old(State()), id, env, now)
    {
      var name := Begin(id, now, env.beginCommits);
      if name.Some? {
        var v := Classify(name.value, env.probe);
        Finish(id, v, now, env.finishCommits);
      }
    }

    /** Set the scan's status and completion time, if the scan exists. */
    method Mark(scanId: Id, status: TestStatus, now: Clock)
      requires Valid()
      modifies this
      ensures Valid()
      ensures State() == MarkScan(old(State()), scanId, status, now)
    {
      if scanId in scans {
        scans := scans[scanId := scans[scanId].(status := status, completedAt := Some(now))];
      }
      MarkScanKeepsRows(old(State()), scanId, status, now);
      SameRowsValid(old(State()), State());
    }

    /**
     * The background run of one scan: list its results, run every unit,
     * reload the results and mark the scan with their aggregate.
     */
    method RunAllTestsForScan(scanId: Id, fetch: IdFetch, env: Id -> UnitEnv, now: Clock)
      requires Valid()
      modifies this
      ensures Valid()
      ensures State() == RunAll(old(State()), scanId, fetch, env, now)
    {
      if fetch == FetchFailed {
        Mark(scanId, Error, now);
        return;
      }
      var ids := ResultIds(results, scanId, resultSeq);
      if ids == [] {
        if scanId in scans && scans[scanId].status == Pending {
          Mark(scanId, Completed, now);
        }
        return;
      }
      RunUnits(ids, env, now);
      if scanId !in scans {
        return;
      }
      var reloaded := ResultIds(results, scanId, resultSeq);
      var status := Aggregate(Statuses(results, reloaded), |ids|);
      Mark(scanId, status, now);
    }

    /** The fan-out: the unit of every listed result, one after the other. */
    method RunUnits(ids: seq<Id>, env: Id -> UnitEnv, now: Clock)
      requires Valid()
      modifies this
      ensures Valid()
      ensures State() == Lifecycle.RunUnits(old(State()), ids, env, now)
    {
      var i := 0;
      while i < |ids|
        invariant 0 <= i <= |ids|
        invariant Valid()
        invariant State() == Lifecycle.RunUnits(old(State()), ids[..i], env, now)
      {
        RunSingleTest(ids[i], env(ids[i]), now);
        assert ids[..i + 1][..i] == ids[..i];
        i := i + 1;
      }
      assert ids[..|ids|] == ids;
    }

    /** `GET /scans/{id}`: the scan with its results, or 404. */
    method GetScanStatus(scanId: Id) returns (r: Result<ScanView, ApiError>)
      ensures r.Failure? <==> scanId !in scans
      ensures r.Failure? ==> r.error == NotFound
      ensures r.Success? ==> r.value == View(State(), scanId)
    {
      if scanId !in scans {
        return Failure(NotFound);
      }
      r := Success(View(State(), scanId));
    }

    /**
     * `GET /scans/{id}/report`: 404 for an unknown scan, 400 with the current
     * status while it is PENDING or IN_PROGRESS, otherwise the scan's details.
     */
    method DownloadScanReport(scanId: Id) returns (r: Result<ScanView, ApiError>)
      ensures r == Failure(NotFound) <==> scanId !in scans
      ensures r.Success? <==> ReportReady(State(), scanId)
      ensures r.Failure? && scanId in scans ==> r.error == NotComplete(scans[scanId].status)
      ensures r.Success? ==> r.value == View(State(), scanId)
    {
      if scanId !in scans {
        return Failure(NotFound);
      }
      var status := scans[scanId].status;
      if status != Completed && status != Error {
        return Failure(NotComplete(status));
      }
      r := Success(View(State(), scanId));
    }
  }
}
