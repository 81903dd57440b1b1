/**
 * The scan life cycle of backend/main.py as functions over the store value:
 * catalog seeding, scan creation, the per-result state machine (begin,
 * classify, finish), the fan-out over a scan's results and the aggregation
 * of their statuses into the scan's status, and the read guards. Each
 * function is the specification an imperative method of Service.Backend is
 * proved against; the lemmas state what the source promises about them.
 */
module Lifecycle {
  import opened Wrappers
  import opened Models
  import opened Tables
  import opened Probes

  // ===========================================================================
  // Catalog seeding (populate_test_definitions)
  // ===========================================================================

  datatype Entry = Entry(name: string, description: string)

  /** The fixed list seeded at start-up, in order. */
  const Catalog: seq<Entry> := [
    Entry("Vulnerability Scanning", "General vulnerability checks (e.g., outdated software)."),
    Entry("Web Application Firewall (WAF) Testing", "Testing WAF detection and bypass."),
    Entry("Cross-Site Scripting (XSS) Testing", "Detecting XSS vulnerabilities."),
    Entry("SQL Injection Testing", "Detecting SQL Injection vulnerabilities."),
    Entry("Denial of Service (DoS) Testing", "Basic DoS resilience checks."),
    Entry("Directory Traversal", "Checking for directory traversal vulnerabilities."),
    Entry("API Security Testing", "Basic checks for common API vulnerabilities."),
    Entry("Session Management Testing", "Analyzing session handling security."),
    Entry("Cryptography and SSL/TLS Testing", "Checking SSL/TLS configuration and certificate validity."),
    Entry("Social Engineering Testing", "Placeholder for social engineering test info.")
  ]

  ghost function Names(definitions: map<Id, TestDefinition>): set<string> {
    set k | k in definitions :: definitions[k].name
  }

  ghost function EntryNames(es: seq<Entry>): set<string> {
    set i | 0 <= i < |es| :: es[i].name
  }

  /** One iteration of the seeding loop: insert the entry unless its name is taken. */
  function InsertIfAbsent(db: Db, e: Entry): (r: Db)
    ensures NameTaken(r.definitions, e.name)
    ensures NameTaken(db.definitions, e.name) ==> r == db
    ensures r.definitions.Keys <= db.definitions.Keys + {db.definitionSeq}
    ensures KeysBelow(db.definitions, db.definitionSeq) ==>
      && KeysBelow(r.definitions, r.definitionSeq)
      && forall k :: k in db.definitions ==> k in r.definitions && r.definitions[k] == db.definitions[k]
    ensures r == db.(definitions := r.definitions, definitionSeq := r.definitionSeq)
  {
    if NameTaken(db.definitions, e.name) then db
    else
      var r := db.(definitions := db.definitions[db.definitionSeq := TestDefinition(e.name, Some(e.description))],
                   definitionSeq := db.definitionSeq + 1);
      assert r.definitions[db.definitionSeq].name == e.name;
      r
  }

  /** The seeding loop over `es`, in order. */
  function Seed(db: Db, es: seq<Entry>): (r: Db)
    ensures r == db.(definitions := r.definitions, definitionSeq := r.definitionSeq)
    ensures KeysBelow(db.definitions, db.definitionSeq) ==>
      && KeysBelow(r.definitions, r.definitionSeq)
      && forall i :: 0 <= i < |es| ==> NameTaken(r.definitions, es[i].name)
    decreases |es|
  {
    if es == [] then db else InsertIfAbsent(Seed(db, es[..|es| - 1]), es[|es| - 1])
  }

  /** One more entry: seeding a prefix one longer is one more insertion. */
  lemma SeedStep(db: Db, es: seq<Entry>, i: nat)
    requires i < |es|
    ensures Seed(db, es[..i + 1]) == InsertIfAbsent(Seed(db, es[..i]), es[i])
  {
    assert es[..i + 1][..i] == es[..i];
  }

  lemma NamesInsert(definitions: map<Id, TestDefinition>, k: Id, d: TestDefinition)
    requires k !in definitions
    ensures Names(definitions[k := d]) == Names(definitions) + {d.name}
  {
    var after := definitions[k := d];
    forall n | n in Names(definitions)
      ensures n in Names(after)
    {
      var j :| j in definitions && definitions[j].name == n;
      assert after[j] == definitions[j];
    }
    assert after[k].name == d.name;
  }

  lemma NameTakenIff(definitions: map<Id, TestDefinition>, name: string)
    ensures NameTaken(definitions, name) <==> name in Names(definitions)
  {
    if name in Names(definitions) {
      var j :| j in definitions && definitions[j].name == name;
    }
  }

  /**
   * Seeding keeps the constraints, keeps every existing definition as it was,
   * touches no other table, and afterwards every listed name is present.
   */
  lemma {:induction false} SeedAddsMissingNames(db: Db, es: seq<Entry>)
    requires Valid(db)
    ensures var d := Seed(db, es);
      && Valid(d)
      && Names(d.definitions) == Names(db.definitions) + EntryNames(es)
      && (forall k :: k in db.definitions ==> k in d.definitions && d.definitions[k] == db.definitions[k])
      && d.websites == db.websites && d.scans == db.scans && d.results == db.results
    decreases |es|
  {
    if es != [] {
      var init := es[..|es| - 1];
      var e := es[|es| - 1];
      SeedAddsMissingNames(db, init);
      EntryNamesSnoc(es, init, e);
      InsertIfAbsentEffect(Seed(db, init), e);
    }
  }

  /** The names of a list are those of its prefix and of its last entry. */
  lemma EntryNamesSnoc(es: seq<Entry>, init: seq<Entry>, e: Entry)
    requires es == init + [e]
    ensures EntryNames(es) == EntryNames(init) + {e.name}
  {
    forall n | n in EntryNames(es)
      ensures n in EntryNames(init) + {e.name}
    {
      var i :| 0 <= i < |es| && es[i].name == n;
      if i < |init| { assert init[i] == es[i]; }
    }
    forall n | n in EntryNames(init)
      ensures n in EntryNames(es)
    {
      var i :| 0 <= i < |init| && init[i].name == n;
      assert es[i] == init[i];
    }
    assert es[|init|] == e;
  }

  /** One seeding step keeps the constraints and adds the entry's name, and nothing else. */
  lemma InsertIfAbsentEffect(db: Db, e: Entry)
    requires Valid(db)
    ensures var d := InsertIfAbsent(db, e);
      && Valid(d)
      && Names(d.definitions) == Names(db.definitions) + {e.name}
      && (forall k :: k in db.definitions ==> k in d.definitions && d.definitions[k] == db.definitions[k])
      && d.websites == db.websites && d.scans == db.scans && d.results == db.results
  {
    NameTakenIff(db.definitions, e.name);
    if !NameTaken(db.definitions, e.name) {
      NamesInsert(db.definitions, db.definitionSeq, TestDefinition(e.name, Some(e.description)));
    }
  }

  /** When every listed name is already present, seeding changes nothing. */
  lemma {:induction false} SeedUnchangedWhenAllPresent(db: Db, es: seq<Entry>)
    requires forall i :: 0 <= i < |es| ==> NameTaken(db.definitions, es[i].name)
    ensures Seed(db, es) == db
    decreases |es|
  {
    if es != [] {
      SeedUnchangedWhenAllPresent(db, es[..|es| - 1]);
    }
  }

  /** Seeding twice is seeding once: the second run inserts nothing, so no name is duplicated. */
  lemma SeedIdempotent(db: Db, es: seq<Entry>)
    requires Valid(db)
    ensures Seed(Seed(db, es), es) == Seed(db, es)
    ensures UniqueNames(Seed(Seed(db, es), es).definitions)
  {
    SeedAddsMissingNames(db, es);
    var d := Seed(db, es);
    forall i | 0 <= i < |es|
      ensures NameTaken(d.definitions, es[i].name)
    {
      assert es[i].name in EntryNames(es);
      NameTakenIff(d.definitions, es[i].name);
    }
    SeedUnchangedWhenAllPresent(d, es);
  }

  // ===========================================================================
  // Scan creation (start_scan)
  // ===========================================================================

  /** The one synchronous failure: an empty catalog (HTTP 500). */
  datatype StartError = NoTestDefinitions

  /** Step 1: the website with this URL, or a new row for it. */
  ghost function FindOrCreateWebsite(db: Db, url: string, now: Clock): (r: (Db, Id))
    ensures r.1 in r.0.websites && r.0.websites[r.1].url == url
    ensures r.0.definitions == db.definitions && r.0.definitionSeq == db.definitionSeq
    ensures r.0.scans == db.scans && r.0.scanSeq == db.scanSeq
    ensures r.0.results == db.results && r.0.resultSeq == db.resultSeq
  {
    if UrlTaken(db.websites, url) then
      var w :| w in db.websites && db.websites[w].url == url;
      (db, w)
    else
      (db.(websites := db.websites[db.websiteSeq := Website(url, now, None)], websiteSeq := db.websiteSeq + 1),
       db.websiteSeq)
  }

  /** Step 4: one PENDING/NOT_RUN result of `scanId` per definition with key below `n`, in key order. */
  function AddResults(db: Db, scanId: Id, n: nat): (r: Db)
    ensures r.websites == db.websites && r.websiteSeq == db.websiteSeq
    ensures r.definitions == db.definitions && r.definitionSeq == db.definitionSeq
    ensures r.scans == db.scans && r.scanSeq == db.scanSeq
    ensures r.resultSeq >= db.resultSeq
  {
    if n == 0 then db
    else
      var d := AddResults(db, scanId, n - 1);
      if n - 1 in d.definitions then
        d.(results := d.results[d.resultSeq := NewScanResult(scanId, n - 1)], resultSeq := d.resultSeq + 1)
      else d
  }

  /**
   * Steps 3 to 5 of creation, once the website `w` is known: a PENDING scan,
   * its results, and the website's `last_scan_at`.
   */
  function OpenScan(db: Db, w: Id, now: Clock): (r: (Db, Id))
    requires w in db.websites
    ensures r.1 == db.scanSeq && r.0.scanSeq == db.scanSeq + 1
    ensures r.0.scans == db.scans[r.1 := NewScan(w, now)]
    ensures r.0.websites.Keys == db.websites.Keys
    ensures r.0.websites[w] == db.websites[w].(lastScanAt := Some(now))
    ensures forall k :: k in db.websites && k != w ==> r.0.websites[k] == db.websites[k]
    ensures r.0.definitions == db.definitions
  {
    var s := db.scanSeq;
    var withScan := db.(scans := db.scans[s := NewScan(w, now)], scanSeq := s + 1);
    var withResults := AddResults(withScan, s, withScan.definitionSeq);
    (withResults.(websites := db.websites[w := db.websites[w].(lastScanAt := Some(now))]), s)
  }

  /**
   * The transaction. On failure nothing is committed, so the caller keeps
   * the store it had; on success the new store and the new scan's id.
   */
  ghost function StartScan(db: Db, url: string, now: Clock): (r: Result<(Db, Id), StartError>)
    ensures r.Failure? <==> db.definitions == map[]
  {
    var found := FindOrCreateWebsite(db, url, now);
    if found.0.definitions == map[] then Failure(NoTestDefinitions)
    else Success(OpenScan(found.0, found.1, now))
  }

  ghost function DefsBelow(definitions: map<Id, TestDefinition>, n: nat): set<Id> {
    set k | k in definitions && k < n
  }

  /** The keys of the rows `after` has and `before` does not. */
  ghost function Added(before: map<Id, ScanResult>, after: map<Id, ScanResult>): set<Id> {
    after.Keys - before.Keys
  }

  /** Every added row is a fresh PENDING/NOT_RUN result of scan `s` for a definition below `n`. */
  ghost predicate AddedArePending(db: Db, r: Db, s: Id, n: nat) {
    forall k :: k in Added(db.results, r.results) ==>
      && r.results[k] == NewScanResult(s, r.results[k].testDefinitionId)
      && r.results[k].testDefinitionId in db.definitions
      && r.results[k].testDefinitionId < n
  }

  /** Every definition below `n` has an added row. */
  ghost predicate AddedCover(db: Db, r: Db, n: nat) {
    forall t :: t in db.definitions && t < n ==>
      exists k :: k in Added(db.results, r.results) && r.results[k].testDefinitionId == t
  }

  /** No definition has two added rows. */
  ghost predicate AddedInjective(db: Db, r: Db) {
    forall k1, k2 ::
      (k1 in Added(db.results, r.results) && k2 in Added(db.results, r.results)
       && r.results[k1].testDefinitionId == r.results[k2].testDefinitionId) ==> k1 == k2
  }

  /** The creation loop only adds rows, and only at keys from the counter onwards. */
  lemma {:induction false} AddResultsKeepsRows(db: Db, s: Id, n: nat)
    requires KeysBelow(db.results, db.resultSeq)
    ensures var r := AddResults(db, s, n);
      && KeysBelow(r.results, r.resultSeq)
      && (forall k :: k in db.results ==> k in r.results && r.results[k] == db.results[k])
      && (forall k :: k in r.results && k !in db.results ==> db.resultSeq <= k)
  {
    if n > 0 {
      AddResultsKeepsRows(db, s, n - 1);
    }
  }

  /** One iteration of the creation loop adds at most one row, at the next key. */
  lemma AddResultsStep(db: Db, s: Id, m: nat, n: nat)
    requires KeysBelow(db.results, db.resultSeq) && n == m + 1
    ensures var d := AddResults(db, s, m);
      var r := AddResults(db, s, n);
      && KeysBelow(d.results, d.resultSeq)
      && d.resultSeq !in db.results
      && (m in db.definitions ==>
            && r.results == d.results[d.resultSeq := NewScanResult(s, m)]
            && Added(db.results, r.results) == Added(db.results, d.results) + {d.resultSeq}
            && d.resultSeq !in Added(db.results, d.results))
      && (m !in db.definitions ==> r == d)
  {
    AddResultsKeepsRows(db, s, m);
  }

  /** Every row AddResults inserts is a fresh PENDING/NOT_RUN result of the scan. */
  lemma {:induction false} AddResultsPending(db: Db, s: Id, n: nat)
    requires KeysBelow(db.results, db.resultSeq)
    ensures KeysBelow(AddResults(db, s, n).results, AddResults(db, s, n).resultSeq)
    ensures AddedArePending(db, AddResults(db, s, n), s, n)
    decreases n, 1
  {
    AddResultsKeepsRows(db, s, n);
    if n > 0 {
      AddResultsPendingAbove(db, s, n - 1, n);
    }
  }

  lemma {:induction false} AddResultsPendingAbove(db: Db, s: Id, m: nat, n: nat)
    requires KeysBelow(db.results, db.resultSeq) && n == m + 1
    ensures AddedArePending(db, AddResults(db, s, n), s, n)
    decreases n, 0
  {
    AddResultsPending(db, s, m);
    AddResultsStep(db, s, m, n);
    var d := AddResults(db, s, m);
    var r := AddResults(db, s, n);
    forall k | k in Added(db.results, r.results)
      ensures r.results[k] == NewScanResult(s, r.results[k].testDefinitionId)
      ensures r.results[k].testDefinitionId in db.definitions && r.results[k].testDefinitionId < n
    {
      if k != d.resultSeq || m !in db.definitions {
        assert k in Added(db.results, d.results);
      }
    }
  }

  /** Every definition below `n` gets a row. */
  lemma {:induction false} AddResultsCover(db: Db, s: Id, n: nat)
    requires KeysBelow(db.results, db.resultSeq)
    ensures AddedCover(db, AddResults(db, s, n), n)
    decreases n, 1
  {
    if n > 0 {
      AddResultsCoverAbove(db, s, n - 1, n);
    }
  }

  lemma {:induction false} AddResultsCoverAbove(db: Db, s: Id, m: nat, n: nat)
    requires KeysBelow(db.results, db.resultSeq) && n == m + 1
    ensures AddedCover(db, AddResults(db, s, n), n)
    decreases n, 0
  {
    AddResultsCover(db, s, m);
    AddResultsStep(db, s, m, n);
    var d := AddResults(db, s, m);
    var r := AddResults(db, s, n);
    forall t | t in db.definitions && t < n
      ensures exists k :: k in Added(db.results, r.results) && r.results[k].testDefinitionId == t
    {
      if t < m {
        var k :| k in Added(db.results, d.results) && d.results[k].testDefinitionId == t;
        if m in db.definitions {
          assert r.results[k] == d.results[k];
        }
        assert k in Added(db.results, r.results);
      } else {
        assert r.results[d.resultSeq].testDefinitionId == t;
      }
    }
  }

  /** No definition gets two rows. */
  lemma {:induction false} AddResultsInjective(db: Db, s: Id, n: nat)
    requires KeysBelow(db.results, db.resultSeq)
    ensures AddedInjective(db, AddResults(db, s, n))
    decreases n, 1
  {
    if n > 0 {
      AddResultsInjectiveAbove(db, s, n - 1, n);
    }
  }

  lemma {:induction false} AddResultsInjectiveAbove(db: Db, s: Id, m: nat, n: nat)
    requires KeysBelow(db.results, db.resultSeq) && n == m + 1
    ensures AddedInjective(db, AddResults(db, s, n))
    decreases n, 0
  {
    AddResultsInjective(db, s, m);
    AddResultsPending(db, s, m);
    AddResultsStep(db, s, m, n);
    var d := AddResults(db, s, m);
    var r := AddResults(db, s, n);
    if m in db.definitions {
      forall k | k in Added(db.results, d.results)
        ensures r.results[k] == d.results[k] && r.results[k].testDefinitionId < m
      {
      }
    }
  }

  lemma AddResultsStepCount(db: Db, s: Id, m: nat, n: nat)
    requires KeysBelow(db.results, db.resultSeq) && n == m + 1
    ensures var before := |Added(db.results, AddResults(db, s, m).results)|;
      var after := |Added(db.results, AddResults(db, s, n).results)|;
      && (m in db.definitions ==> after == before + 1)
      && (m !in db.definitions ==> after == before)
  {
    AddResultsStep(db, s, m, n);
    if m in db.definitions {
      var added := Added(db.results, AddResults(db, s, m).results);
      assert |added + {AddResults(db, s, m).resultSeq}| == |added| + 1;
    }
  }

  /** As many rows are inserted as there are definitions below `n`. */
  lemma {:induction false} AddResultsCount(db: Db, s: Id, n: nat)
    requires KeysBelow(db.results, db.resultSeq)
    ensures |Added(db.results, AddResults(db, s, n).results)| == |DefsBelow(db.definitions, n)|
    decreases n, 1
  {
    if n == 0 {
      AddResultsCountZero(db, s);
    } else {
      AddResultsCountAbove(db, s, n - 1, n);
    }
  }

  /** The inductive step of the count, from `m` to `n = m + 1`. */
  lemma {:induction false} AddResultsCountAbove(db: Db, s: Id, m: nat, n: nat)
    requires KeysBelow(db.results, db.resultSeq) && n == m + 1
    ensures |Added(db.results, AddResults(db, s, n).results)| == |DefsBelow(db.definitions, n)|
    decreases n, 0
  {
    AddResultsCount(db, s, m);
    AddResultsCountStep(db, s, m, n);
  }

  lemma AddResultsCountZero(db: Db, s: Id)
    ensures |Added(db.results, AddResults(db, s, 0).results)| == |DefsBelow(db.definitions, 0)|
  {
    DefsBelowZero(db.definitions);
    assert Added(db.results, db.results) == {};
  }

  lemma AddResultsCountStep(db: Db, s: Id, m: nat, n: nat)
    requires KeysBelow(db.results, db.resultSeq) && n == m + 1
    requires |Added(db.results, AddResults(db, s, m).results)| == |DefsBelow(db.definitions, m)|
    ensures |Added(db.results, AddResults(db, s, n).results)| == |DefsBelow(db.definitions, n)|
  {
    AddResultsStepCount(db, s, m, n);
    DefsBelowStep(db.definitions, m, n);
  }

  /** No definition lies below zero. */
  lemma DefsBelowZero(definitions: map<Id, TestDefinition>)
    ensures |DefsBelow(definitions, 0)| == 0
  {
    assert DefsBelow(definitions, 0) == {};
  }

  /** Raising the bound by one adds the key just below it, if it is a definition. */
  lemma DefsBelowStep(definitions: map<Id, TestDefinition>, m: nat, n: nat)
    requires n == m + 1
    ensures m in definitions ==> |DefsBelow(definitions, n)| == |DefsBelow(definitions, m)| + 1
    ensures m !in definitions ==> |DefsBelow(definitions, n)| == |DefsBelow(definitions, m)|
  {
    var before := DefsBelow(definitions, m);
    if m in definitions {
      assert DefsBelow(definitions, n) == before + {m};
    } else {
      assert DefsBelow(definitions, n) == before;
    }
  }

  /** With every definition key below the counter, the definitions below it are all of them. */
  lemma DefsBelowAll(definitions: map<Id, TestDefinition>, n: nat)
    requires KeysBelow(definitions, n)
    ensures |DefsBelow(definitions, n)| == |definitions|
  {
    assert DefsBelow(definitions, n) == definitions.Keys;
  }

  /**
   * The results of scan `s` are exactly one PENDING/NOT_RUN row per
   * definition: as many rows as definitions, every definition covered, no
   * definition twice.
   */
  ghost predicate OneFreshResultPerDefinition(results: map<Id, ScanResult>, s: Id, definitions: map<Id, TestDefinition>) {
    && |ResultsOf(results, s)| == |definitions|
    && (forall k :: k in ResultsOf(results, s) ==>
          && results[k] == NewScanResult(s, results[k].testDefinitionId)
          && results[k].testDefinitionId in definitions)
    && (forall t :: t in definitions ==>
          exists k :: k in ResultsOf(results, s) && results[k].testDefinitionId == t)
    && (forall k1, k2 ::
          (k1 in ResultsOf(results, s) && k2 in ResultsOf(results, s)
           && results[k1].testDefinitionId == results[k2].testDefinitionId) ==> k1 == k2)
  }

  /** Creating the rows of a scan that has none yet yields one fresh row per definition. */
  lemma AddResultsForNewScan(db: Db, s: Id)
    requires KeysBelow(db.results, db.resultSeq) && KeysBelow(db.definitions, db.definitionSeq)
    requires ResultsOf(db.results, s) == {}
    ensures var r := AddResults(db, s, db.definitionSeq);
      && ResultsOf(r.results, s) == Added(db.results, r.results)
      && OneFreshResultPerDefinition(r.results, s, db.definitions)
  {
    var r := AddResults(db, s, db.definitionSeq);
    AddResultsKeepsRows(db, s, db.definitionSeq);
    AddResultsPending(db, s, db.definitionSeq);
    AddResultsCover(db, s, db.definitionSeq);
    AddResultsInjective(db, s, db.definitionSeq);
    AddResultsCount(db, s, db.definitionSeq);
    NewScanOwnsAdded(db, r, s, db.definitionSeq);
    OneFreshFromAdded(db, r, s);
  }

  /** When scan `s` had no rows before, its rows afterwards are exactly the added ones. */
  lemma NewScanOwnsAdded(db: Db, r: Db, s: Id, n: nat)
    requires ResultsOf(db.results, s) == {}
    requires forall k :: k in db.results ==> k in r.results && r.results[k] == db.results[k]
    requires AddedArePending(db, r, s, n)
    ensures ResultsOf(r.results, s) == Added(db.results, r.results)
  {
    forall k | k in r.results && k !in Added(db.results, r.results)
      ensures r.results[k].scanId != s
    {
      assert k !in ResultsOf(db.results, s);
    }
  }

  /** The facts about the added rows, read as facts about scan `s`'s rows. */
  lemma OneFreshFromAdded(db: Db, r: Db, s: Id)
    requires KeysBelow(db.definitions, db.definitionSeq)
    requires ResultsOf(r.results, s) == Added(db.results, r.results)
    requires AddedArePending(db, r, s, db.definitionSeq)
    requires AddedCover(db, r, db.definitionSeq)
    requires AddedInjective(db, r)
    requires |Added(db.results, r.results)| == |DefsBelow(db.definitions, db.definitionSeq)|
    ensures OneFreshResultPerDefinition(r.results, s, db.definitions)
  {
    DefsBelowAll(db.definitions, db.definitionSeq);
  }

  /** What opening a scan does to the scans, websites and definitions. */
  lemma OpenScanTables(db: Db, w: Id, now: Clock, d: Db, s: Id)
    requires w in db.websites && KeysBelow(db.scans, db.scanSeq)
    requires OpenScan(db, w, now) == (d, s)
    ensures s == db.scanSeq && s !in db.scans
    ensures d.scans == db.scans[s := NewScan(w, now)] && d.scanSeq == s + 1
    ensures d.websites == db.websites[w := db.websites[w].(lastScanAt := Some(now))] && d.websiteSeq == db.websiteSeq
    ensures d.definitions == db.definitions && d.definitionSeq == db.definitionSeq
  {
  }

  /** What opening a scan does to the results: old rows kept, one fresh row per definition for the new scan. */
  lemma OpenScanResults(db: Db, w: Id, now: Clock, d: Db, s: Id)
    requires w in db.websites && KeysBelow(db.results, db.resultSeq) && KeysBelow(db.definitions, db.definitionSeq)
    requires KeysBelow(db.scans, db.scanSeq) && ResultsReferenceRows(db)
    requires OpenScan(db, w, now) == (d, s)
    ensures KeysBelow(d.results, d.resultSeq)
    ensures forall k :: k in db.results ==> k in d.results && d.results[k] == db.results[k]
    ensures ResultsOf(d.results, s) == d.results.Keys - db.results.Keys
    ensures OneFreshResultPerDefinition(d.results, s, db.definitions)
  {
    var withScan := db.(scans := db.scans[s := NewScan(w, now)], scanSeq := s + 1);
    var r := AddResults(withScan, s, withScan.definitionSeq);
    assert d.results == r.results && d.resultSeq == r.resultSeq;
    NextScanHasNoResults(db);
    AddResultsForNewScan(withScan, s);
    AddResultsKeepsRows(withScan, s, withScan.definitionSeq);
  }

  /** No result refers to the scan key the counter hands out next. */
  lemma NextScanHasNoResults(db: Db)
    requires KeysBelow(db.scans, db.scanSeq) && ResultsReferenceRows(db)
    ensures ResultsOf(db.results, db.scanSeq) == {}
  {
    forall k | k in db.results
      ensures db.results[k].scanId != db.scanSeq
    {
    }
  }

  /**
   * Step 1: the website is the existing row for the URL, or exactly one new
   * row for it; no other website changes.
   */
  lemma FindOrCreateWebsiteEffect(db: Db, url: string, now: Clock)
    requires Valid(db)
    ensures var (d, w) := FindOrCreateWebsite(db, url, now);
      && UniqueUrls(d.websites) && KeysBelow(d.websites, d.websiteSeq)
      && (UrlTaken(db.websites, url) ==> w in db.websites && d.websites == db.websites)
      && (!UrlTaken(db.websites, url) ==>
            && w !in db.websites && d.websites == db.websites[w := Website(url, now, None)])
  {
  }

  /** Step 1 when a website already has the URL: that row, which the unique URL makes the only candidate. */
  lemma FindExistingWebsite(db: Db, url: string, now: Clock, w: Id)
    requires UniqueUrls(db.websites) && w in db.websites && db.websites[w].url == url
    ensures FindOrCreateWebsite(db, url, now) == (db, w)
  {
  }

  /** Step 1 when no website has the URL: a new row at the next key. */
  lemma FindNewWebsite(db: Db, url: string, now: Clock)
    requires !UrlTaken(db.websites, url)
    ensures FindOrCreateWebsite(db, url, now) ==
      (db.(websites := db.websites[db.websiteSeq := Website(url, now, None)], websiteSeq := db.websiteSeq + 1),
       db.websiteSeq)
  {
  }

  /** With a non-empty catalog, creation opens the scan on the website step 1 found. */
  lemma StartScanOpens(db: Db, url: string, now: Clock, found: Db, w: Id)
    requires FindOrCreateWebsite(db, url, now) == (found, w) && db.definitions != map[]
    ensures w in found.websites
    ensures StartScan(db, url, now) == Success(OpenScan(found, w, now))
  {
  }

  /** A successful creation is step 1 followed by opening the scan on its website. */
  lemma StartScanSteps(db: Db, url: string, now: Clock, d: Db, s: Id)
    requires StartScan(db, url, now) == Success((d, s))
    ensures FindOrCreateWebsite(db, url, now).1 in FindOrCreateWebsite(db, url, now).0.websites
    ensures OpenScan(FindOrCreateWebsite(db, url, now).0, FindOrCreateWebsite(db, url, now).1, now) == (d, s)
  {
  }

  /** Step 1 keeps the schema's constraints. */
  lemma FindOrCreateWebsiteValid(db: Db, url: string, now: Clock)
    requires Valid(db)
    ensures Valid(FindOrCreateWebsite(db, url, now).0)
  {
    FindOrCreateWebsiteEffect(db, url, now);
  }

  /** Opening a scan on an existing website keeps the schema's constraints. */
  lemma OpenScanValid(db: Db, w: Id, now: Clock, d: Db, s: Id)
    requires Valid(db) && w in db.websites && OpenScan(db, w, now) == (d, s)
    ensures Valid(d)
  {
    OpenScanTables(db, w, now, d, s);
    OpenScanResultsValid(db, w, now, d, s);
    StampKeepsUniqueUrls(db.websites, w, now);
    NewScanKeepsReferences(db, d, w, s, now);
  }

  /** The results table's part of the constraints after opening a scan. */
  lemma OpenScanResultsValid(db: Db, w: Id, now: Clock, d: Db, s: Id)
    requires w in db.websites && KeysBelow(db.results, db.resultSeq) && KeysBelow(db.definitions, db.definitionSeq)
    requires KeysBelow(db.scans, db.scanSeq) && ResultsReferenceRows(db)
    requires OpenScan(db, w, now) == (d, s)
    ensures KeysBelow(d.results, d.resultSeq) && ResultsReferenceRows(d)
  {
    OpenScanTables(db, w, now, d, s);
    OpenScanResults(db, w, now, d, s);
    OpenScanReferences(db, d, s);
  }

  /** Stamping `last_scan_at` leaves every URL where it was. */
  lemma StampKeepsUniqueUrls(websites: map<Id, Website>, w: Id, now: Clock)
    requires UniqueUrls(websites) && w in websites
    ensures UniqueUrls(websites[w := websites[w].(lastScanAt := Some(now))])
  {
  }

  /** The new scan refers to an existing website, and so do the old ones. */
  lemma NewScanKeepsReferences(db: Db, d: Db, w: Id, s: Id, now: Clock)
    requires ScansReferenceWebsites(db) && w in db.websites
    requires d.scans == db.scans[s := NewScan(w, now)]
    requires d.websites.Keys == db.websites.Keys
    ensures ScansReferenceWebsites(d)
  {
  }

  /** The references of the rows opening a scan adds. */
  lemma OpenScanReferences(db: Db, d: Db, s: Id)
    requires ResultsReferenceRows(db)
    requires d.scans.Keys == db.scans.Keys + {s} && d.definitions == db.definitions
    requires forall k :: k in db.results ==> k in d.results && d.results[k] == db.results[k]
    requires ResultsOf(d.results, s) == d.results.Keys - db.results.Keys
    requires OneFreshResultPerDefinition(d.results, s, db.definitions)
    ensures ResultsReferenceRows(d)
  {
    forall k | k in d.results
      ensures d.results[k].scanId in d.scans && d.results[k].testDefinitionId in d.definitions
    {
      if k !in db.results {
        assert k in ResultsOf(d.results, s);
      }
    }
  }

  /** A successful creation keeps the schema's constraints. */
  lemma StartScanPreservesValid(db: Db, url: string, now: Clock, d: Db, s: Id)
    requires Valid(db) && StartScan(db, url, now) == Success((d, s))
    ensures Valid(d)
  {
    var found := FindOrCreateWebsite(db, url, now);
    StartScanSteps(db, url, now, d, s);
    FindOrCreateWebsiteValid(db, url, now);
    OpenScanValid(found.0, found.1, now, d, s);
  }

  /**
   * Steps 1 and 5: the scan's website is the existing row for the URL, or
   * exactly one new one; its `last_scan_at` is stamped and no other website
   * changes.
   */
  lemma StartScanWebsite(db: Db, url: string, now: Clock, d: Db, s: Id)
    requires Valid(db) && StartScan(db, url, now) == Success((d, s))
    ensures s in d.scans
    ensures var w := d.scans[s].websiteId;
      && w in d.websites && d.websites[w].url == url && d.websites[w].lastScanAt == Some(now)
      && (UrlTaken(db.websites, url) ==>
            && w in db.websites && d.websites.Keys == db.websites.Keys
            && d.websites[w] == db.websites[w].(lastScanAt := Some(now)))
      && (!UrlTaken(db.websites, url) ==>
            && w !in db.websites && d.websites.Keys == db.websites.Keys + {w}
            && d.websites[w] == Website(url, now, Some(now)))
      && (forall k :: k in db.websites && k != w ==> d.websites[k] == db.websites[k])
  {
    var found := FindOrCreateWebsite(db, url, now);
    StartScanSteps(db, url, now, d, s);
    FindOrCreateWebsiteEffect(db, url, now);
    OpenScanTables(found.0, found.1, now, d, s);
  }

  /** Step 3: exactly one new scan, PENDING and not completed; no other scan changes. */
  lemma StartScanCreatesScan(db: Db, url: string, now: Clock, d: Db, s: Id)
    requires Valid(db) && StartScan(db, url, now) == Success((d, s))
    ensures s !in db.scans
    ensures d.scans.Keys == db.scans.Keys + {s}
    ensures forall k :: k in db.scans ==> d.scans[k] == db.scans[k]
    ensures d.scans[s].status == Pending && d.scans[s].completedAt == None && d.scans[s].createdAt == now
      && d.definitions == db.definitions
  {
    var found := FindOrCreateWebsite(db, url, now);
    StartScanSteps(db, url, now, d, s);
    FindOrCreateWebsiteEffect(db, url, now);
    OpenScanTables(found.0, found.1, now, d, s);
  }

  /**
   * Step 4: the new scan's results are exactly one fresh PENDING/NOT_RUN row
   * per definition; older results are untouched.
   */
  lemma StartScanCreatesResults(db: Db, url: string, now: Clock, d: Db, s: Id)
    requires Valid(db) && StartScan(db, url, now) == Success((d, s))
    ensures forall k :: k in db.results ==> k in d.results && d.results[k] == db.results[k]
    ensures ResultsOf(d.results, s) == d.results.Keys - db.results.Keys
    ensures OneFreshResultPerDefinition(d.results, s, db.definitions)
  {
    var found := FindOrCreateWebsite(db, url, now);
    StartScanSteps(db, url, now, d, s);
    FindOrCreateWebsiteEffect(db, url, now);
    OpenScanResults(found.0, found.1, now, d, s);
  }

  // ===========================================================================
  // One result's life cycle (run_single_test)
  // ===========================================================================

  /**
   * Step 1: load the row with its definition and mark it IN_PROGRESS. A
   * missing row or definition, or a failed commit, aborts the unit with the
   * store unchanged; otherwise the new store and the test's name.
   */
  function Begin(db: Db, id: Id, now: Clock, commits: bool): (r: Option<(Db, string)>)
    ensures r.Some? <==> id in db.results && db.results[id].testDefinitionId in db.definitions && commits
    ensures r.Some? ==>
      && id in db.results && db.results[id].testDefinitionId in db.definitions
      && r.value.0 == db.(results := r.value.0.results) && r.value.0.results.Keys == db.results.Keys
      && r.value.0.results[id] == db.results[id].(status := InProgress, startedAt := Some(now))
      && (forall k :: k in db.results && k != id ==> r.value.0.results[k] == db.results[k])
      && r.value.1 == db.definitions[db.results[id].testDefinitionId].name
  {
    if id !in db.results || db.results[id].testDefinitionId !in db.definitions || !commits then None
    else
      var row := db.results[id];
      Some((db.(results := db.results[id := row.(status := InProgress, startedAt := Some(now))]),
            db.definitions[row.testDefinitionId].name))
  }

  /** The recommendations column: left empty when the check crashed. */
  function Recommendation(v: Verdict): Option<Finding> {
    if v.finding == Crashed then None else Some(v.finding)
  }

  /**
   * Step 3: reload the row and write the terminal columns. A vanished row or
   * a failed commit leaves the store unchanged.
   */
  function Finish(db: Db, id: Id, v: Verdict, now: Clock, commits: bool): (r: Db)
    ensures r == db.(results := r.results) && r.results.Keys == db.results.Keys
    ensures forall k :: k in db.results && k != id ==> r.results[k] == db.results[k]
    ensures id in db.results && commits ==>
      r.results[id] == db.results[id].(status := v.status, result := v.outcome,
                                       summary := Some(v.finding), details := Some(v.finding),
                                       recommendations := Recommendation(v), completedAt := Some(now))
    ensures !(id in db.results && commits) ==> r == db
  {
    if id in db.results && commits then
      var row := db.results[id];
      db.(results := db.results[id := row.(status := v.status, result := v.outcome,
                                            summary := Some(v.finding), details := Some(v.finding),
                                            recommendations := Recommendation(v), completedAt := Some(now))])
    else db
  }

  /** What the outside world does during one unit: whether each commit succeeds, and the probe's inputs. */
  datatype UnitEnv = UnitEnv(beginCommits: bool, probe: ProbeEnv, finishCommits: bool)

  /** Marking a row IN_PROGRESS changes only status-like columns. */
  lemma BeginKeepsRows(db: Db, id: Id, now: Clock, commits: bool)
    ensures Begin(db, id, now, commits).Some? ==>
      SameRows(db, Begin(db, id, now, commits).value.0) && Begin(db, id, now, commits).value.0.scans == db.scans
  {
  }

  /** Writing a verdict changes only status-like columns. */
  lemma FinishKeepsRows(db: Db, id: Id, v: Verdict, now: Clock, commits: bool)
    ensures SameRows(db, Finish(db, id, v, now, commits)) && Finish(db, id, v, now, commits).scans == db.scans
  {
  }

  /** One unit: begin, classify, finish. */
  function RunSingleTest(db: Db, id: Id, env: UnitEnv, now: Clock): (r: Db)
    ensures r == db.(results := r.results) && r.results.Keys == db.results.Keys
    ensures forall k :: k in db.results && k != id ==> r.results[k] == db.results[k]
    ensures id in db.results && r.results[id] != db.results[id] ==>
      && db.results[id].testDefinitionId in db.definitions && env.beginCommits
      && r.results[id].startedAt == Some(now)
  {
    match Begin(db, id, now, env.beginCommits)
    case None => db
    case Some((begun, name)) => Finish(begun, id, Classify(name, env.probe), now, env.finishCommits)
  }

  /** A unit changes its own row's status-like columns and nothing else. */
  lemma RunSingleTestFrame(db: Db, id: Id, env: UnitEnv, now: Clock)
    ensures var d := RunSingleTest(db, id, env, now);
      && SameRows(db, d) && d.scans == db.scans
      && (forall k :: k in db.results && k != id ==> d.results[k] == db.results[k])
  {
  }

  /**
   * The life of one row. Without its row and definition, or when the first
   * commit fails, nothing changes; when only the last commit fails the row
   * stays IN_PROGRESS; otherwise it ends COMPLETED or ERROR (never
   * IN_PROGRESS) with the verdict classification computes.
   */
  lemma RunSingleTestOutcome(db: Db, id: Id, env: UnitEnv, now: Clock)
    requires id in db.results
    ensures var d := RunSingleTest(db, id, env, now);
      var row := db.results[id];
      if !(row.testDefinitionId in db.definitions && env.beginCommits) then d == db
      else if !env.finishCommits then d.results[id] == row.(status := InProgress, startedAt := Some(now))
      else
        var v := Classify(db.definitions[row.testDefinitionId].name, env.probe);
        && d.results[id].status == v.status && d.results[id].result == v.outcome
        && (d.results[id].status == Completed || d.results[id].status == Error)
        && d.results[id].startedAt == Some(now) && d.results[id].completedAt == Some(now)
  {
  }

  /** A unit's effect on its row depends only on that row and the definitions. */
  lemma RunSingleTestLocal(a: Db, b: Db, id: Id, env: UnitEnv, now: Clock)
    requires a.definitions == b.definitions
    requires id in a.results && id in b.results && a.results[id] == b.results[id]
    ensures RunSingleTest(a, id, env, now).results[id] == RunSingleTest(b, id, env, now).results[id]
  {
  }

  // ===========================================================================
  // Fan-out and aggregation (run_all_tests_for_scan)
  // ===========================================================================

  /** Runs the unit of every id in `ids`, in order. */
  function RunUnits(db: Db, ids: seq<Id>, env: Id -> UnitEnv, now: Clock): (r: Db)
    ensures r == db.(results := r.results) && r.results.Keys == db.results.Keys
    ensures forall k :: k in db.results && k !in ids ==> r.results[k] == db.results[k]
    decreases |ids|
  {
    if ids == [] then db
    else
      var last := ids[|ids| - 1];
      RunSingleTest(RunUnits(db, ids[..|ids| - 1], env, now), last, env(last), now)
  }

  ghost predicate Distinct(ids: seq<Id>) {
    forall i, j :: 0 <= i < j < |ids| ==> ids[i] != ids[j]
  }

  /**
   * The units touch disjoint rows: after running them all, each listed row
   * is what its own unit would have made of it alone, and every other row is
   * unchanged. So the order, or interleaving, of the units does not matter.
   */
  lemma {:induction false} RunUnitsPointwise(db: Db, ids: seq<Id>, env: Id -> UnitEnv, now: Clock)
    requires Distinct(ids)
    ensures UnitsApplied(db, RunUnits(db, ids, env, now), ids, env, now)
    decreases |ids|, 1
  {
    if ids != [] {
      RunUnitsPointwiseAbove(db, ids[..|ids| - 1], ids[|ids| - 1], ids, env, now);
    }
  }

  /**
   * `d` is `db` after the units of `ids`: only status-like columns changed,
   * each listed row is what its own unit makes of it, the others are as
   * they were.
   */
  ghost predicate UnitsApplied(db: Db, d: Db, ids: seq<Id>, env: Id -> UnitEnv, now: Clock) {
    && SameRows(db, d) && d.scans == db.scans
    && forall k :: k in db.results ==>
         d.results[k] == if k in ids then RunSingleTest(db, k, env(k), now).results[k] else db.results[k]
  }

  lemma {:induction false} RunUnitsPointwiseAbove(db: Db, init: seq<Id>, last: Id, ids: seq<Id>,
                                                  env: Id -> UnitEnv, now: Clock)
    requires Distinct(ids) && ids == init + [last]
    ensures UnitsApplied(db, RunUnits(db, ids, env, now), ids, env, now)
    decreases |ids|, 0
  {
    assert ids[..|ids| - 1] == init;
    assert Distinct(init) && last !in init by {
      assert forall i :: 0 <= i < |init| ==> init[i] == ids[i];
      assert last == ids[|init|];
    }
    RunUnitsPointwise(db, init, env, now);
    UnitsAppliedStep(db, RunUnits(db, init, env, now), init, last, ids, env, now);
  }

  /** One more unit, on a row no earlier unit touched. */
  lemma UnitsAppliedStep(db: Db, p: Db, init: seq<Id>, last: Id, ids: seq<Id>, env: Id -> UnitEnv, now: Clock)
    requires UnitsApplied(db, p, init, env, now) && ids == init + [last] && last !in init
    ensures UnitsApplied(db, RunSingleTest(p, last, env(last), now), ids, env, now)
  {
    var d := RunSingleTest(p, last, env(last), now);
    RunSingleTestFrame(p, last, env(last), now);
    SameRowsTransitive(db, p, d);
    if last in db.results {
      RunSingleTestLocal(p, db, last, env(last), now);
    }
    forall k | k in db.results
      ensures (k in ids) == (k in init || k == last)
    {
    }
  }

  /** Running the same units in any order yields the same store. */
  lemma RunUnitsOrderIndependent(db: Db, ids1: seq<Id>, ids2: seq<Id>, env: Id -> UnitEnv, now: Clock)
    requires Distinct(ids1) && Distinct(ids2)
    requires forall k :: k in ids1 <==> k in ids2
    ensures RunUnits(db, ids1, env, now) == RunUnits(db, ids2, env, now)
  {
    RunUnitsPointwise(db, ids1, env, now);
    RunUnitsPointwise(db, ids2, env, now);
    var d1 := RunUnits(db, ids1, env, now);
    var d2 := RunUnits(db, ids2, env, now);
    assert d1.results == d2.results;
  }

  /** The statuses of the listed rows, in order. */
  function Statuses(results: map<Id, ScanResult>, ids: seq<Id>): seq<TestStatus>
    requires forall i :: 0 <= i < |ids| ==> ids[i] in results
  {
    seq(|ids|, i requires 0 <= i < |ids| => results[ids[i]].status)
  }

  /**
   * The aggregation rule: ERROR if any result is ERROR, if the reloaded count
   * differs from the launched count, or if any result is not COMPLETED;
   * otherwise COMPLETED.
   */
  function Overall(statuses: seq<TestStatus>, launched: nat): (r: TestStatus)
    ensures r == Completed || r == Error
    ensures r == Completed <==> |statuses| == launched && forall i :: 0 <= i < |statuses| ==> statuses[i] == Completed
  {
    if (exists i :: 0 <= i < |statuses| && statuses[i] == Error)
       || |statuses| != launched
       || (exists i :: 0 <= i < |statuses| && statuses[i] != Completed)
    then Error
    else Completed
  }

  /** The overall status does not depend on the order the results are loaded in. */
  lemma OverallIgnoresOrder(a: seq<TestStatus>, b: seq<TestStatus>, launched: nat)
    requires multiset(a) == multiset(b)
    ensures Overall(a, launched) == Overall(b, launched)
  {
    assert |a| == |multiset(a)| == |multiset(b)| == |b|;
    if forall i :: 0 <= i < |a| ==> a[i] == Completed {
      forall j | 0 <= j < |b|
        ensures b[j] == Completed
      {
        assert b[j] in multiset(b);
        var i :| 0 <= i < |a| && a[i] == b[j];
      }
    }
    if forall j :: 0 <= j < |b| ==> b[j] == Completed {
      forall i | 0 <= i < |a|
        ensures a[i] == Completed
      {
        assert a[i] in multiset(a);
        var j :| 0 <= j < |b| && b[j] == a[i];
      }
    }
  }

  /** The id fetch before fan-out either succeeds or raises. */
  datatype IdFetch = Fetched | FetchFailed

  /** Set a scan's status and `completed_at`, if the scan exists. */
  function MarkScan(db: Db, scanId: Id, status: TestStatus, now: Clock): (r: Db)
    ensures r == db.(scans := r.scans) && r.scans.Keys == db.scans.Keys
    ensures scanId in db.scans ==>
      r.scans[scanId] == db.scans[scanId].(status := status, completedAt := Some(now))
    ensures forall k :: k in db.scans && k != scanId ==> r.scans[k] == db.scans[k]
  {
    if scanId in db.scans then
      db.(scans := db.scans[scanId := db.scans[scanId].(status := status, completedAt := Some(now))])
    else db
  }

  /** Marking a scan changes only its status and completion time. */
  lemma MarkScanKeepsRows(db: Db, scanId: Id, status: TestStatus, now: Clock)
    ensures var d := MarkScan(db, scanId, status, now);
      && SameRows(db, d) && d.results == db.results
      && (scanId in db.scans ==> d.scans[scanId].status == status && d.scans[scanId].completedAt == Some(now))
  {
  }

  /** The whole background run of one scan. */
  function RunAll(db: Db, scanId: Id, fetch: IdFetch, env: Id -> UnitEnv, now: Clock): (r: Db)
    ensures r.websites == db.websites && r.definitions == db.definitions
    ensures r.scans.Keys == db.scans.Keys && r.results.Keys == db.results.Keys
    ensures forall k :: k in db.scans && k != scanId ==> r.scans[k] == db.scans[k]
    ensures fetch == FetchFailed ==> r.results == db.results
    ensures forall k :: k in db.results && db.results[k].scanId != scanId ==> r.results[k] == db.results[k]
  {
    if fetch == FetchFailed then MarkScan(db, scanId, Error, now)
    else
      var ids := ResultIds(db.results, scanId, db.resultSeq);
      if ids == [] then
        if scanId in db.scans && db.scans[scanId].status == Pending then MarkScan(db, scanId, Completed, now) else db
      else
        var d := RunUnits(db, ids, env, now);
        if scanId !in d.scans then d
        else
          var reloaded := ResultIds(d.results, scanId, d.resultSeq);
          MarkScan(d, scanId, Overall(Statuses(d.results, reloaded), |ids|), now)
  }

  /** A failed id fetch marks the scan ERROR and touches no result. */
  lemma RunAllFetchFailed(db: Db, scanId: Id, env: Id -> UnitEnv, now: Clock)
    ensures var d := RunAll(db, scanId, FetchFailed, env, now);
      && d.results == db.results
      && (scanId in db.scans ==> d.scans[scanId].status == Error && d.scans[scanId].completedAt == Some(now))
      && SameRows(db, d)
  {
  }

  /** With no results to run, a still-PENDING scan becomes COMPLETED and any other store is left alone. */
  lemma RunAllNoResults(db: Db, scanId: Id, env: Id -> UnitEnv, now: Clock)
    requires KeysBelow(db.results, db.resultSeq)
    requires ResultsOf(db.results, scanId) == {}
    ensures var d := RunAll(db, scanId, Fetched, env, now);
      && d.results == db.results
      && (scanId in db.scans && db.scans[scanId].status == Pending ==>
            scanId in d.scans && d.scans[scanId].status == Completed && d.scans[scanId].completedAt == Some(now))
      && (!(scanId in db.scans && db.scans[scanId].status == Pending) ==> d == db)
  {
    ResultIdsEmptyIff(db.results, scanId, db.resultSeq);
  }

  /** All launched units COMPLETED is exactly what the aggregation rule calls COMPLETED. */
  lemma OverallOfListed(results: map<Id, ScanResult>, ids: seq<Id>)
    requires forall i :: 0 <= i < |ids| ==> ids[i] in results
    ensures Overall(Statuses(results, ids), |ids|) == Completed <==>
      forall k :: k in ids ==> results[k].status == Completed
  {
    var st := Statuses(results, ids);
    if Overall(st, |ids|) == Completed {
      forall k | k in ids
        ensures results[k].status == Completed
      {
        var i :| 0 <= i < |ids| && ids[i] == k;
        assert st[i] == Completed;
      }
    } else {
      var i :| 0 <= i < |ids| && st[i] != Completed;
      assert ids[i] in ids;
    }
  }

  /** With results to run, the run is the units followed by marking the scan with the aggregate of the reloaded rows. */
  lemma RunAllShape(db: Db, scanId: Id, env: Id -> UnitEnv, now: Clock, d: Db)
    requires scanId in db.scans
    requires ResultIds(db.results, scanId, db.resultSeq) != []
    requires d == RunAll(db, scanId, Fetched, env, now)
    ensures var ids := ResultIds(db.results, scanId, db.resultSeq);
      var p := RunUnits(db, ids, env, now);
      && SameRows(db, p) && p.scans == db.scans
      && (forall k :: k in db.results ==>
            p.results[k] == if k in ids then RunSingleTest(db, k, env(k), now).results[k] else db.results[k])
      && d == MarkScan(p, scanId, Overall(Statuses(p.results, ids), |ids|), now)
  {
    var ids := ResultIds(db.results, scanId, db.resultSeq);
    RunUnitsPointwise(db, ids, env, now);
    var p := RunUnits(db, ids, env, now);
    ResultIdsSameRows(db.results, p.results, scanId, db.resultSeq);
  }

  /**
   * With results to run, each listed result ends as its own unit leaves it,
   * and the scan ends COMPLETED exactly when every unit left its row
   * COMPLETED, and ERROR otherwise.
   */
  lemma RunAllAggregates(db: Db, scanId: Id, env: Id -> UnitEnv, now: Clock, d: Db)
    requires scanId in db.scans
    requires ResultIds(db.results, scanId, db.resultSeq) != []
    requires d == RunAll(db, scanId, Fetched, env, now)
    ensures SameRows(db, d)
    ensures forall k :: k in db.results ==>
      d.results[k] == if k in ResultIds(db.results, scanId, db.resultSeq)
                      then RunSingleTest(db, k, env(k), now).results[k] else db.results[k]
    ensures d.scans[scanId].status == Completed || d.scans[scanId].status == Error
    ensures d.scans[scanId].status == Completed <==>
      forall k :: k in ResultIds(db.results, scanId, db.resultSeq) ==>
        RunSingleTest(db, k, env(k), now).results[k].status == Completed
    ensures d.scans[scanId].completedAt == Some(now)
  {
    var ids := ResultIds(db.results, scanId, db.resultSeq);
    RunAllShape(db, scanId, env, now, d);
    MarkAggregate(db, RunUnits(db, ids, env, now), d, scanId, ids, env, now);
  }

  /** Marking the scan with the aggregate of units that ran on disjoint rows. */
  lemma MarkAggregate(db: Db, p: Db, d: Db, scanId: Id, ids: seq<Id>, env: Id -> UnitEnv, now: Clock)
    requires scanId in db.scans
    requires forall i :: 0 <= i < |ids| ==> ids[i] in db.results
    requires SameRows(db, p) && p.scans == db.scans
    requires forall k :: k in db.results ==>
      p.results[k] == if k in ids then RunSingleTest(db, k, env(k), now).results[k] else db.results[k]
    requires d == MarkScan(p, scanId, Overall(Statuses(p.results, ids), |ids|), now)
    ensures SameRows(db, d)
    ensures forall k :: k in db.results ==>
      d.results[k] == if k in ids then RunSingleTest(db, k, env(k), now).results[k] else db.results[k]
    ensures d.scans[scanId].status == Completed || d.scans[scanId].status == Error
    ensures d.scans[scanId].status == Completed <==>
      forall k :: k in ids ==> RunSingleTest(db, k, env(k), now).results[k].status == Completed
    ensures d.scans[scanId].completedAt == Some(now)
  {
    OverallOfListed(p.results, ids);
    SameRowsTransitive(db, p, d);
    assert forall k :: k in ids ==> k in db.results;
  }

  /** A run changes only status-like columns. */
  lemma RunAllKeepsRows(db: Db, scanId: Id, fetch: IdFetch, env: Id -> UnitEnv, now: Clock)
    ensures SameRows(db, RunAll(db, scanId, fetch, env, now))
  {
    var ids := ResultIds(db.results, scanId, db.resultSeq);
    if fetch == FetchFailed {
      MarkScanKeepsRows(db, scanId, Error, now);
    } else if ids == [] {
      MarkScanKeepsRows(db, scanId, Completed, now);
    } else {
      RunUnitsPointwise(db, ids, env, now);
      var p := RunUnits(db, ids, env, now);
      var status := Overall(Statuses(p.results, ResultIds(p.results, scanId, p.resultSeq)), |ids|);
      MarkScanKeepsRows(p, scanId, status, now);
      SameRowsTransitive(db, p, MarkScan(p, scanId, status, now));
    }
  }

  /** Every run keeps the schema's constraints. */
  lemma RunAllPreservesValid(db: Db, scanId: Id, fetch: IdFetch, env: Id -> UnitEnv, now: Clock)
    requires Valid(db)
    ensures Valid(RunAll(db, scanId, fetch, env, now))
  {
    RunAllKeepsRows(db, scanId, fetch, env, now);
    SameRowsValid(db, RunAll(db, scanId, fetch, env, now));
  }

  // ===========================================================================
  // FAILED is declared but never written
  // ===========================================================================

  /** No scan and no result is in the FAILED state. */
  ghost predicate NoFailed(db: Db) {
    && (forall k :: k in db.scans ==> db.scans[k].status != Failed)
    && (forall k :: k in db.results ==> db.results[k].status != Failed)
  }

  /** Creation writes only PENDING rows, so it never introduces FAILED. */
  lemma StartScanNeverFails(db: Db, url: string, now: Clock, d: Db, s: Id)
    requires Valid(db) && NoFailed(db) && StartScan(db, url, now) == Success((d, s))
    ensures NoFailed(d)
  {
    StartScanCreatesScan(db, url, now, d, s);
    StartScanCreatesResults(db, url, now, d, s);
    PendingRowsKeepNoFailed(db, d, s);
  }

  lemma PendingRowsKeepNoFailed(db: Db, d: Db, s: Id)
    requires NoFailed(db)
    requires d.scans.Keys == db.scans.Keys + {s}
    requires forall k :: k in db.scans ==> d.scans[k] == db.scans[k]
    requires s in d.scans && d.scans[s].status == Pending
    requires forall k :: k in db.results ==> k in d.results && d.results[k] == db.results[k]
    requires ResultsOf(d.results, s) == d.results.Keys - db.results.Keys
    requires forall k :: k in ResultsOf(d.results, s) ==> d.results[k] == NewScanResult(s, d.results[k].testDefinitionId)
    ensures NoFailed(d)
  {
    forall k | k in d.results
      ensures d.results[k].status != Failed
    {
      if k !in db.results {
        assert k in ResultsOf(d.results, s);
      }
    }
  }

  /** A unit writes IN_PROGRESS, COMPLETED or ERROR into its row, never FAILED. */
  lemma RunSingleTestNeverFails(db: Db, id: Id, env: UnitEnv, now: Clock)
    requires NoFailed(db)
    ensures NoFailed(RunSingleTest(db, id, env, now))
  {
    RunSingleTestFrame(db, id, env, now);
    if id in db.results {
      RunSingleTestOutcome(db, id, env, now);
    }
  }

  /** A background run marks scans and rows only COMPLETED, ERROR or IN_PROGRESS, never FAILED. */
  lemma RunAllNeverFails(db: Db, scanId: Id, fetch: IdFetch, env: Id -> UnitEnv, now: Clock)
    requires NoFailed(db)
    ensures NoFailed(RunAll(db, scanId, fetch, env, now))
  {
    var ids := ResultIds(db.results, scanId, db.resultSeq);
    if fetch == Fetched && ids != [] {
      RunUnitsPointwise(db, ids, env, now);
      UnitsKeepNoFailed(db, RunUnits(db, ids, env, now), ids, env, now);
    }
  }

  lemma UnitsKeepNoFailed(db: Db, p: Db, ids: seq<Id>, env: Id -> UnitEnv, now: Clock)
    requires NoFailed(db) && UnitsApplied(db, p, ids, env, now)
    ensures NoFailed(p)
  {
    forall k | k in p.results
      ensures p.results[k].status != Failed
    {
      if k in ids {
        RunSingleTestNeverFails(db, k, env(k), now);
      }
    }
  }

  // ===========================================================================
  // Read guards (get_scan_status, download_scan_report)
  // ===========================================================================

  /** Errors of the read endpoints: 404 for an unknown scan, 400 for a report on an unfinished one. */
  datatype ApiError = NotFound | NotComplete(status: TestStatus)

  /** A scan with its results, each with its key, in key order, as the endpoints return it. */
  datatype ScanView = ScanView(scan: Scan, results: seq<(Id, ScanResult)>)

  /**
   * The scan row and every one of its results exactly once: each listed pair
   * is a row of this scan under its own key, every row of the scan is
   * listed, and the keys ascend strictly, so none is listed twice.
   */
  function View(db: Db, scanId: Id): (v: ScanView)
    requires scanId in db.scans
    ensures v.scan == db.scans[scanId]
    ensures forall i :: 0 <= i < |v.results| ==>
      && v.results[i].0 in ResultsOf(db.results, scanId)
      && v.results[i].1 == db.results[v.results[i].0]
    ensures forall k :: k in ResultsOf(db.results, scanId) && k < db.resultSeq ==> (k, db.results[k]) in v.results
    ensures forall i, j :: 0 <= i < j < |v.results| ==> v.results[i].0 < v.results[j].0
  {
    var ids := ResultIds(db.results, scanId, db.resultSeq);
    var rows := seq(|ids|, i requires 0 <= i < |ids| => (ids[i], db.results[ids[i]]));
    assert forall k :: k in ResultsOf(db.results, scanId) && k < db.resultSeq ==> (k, db.results[k]) in rows by {
      forall k | k in ResultsOf(db.results, scanId) && k < db.resultSeq
        ensures (k, db.results[k]) in rows
      {
        var i :| 0 <= i < |ids| && ids[i] == k;
        assert rows[i] == (k, db.results[k]);
      }
    }
    ScanView(db.scans[scanId], rows)
  }

  /** The keys of a sequence, as a set. */
  ghost function KeySet(keys: seq<Id>): set<Id> {
    set i | 0 <= i < |keys| :: keys[i]
  }

  /** A strictly ascending sequence of keys has as many elements as distinct keys. */
  lemma {:induction false} AscendingKeysCount(keys: seq<Id>)
    requires forall i, j :: 0 <= i < j < |keys| ==> keys[i] < keys[j]
    ensures |KeySet(keys)| == |keys|
    decreases |keys|
  {
    if keys != [] {
      var init := keys[..|keys| - 1];
      var last := keys[|keys| - 1];
      AscendingKeysCount(init);
      assert KeySet(keys) == KeySet(init) + {last} by {
        assert forall i :: 0 <= i < |init| ==> init[i] == keys[i];
      }
      assert last !in KeySet(init) by {
        forall i | 0 <= i < |init|
          ensures init[i] != last
        {
          assert init[i] == keys[i];
        }
      }
    }
  }

  /** With every key below the counter, the view lists each of the scan's results exactly once. */
  lemma ViewListsEachResultOnce(db: Db, scanId: Id)
    requires scanId in db.scans && KeysBelow(db.results, db.resultSeq)
    ensures |View(db, scanId).results| == |ResultsOf(db.results, scanId)|
  {
    var v := View(db, scanId);
    var keys := seq(|v.results|, i requires 0 <= i < |v.results| => v.results[i].0);
    AscendingKeysCount(keys);
    assert KeySet(keys) == ResultsOf(db.results, scanId) by {
      forall k | k in ResultsOf(db.results, scanId)
        ensures k in KeySet(keys)
      {
        var i :| 0 <= i < |v.results| && v.results[i] == (k, db.results[k]);
        assert keys[i] == k;
      }
    }
  }

  /** A report is served for a scan that has ended, in COMPLETED or in ERROR. */
  predicate ReportReady(db: Db, scanId: Id) {
    scanId in db.scans && (db.scans[scanId].status == Completed || db.scans[scanId].status == Error)
  }

  /**
   * After its background run, an existing scan's report can be downloaded,
   * unless it had no results and had already left PENDING, in which case it
   * is left as it was.
   */
  lemma RunAllMakesReportReady(db: Db, scanId: Id, fetch: IdFetch, env: Id -> UnitEnv, now: Clock)
    requires scanId in db.scans
    requires fetch == FetchFailed || ResultIds(db.results, scanId, db.resultSeq) != []
      || db.scans[scanId].status == Pending
    ensures ReportReady(RunAll(db, scanId, fetch, env, now), scanId)
  {
    if fetch == Fetched && ResultIds(db.results, scanId, db.resultSeq) != [] {
      RunAllAggregates(db, scanId, env, now, RunAll(db, scanId, fetch, env, now));
    }
  }

  /** After a successful creation the new scan lists exactly its results, and there is at least one. */
  lemma StartScanListsResults(db: Db, url: string, now: Clock, d: Db, s: Id)
    requires Valid(db) && StartScan(db, url, now) == Success((d, s))
    ensures ResultsReferenceRows(d) && s in d.scans
    ensures ResultIds(d.results, s, d.resultSeq) != []
    ensures forall k :: k in ResultsOf(d.results, s) <==> k in ResultIds(d.results, s, d.resultSeq)
  {
    StartScanPreservesValid(db, url, now, d, s);
    StartScanCreatesResults(db, url, now, d, s);
    StartScanCreatesScan(db, url, now, d, s);
    ResultIdsComplete(d.results, s, d.resultSeq);
    ResultIdsEmptyIff(d.results, s, d.resultSeq);
    var t :| t in db.definitions;
    var k0 :| k0 in ResultsOf(d.results, s) && d.results[k0].testDefinitionId == t;
  }

  /** A unit whose commits succeed and whose probe raises nothing unexpected leaves a valid row COMPLETED. */
  lemma UnitConcludes(db: Db, id: Id, env: UnitEnv, now: Clock)
    requires ResultsReferenceRows(db) && id in db.results
    requires env.beginCommits && env.finishCommits && env.probe.exchange != Raised(Unexpected)
    ensures RunSingleTest(db, id, env, now).results[id].status == Completed
  {
    RunSingleTestOutcome(db, id, env, now);
  }

  /**
   * End to end: a scan created against a non-empty catalog, whose units all
   * commit and whose probes raise nothing unexpected, ends COMPLETED with
   * every one of its results COMPLETED, and its report is ready.
   */
  lemma ScanCompletesWhenEveryProbeConcludes(db: Db, url: string, now: Clock, d: Db, s: Id,
                                             env: Id -> UnitEnv, later: Clock, e: Db)
    requires Valid(db) && StartScan(db, url, now) == Success((d, s))
    requires forall k :: env(k).beginCommits && env(k).finishCommits && env(k).probe.exchange != Raised(Unexpected)
    requires e == RunAll(d, s, Fetched, env, later)
    ensures ReportReady(e, s) && e.scans[s].status == Completed
    ensures forall k :: k in ResultsOf(d.results, s) ==> k in e.results && e.results[k].status == Completed
  {
    StartScanListsResults(db, url, now, d, s);
    ListedScanCompletes(d, s, env, later, e);
  }

  /** The run half of the end-to-end property, for a scan whose listing is exactly its non-empty set of results. */
  lemma ListedScanCompletes(d: Db, s: Id, env: Id -> UnitEnv, later: Clock, e: Db)
    requires ResultsReferenceRows(d) && s in d.scans
    requires ResultIds(d.results, s, d.resultSeq) != []
    requires forall k :: k in ResultsOf(d.results, s) <==> k in ResultIds(d.results, s, d.resultSeq)
    requires forall k :: env(k).beginCommits && env(k).finishCommits && env(k).probe.exchange != Raised(Unexpected)
    requires e == RunAll(d, s, Fetched, env, later)
    ensures ReportReady(e, s) && e.scans[s].status == Completed
    ensures forall k :: k in ResultsOf(d.results, s) ==> k in e.results && e.results[k].status == Completed
  {
    var ids := ResultIds(d.results, s, d.resultSeq);
    forall k | k in ids
      ensures RunSingleTest(d, k, env(k), later).results[k].status == Completed
    {
      UnitConcludes(d, k, env(k), later);
    }
    RunAllAggregates(d, s, env, later, e);
  }
}
