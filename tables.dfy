/**
 * The persistent store as one value: the four tables of backend/models.py,
 * each a map from primary key to row plus the next key its auto-increment
 * column will hand out, and the uniqueness and foreign-key constraints the
 * schema declares.
 */
module Tables {
  import opened Wrappers
  import opened Models

  datatype Db = Db(
    websites: map<Id, Website>, websiteSeq: Id,
    definitions: map<Id, TestDefinition>, definitionSeq: Id,
    scans: map<Id, Scan>, scanSeq: Id,
    results: map<Id, ScanResult>, resultSeq: Id)

  /** The store after table creation: every table empty. */
  const Empty: Db := Db(map[], 0, map[], 0, map[], 0, map[], 0)

  /** Every key already used lies below the next key to be handed out. */
  ghost predicate KeysBelow<T>(m: map<Id, T>, next: Id) {
    forall k :: k in m ==> k < next
  }

  /** `websites.url` is unique. */
  ghost predicate UniqueUrls(websites: map<Id, Website>) {
    forall a, b :: a in websites && b in websites && websites[a].url == websites[b].url ==> a == b
  }

  /** `test_definitions.name` is unique. */
  ghost predicate UniqueNames(definitions: map<Id, TestDefinition>) {
    forall a, b :: a in definitions && b in definitions && definitions[a].name == definitions[b].name ==> a == b
  }

  /** `scans.website_id` references a website. */
  ghost predicate ScansReferenceWebsites(db: Db) {
    forall s :: s in db.scans ==> db.scans[s].websiteId in db.websites
  }

  /** `scan_results.scan_id` and `scan_results.test_definition_id` reference existing rows. */
  ghost predicate ResultsReferenceRows(db: Db) {
    forall r :: r in db.results ==>
      db.results[r].scanId in db.scans && db.results[r].testDefinitionId in db.definitions
  }

  /** The schema's constraints, which every committed store satisfies. */
  ghost predicate Valid(db: Db)
    ensures Valid(db) ==> forall r :: r in db.results ==>
      && db.results[r].scanId in db.scans && db.results[r].scanId < db.scanSeq
      && db.scans[db.results[r].scanId].websiteId in db.websites
  {
    && KeysBelow(db.websites, db.websiteSeq)
    && KeysBelow(db.definitions, db.definitionSeq)
    && KeysBelow(db.scans, db.scanSeq)
    && KeysBelow(db.results, db.resultSeq)
    && UniqueUrls(db.websites)
    && UniqueNames(db.definitions)
    && ScansReferenceWebsites(db)
    && ResultsReferenceRows(db)
  }

  /** `b` differs from `a` only in the status, verdict, narrative and timestamp columns of existing rows. */
  ghost predicate SameRows(a: Db, b: Db) {
    && b.websites == a.websites && b.websiteSeq == a.websiteSeq
    && b.definitions == a.definitions && b.definitionSeq == a.definitionSeq
    && b.scans.Keys == a.scans.Keys && b.scanSeq == a.scanSeq
    && (forall s :: s in a.scans ==> b.scans[s].websiteId == a.scans[s].websiteId)
    && b.results.Keys == a.results.Keys && b.resultSeq == a.resultSeq
    && (forall r :: r in a.results ==>
          b.results[r].scanId == a.results[r].scanId
          && b.results[r].testDefinitionId == a.results[r].testDefinitionId)
  }

  lemma EmptyValid()
    ensures Valid(Empty)
  {
  }

  /** Updating status-like columns never breaks a constraint. */
  lemma SameRowsValid(a: Db, b: Db)
    requires Valid(a) && SameRows(a, b)
    ensures Valid(b)
  {
  }

  lemma SameRowsTransitive(a: Db, b: Db, c: Db)
    requires SameRows(a, b) && SameRows(b, c)
    ensures SameRows(a, c)
  {
  }

  /** The query `select Website where url == url`: does a row exist? */
  predicate UrlTaken(websites: map<Id, Website>, url: string) {
    exists k :: k in websites && websites[k].url == url
  }

  /** The query `select TestDefinition where name == name`: does a row exist? */
  predicate NameTaken(definitions: map<Id, TestDefinition>, name: string) {
    exists k :: k in definitions && definitions[k].name == name
  }

  /** The ids of the results of one scan. */
  ghost function ResultsOf(results: map<Id, ScanResult>, scanId: Id): set<Id> {
    set k | k in results && results[k].scanId == scanId
  }

  /**
   * The query `select ScanResult.id where scan_id == scanId`, restricted to
   * keys below `n`, in ascending key order.
   */
  function ResultIds(results: map<Id, ScanResult>, scanId: Id, n: nat): (ids: seq<Id>)
    ensures forall i :: 0 <= i < |ids| ==> ids[i] in results && results[ids[i]].scanId == scanId && ids[i] < n
    ensures forall k :: k in results && results[k].scanId == scanId && k < n ==> k in ids
    ensures forall i, j :: 0 <= i < j < |ids| ==> ids[i] < ids[j]
  {
    if n == 0 then []
    else
      var prefix := ResultIds(results, scanId, n - 1);
      if n - 1 in results && results[n - 1].scanId == scanId then prefix + [n - 1] else prefix
  }

  /** The listing of a scan's results depends only on which rows exist and which scan they belong to. */
  lemma {:induction false} ResultIdsSameRows(a: map<Id, ScanResult>, b: map<Id, ScanResult>, scanId: Id, n: nat)
    requires a.Keys == b.Keys
    requires forall k :: k in a ==> a[k].scanId == b[k].scanId
    ensures ResultIds(a, scanId, n) == ResultIds(b, scanId, n)
    decreases n, 1
  {
    if n > 0 {
      ResultIdsSameRowsAbove(a, b, scanId, n - 1, n);
    }
  }

  lemma {:induction false} ResultIdsSameRowsAbove(a: map<Id, ScanResult>, b: map<Id, ScanResult>, scanId: Id, m: nat, n: nat)
    requires a.Keys == b.Keys && n == m + 1
    requires forall k :: k in a ==> a[k].scanId == b[k].scanId
    ensures ResultIds(a, scanId, n) == ResultIds(b, scanId, n)
    decreases n, 0
  {
    ResultIdsSameRows(a, b, scanId, m);
    assert n - 1 == m;
    var took := m in a && a[m].scanId == scanId;
    assert took == (m in b && b[m].scanId == scanId);
    assert ResultIds(a, scanId, n) == ResultIds(a, scanId, m) + if took then [m] else [];
  }

  /** With every key below `n`, the listing holds exactly the scan's results. */
  lemma ResultIdsComplete(results: map<Id, ScanResult>, scanId: Id, n: nat)
    requires KeysBelow(results, n)
    ensures forall k :: k in ResultsOf(results, scanId) <==> k in ResultIds(results, scanId, n)
  {
  }

  /** With every key below `n`, the listing is empty exactly when the scan has no results. */
  lemma ResultIdsEmptyIff(results: map<Id, ScanResult>, scanId: Id, n: nat)
    requires KeysBelow(results, n)
    ensures ResultIds(results, scanId, n) == [] <==> ResultsOf(results, scanId) == {}
  {
    var ids := ResultIds(results, scanId, n);
    if ids != [] {
      assert ids[0] in ResultsOf(results, scanId);
    }
    if ResultsOf(results, scanId) != {} {
      var k :| k in ResultsOf(results, scanId);
      assert k in ids;
    }
  }
}
