/**
 * The record shapes of backend/models.py: the two enumerations, the four
 * tables' rows and the column defaults a freshly inserted row receives.
 */
module Models {
  import opened Wrappers

  /** Status of a scan or of one scan result (TestStatusEnum). */
  datatype TestStatus = Pending | InProgress | Completed | Failed | Error
  {
    /** The stable string form that callers polling a scan observe. */
    function Value(): string {
      match this
      case Pending => "pending"
      case InProgress => "in_progress"
      case Completed => "completed"
      case Failed => "failed"
      case Error => "error"
    }
  }

  /** Verdict of one check (TestResultEnum). */
  datatype TestResult = NotRun | Passed | Vulnerable | Info
  {
    function Value(): string {
      match this
      case NotRun => "not_run"
      case Passed => "passed"
      case Vulnerable => "vulnerable"
      case Info => "info"
    }
  }

  /** Enum lookup by value, `TestStatusEnum(s)`: the member whose string form is `s`. */
  function StatusFromValue(s: string): (r: Option<TestStatus>)
    ensures r.Some? ==> r.value.Value() == s
  {
    if s == "pending" then Some(Pending)
    else if s == "in_progress" then Some(InProgress)
    else if s == "completed" then Some(Completed)
    else if s == "failed" then Some(Failed)
    else if s == "error" then Some(Error)
    else None
  }

  /** Enum lookup by value, `TestResultEnum(s)`. */
  function ResultFromValue(s: string): (r: Option<TestResult>)
    ensures r.Some? ==> r.value.Value() == s
  {
    if s == "not_run" then Some(NotRun)
    else if s == "passed" then Some(Passed)
    else if s == "vulnerable" then Some(Vulnerable)
    else if s == "info" then Some(Info)
    else None
  }

  /** Every status survives a round trip through its string form, so the five forms are distinct. */
  lemma StatusValueRoundTrip(st: TestStatus)
    ensures StatusFromValue(st.Value()) == Some(st)
    ensures forall other: TestStatus :: other.Value() == st.Value() ==> other == st
  {
    forall other: TestStatus | other.Value() == st.Value()
      ensures other == st
    {
      assert StatusFromValue(other.Value()) == Some(other);
    }
  }

  /** Every verdict survives a round trip through its string form, so the four forms are distinct. */
  lemma ResultValueRoundTrip(res: TestResult)
    ensures ResultFromValue(res.Value()) == Some(res)
    ensures forall other: TestResult :: other.Value() == res.Value() ==> other == res
  {
    forall other: TestResult | other.Value() == res.Value()
      ensures other == res
    {
      assert ResultFromValue(other.Value()) == Some(other);
    }
  }

  /** Primary keys are integers handed out by the store. */
  type Id = nat

  /** A reading of the wall clock; the model only records whether and when a timestamp was set. */
  type Clock = nat

  /**
   * Which narrative a check writes into the free-text columns (summary,
   * details, recommendations); the wording itself is not modelled.
   */
  datatype Finding =
    | HttpsEnforced      // final URL is served over https
    | HttpsNotEnforced   // final URL is served over another scheme
    | CertificateError   // TLS/certificate validation failed
    | TimedOut           // the request timed out
    | ConnectionFailed   // the server could not be reached
    | RequestFailed      // any other request-layer error, including 4xx/5xx
    | Simulated          // a placeholder check
    | Crashed            // an unexpected exception inside the check

  /** A row of `websites`; `url` is unique and non-null. */
  datatype Website = Website(url: string, createdAt: Clock, lastScanAt: Option<Clock>)

  /** A row of `test_definitions`; `name` is unique and non-null. */
  datatype TestDefinition = TestDefinition(name: string, description: Option<string>)

  /** A row of `scans`; `websiteId` is a non-null foreign key. */
  datatype Scan = Scan(websiteId: Id, status: TestStatus, createdAt: Clock, completedAt: Option<Clock>)

  /** A row of `scan_results`; `scanId` and `testDefinitionId` are non-null foreign keys. */
  datatype ScanResult = ScanResult(
    scanId: Id,
    testDefinitionId: Id,
    status: TestStatus,
    result: TestResult,
    summary: Option<Finding>,
    details: Option<Finding>,
    recommendations: Option<Finding>,
    startedAt: Option<Clock>,
    completedAt: Option<Clock>)

  /** A scan as inserted: status defaults to PENDING, `created_at` is the server's clock. */
  function NewScan(websiteId: Id, now: Clock): Scan {
    Scan(websiteId, Pending, now, None)
  }

  /** A scan result as inserted: status PENDING, result NOT_RUN, every nullable column empty. */
  function NewScanResult(scanId: Id, testDefinitionId: Id): ScanResult {
    ScanResult(scanId, testDefinitionId, Pending, NotRun, None, None, None, None, None)
  }
}
