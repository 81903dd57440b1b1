/**
 * The check logic of run_single_test in backend/main.py: the HTTPS
 * enforcement probe's decision table over an abstract HTTP exchange, the
 * placeholder probes, and the fail-closed classification into a terminal
 * (status, verdict) pair. The network call itself is an input.
 */
module Probes {
  import opened Wrappers
  import opened Models

  // ---------------------------------------------------------------------------
  // URI scheme (section 3.1 of RFC 3986), as urllib.parse.urlparse extracts it
  // ---------------------------------------------------------------------------

  predicate IsAlpha(c: char) {
    'a' <= c <= 'z' || 'A' <= c <= 'Z'
  }

  /** scheme = ALPHA *( ALPHA / DIGIT / "+" / "-" / "." ) */
  predicate IsSchemeChar(c: char) {
    IsAlpha(c) || '0' <= c <= '9' || c == '+' || c == '-' || c == '.'
  }

  predicate IsScheme(s: string) {
    |s| > 0 && IsAlpha(s[0]) && forall i :: 0 <= i < |s| ==> IsSchemeChar(s[i])
  }

  function LowerChar(c: char): char {
    if 'A' <= c <= 'Z' then (c as int + 32) as char else c
  }

  /** ASCII lower-casing; scheme names compare case-insensitively and parse to lower case. */
  function Lower(s: string): string {
    seq(|s|, i requires 0 <= i < |s| => LowerChar(s[i]))
  }

  /** `s.find(':')`: the position of the first colon, if any. */
  function FindColon(s: string): (r: Option<nat>)
    ensures r.Some? ==> r.value < |s| && s[r.value] == ':' && forall j :: 0 <= j < r.value ==> s[j] != ':'
    ensures r.None? ==> forall j :: 0 <= j < |s| ==> s[j] != ':'
  {
    if s == [] then None
    else if s[0] == ':' then Some(0)
    else match FindColon(s[1..])
      case None => None
      case Some(i) => Some(i + 1)
  }

  /**
   * The scheme urlparse reports: the text before the first colon, lower-cased,
   * when it is a well-formed scheme; otherwise there is none (urlparse's '').
   */
  function SchemeOf(url: string): (r: Option<string>)
    ensures r.Some? ==>
      && |r.value| < |url| && url[|r.value|] == ':'
      && IsScheme(url[..|r.value|]) && r.value == Lower(url[..|r.value|])
  {
    match FindColon(url)
    case None => None
    case Some(i) => if i > 0 && IsScheme(url[..i]) then Some(Lower(url[..i])) else None
  }

  /**
   * Conversely, whenever the URL opens with a well-formed scheme and a colon,
   * that scheme is the one reported (a scheme cannot contain a colon).
   */
  lemma SchemeOfPrefixed(scheme: string, rest: string)
    requires IsScheme(scheme)
    ensures SchemeOf(scheme + ":" + rest) == Some(Lower(scheme))
  {
    var url := scheme + ":" + rest;
    assert url[|scheme|] == ':';
    assert url[..|scheme|] == scheme;
  }

  /** The final URL counts as HTTPS exactly when it starts with "https:", in any letter case. */
  lemma HttpsSchemeIff(url: string)
    ensures SchemeOf(url) == Some("https") <==> |url| > 5 && url[5] == ':' && Lower(url[..5]) == "https"
  {
    if |url| > 5 && url[5] == ':' && Lower(url[..5]) == "https" {
      var p := url[..5];
      forall i | 0 <= i < 5
        ensures IsAlpha(p[i])
      {
        assert LowerChar(p[i]) == "https"[i];
      }
      assert url == p + ":" + url[6..];
      SchemeOfPrefixed(p, url[6..]);
    }
  }

  // ---------------------------------------------------------------------------
  // The HTTP exchange, abstracted
  // ---------------------------------------------------------------------------

  /** The class of the exception raised by `requests.get` or `raise_for_status`. */
  datatype RaisedError =
    | SSLError            // requests.exceptions.SSLError, a ConnectionError
    | ConnectTimeout      // both a ConnectionError and a Timeout
    | ReadTimeout         // a Timeout
    | ProxyError          // a ConnectionError
    | ConnectionError     // requests.exceptions.ConnectionError itself
    | HTTPError           // raise_for_status on a 4xx/5xx response
    | OtherRequestError   // any other RequestException (TooManyRedirects, InvalidURL, ...)
    | Unexpected          // an exception outside the RequestException hierarchy

  predicate IsSslError(e: RaisedError) {
    e.SSLError?
  }

  predicate IsTimeout(e: RaisedError) {
    e.ConnectTimeout? || e.ReadTimeout?
  }

  predicate IsConnectionError(e: RaisedError) {
    e.SSLError? || e.ConnectTimeout? || e.ProxyError? || e.ConnectionError?
  }

  predicate IsRequestException(e: RaisedError) {
    !e.Unexpected?
  }

  /** What the GET produced: a final response (after redirects) or an exception. */
  datatype Exchange =
    | Answered(statusCode: nat, finalUrl: string)
    | Raised(error: RaisedError)

  /** `raise_for_status` raises for client (4xx) and server (5xx) errors. */
  predicate IsErrorStatus(code: nat) {
    400 <= code < 600
  }

  /** The terminal pair a check yields, with the narrative it writes. */
  datatype Verdict = Verdict(status: TestStatus, outcome: TestResult, finding: Finding)

  /** A check either concludes with a verdict or lets an exception escape to the outer handler. */
  datatype Probed = Concluded(verdict: Verdict) | Escaped

  /**
   * The except clauses of the HTTPS probe, tried in order: SSLError, Timeout,
   * ConnectionError, RequestException; anything else escapes.
   */
  function CatchRequestError(e: RaisedError): (r: Probed)
    ensures r.Concluded? <==> IsRequestException(e)
    ensures r.Concluded? ==> r.verdict.status == Completed
    ensures r.Concluded? ==> (r.verdict.outcome == Vulnerable <==> IsSslError(e))
    ensures r.Concluded? ==> (r.verdict.outcome == Info <==> !IsSslError(e))
    ensures IsTimeout(e) ==> r.Concluded? && r.verdict.finding == TimedOut
  {
    if IsSslError(e) then Concluded(Verdict(Completed, Vulnerable, CertificateError))
    else if IsTimeout(e) then Concluded(Verdict(Completed, Info, TimedOut))
    else if IsConnectionError(e) then Concluded(Verdict(Completed, Info, ConnectionFailed))
    else if IsRequestException(e) then Concluded(Verdict(Completed, Info, RequestFailed))
    else Escaped
  }

  /** The HTTPS enforcement probe: the inner try block of the SSL/TLS check. */
  function CheckHttps(x: Exchange): (r: Probed)
    ensures r.Escaped? <==> x == Raised(Unexpected)
    ensures r.Concluded? ==> r.verdict.status == Completed && r.verdict.outcome != NotRun
    ensures x.Answered? && IsErrorStatus(x.statusCode) ==> r == CatchRequestError(HTTPError)
  {
    match x
    case Raised(e) => CatchRequestError(e)
    case Answered(code, finalUrl) =>
      if IsErrorStatus(code) then CatchRequestError(HTTPError)
      else if SchemeOf(finalUrl) == Some("https") then Concluded(Verdict(Completed, Passed, HttpsEnforced))
      else Concluded(Verdict(Completed, Vulnerable, HttpsNotEnforced))
  }

  /** Whether the exchange ended in a successful response whose final URL is https. */
  predicate ServedOverHttps(x: Exchange) {
    x.Answered? && !IsErrorStatus(x.statusCode) && SchemeOf(x.finalUrl) == Some("https")
  }

  /** Whether the exchange ended in a successful response whose final URL is not https. */
  predicate ServedInsecurely(x: Exchange) {
    x.Answered? && !IsErrorStatus(x.statusCode) && SchemeOf(x.finalUrl) != Some("https")
  }

  /** The HTTPS check's decision table, row by row. */
  lemma HttpsDecisionTable(x: Exchange)
    ensures CheckHttps(x).Escaped? <==> x == Raised(Unexpected)
    ensures CheckHttps(x).Concluded? ==> CheckHttps(x).verdict.status == Completed
    ensures CheckHttps(x).Concluded? ==>
      && (CheckHttps(x).verdict.outcome == Passed <==> ServedOverHttps(x))
      && (CheckHttps(x).verdict.outcome == Vulnerable <==> ServedInsecurely(x) || x == Raised(SSLError))
      && (CheckHttps(x).verdict.outcome == Info <==>
            (x.Answered? && IsErrorStatus(x.statusCode)) || (x.Raised? && !x.error.SSLError?))
  {
  }

  /** A certificate error is also a connection error, yet is reported as VULNERABLE: its handler comes first. */
  lemma SslHandlerPrecedesConnectionHandler()
    ensures IsConnectionError(SSLError)
    ensures CheckHttps(Raised(SSLError)) == Concluded(Verdict(Completed, Vulnerable, CertificateError))
    ensures IsConnectionError(ConnectTimeout) && IsTimeout(ConnectTimeout)
    ensures CheckHttps(Raised(ConnectTimeout)) == Concluded(Verdict(Completed, Info, TimedOut))
  {
  }

  /** A site whose final redirect target is plain http is reported VULNERABLE. */
  lemma HttpFinalUrlIsVulnerable(code: nat, rest: string)
    requires !IsErrorStatus(code)
    ensures CheckHttps(Answered(code, "http://" + rest)) == Concluded(Verdict(Completed, Vulnerable, HttpsNotEnforced))
  {
    assert "http://" + rest == "http" + ":" + ("//" + rest);
    SchemeOfPrefixed("http", "//" + rest);
    assert Lower("http") == "http";
  }

  /** A site whose final URL is https and that answers without an error status passes. */
  lemma HttpsFinalUrlPasses(code: nat, rest: string)
    requires !IsErrorStatus(code)
    ensures CheckHttps(Answered(code, "https://" + rest)) == Concluded(Verdict(Completed, Passed, HttpsEnforced))
  {
    assert "https://" + rest == "https" + ":" + ("//" + rest);
    SchemeOfPrefixed("https", "//" + rest);
    assert Lower("https") == "https";
  }

  // ---------------------------------------------------------------------------
  // Dispatch and classification
  // ---------------------------------------------------------------------------

  /** The one catalog entry with a real probe behind it. */
  const HttpsTestName: string := "Cryptography and SSL/TLS Testing"

  /** The verdicts `random.choice` picks from in a placeholder probe. */
  const PlaceholderOutcomes: seq<TestResult> := [Passed, Vulnerable, Info]

  /** A placeholder probe: the `draw`-th pick of `random.choice`, always COMPLETED. */
  function Simulate(draw: nat): (r: Probed)
    ensures r.Concluded? && r.verdict.status == Completed && r.verdict.finding == Simulated
    ensures r.verdict.outcome in PlaceholderOutcomes && r.verdict.outcome == PlaceholderOutcomes[draw % 3]
  {
    Concluded(Verdict(Completed, PlaceholderOutcomes[draw % 3], Simulated))
  }

  /** What the outside world does during one check: the HTTP exchange and the random pick. */
  datatype ProbeEnv = ProbeEnv(exchange: Exchange, draw: nat)

  /**
   * Step 2 of run_single_test: dispatch on the test name, and turn an escaping
   * exception into ERROR/NOT_RUN (the outer handler), so the computed status
   * is always terminal.
   */
  function Classify(testName: string, env: ProbeEnv): (v: Verdict)
    ensures v.status == Completed || v.status == Error
    ensures v.status == Error <==> v.outcome == NotRun
    ensures v.status == Error <==> testName == HttpsTestName && env.exchange == Raised(Unexpected)
    ensures v.status == Error ==> v.finding == Crashed
    ensures testName != HttpsTestName ==> v.outcome in PlaceholderOutcomes
    ensures testName != HttpsTestName ==> v == Simulate(env.draw).verdict
    ensures testName == HttpsTestName && CheckHttps(env.exchange).Concluded? ==> v == CheckHttps(env.exchange).verdict
  {
    var probed := if testName == HttpsTestName then CheckHttps(env.exchange) else Simulate(env.draw);
    match probed
    case Concluded(verdict) => verdict
    case Escaped => Verdict(Error, NotRun, Crashed)
  }
}
