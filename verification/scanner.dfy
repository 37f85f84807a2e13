/** The checks of the vulnerability tester (`VulnerabilityTester`): each one
    issues its request(s) to the server and turns the answer into zero or more
    vulnerability reports. */
module Scanner {
  import opened Wrappers
  import opened Text
  import opened Http
  import opened Urls
  import opened Markup
  import opened Comparison

  /** The vulnerability kinds the checks report. */
  datatype VulnKind =
    | CryptRedir            // no redirect from HTTP to HTTPS
    | RedirSub              // no redirect to the subdomain (also SEO fragmentation)
    | DefaultVhost          // the domain is the server's default virtual host
    | SubdomainReflection   // any subdomain label is served
    | HostInjection         // the injected Host value is reflected in the page
    | HostRedirect          // the injected Host value is used as a redirect target
    | CrlfInjection         // a header can be injected through the URL

  /** The code each kind is reported under. */
  function Code(k: VulnKind): string {
    match k
    case CryptRedir => "PTV-WEB-CRYPT-REDIR"
    case RedirSub => "PTV-WEB-MISCONF-REDIRSUB"
    case DefaultVhost => "PTV-WEB-INFO-DEFLT"
    case SubdomainReflection => "PTV-WEB-MISCONF-SUBRFLX"
    case HostInjection => "PTV-WEB-ACC-HHI"
    case HostRedirect => "PTV-WEB-MISCONF-REDIRHST"
    case CrlfInjection => "PTV-WEB-ACC-CRLF"
  }

  /** Every kind is reported under its own code. */
  lemma CodeInjective(k1: VulnKind, k2: VulnKind)
    ensures Code(k1) == Code(k2) <==> k1 == k2
  {
  }

  /** One reported vulnerability, with the raw exchange when the check keeps it. */
  datatype Vulnerability = Vulnerability(kind: VulnKind, evidence: Option<Dump>)

  /** The two selectable verdicts of the Host-header check. */
  datatype Tests = Tests(hostInjection: bool, openRedirect: bool)

  /** The tester's settings that bear on decisions: the configured request
      headers and the selected tests. */
  datatype Config = Config(headers: Headers, tests: Tests)

  /** Why a check stopped by raising instead of returning. */
  datatype Failure = RequestFailed(error: FetchError) | MalformedUrl

  /** How a check ends: it returned with its reports, it caught a request
      error and returned without reporting, or an exception escaped it. */
  datatype CheckResult = Completed(found: seq<Vulnerability>) | Skipped | Raised(failure: Failure)

  /** Some report of kind `k` is in `found`. */
  predicate Reports(found: seq<Vulnerability>, k: VulnKind) {
    exists v :: v in found && v.kind == k
  }

  /** What a check reports: its list when it returned normally, else nothing. */
  function Found(r: CheckResult): seq<Vulnerability> {
    if r.Completed? then r.found else []
  }

  /** The Host value sent by the Host-header check. */
  const InjectedHost := "www.example.com"

  // ---------------------------------------------------------------------------
  // Fetching with a content signature (`_get_response_and_content`)

  /** A fetched response with its dump and its content signature. */
  datatype Exchange = Exchange(dump: Dump, response: Response, content: string)

  /** The request `_get_response_and_content` issues: GET, redirects not
      followed, configured headers with an optional Host override. */
  function ContentRequest(cfg: Config, url: string, host: Option<string>): Request {
    Request(url, WithHost(cfg.headers, host), false)
  }

  function FetchContent(cfg: Config, url: string, host: Option<string>, server: Server): (r: Result<Exchange, FetchError>)
    ensures server(ContentRequest(cfg, url, host)).Failed? <==> r.Failure?
    ensures r.Failure? ==> r.error == server(ContentRequest(cfg, url, host)).error
    ensures r.Success? ==> r.value.response == server(ContentRequest(cfg, url, host)).response
    ensures r.Success? ==> r.value.dump == server(ContentRequest(cfg, url, host)).dump
    ensures r.Success? ==> r.value.content == Signature(r.value.response.body)
  {
    match server(ContentRequest(cfg, url, host))
    case Failed(e) => Failure(e)
    case Fetched(response, dump) => Success(Exchange(dump, response, Signature(response.body)))
  }

  // ---------------------------------------------------------------------------
  // HTTP to HTTPS redirect (`_test_missing_http_redirect_to_https`)

  /** Judges the response to the plain-HTTP request. */
  function MissingHttpsRedirect(response: Response): (found: seq<Vulnerability>)
    ensures found == [] || found == [Vulnerability(CryptRedir, None)]
    ensures found != [] <==> Header(response, "location").None? || !StartsWith(Header(response, "location").value, "https")
  {
    if StartsWith(HeaderOr(response, "location", ""), "https") then []
    else [Vulnerability(CryptRedir, None)]
  }

  // ---------------------------------------------------------------------------
  // SEO fragmentation (`_check_domain_seo_fragmentation`)

  /** Fetches the domain with and without `www.`, following redirects and
      sending no configured headers; the two must end at the same URL. */
  function SeoFragmentation(baseUrl: string, server: Server): (r: CheckResult)
    ensures SplitScheme(baseUrl).None? <==> r == Raised(MalformedUrl)
    ensures r.Completed? ==>
              var (protocol, domain) := SplitScheme(baseUrl).value;
              var f1 := server(Request(baseUrl, map[], true));
              var f2 := server(Request(protocol + "://www." + domain, map[], true));
              && f1.Fetched? && f2.Fetched?
              && (r.found != [] <==> f1.response.url != f2.response.url)
              && (r.found == [] || r.found == [Vulnerability(RedirSub, None)])
    ensures SplitScheme(baseUrl).Some? ==>
              var (protocol, domain) := SplitScheme(baseUrl).value;
              var f1 := server(Request(baseUrl, map[], true));
              var f2 := server(Request(protocol + "://www." + domain, map[], true));
              && (f1.Failed? ==> r == Raised(RequestFailed(f1.error)))
              && (f1.Fetched? && f2.Failed? ==> r == Raised(RequestFailed(f2.error)))
              && (f1.Fetched? && f2.Fetched? ==> r.Completed?)
    ensures r.Skipped? == false
  {
    match SplitScheme(baseUrl)
    case None => Raised(MalformedUrl)
    case Some((protocol, domain)) =>
      var f1 := server(Request(protocol + Sep + domain, map[], true));
      if f1.Failed? then Raised(RequestFailed(f1.error))
      else
        assert protocol + Sep + "www." + domain == protocol + "://www." + domain;
        var f2 := server(Request(protocol + Sep + "www." + domain, map[], true));
        if f2.Failed? then Raised(RequestFailed(f2.error))
        else if f1.response.url == f2.response.url then Completed([])
        else Completed([Vulnerability(RedirSub, None)])
  }

  // ---------------------------------------------------------------------------
  // CRLF injection (`_test_crlf_injection`)

  /** The request that carries the CRLF probe. */
  function CrlfRequest(cfg: Config, url: string): (req: Request)
    ensures StartsWith(req.url, url) && req.url[|url|..] == "/?foo=foo%0D%0Atestfoo:testfoo"
    ensures req.headers == cfg.headers && !req.followRedirects
  {
    Request(url + CrlfProbe, cfg.headers, false)
  }

  /** Vulnerable when the response carries a non-empty `testfoo` header; the
      exchange is kept as evidence. A request error is not caught. */
  function Crlf(cfg: Config, url: string, server: Server): (r: CheckResult)
    ensures server(CrlfRequest(cfg, url)).Failed? <==> r.Raised?
    ensures server(CrlfRequest(cfg, url)).Fetched? ==> r.Completed?
    ensures r.Raised? ==> r.failure == RequestFailed(server(CrlfRequest(cfg, url)).error)
    ensures r.Completed? ==>
              var f := server(CrlfRequest(cfg, url));
              && (r.found != [] <==> Header(f.response, "testfoo").Some? && Header(f.response, "testfoo").value != "")
              && (r.found == [] || r.found == [Vulnerability(CrlfInjection, Some(f.dump))])
  {
    var f := server(CrlfRequest(cfg, url));
    if f.Failed? then Raised(RequestFailed(f.error))
    else if HeaderOr(f.response, "testfoo", "") != "" then Completed([Vulnerability(CrlfInjection, Some(f.dump))])
    else Completed([])
  }

  // ---------------------------------------------------------------------------
  // Default virtual host (`_test_default_vhost`)

  /** Requests the target's IP address directly and compares the answer with
      the initial response to the domain; any request error skips the check. */
  function DefaultVhostCheck(cfg: Config, protocol: string, targetIp: string, initial: Response,
                             initialContent: string, server: Server): (r: CheckResult)
    ensures var f := server(ContentRequest(cfg, protocol + "://" + targetIp, None));
            && (r.Skipped? <==> f.Failed?)
            && !r.Raised?
            && (r.Completed? ==>
                  && (r.found != [] <==> initial.status == 200 && f.response.status == 200
                                         && initialContent == Signature(f.response.body))
                  && (r.found == [] || r.found == [Vulnerability(DefaultVhost, None)]))
  {
    match FetchContent(cfg, protocol + Sep + targetIp, None, server)
    case Failure(_) => Skipped
    case Success(x) =>
      if Matches(Compare(initial, initialContent, x.response, x.content)) && x.response.status == 200 then
        Completed([Vulnerability(DefaultVhost, None)])
      else Completed([])
  }

  // ---------------------------------------------------------------------------
  // Redirect to subdomain (`_test_redirect_to_subdomain`)

  /** Requests the bare domain; returns whether it redirected, with the
      report of a missing redirect. Any request error yields `false` and no
      report. */
  function RedirectToSubdomain(cfg: Config, baseDomain: string, server: Server): (r: (bool, seq<Vulnerability>))
    ensures var f := server(ContentRequest(cfg, baseDomain, None));
            && (f.Failed? ==> r == (false, []))
            && (f.Fetched? ==> r.0 == f.response.isRedirect && (r.1 != [] <==> !f.response.isRedirect))
    ensures r.1 == [] || r.1 == [Vulnerability(RedirSub, None)]
  {
    match FetchContent(cfg, baseDomain, None, server)
    case Failure(_) => (false, [])
    case Success(x) =>
      if x.response.isRedirect then (true, [])
      else (false, [Vulnerability(RedirSub, None)])
  }

  // ---------------------------------------------------------------------------
  // Subdomain reflection (`_test_subdomain_reflection`)

  /** Requests a made-up subdomain of the base URL without following
      redirects; vulnerable exactly when the status is 200. */
  function SubdomainReflectionCheck(cfg: Config, baseUrl: string, withWww: bool, server: Server): (r: CheckResult)
    ensures ReflectionUrl(baseUrl, withWww).None? <==> r == Raised(MalformedUrl)
    ensures ReflectionUrl(baseUrl, withWww).Some? ==>
              var f := server(Request(ReflectionUrl(baseUrl, withWww).value, cfg.headers, false));
              && !r.Raised?
              && (r.Skipped? <==> f.Failed?)
              && (r.Completed? ==> (r.found != [] <==> f.response.status == 200))
    ensures r.Completed? ==> r.found == [] || r.found == [Vulnerability(SubdomainReflection, None)]
  {
    match ReflectionUrl(baseUrl, withWww)
    case None => Raised(MalformedUrl)
    case Some(url) =>
      var f := server(Request(url, cfg.headers, false));
      if f.Failed? then Skipped
      else if f.response.status == 200 then Completed([Vulnerability(SubdomainReflection, None)])
      else Completed([])
  }

  // ---------------------------------------------------------------------------
  // Host header injection and open redirect via Host (`_host_header_injection`)

  /** `re.search('(https?://)?www\.example\.com/?', text)` finds a match at `i`. */
  ghost predicate HostPatternAt(text: string, i: nat) {
    || OccursAt(text, InjectedHost, i)
    || OccursAt(text, "http://" + InjectedHost, i)
    || OccursAt(text, "https://" + InjectedHost, i)
  }

  /** `re.search('^(http(s)?://)?www\.example\.com', location)` matches. */
  predicate RedirectsToInjectedHost(location: string) {
    || StartsWith(location, InjectedHost)
    || StartsWith(location, "http://" + InjectedHost)
    || StartsWith(location, "https://" + InjectedHost)
  }

  /** The optional scheme makes the body search a plain substring test. */
  lemma HostPatternIsSubstring(text: string)
    ensures (exists i: nat :: HostPatternAt(text, i)) <==> Contains(text, InjectedHost)
  {
    ContainsIff(text, InjectedHost);
    if i: nat :| HostPatternAt(text, i) {
      if OccursAt(text, "http://" + InjectedHost, i) {
        OccursAtTail(text, "http://", InjectedHost, i);
      } else if OccursAt(text, "https://" + InjectedHost, i) {
        OccursAtTail(text, "https://", InjectedHost, i);
      }
    }
    if Contains(text, InjectedHost) {
      var i :| OccursAt(text, InjectedHost, i);
      assert HostPatternAt(text, i);
    }
  }

  /** The two verdicts on the response to the Host-override request; each
      report carries the exchange as evidence. */
  function HostInjectionFindings(tests: Tests, response: Response, dump: Dump): (found: seq<Vulnerability>)
    ensures Reports(found, HostInjection) <==>
              tests.hostInjection && response.status == 200 && exists i: nat :: HostPatternAt(response.body, i)
    ensures Reports(found, HostRedirect) <==>
              tests.openRedirect && Header(response, "location").Some? &&
              RedirectsToInjectedHost(Header(response, "location").value)
    ensures forall v :: v in found ==> v.evidence == Some(dump) && (v.kind == HostInjection || v.kind == HostRedirect)
    ensures |found| <= 2
    ensures |found| == 2 ==> found[0].kind == HostInjection && found[1].kind == HostRedirect
  {
    HostPatternIsSubstring(response.body);
    var injection :=
      if tests.hostInjection && Contains(response.body, InjectedHost) && response.status == 200
      then [Vulnerability(HostInjection, Some(dump))] else [];
    var location := HeaderOr(response, "location", "");
    var redirect :=
      if tests.openRedirect && location != "" && RedirectsToInjectedHost(location)
      then [Vulnerability(HostRedirect, Some(dump))] else [];
    injection + redirect
  }

  /** Requests the target with `Host: www.example.com`. Timeouts and
      connection errors end the check quietly; other request errors escape. */
  function HostHeaderInjection(cfg: Config, target: string, original: Response, originalContent: string,
                               server: Server): (r: CheckResult)
    ensures var f := server(ContentRequest(cfg, target, Some(InjectedHost)));
            && (r.Skipped? <==> f.Failed? && f.error != OtherRequestError)
            && (r.Raised? <==> f.Failed? && f.error == OtherRequestError)
            && (r.Raised? ==> r.failure == RequestFailed(OtherRequestError))
            && (r.Completed? ==> r.found == HostInjectionFindings(cfg.tests, f.response, f.dump))
  {
    match FetchContent(cfg, target, Some(InjectedHost), server)
    case Failure(e) => if e == OtherRequestError then Raised(RequestFailed(e)) else Skipped
    case Success(x) =>
      // the comparison with the original response is only printed
      var _ := Compare(original, originalContent, x.response, x.content);
      Completed(HostInjectionFindings(cfg.tests, x.response, x.dump))
  }

  /** The Host-override request sends the configured headers with `Host`
      replaced by the injected value and nothing else changed. */
  lemma HostOverrideRequest(cfg: Config, target: string)
    ensures var req := ContentRequest(cfg, target, Some(InjectedHost));
            && req.url == target && !req.followRedirects
            && req.headers.Keys == cfg.headers.Keys + {"Host"}
            && req.headers["Host"] == InjectedHost
            && forall k :: k in cfg.headers && k != "Host" ==> req.headers[k] == cfg.headers[k]
  {
  }

  // ---------------------------------------------------------------------------
  // Verdicts of the checks whose request was answered

  /** An answered CRLF probe reports `PTV-WEB-ACC-CRLF` exactly when the
      response carries a non-empty `testfoo` header. */
  lemma CrlfVerdict(cfg: Config, url: string, server: Server)
    requires server(CrlfRequest(cfg, url)).Fetched?
    ensures Reports(Found(Crlf(cfg, url, server)), CrlfInjection) <==>
              HeaderOr(server(CrlfRequest(cfg, url)).response, "testfoo", "") != ""
  {
    var r := Crlf(cfg, url, server);
    if r.found != [] {
      assert r.found[0] in r.found;
    }
  }

  /** An answered reflection probe reports `PTV-WEB-MISCONF-SUBRFLX` exactly
      when its status is 200. */
  lemma SubdomainReflectionVerdict(cfg: Config, baseUrl: string, withWww: bool, server: Server)
    requires ReflectionUrl(baseUrl, withWww).Some?
    requires server(Request(ReflectionUrl(baseUrl, withWww).value, cfg.headers, false)).Fetched?
    ensures Reports(Found(SubdomainReflectionCheck(cfg, baseUrl, withWww, server)), SubdomainReflection) <==>
              server(Request(ReflectionUrl(baseUrl, withWww).value, cfg.headers, false)).response.status == 200
  {
    var r := SubdomainReflectionCheck(cfg, baseUrl, withWww, server);
    if r.found != [] {
      assert r.found[0] in r.found;
    }
  }

  /** When both fetches are answered, `PTV-WEB-MISCONF-REDIRSUB` is reported
      exactly when the domain with and without `www.` end at different URLs. */
  lemma SeoFragmentationVerdict(protocol: string, domain: string, server: Server)
    requires !Contains(protocol, Sep) && !Contains(domain, Sep)
    requires server(Request(protocol + "://" + domain, map[], true)).Fetched?
    requires server(Request(protocol + "://www." + domain, map[], true)).Fetched?
    ensures Reports(Found(SeoFragmentation(protocol + "://" + domain, server)), RedirSub) <==>
              server(Request(protocol + "://" + domain, map[], true)).response.url !=
              server(Request(protocol + "://www." + domain, map[], true)).response.url
  {
    SplitJoin(protocol, domain);
    var r := SeoFragmentation(protocol + "://" + domain, server);
    if r.found != [] {
      assert r.found[0] in r.found;
    }
  }
}
