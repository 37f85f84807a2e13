# pthost scanner core, modelled in Dafny

pthost probes a web domain for domain-level misconfigurations. Its tester,
`VulnerabilityTester` in `pthost/modules/scanner.py`, sends a few HTTP
requests (bare domain, `www` subdomain, raw IP, a made-up subdomain, a forged
`Host` header, a CRLF-carrying URL). It then turns each answer into zero or
more vulnerability codes (`PTV-WEB-CRYPT-REDIR`, `PTV-WEB-MISCONF-REDIRSUB`,
`PTV-WEB-INFO-DEFLT`, `PTV-WEB-MISCONF-SUBRFLX`, `PTV-WEB-ACC-HHI`,
`PTV-WEB-MISCONF-REDIRHST`, `PTV-WEB-ACC-CRLF`).

This project models that decision logic as pure functions and proves what
each check decides:

- `Markup`: the content signature (`_get_content`). The regular expression
  `<tag.*?>([\s\S]*?)</tag>` is searched case-insensitively. It is given both
  as a declarative match relation and as a scan. The scan is proved to return
  exactly the match Python's `re.search` reports: leftmost start, then the
  shortest open tag, then the shortest capture. The quirks are kept: the open
  tag cannot span a newline, `<head` also opens at `<header`, and an empty
  capture counts as "not found".
- `Comparison`: response equivalence (`_compare_responses`) as a three-way
  verdict that projects to the source's boolean.
- `Http`: the response record, the request the checks send, and the
  Host-override copy of the configured headers. The network is a `Server`, a
  function from request to response-or-error, passed into every check.
- `Urls`: the `split("://")` of a base URL, the subdomain-reflection probe URL
  and the CRLF probe suffix.
- `Scanner`: the seven checks. `MissingHttpsRedirect` judges a response it is
  given and returns its list of reports; `RedirectToSubdomain` returns whether
  the bare domain redirected together with its reports. The other five
  (`SeoFragmentation`, `Crlf`, `DefaultVhostCheck`, `SubdomainReflectionCheck`,
  `HostHeaderInjection`) return `Completed(reports)`, `Skipped` (the check
  caught a request error and returned), or `Raised` (an exception escapes it,
  as in the source).

Behaviours kept as the code has them:
- CRLF evidence is attached only when the check reports.
- The open tag does not match across a newline, because the pattern is not
  compiled with DOTALL.
- An empty `<head>` capture falls through to the whole body.
- The CRLF and SEO checks do not catch request errors. The Host-header check
  catches only timeouts and connection errors.
- The default-vhost request sends the configured headers, not a particular
  Host header.
- Vulnerability codes are the `PTV-WEB-*` strings the code reports.

## Model

| member | source | states |
|---|---|---|
| Markup.SearchFrom | pthost/modules/scanner.py:216 | the scan from a start index returns a match of the tag pattern that is least in (start, `>`, closing tag) order among matches starting there or later, and `None` exactly when there is none |
| Markup.Search | pthost/modules/scanner.py:222 | the reported match is the first match in leftmost-then-lazy order of the case-insensitive pattern; `None` iff the pattern does not occur |
| Markup.Signature | pthost/modules/scanner.py:214-229 | the signature is never missing; it is empty exactly when the body is empty |
| Markup.SignatureTitleFirst | pthost/modules/scanner.py:216-220 | a first `<title>` match with non-empty text is the signature |
| Markup.SignatureHeadNext | pthost/modules/scanner.py:221-224 | with no title text, a first `<head>` match with non-empty text is the signature |
| Markup.SignatureWholeBody | pthost/modules/scanner.py:225-226 | with neither title nor head text, the signature is the body unchanged |
| Markup.SignatureIsInfix | pthost/modules/scanner.py:214-229 | the signature is always a contiguous piece of the body |
| Markup.FirstMatchUnique | pthost/modules/scanner.py:216 | the match `re.search` reports is unique |
| Comparison.Compare | pthost/modules/scanner.py:202-211 | same iff equal status and equal content; different-status iff the statuses differ; different-content iff same status and different content |
| Comparison.CompareSymmetric | pthost/modules/scanner.py:204-211 | comparison does not depend on argument order |
| Comparison.CompareReflexive | pthost/modules/scanner.py:204-205 | a response with its own content always matches |
| Comparison.StatusDecidesFirst | pthost/modules/scanner.py:206-208 | differing statuses give "different status" whatever the contents |
| Http.WithHost | pthost/modules/scanner.py:176-182 | with a non-empty host, the headers are a copy with `Host` added or replaced and every other key kept; otherwise the configured headers are used as they are |
| Scanner.FetchContent | pthost/modules/scanner.py:183-191 | a request error passes through; otherwise the server's response and dump come back with the response's content signature |
| Scanner.MissingHttpsRedirect | pthost/modules/scanner.py:16-24 | `PTV-WEB-CRYPT-REDIR` is reported iff `location` is absent or does not start with `https` |
| Scanner.SeoFragmentation | pthost/modules/scanner.py:26-39 | both URLs are fetched following redirects and without configured headers; when both are answered the check completes and reports `PTV-WEB-MISCONF-REDIRSUB` iff the final URLs differ; a malformed base URL escapes, and so does the error of the first fetch that fails |
| Scanner.SeoFragmentationVerdict | pthost/modules/scanner.py:34-38 | for `p://d` with both fetches answered, `PTV-WEB-MISCONF-REDIRSUB` is among the reports iff the two final URLs differ |
| Scanner.CrlfRequest | pthost/modules/scanner.py:45 | the probe is the URL followed by `/?foo=foo%0D%0Atestfoo:testfoo`, sent with the configured headers and redirects not followed |
| Scanner.Crlf | pthost/modules/scanner.py:41-53 | an answered probe always completes, with `PTV-WEB-ACC-CRLF` and the exchange as evidence iff the response has a non-empty `testfoo` header; a request error escapes |
| Scanner.CrlfVerdict | pthost/modules/scanner.py:46-49 | for an answered probe, `PTV-WEB-ACC-CRLF` is among the reports iff the `testfoo` header is non-empty |
| Scanner.DefaultVhostCheck | pthost/modules/scanner.py:55-72 | `PTV-WEB-INFO-DEFLT` is reported iff both statuses are 200 and the IP response's signature equals the initial content; a request error skips the check |
| Scanner.RedirectToSubdomain | pthost/modules/scanner.py:74-96 | the result is the response's redirect flag; `PTV-WEB-MISCONF-REDIRSUB` is reported iff it did not redirect; a request error gives `false` and no report |
| Urls.SplitScheme | pthost/modules/scanner.py:100 | defined exactly when `://` occurs once; the parts rejoin to the URL and hold no separator |
| Urls.SplitJoin | pthost/modules/scanner.py:100 | splitting `p://d` gives back `p` and `d` when neither holds a separator |
| Urls.ReflectionUrlShape | pthost/modules/scanner.py:100-101 | for `p://d` the probe is `p://fo0o0o0o1.www.d` with `www`, else `p://fo0o0o0o1.d` |
| Scanner.SubdomainReflectionCheck | pthost/modules/scanner.py:98-111 | with a well-formed base URL the check never raises: a request error skips it, and an answered probe completes with `PTV-WEB-MISCONF-SUBRFLX` iff the status is exactly 200; a malformed base URL escapes |
| Scanner.SubdomainReflectionVerdict | pthost/modules/scanner.py:108-110 | for an answered probe, `PTV-WEB-MISCONF-SUBRFLX` is among the reports iff the status is exactly 200 |
| Scanner.HostPatternIsSubstring | pthost/modules/scanner.py:132 | the body pattern with its optional scheme matches iff `www.example.com` occurs in the body |
| Scanner.HostInjectionFindings | pthost/modules/scanner.py:129-143 | `PTV-WEB-ACC-HHI` iff selected, status 200 and the body pattern matches; `PTV-WEB-MISCONF-REDIRHST` iff selected and `location` starts with an optional `http://` or `https://` and then `www.example.com`; every report carries the exchange, and each code appears at most once, `PTV-WEB-ACC-HHI` first |
| Scanner.HostHeaderInjection | pthost/modules/scanner.py:114-151 | a timeout or connection error skips the check, any other request error escapes as that request error; otherwise the reports are exactly the two verdicts above |
| Scanner.HostOverrideRequest | pthost/modules/scanner.py:120 | the Host-override request goes to the target with `Host: www.example.com` and every other configured header unchanged |

## Left out

- Fetching, caching, proxy, timeout and TLS-verification options (`_get_response`, scanner.py:194-199, and the direct `requests.get` calls): the server is a function parameter. Each request is assumed to get a deterministic answer, so the response cache changes nothing.
- `_get_initial_response` (scanner.py:154-174) only fetches with content and re-raises. It is `Scanner.FetchContent` without a Host override.
- All console output, including the informational "Domain is available without subdomain" line (scanner.py:85-86) and the comparison messages (scanner.py:207, 210). The comparison in the Host-header check only prints, so its result is discarded.
- `ptjsonlib.add_vulnerability` is modelled as the list a check returns. The CRLF call passes evidence as `request=`/`response=` and the Host-header calls pass it as `vuln_request=`/`vuln_response=`. ptjsonlib is not part of this model, so both are modelled as the same evidence.
- The exact `requests` exception hierarchy. Request errors are timeout, connection error or any other request error; only the Host-header check tells them apart.
- Response.isRedirect is taken as the client reports it. The client's rule (a `location` header and a redirect status) is not part of this model.
- Markup.Search: case-insensitive matching folds ASCII letters only. Python's Unicode case-insensitive matching also lets the `i` of `<title` and `</title>` match `İ` (U+0130) and `ı` (U+0131); the model does not, so a body spelling the tag with those characters has no title match here. No other letter of `title` or `head` has a non-ASCII case partner.
- The HTTP method is always GET and is not part of the request record.
- Result rendering in pthost/modules/results.py. It is console/JSON output only, and everything after its early return is unreachable.
- The caller that runs the checks per protocol is not part of this model. When the same code is found under HTTP and HTTPS, the later report overwrites the earlier one; that behaviour belongs to the caller.
- Idempotence of the signature needs no lemma: the signature is a pure function of the body, so extracting it twice gives the same string.
