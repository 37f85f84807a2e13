/** The HTTP exchange as the checks see it. The HTTP client, the response
    cache and the network are outside the model: a `Server` maps each request
    the checks issue to what the client hands back, a response or an error. */
module Http {
  import opened Wrappers

  type Headers = map<string, string>

  /** A received response. `headers` is keyed by lower-cased header name, as
      the client's case-insensitive header dictionary is looked up; `url` is
      the final URL after any redirects the client followed. */
  datatype Response = Response(url: string, status: int, isRedirect: bool, headers: Headers, body: string)

  /** Raw request and response text kept as evidence. */
  datatype Dump = Dump(request: string, response: string)

  /** The client's exception kinds that the checks tell apart. */
  datatype FetchError = Timeout | ConnectionError | OtherRequestError

  datatype Fetch = Fetched(response: Response, dump: Dump) | Failed(error: FetchError)

  /** A GET request: target URL, request headers, and whether redirects are followed. */
  datatype Request = Request(url: string, headers: Headers, followRedirects: bool)

  type Server = Request -> Fetch

  /** `response.headers.get(name)` for a lower-case `name`. */
  function Header(r: Response, name: string): Option<string> {
    if name in r.headers then Some(r.headers[name]) else None
  }

  /** `response.headers.get(name, "")`. */
  function HeaderOr(r: Response, name: string, default: string): string {
    Header(r, name).GetOr(default)
  }

  /** The request headers used when a Host override is asked for: a copy of
      the configured headers with `Host` set, or the configured headers
      themselves when no override (or an empty one) is given. */
  function WithHost(headers: Headers, host: Option<string>): (h: Headers)
    ensures host.Some? && host.value != "" ==> h.Keys == headers.Keys + {"Host"} && h["Host"] == host.value
    ensures forall k :: k in headers && k != "Host" ==> k in h && h[k] == headers[k]
    ensures host.None? || host.value == "" ==> h == headers
  {
    match host
    case Some(v) => if v != "" then headers["Host" := v] else headers
    case None => headers
  }
}
