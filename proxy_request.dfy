/** src/proxy_request/request.rs: the request snapshot taken before forwarding, and the backend rewrite. */
module ProxyRequests {
  import opened Wrappers
  import opened Strings
  import opened Http
  import opened Helpers

  /** `ProxyRequest`: the text form of a request; header names are the canonical ones, values their text. */
  datatype ProxyRequest = ProxyRequest(httpMethod: string, version: string, scheme: string, host: string,
                                       port: Option<string>, uri: string, headers: map<string, string>)

  /** `Port`'s `Display`, as both the snapshot and the key builders write a port. */
  function PortText(port: Option<Port>): (r: Option<string>)
    ensures r.Some? <==> port.Some?
    ensures r.Some? ==> AllDigits(r.value) && DecimalValue(r.value) == port.value
  {
    match port
    case None => None
    case Some(p) => DecimalRoundTrip(p); Some(Decimal(p))
  }

  /** `path_and_query()` as text, falling back to the whole URI text. */
  function TargetText(uri: Uri): string {
    uri.pathAndQuery.GetOr(uri.text)
  }

  /** `ProxyRequest::from`. The scheme is unwrapped, so a URI without one is outside its domain (the source panics). */
  function FromRequest(req: HttpRequest): (p: ProxyRequest)
    requires req.uri.scheme.Some?
    ensures p.scheme == req.uri.scheme.value && p.host == req.uri.host.GetOr("")
    ensures p.port == PortText(req.uri.port) && p.uri == TargetText(req.uri)
    ensures p.headers.Keys == req.headers.Keys
    ensures forall n :: n in p.headers ==> IsCanonicalName(n)
    ensures forall n :: n in p.headers ==> p.headers[n] == TextOrEmpty(req.headers[n][|req.headers[n]| - 1])
  {
    ProxyRequest(
      req.httpMethod, HttpVersionAsStr(req.version), req.uri.scheme.value, req.uri.host.GetOr(""),
      PortText(req.uri.port), TargetText(req.uri),
      // collecting every (name, value) pair into a HashMap keeps the last value of each name
      map n | n in req.headers :: TextOrEmpty(req.headers[n][|req.headers[n]| - 1]))
  }

  /** `get_headers`. */
  function GetHeaders(p: ProxyRequest): map<string, string> {
    p.headers
  }

  /** `get_proxy_uri`: the backend base followed by the request's path and query, or its path when it has none. */
  function GetProxyUri(req: HttpRequest, backendHost: string): (r: string)
    ensures backendHost <= r
    ensures req.uri.pathAndQuery.Some? ==> r[|backendHost|..] == req.uri.pathAndQuery.value
    ensures req.uri.pathAndQuery.None? ==> r[|backendHost|..] == req.uri.path
  {
    backendHost + req.uri.pathAndQuery.GetOr(req.uri.path)
  }
}
