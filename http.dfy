/**
 * The values of the `http` crate the proxy reads and builds, as the accessors the core calls see them:
 * versions, URIs, header names and values, header maps, bodies, requests and responses.
 */
module Http {
  import opened Wrappers
  import opened Strings
  import opened Utf8

  /** `http::Version`: a closed enumeration of five protocol versions. */
  datatype Version = Http09 | Http10 | Http11 | Http2 | Http3

  type Port = x: int | 0 <= x < 0x1_0000

  /** `http::StatusCode`: a three-digit code. */
  type StatusCode = x: int | 100 <= x < 1000 witness 200

  /** `http::Uri` through its accessors: `scheme()`, `host()`, `port()`, `path_and_query()`, `path()`
    * and its `Display` text, which the crate renders and the model takes as given. */
  datatype Uri = Uri(scheme: Option<string>, host: Option<string>, port: Option<Port>,
                     pathAndQuery: Option<string>, path: string, text: string)

  /** `tchar` of section 5.6.2 of RFC 9110: the characters a header name may use. */
  predicate IsTokenChar(c: char) {
    ('a' <= c <= 'z') || ('A' <= c <= 'Z') || ('0' <= c <= '9')
    || c == '!' || c == '#' || c == '$' || c == '%' || c == '&' || c == '\'' || c == '*'
    || c == '+' || c == '-' || c == '.' || c == '^' || c == '_' || c == '`' || c == '|' || c == '~'
  }

  /** What `HeaderName::from_bytes` accepts (upper-case letters are folded to lower case). */
  predicate IsValidName(s: string) {
    |s| > 0 && forall i :: 0 <= i < |s| ==> IsTokenChar(s[i])
  }

  /** The form a `HeaderName` is stored and displayed in: a valid name in lower case. */
  predicate IsCanonicalName(s: string) {
    IsValidName(s) && HasNoUpper(s)
  }

  /** `HeaderName::try_from(&str)`: the lower-cased name, or None for an invalid one. */
  function ParseHeaderName(s: string): (r: Option<string>)
    ensures r.Some? <==> IsValidName(s)
    ensures r.Some? ==> IsCanonicalName(r.value) && r.value == AsciiLower(s)
    ensures IsCanonicalName(s) ==> r == Some(s)
  {
    AsciiLowerFixes(s);
    if IsValidName(s) then Some(AsciiLower(s)) else None
  }

  /** `HeaderName::from_lowercase`: like `ParseHeaderName`, but upper-case letters are refused, not folded. */
  function ParseLowercaseHeaderName(s: string): (r: Option<string>)
    ensures r.Some? <==> IsCanonicalName(s)
    ensures r.Some? ==> r.value == s
  {
    if IsCanonicalName(s) then Some(s) else None
  }

  /** A byte `HeaderValue::from_bytes` (and `str::parse::<HeaderValue>`) accepts: no control character but tab. */
  predicate IsValueByte(b: Byte) {
    b == 9 || (32 <= b && b != 127)
  }

  predicate IsValidValue(v: Bytes) {
    forall i :: 0 <= i < |v| ==> IsValueByte(v[i])
  }

  /** A byte `HeaderValue::to_str` accepts: visible ASCII, space or tab. */
  predicate IsVisibleByte(b: Byte) {
    b == 9 || (32 <= b < 127)
  }

  predicate IsVisibleAscii(v: Bytes) {
    forall i :: 0 <= i < |v| ==> IsVisibleByte(v[i])
  }

  /** `HeaderValue::to_str`: the value as text when it is visible ASCII, None otherwise. */
  function ToStr(v: Bytes): (r: Option<string>)
    ensures r.Some? <==> IsVisibleAscii(v)
    ensures r.Some? ==> IsAscii(r.value) && Encode(r.value) == v
  {
    if IsVisibleAscii(v) then
      var s := seq(|v|, i requires 0 <= i < |v| => v[i] as char);
      EncodeAscii(s);
      Some(s)
    else None
  }

  /** `to_str().unwrap_or("")`, the way every caller in the core reads a header value. */
  function TextOrEmpty(v: Bytes): string {
    ToStr(v).GetOr("")
  }

  /** Header names are canonical, every name has at least one value, every value is valid. */
  predicate WellFormedHeaders(m: map<string, seq<Bytes>>) {
    forall n :: n in m ==> IsCanonicalName(n) && |m[n]| > 0 && forall i :: 0 <= i < |m[n]| ==> IsValidValue(m[n][i])
  }

  /** `http::HeaderMap`: a multimap from names to their values in insertion order. */
  type HeaderMap = m: map<string, seq<Bytes>> | WellFormedHeaders(m) witness map[]

  /** Replacing a name's values by one valid value keeps a header map well formed. */
  lemma PutKeepsWellFormed(h: HeaderMap, name: string, value: Bytes)
    requires IsCanonicalName(name) && IsValidValue(value)
    ensures WellFormedHeaders(h[name := [value]])
  {
  }

  /** `HeaderMap::get(&str)`: the first value under the name, matched case-insensitively; None for an invalid name. */
  function Get(h: HeaderMap, name: string): (r: Option<Bytes>)
    ensures r.Some? <==> IsValidName(name) && AsciiLower(name) in h
    ensures r.Some? ==> r.value == h[AsciiLower(name)][0]
  {
    match ParseHeaderName(name)
    case None => None
    case Some(n) => if n in h then Some(h[n][0]) else None
  }

  /** A body as the client hands it over: all of its bytes, or a failure while reading it. */
  datatype Body = Complete(bytes: Bytes) | ReadError

  datatype HttpRequest = HttpRequest(httpMethod: string, uri: Uri, version: Version, headers: HeaderMap, body: Body)

  datatype HttpResponse = HttpResponse(status: StatusCode, version: Version, headers: HeaderMap, body: Body)
}
