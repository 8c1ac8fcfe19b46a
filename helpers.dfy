/** src/proxy/helpers.rs: the two tables between `http::Version` and its text. */
module Helpers {
  import opened Http

  predicate IsVersionText(s: string) {
    s == "HTTP/0.9" || s == "HTTP/1.0" || s == "HTTP/1.1" || s == "HTTP/2" || s == "HTTP/3"
  }

  /** `http_version_as_str`: always one of the five version texts. */
  function HttpVersionAsStr(version: Version): (r: string)
    ensures IsVersionText(r)
  {
    match version
    case Http09 => "HTTP/0.9"
    case Http10 => "HTTP/1.0"
    case Http11 => "HTTP/1.1"
    case Http2 => "HTTP/2"
    case Http3 => "HTTP/3"
  }

  /** `get_http_version`: any text other than the five gives HTTP/1.1. */
  function GetHttpVersion(s: string): (r: Version)
    ensures !IsVersionText(s) ==> r == Http11
  {
    match s
    case "HTTP/0.9" => Http09
    case "HTTP/1.0" => Http10
    case "HTTP/1.1" => Http11
    case "HTTP/2" => Http2
    case "HTTP/3" => Http3
    case _ => Http11
  }

  /** A version survives the trip through its text. */
  lemma VersionRoundTrip(v: Version)
    ensures GetHttpVersion(HttpVersionAsStr(v)) == v
  {
  }

  /** A known version text survives the trip through the version; any other text comes back as "HTTP/1.1". */
  lemma VersionTextRoundTrip(s: string)
    ensures HttpVersionAsStr(GetHttpVersion(s)) == if IsVersionText(s) then s else "HTTP/1.1"
  {
  }
}
