/**
 * src/cache/cache_control.rs: the directive recogniser for `Cache-Control`.
 * The header is cut at commas, each piece trimmed, and each known directive name takes the
 * lower-cased text of the first piece that starts with it (case-sensitively, before lower-casing).
 * Names are those of section 5.2 of RFC 9111, `immutable` (RFC 8246) and the two of RFC 5861.
 */
module CacheControl {
  import opened Wrappers
  import opened Errors
  import opened Strings
  import opened Http

  datatype RequestDirectives = RequestDirectives(
    maxAge: Option<string>, maxStale: Option<string>, minFresh: Option<string>, noCache: Option<string>,
    noStore: Option<string>, noTransform: Option<string>, onlyIfCached: Option<string>, staleIfError: Option<string>)

  datatype ResponseDirectives = ResponseDirectives(
    maxAge: Option<string>, sMaxage: Option<string>, noCache: Option<string>, noStore: Option<string>,
    noTransform: Option<string>, mustRevalidate: Option<string>, proxyRevalidate: Option<string>,
    mustUnderstand: Option<string>, private: Option<string>, public: Option<string>, immutable: Option<string>,
    staleWhileRevalidate: Option<string>, staleIfError: Option<string>)

  /** The request fields' directive names, in field order. */
  const RequestNames: seq<string> :=
    ["max-age", "max-stale", "min-fresh", "no-cache", "no-store", "no-transform", "only-if-cached", "stale-if-error"]

  /** The response fields' directive names, in field order. */
  const ResponseNames: seq<string> :=
    ["max-age", "s-maxage", "no-cache", "no-store", "no-transform", "must-revalidate", "proxy-revalidate",
     "must-understand", "private", "public", "immutable", "stale-while-revalidate", "stale-if-error"]

  /** The field of a request directive set that `RequestNames[k]` fills. */
  function RequestField(d: RequestDirectives, k: nat): Option<string>
    requires k < |RequestNames|
  {
    match k
    case 0 => d.maxAge
    case 1 => d.maxStale
    case 2 => d.minFresh
    case 3 => d.noCache
    case 4 => d.noStore
    case 5 => d.noTransform
    case 6 => d.onlyIfCached
    case _ => d.staleIfError
  }

  /** The field of a response directive set that `ResponseNames[k]` fills. */
  function ResponseField(d: ResponseDirectives, k: nat): Option<string>
    requires k < |ResponseNames|
  {
    match k
    case 0 => d.maxAge
    case 1 => d.sMaxage
    case 2 => d.noCache
    case 3 => d.noStore
    case 4 => d.noTransform
    case 5 => d.mustRevalidate
    case 6 => d.proxyRevalidate
    case 7 => d.mustUnderstand
    case 8 => d.private
    case 9 => d.public
    case 10 => d.immutable
    case 11 => d.staleWhileRevalidate
    case _ => d.staleIfError
  }

  /** `v` is what `find(starts_with(name)).map(to_lowercase)` yields on `tokens`:
    * absent exactly when no token starts with `name`, otherwise the lower-cased first token that does. */
  predicate IsFirstMatch(tokens: seq<string>, name: string, v: Option<string>) {
    && (v.None? <==> forall i :: 0 <= i < |tokens| ==> !(name <= tokens[i]))
    && (v.Some? ==> exists i :: 0 <= i < |tokens| && name <= tokens[i] && v.value == AsciiLower(tokens[i])
                                 && forall j :: 0 <= j < i ==> !(name <= tokens[j]))
  }

  /** `tokens.find(|it| it.starts_with(name)).map(to_lowercase)`: the first token that starts with `name`, lower-cased. */
  function FirstWithPrefix(tokens: seq<string>, name: string): (r: Option<string>)
    ensures r.Some? ==> HasNoUpper(r.value) && AsciiLower(name) <= r.value
  {
    if |tokens| == 0 then None
    else if name <= tokens[0] then AsciiLowerFixes(tokens[0]); Some(AsciiLower(tokens[0]))
    else FirstWithPrefix(tokens[1..], name)
  }

  /** `FirstWithPrefix` is absent exactly when no token starts with `name`, and otherwise the lower-cased first token that does. */
  lemma {:induction false} FirstMatch(tokens: seq<string>, name: string)
    ensures IsFirstMatch(tokens, name, FirstWithPrefix(tokens, name))
  {
    if |tokens| > 0 && !(name <= tokens[0]) {
      var r := FirstWithPrefix(tokens[1..], name);
      FirstMatch(tokens[1..], name);
      assert forall i :: 1 <= i < |tokens| ==> tokens[i] == tokens[1..][i - 1];
      if r.Some? {
        var i :| 0 <= i < |tokens[1..]| && name <= tokens[1..][i] && r.value == AsciiLower(tokens[1..][i])
                  && forall j :: 0 <= j < i ==> !(name <= tokens[1..][j]);
        assert name <= tokens[i + 1] && forall j :: 0 <= j < i + 1 ==> !(name <= tokens[j]);
      }
    }
  }

  /** The request directive set read from the trimmed tokens: one `find` per field. */
  function RequestDirectivesFrom(tokens: seq<string>): (d: RequestDirectives)
    ensures forall k :: 0 <= k < |RequestNames| && RequestField(d, k).Some? ==> HasNoUpper(RequestField(d, k).value)
    ensures |tokens| == 0 ==> d == NoRequestDirectives
  {
    RequestDirectives(
      FirstWithPrefix(tokens, "max-age"), FirstWithPrefix(tokens, "max-stale"),
      FirstWithPrefix(tokens, "min-fresh"), FirstWithPrefix(tokens, "no-cache"),
      FirstWithPrefix(tokens, "no-store"), FirstWithPrefix(tokens, "no-transform"),
      FirstWithPrefix(tokens, "only-if-cached"), FirstWithPrefix(tokens, "stale-if-error"))
  }

  /** The response directive set read from the trimmed tokens: one `find` per field. */
  function ResponseDirectivesFrom(tokens: seq<string>): (d: ResponseDirectives)
    ensures forall k :: 0 <= k < |ResponseNames| && ResponseField(d, k).Some? ==> HasNoUpper(ResponseField(d, k).value)
    ensures |tokens| == 0 ==> d == NoResponseDirectives
  {
    ResponseDirectives(
      FirstWithPrefix(tokens, "max-age"), FirstWithPrefix(tokens, "s-maxage"),
      FirstWithPrefix(tokens, "no-cache"), FirstWithPrefix(tokens, "no-store"),
      FirstWithPrefix(tokens, "no-transform"), FirstWithPrefix(tokens, "must-revalidate"),
      FirstWithPrefix(tokens, "proxy-revalidate"), FirstWithPrefix(tokens, "must-understand"),
      FirstWithPrefix(tokens, "private"), FirstWithPrefix(tokens, "public"),
      FirstWithPrefix(tokens, "immutable"), FirstWithPrefix(tokens, "stale-while-revalidate"),
      FirstWithPrefix(tokens, "stale-if-error"))
  }

  /** Every request field is the first prefix match of its directive name. */
  lemma RequestDirectivesMatch(tokens: seq<string>)
    ensures forall k :: 0 <= k < |RequestNames| ==>
      IsFirstMatch(tokens, RequestNames[k], RequestField(RequestDirectivesFrom(tokens), k))
  {
    forall k | 0 <= k < |RequestNames|
      ensures IsFirstMatch(tokens, RequestNames[k], RequestField(RequestDirectivesFrom(tokens), k))
    {
      FirstMatch(tokens, RequestNames[k]);
    }
  }

  /** Every response field is the first prefix match of its directive name. */
  lemma ResponseDirectivesMatch(tokens: seq<string>)
    ensures forall k :: 0 <= k < |ResponseNames| ==>
      IsFirstMatch(tokens, ResponseNames[k], ResponseField(ResponseDirectivesFrom(tokens), k))
  {
    forall k | 0 <= k < |ResponseNames|
      ensures IsFirstMatch(tokens, ResponseNames[k], ResponseField(ResponseDirectivesFrom(tokens), k))
    {
      FirstMatch(tokens, ResponseNames[k]);
    }
  }

  /** `headers.get("cache-control").map(|it| it.to_str().unwrap_or(""))`. */
  function CacheControlText(headers: HeaderMap): (r: Option<string>)
    ensures r.Some? <==> "cache-control" in headers
    ensures r.Some? ==> r.value == TextOrEmpty(headers["cache-control"][0])
  {
    match Get(headers, "cache-control")
    case None => None
    case Some(v) => Some(TextOrEmpty(v))
  }

  /** `CacheControlRequest::try_from(&Request)`: an error without the header, never a default set. */
  function ParseRequestDirectives(req: HttpRequest): (r: Result<RequestDirectives, ProxyError>)
    ensures r.Failure? <==> "cache-control" !in req.headers
    ensures r.Failure? ==> r.error == MissingCacheControl
  {
    match CacheControlText(req.headers)
    case None => Failure(MissingCacheControl)
    case Some(content) => Success(RequestDirectivesFrom(TrimmedPieces(content, ',')))
  }

  /** `CacheControlResponse::try_from(&Response)`: an error without the header, never a default set. */
  function ParseResponseDirectives(resp: HttpResponse): (r: Result<ResponseDirectives, ProxyError>)
    ensures r.Failure? <==> "cache-control" !in resp.headers
    ensures r.Failure? ==> r.error == MissingCacheControl
  {
    match CacheControlText(resp.headers)
    case None => Failure(MissingCacheControl)
    case Some(content) => Success(ResponseDirectivesFrom(TrimmedPieces(content, ',')))
  }

  /** With the header present, every request field is the first prefix match over its trimmed comma-separated tokens. */
  lemma ParsedRequestFields(req: HttpRequest)
    requires "cache-control" in req.headers
    ensures ParseRequestDirectives(req).Success?
    ensures forall k :: 0 <= k < |RequestNames| ==>
      IsFirstMatch(TrimmedPieces(TextOrEmpty(req.headers["cache-control"][0]), ','), RequestNames[k],
                   RequestField(ParseRequestDirectives(req).value, k))
  {
    RequestDirectivesMatch(TrimmedPieces(TextOrEmpty(req.headers["cache-control"][0]), ','));
  }

  /** With the header present, every response field is the first prefix match over its trimmed comma-separated tokens. */
  lemma ParsedResponseFields(resp: HttpResponse)
    requires "cache-control" in resp.headers
    ensures ParseResponseDirectives(resp).Success?
    ensures forall k :: 0 <= k < |ResponseNames| ==>
      IsFirstMatch(TrimmedPieces(TextOrEmpty(resp.headers["cache-control"][0]), ','), ResponseNames[k],
                   ResponseField(ParseResponseDirectives(resp).value, k))
  {
    ResponseDirectivesMatch(TrimmedPieces(TextOrEmpty(resp.headers["cache-control"][0]), ','));
  }

  /** The all-absent set `unwrap_or_default()` falls back to. */
  const NoRequestDirectives := RequestDirectives(None, None, None, None, None, None, None, None)
  const NoResponseDirectives :=
    ResponseDirectives(None, None, None, None, None, None, None, None, None, None, None, None, None)

  /** The empty text is one empty token. */
  lemma EmptyTextPieces()
    ensures TrimmedPieces("", ',') == [""]
  {
    SplitNoSeparator("", ',');
  }

  /** A request header that is present but not visible ASCII reads as "", which no name prefixes: every field
    * is absent. */
  lemma {:induction false} OpaqueRequestHeaderParsesEmpty(req: HttpRequest)
    requires "cache-control" in req.headers && ToStr(req.headers["cache-control"][0]).None?
    ensures ParseRequestDirectives(req) == Success(NoRequestDirectives)
  {
    EmptyTextPieces();
  }

  /** The same for a response header. */
  lemma {:induction false} OpaqueResponseHeaderParsesEmpty(resp: HttpResponse)
    requires "cache-control" in resp.headers && ToStr(resp.headers["cache-control"][0]).None?
    ensures ParseResponseDirectives(resp) == Success(NoResponseDirectives)
  {
    EmptyTextPieces();
  }

  /** A token without commas or surrounding whitespace is the whole token list. */
  lemma {:induction false} SingleToken(t: string)
    requires ',' !in t && |t| > 0 && !IsWhitespace(t[0]) && !IsWhitespace(t[|t| - 1])
    ensures TrimmedPieces(t, ',') == [t]
  {
    SplitNoSeparator(t, ',');
    assert TrimStart(t) == t;
    assert TrimEnd(t) == t;
  }

  lemma LowerPrivateXYZ()
    ensures AsciiLower("privateXYZ") == "privatexyz"
  {
    var l := AsciiLower("privateXYZ");
    assert l[7] == 'x' && l[8] == 'y' && l[9] == 'z';
  }

  lemma PrivateXYZ()
    ensures ResponseDirectivesFrom(TrimmedPieces("privateXYZ", ',')).private == Some("privatexyz")
  {
    var t := "privateXYZ";
    SingleToken(t);
    assert "private" <= t;
    assert FirstWithPrefix([t], "private") == Some(AsciiLower(t));
    LowerPrivateXYZ();
  }

  /** The recogniser matches prefixes: a token `privateXYZ` fills `private`. */
  lemma PrefixMatches(resp: HttpResponse)
    requires "cache-control" in resp.headers && ToStr(resp.headers["cache-control"][0]) == Some("privateXYZ")
    ensures ParseResponseDirectives(resp).Success?
    ensures ParseResponseDirectives(resp).value.private == Some("privatexyz")
  {
    var t := "privateXYZ";
    assert CacheControlText(resp.headers) == Some(t);
    PrivateXYZ();
  }

  lemma MaxAgeCapitalised()
    ensures RequestDirectivesFrom(TrimmedPieces("Max-Age=5", ',')).maxAge == None
  {
    var t := "Max-Age=5";
    SingleToken(t);
    assert !("max-age" <= t);
  }

  /** The recogniser is case-sensitive: `Max-Age=5` leaves `max-age` absent although the stored text would be lower-cased. */
  lemma CaseSensitive(req: HttpRequest)
    requires "cache-control" in req.headers && ToStr(req.headers["cache-control"][0]) == Some("Max-Age=5")
    ensures ParseRequestDirectives(req).Success?
    ensures ParseRequestDirectives(req).value.maxAge == None
  {
    assert CacheControlText(req.headers) == Some("Max-Age=5");
    MaxAgeCapitalised();
  }

  /** The tokens that start with one of `names`, in order. */
  function Recognised(tokens: seq<string>, names: seq<string>): (r: seq<string>)
    ensures forall t :: t in r ==> t in tokens
  {
    if |tokens| == 0 then []
    else if exists n :: n in names && n <= tokens[0] then [tokens[0]] + Recognised(tokens[1..], names)
    else Recognised(tokens[1..], names)
  }

  lemma {:induction false} FirstWithPrefixRecognised(tokens: seq<string>, names: seq<string>, name: string)
    requires name in names
    ensures FirstWithPrefix(Recognised(tokens, names), name) == FirstWithPrefix(tokens, name)
  {
    if |tokens| > 0 {
      FirstWithPrefixRecognised(tokens[1..], names, name);
      if exists n :: n in names && n <= tokens[0] {
        assert ([tokens[0]] + Recognised(tokens[1..], names))[1..] == Recognised(tokens[1..], names);
      }
    }
  }

  /** Tokens that start with no known name are ignored: dropping them changes neither directive set. */
  lemma UnrecognisedIgnored(tokens: seq<string>)
    ensures RequestDirectivesFrom(Recognised(tokens, RequestNames)) == RequestDirectivesFrom(tokens)
    ensures ResponseDirectivesFrom(Recognised(tokens, ResponseNames)) == ResponseDirectivesFrom(tokens)
  {
    RequestUnrecognisedIgnored(tokens);
    ResponseUnrecognisedIgnored(tokens);
  }

  lemma RequestUnrecognisedIgnored(tokens: seq<string>)
    ensures RequestDirectivesFrom(Recognised(tokens, RequestNames)) == RequestDirectivesFrom(tokens)
  {
    var ns := RequestNames;
    FirstWithPrefixRecognised(tokens, ns, ns[0]); FirstWithPrefixRecognised(tokens, ns, ns[1]);
    FirstWithPrefixRecognised(tokens, ns, ns[2]); FirstWithPrefixRecognised(tokens, ns, ns[3]);
    FirstWithPrefixRecognised(tokens, ns, ns[4]); FirstWithPrefixRecognised(tokens, ns, ns[5]);
    FirstWithPrefixRecognised(tokens, ns, ns[6]); FirstWithPrefixRecognised(tokens, ns, ns[7]);
  }

  lemma ResponseUnrecognisedIgnored(tokens: seq<string>)
    ensures ResponseDirectivesFrom(Recognised(tokens, ResponseNames)) == ResponseDirectivesFrom(tokens)
  {
    var ns := ResponseNames;
    FirstWithPrefixRecognised(tokens, ns, ns[0]); FirstWithPrefixRecognised(tokens, ns, ns[1]);
    FirstWithPrefixRecognised(tokens, ns, ns[2]); FirstWithPrefixRecognised(tokens, ns, ns[3]);
    FirstWithPrefixRecognised(tokens, ns, ns[4]); FirstWithPrefixRecognised(tokens, ns, ns[5]);
    FirstWithPrefixRecognised(tokens, ns, ns[6]); FirstWithPrefixRecognised(tokens, ns, ns[7]);
    FirstWithPrefixRecognised(tokens, ns, ns[8]); FirstWithPrefixRecognised(tokens, ns, ns[9]);
    FirstWithPrefixRecognised(tokens, ns, ns[10]); FirstWithPrefixRecognised(tokens, ns, ns[11]);
    FirstWithPrefixRecognised(tokens, ns, ns[12]);
  }
}
