/**
 * src/cache/mod.rs: the two cache-key builders.
 * The no-vary key concatenates method, scheme, host, optional port, the URI's full text and Accept-Language.
 * The vary-aware key (section 12.5.5 of RFC 9110) is method, scheme, host, optional port and path-and-query,
 * followed by the values of the headers the Vary text names, in ascending order of name (a `BTreeMap`).
 */
module Cache {
  import opened Wrappers
  import opened Strings
  import opened Utf8
  import opened Http
  import opened ProxyRequests

  /** `"{method}_{scheme}://{host}[:{port}]{target}"`, the start both `format!` calls share. */
  function KeyPrefix(httpMethod: string, scheme: string, host: string, port: Option<string>, target: string): (r: string)
    ensures |httpMethod| < |r| && r[..|httpMethod| + 1] == httpMethod + "_"
    ensures |r| == |httpMethod| + |scheme| + |host| + |target| + 4 + (if port.Some? then |port.value| + 1 else 0)
  {
    httpMethod + "_" + scheme + "://" + host + (if port.Some? then ":" + port.value else "") + target
  }

  datatype CacheKeyNoVary = CacheKeyNoVary(key: string)

  /** The `Accept-Language` text the no-vary key ends with: empty when absent or not visible ASCII. */
  function AcceptLanguage(req: HttpRequest): (r: string)
    ensures "accept-language" !in req.headers ==> r == ""
    ensures "accept-language" in req.headers ==> r == TextOrEmpty(req.headers["accept-language"][0])
  {
    AcceptLanguageName();
    match Get(req.headers, "Accept-Language")
    case None => ""
    case Some(v) => TextOrEmpty(v)
  }

  /** "Accept-Language" is a valid header name whose canonical form is "accept-language". */
  lemma AcceptLanguageName()
    ensures IsValidName("Accept-Language") && AsciiLower("Accept-Language") == "accept-language"
  {
    var s := "Accept-Language";
    assert forall i :: 0 <= i < |s| ==> IsTokenChar(s[i]);
    assert forall i :: 0 <= i < |s| ==> AsciiLower(s)[i] == "accept-language"[i];
  }

  /** `CacheKeyNoVary::from`: note the URI's whole text, not its path, follows the authority. */
  function NoVaryFrom(req: HttpRequest): (k: CacheKeyNoVary)
    ensures |req.httpMethod| < |k.key| && k.key[..|req.httpMethod| + 1] == req.httpMethod + "_"
    ensures |req.uri.text| + |AcceptLanguage(req)| < |k.key|
    ensures k.key[|k.key| - |AcceptLanguage(req)|..] == AcceptLanguage(req)
  {
    CacheKeyNoVary(
      KeyPrefix(req.httpMethod, req.uri.scheme.GetOr(""), req.uri.host.GetOr(""), PortText(req.uri.port), req.uri.text)
      + AcceptLanguage(req))
  }

  /** `CacheKey::get` for `CacheKeyNoVary`. */
  function NoVaryGet(k: CacheKeyNoVary): string {
    k.key
  }

  function NoVaryKey(req: HttpRequest): string {
    NoVaryGet(NoVaryFrom(req))
  }

  lemma {:induction false} CancelMiddle(a: string, x: string, y: string, b: string)
    requires a + x + b == a + y + b
    ensures x == y
  {
    var s, t := a + x + b, a + y + b;
    assert |x| == |y|;
    assert x == s[|a|..|a| + |x|];
    assert y == t[|a|..|a| + |y|];
  }

  /** With method, scheme, host, port and Accept-Language fixed, the no-vary key tells URI texts apart. */
  lemma NoVaryKeySeparatesTargets(r1: HttpRequest, r2: HttpRequest)
    requires r1.httpMethod == r2.httpMethod && r1.uri.scheme == r2.uri.scheme && r1.uri.host == r2.uri.host
    requires r1.uri.port == r2.uri.port && AcceptLanguage(r1) == AcceptLanguage(r2)
    ensures NoVaryKey(r1) == NoVaryKey(r2) <==> r1.uri.text == r2.uri.text
  {
    var port := PortText(r1.uri.port);
    var a := r1.httpMethod + "_" + r1.uri.scheme.GetOr("") + "://" + r1.uri.host.GetOr("") + (if port.Some? then ":" + port.value else "");
    assert NoVaryKey(r1) == a + r1.uri.text + AcceptLanguage(r1);
    assert NoVaryKey(r2) == a + r2.uri.text + AcceptLanguage(r1);
    if NoVaryKey(r1) == NoVaryKey(r2) {
      CancelMiddle(a, r1.uri.text, r2.uri.text, AcceptLanguage(r1));
    }
  }

  /** The key is a plain concatenation, so distinct requests can share it: `/ab` without Accept-Language
    * and `/a` with Accept-Language `b`. */
  lemma NoVaryKeyCollides(r1: HttpRequest, r2: HttpRequest)
    requires r1.httpMethod == r2.httpMethod && r1.uri.scheme == r2.uri.scheme && r1.uri.host == r2.uri.host
    requires r1.uri.port == r2.uri.port
    requires r1.uri.text == "http://h/ab" && "accept-language" !in r1.headers
    requires r2.uri.text == "http://h/a" && "accept-language" in r2.headers && ToStr(r2.headers["accept-language"][0]) == Some("b")
    ensures r1 != r2 && NoVaryKey(r1) == NoVaryKey(r2)
  {
    var port := PortText(r1.uri.port);
    var a := r1.httpMethod + "_" + r1.uri.scheme.GetOr("") + "://" + r1.uri.host.GetOr("") + (if port.Some? then ":" + port.value else "");
    assert NoVaryKey(r1) == a + "http://h/ab" + "";
    assert NoVaryKey(r2) == a + "http://h/a" + "b";
  }

  /** After the rewrite the URI text is absolute, so the authority appears twice:
    * `GET http://host/a` keys as `GET_http://hosthttp://host/a`. */
  lemma NoVaryKeyOfAbsoluteTarget(req: HttpRequest)
    requires req.httpMethod == "GET" && req.uri.scheme == Some("http") && req.uri.host == Some("host")
    requires req.uri.port == None && req.uri.text == "http://host/a" && "accept-language" !in req.headers
    ensures NoVaryKey(req) == "GET_http://hosthttp://host/a"
  {
  }

  /** `CacheKeyWithVary`: the key's start and the `BTreeMap` from Vary names to header values. */
  datatype CacheKeyWithVary = CacheKeyWithVary(uri: string, varyHeaders: map<string, string>)

  /** The names a Vary text lists: cut at commas and trimmed. */
  function VaryNames(varyContent: string): seq<string> {
    TrimmedPieces(varyContent, ',')
  }

  /** `req.headers().get(name)` read as text: case-insensitive, first value, "" when absent, invalid or opaque. */
  function NativeLookup(req: HttpRequest, name: string): (r: string)
    ensures r != "" ==> IsValidName(name) && AsciiLower(name) in req.headers
                        && Encode(r) == req.headers[AsciiLower(name)][0]
    ensures IsValidName(name) && AsciiLower(name) in req.headers && IsVisibleAscii(req.headers[AsciiLower(name)][0]) ==>
      Encode(r) == req.headers[AsciiLower(name)][0]
  {
    match Get(req.headers, name)
    case None => ""
    case Some(v) => TextOrEmpty(v)
  }

  /** `header_map.get(name)` on a snapshot: an exact, case-sensitive match, "" when absent. */
  function SnapshotLookup(p: ProxyRequest, name: string): (r: string)
    ensures name in p.headers ==> r == p.headers[name]
    ensures name !in p.headers ==> r == ""
    ensures !HasNoUpper(name) && (forall k :: k in p.headers ==> HasNoUpper(k)) ==> r == ""
  {
    if name in p.headers then p.headers[name] else ""
  }

  /** One entry per name of `names`, holding what the live request carries under it. */
  function NativeMap(names: seq<string>, req: HttpRequest): map<string, string> {
    map n | n in names :: NativeLookup(req, n)
  }

  /** One entry per name of `names`, holding what the snapshot carries under it. */
  function SnapshotMap(names: seq<string>, p: ProxyRequest): map<string, string> {
    map n | n in names :: SnapshotLookup(p, n)
  }

  /** The map the native builder fills from a Vary text. */
  function NativeVaryHeaders(varyContent: string, req: HttpRequest): map<string, string> {
    NativeMap(VaryNames(varyContent), req)
  }

  /** The map the snapshot builder fills from a Vary text. */
  function SnapshotVaryHeaders(varyContent: string, p: ProxyRequest): map<string, string> {
    SnapshotMap(VaryNames(varyContent), p)
  }

  function NativePrefix(req: HttpRequest): (r: string)
    ensures |req.httpMethod| < |r| && r[..|req.httpMethod| + 1] == req.httpMethod + "_"
    ensures |TargetText(req.uri)| <= |r| && r[|r| - |TargetText(req.uri)|..] == TargetText(req.uri)
  {
    KeyPrefix(req.httpMethod, req.uri.scheme.GetOr(""), req.uri.host.GetOr(""), PortText(req.uri.port), TargetText(req.uri))
  }

  function SnapshotPrefix(p: ProxyRequest): (r: string)
    ensures |p.httpMethod| < |r| && r[..|p.httpMethod| + 1] == p.httpMethod + "_"
    ensures |p.uri| <= |r| && r[|r| - |p.uri|..] == p.uri
  {
    KeyPrefix(p.httpMethod, p.scheme, p.host, p.port, p.uri)
  }

  /** The `for name in vary.split(',')` loop of `new_from_proxy`: inserting each name, a repeated name overwriting. */
  method CollectFromProxy(vary: seq<string>, proxyReq: ProxyRequest) returns (varyHeaders: map<string, string>)
    ensures varyHeaders == SnapshotMap(vary, proxyReq)
  {
    varyHeaders := map[];
    var i := 0;
    while i < |vary|
      invariant 0 <= i <= |vary|
      invariant forall n :: n in varyHeaders <==> n in vary[..i]
      invariant forall n :: n in varyHeaders ==> varyHeaders[n] == SnapshotLookup(proxyReq, n)
    {
      varyHeaders := varyHeaders[vary[i] := SnapshotLookup(proxyReq, vary[i])];
      assert vary[..i + 1] == vary[..i] + [vary[i]];
      i := i + 1;
    }
    assert vary[..i] == vary;
  }

  /** The same loop in `new_from_native`, reading the live request. */
  method CollectFromNative(vary: seq<string>, req: HttpRequest) returns (varyHeaders: map<string, string>)
    ensures varyHeaders == NativeMap(vary, req)
  {
    varyHeaders := map[];
    var i := 0;
    while i < |vary|
      invariant 0 <= i <= |vary|
      invariant forall n :: n in varyHeaders <==> n in vary[..i]
      invariant forall n :: n in varyHeaders ==> varyHeaders[n] == NativeLookup(req, n)
    {
      varyHeaders := varyHeaders[vary[i] := NativeLookup(req, vary[i])];
      assert vary[..i + 1] == vary[..i] + [vary[i]];
      i := i + 1;
    }
    assert vary[..i] == vary;
  }

  /** `CacheKeyWithVary::new_from_proxy`: the snapshot's key start and one map entry per listed name. */
  method NewFromProxy(varyContent: string, proxyReq: ProxyRequest) returns (k: CacheKeyWithVary)
    ensures k.uri == SnapshotPrefix(proxyReq)
    ensures k.varyHeaders == SnapshotVaryHeaders(varyContent, proxyReq)
  {
    var varyHeaders := CollectFromProxy(VaryNames(varyContent), proxyReq);
    k := CacheKeyWithVary(SnapshotPrefix(proxyReq), varyHeaders);
  }

  /** `CacheKeyWithVary::new_from_native`: the live request's key start and one map entry per listed name. */
  method NewFromNative(varyContent: string, req: HttpRequest) returns (k: CacheKeyWithVary)
    ensures k.uri == NativePrefix(req)
    ensures k.varyHeaders == NativeVaryHeaders(varyContent, req)
  {
    var varyHeaders := CollectFromNative(VaryNames(varyContent), req);
    k := CacheKeyWithVary(NativePrefix(req), varyHeaders);
  }

  /** The values of `m` concatenated in ascending order of their names, the order a `BTreeMap` iterates in. */
  ghost function ValuesInNameOrder(m: map<string, string>): string
    decreases |m.Keys|
  {
    if m.Keys == {} then ""
    else
      LeastExists(m.Keys);
      var n :| IsLeast(n, m.Keys);
      assert (m - {n}).Keys == m.Keys - {n};
      m[n] + ValuesInNameOrder(m - {n})
  }

  /** Peeling off the smallest name, whichever witness picked it. */
  lemma ValuesInNameOrderStep(m: map<string, string>, n: string)
    requires IsLeast(n, m.Keys)
    ensures ValuesInNameOrder(m) == m[n] + ValuesInNameOrder(m - {n})
  {
    LeastExists(m.Keys);
    var n' :| IsLeast(n', m.Keys) && ValuesInNameOrder(m) == m[n'] + ValuesInNameOrder(m - {n'});
    LeastUnique(n, n', m.Keys);
  }

  /** `CacheKey::get` for `CacheKeyWithVary`: the key start, then every value in ascending order of name. */
  method VaryGet(k: CacheKeyWithVary) returns (key: string)
    ensures key == k.uri + ValuesInNameOrder(k.varyHeaders)
  {
    key := k.uri;
    var rest := k.varyHeaders;
    while rest.Keys != {}
      invariant key + ValuesInNameOrder(rest) == k.uri + ValuesInNameOrder(k.varyHeaders)
      decreases |rest.Keys|
    {
      LeastExists(rest.Keys);
      var n :| n in rest && IsLeast(n, rest.Keys);
      ValuesInNameOrderStep(rest, n);
      key := key + rest[n];
      assert (rest - {n}).Keys == rest.Keys - {n};
      rest := rest - {n};
    }
  }

  /** The key `new_from_native(varyContent, req).get()` yields. */
  ghost function NativeVaryKey(varyContent: string, req: HttpRequest): string {
    NativePrefix(req) + ValuesInNameOrder(NativeVaryHeaders(varyContent, req))
  }

  /** The key `new_from_proxy(varyContent, p).get()` yields. */
  ghost function SnapshotVaryKey(varyContent: string, p: ProxyRequest): string {
    SnapshotPrefix(p) + ValuesInNameOrder(SnapshotVaryHeaders(varyContent, p))
  }

  /** The values `m` holds under `names`, one after another in the order of `names`. */
  function ValuesOf(m: map<string, string>, names: seq<string>): string {
    if |names| == 0 then ""
    else (if names[0] in m then m[names[0]] else "") + ValuesOf(m, names[1..])
  }

  lemma {:induction false} ValuesOfAgree(m1: map<string, string>, m2: map<string, string>, names: seq<string>)
    requires forall n :: n in names ==> n in m1 && n in m2 && m1[n] == m2[n]
    ensures ValuesOf(m1, names) == ValuesOf(m2, names)
  {
    if |names| > 0 {
      ValuesOfAgree(m1, m2, names[1..]);
    }
  }

  /** The ordered concatenation, stated against any strictly ascending list of the map's names:
    * the values, never the names, one after another. */
  lemma {:induction false} ValuesInAscendingOrder(m: map<string, string>, names: seq<string>)
    requires StrictlyAscending(names)
    requires forall n :: n in m <==> n in names
    ensures ValuesInNameOrder(m) == ValuesOf(m, names)
  {
    if |names| == 0 {
      assert m.Keys == {};
    } else {
      var n := names[0];
      forall x | x in m.Keys ensures Below(n, x) {
        var j :| 0 <= j < |names| && names[j] == x;
        if j == 0 { BelowTotal(n, n); }
      }
      ValuesInNameOrderStep(m, n);
      var rest := m - {n};
      forall x ensures x in rest <==> x in names[1..] {
        if x in names[1..] {
          var j :| 0 <= j < |names[1..]| && names[1..][j] == x;
          assert names[j + 1] == x;
        }
      }
      assert StrictlyAscending(names[1..]) by {
        forall i, j | 0 <= i < j < |names[1..]| ensures Below(names[1..][i], names[1..][j]) && names[1..][i] != names[1..][j] {
          assert names[1..][i] == names[i + 1] && names[1..][j] == names[j + 1];
        }
      }
      ValuesInAscendingOrder(rest, names[1..]);
      ValuesOfAgree(rest, m, names[1..]);
    }
  }

  /** Two lists of the same names fill the same maps. */
  lemma MapsOfSameNames(a: seq<string>, b: seq<string>, req: HttpRequest, p: ProxyRequest)
    requires forall n :: n in a <==> n in b
    ensures NativeMap(a, req) == NativeMap(b, req) && SnapshotMap(a, p) == SnapshotMap(b, p)
  {
  }

  /** Which names a Vary text lists decides the key, not their order or repetition. */
  lemma VaryOrderIrrelevant(v1: string, v2: string, req: HttpRequest, p: ProxyRequest)
    requires forall n :: n in VaryNames(v1) <==> n in VaryNames(v2)
    ensures NativeVaryKey(v1, req) == NativeVaryKey(v2, req)
    ensures SnapshotVaryKey(v1, p) == SnapshotVaryKey(v2, p)
  {
    MapsOfSameNames(VaryNames(v1), VaryNames(v2), req, p);
  }

  /** Permuting the comma-separated names of a Vary text leaves both keys unchanged. */
  lemma VaryPermutationIrrelevant(v1: string, v2: string, req: HttpRequest, p: ProxyRequest)
    requires multiset(VaryNames(v1)) == multiset(VaryNames(v2))
    ensures NativeVaryKey(v1, req) == NativeVaryKey(v2, req)
    ensures SnapshotVaryKey(v1, p) == SnapshotVaryKey(v2, p)
  {
    forall n ensures n in VaryNames(v1) <==> n in VaryNames(v2) {
      assert n in VaryNames(v1) <==> n in multiset(VaryNames(v1));
      assert n in VaryNames(v2) <==> n in multiset(VaryNames(v2));
    }
    VaryOrderIrrelevant(v1, v2, req, p);
  }

  lemma ValuesOfSingleton(n: string, v: string)
    ensures ValuesInNameOrder(map[n := v]) == v
  {
    var m := map[n := v];
    BelowTotal(n, n);
    ValuesInNameOrderStep(m, n);
    assert (m - {n}).Keys == {};
  }

  /** An empty Vary text lists the single name "", which no request carries: the key is its start alone. */
  lemma EmptyVaryIsPrefix(req: HttpRequest, p: ProxyRequest)
    requires "" !in p.headers
    ensures NativeVaryKey("", req) == NativePrefix(req)
    ensures SnapshotVaryKey("", p) == SnapshotPrefix(p)
  {
    EmptyVaryIsNativePrefix(req);
    EmptyVaryNames();
    SnapshotKeyOfSingleName("", p, "");
  }

  /** The live half: an empty Vary text gives the live request's key start alone. */
  lemma EmptyVaryIsNativePrefix(req: HttpRequest)
    ensures NativeVaryKey("", req) == NativePrefix(req)
  {
    EmptyVaryNames();
    assert !IsValidName("");
    assert NativeLookup(req, "") == "";
    NativeKeyOfSingleName("", req, "");
  }

  lemma EmptyVaryNames()
    ensures VaryNames("") == [""]
  {
    SplitNoSeparator("", ',');
    assert TrimmedPieces("", ',') == [""];
  }

  /** The snapshot taken before forwarding yields the same key as the live request when every listed name is
    * in lower case and every named header has a single value. */
  lemma SnapshotMatchesNative(varyContent: string, req: HttpRequest)
    requires req.uri.scheme.Some?
    requires forall n :: n in VaryNames(varyContent) ==> HasNoUpper(n)
    requires forall n :: n in VaryNames(varyContent) && n in req.headers ==> |req.headers[n]| == 1
    ensures SnapshotVaryKey(varyContent, FromRequest(req)) == NativeVaryKey(varyContent, req)
  {
    SnapshotMapMatchesNative(VaryNames(varyContent), req);
    SnapshotPrefixMatches(req);
  }

  lemma SnapshotMapMatchesNative(names: seq<string>, req: HttpRequest)
    requires req.uri.scheme.Some?
    requires forall n :: n in names ==> HasNoUpper(n)
    requires forall n :: n in names && n in req.headers ==> |req.headers[n]| == 1
    ensures SnapshotMap(names, FromRequest(req)) == NativeMap(names, req)
  {
    var p := FromRequest(req);
    forall n | n in names ensures SnapshotLookup(p, n) == NativeLookup(req, n) {
      AsciiLowerFixes(n);
    }
  }

  /** A capitalised Vary name, the usual spelling, is found case-insensitively in the live request but not in
    * the snapshot, whose names are lower-case: the two builders then disagree. */
  lemma CapitalisedVaryNameDisagrees(req: HttpRequest)
    requires req.uri.scheme.Some?
    requires "accept-language" in req.headers && ToStr(req.headers["accept-language"][0]) == Some("fr")
    ensures NativeVaryKey("Accept-Language", req) != SnapshotVaryKey("Accept-Language", FromRequest(req))
  {
    NativeKeyOfAcceptLanguage(req);
    SnapshotKeyOfAcceptLanguage(req);
    SnapshotPrefixMatches(req);
    assert |NativeVaryKey("Accept-Language", req)| != |SnapshotVaryKey("Accept-Language", FromRequest(req))|;
  }

  /** With a capitalised `Accept-Language` in the Vary text, the live key and the snapshot key agree exactly when
    * the request's Accept-Language text is empty: absent, opaque, or an empty value. */
  lemma CapitalisedVaryKeysAgreeIff(req: HttpRequest)
    requires req.uri.scheme.Some?
    ensures NativeVaryKey("Accept-Language", req) == SnapshotVaryKey("Accept-Language", FromRequest(req))
            <==> AcceptLanguage(req) == ""
  {
    var x := AcceptLanguage(req);
    NamesOfAcceptLanguage();
    NativeKeyOfSingleName("Accept-Language", req, x);
    SnapshotKeyOfAcceptLanguage(req);
    SnapshotPrefixMatches(req);
    if NativeVaryKey("Accept-Language", req) == SnapshotVaryKey("Accept-Language", FromRequest(req)) {
      assert |NativePrefix(req) + x| == |NativePrefix(req)|;
    } else {
      assert NativePrefix(req) + x != NativePrefix(req);
    }
  }

  /** The snapshot's key start is the live request's. */
  lemma SnapshotPrefixMatches(req: HttpRequest)
    requires req.uri.scheme.Some?
    ensures SnapshotPrefix(FromRequest(req)) == NativePrefix(req)
  {
  }

  lemma NativeKeyOfAcceptLanguage(req: HttpRequest)
    requires "accept-language" in req.headers && ToStr(req.headers["accept-language"][0]) == Some("fr")
    ensures NativeVaryKey("Accept-Language", req) == NativePrefix(req) + "fr"
  {
    assert NativeLookup(req, "Accept-Language") == "fr" by {
      AcceptLanguageName();
    }
    NamesOfAcceptLanguage();
    NativeKeyOfSingleName("Accept-Language", req, "fr");
  }

  lemma SnapshotKeyOfAcceptLanguage(req: HttpRequest)
    requires req.uri.scheme.Some?
    ensures SnapshotVaryKey("Accept-Language", FromRequest(req)) == SnapshotPrefix(FromRequest(req))
  {
    var v := "Accept-Language";
    var p := FromRequest(req);
    NamesOfAcceptLanguage();
    assert !HasNoUpper(v) by { assert 'A' <= v[0] <= 'Z'; }
    assert SnapshotLookup(p, v) == "";
    SnapshotKeyOfSingleName(v, p, "");
  }

  lemma NativeKeyOfSingleName(v: string, req: HttpRequest, x: string)
    requires VaryNames(v) == [v] && NativeLookup(req, v) == x
    ensures NativeVaryKey(v, req) == NativePrefix(req) + x
  {
    NativeHeadersOfSingleName(v, req, x);
    ValuesOfSingleton(v, x);
  }

  lemma NativeHeadersOfSingleName(v: string, req: HttpRequest, x: string)
    requires VaryNames(v) == [v] && NativeLookup(req, v) == x
    ensures NativeVaryHeaders(v, req) == map[v := x]
  {
    NativeMapOfOne(v, req, x);
  }

  lemma NativeMapOfOne(v: string, req: HttpRequest, x: string)
    requires NativeLookup(req, v) == x
    ensures NativeMap([v], req) == map[v := x]
  {
  }

  lemma SnapshotKeyOfSingleName(v: string, p: ProxyRequest, x: string)
    requires VaryNames(v) == [v] && SnapshotLookup(p, v) == x
    ensures SnapshotVaryKey(v, p) == SnapshotPrefix(p) + x
  {
    SnapshotHeadersOfSingleName(v, p, x);
    ValuesOfSingleton(v, x);
  }

  lemma SnapshotHeadersOfSingleName(v: string, p: ProxyRequest, x: string)
    requires VaryNames(v) == [v] && SnapshotLookup(p, v) == x
    ensures SnapshotVaryHeaders(v, p) == map[v := x]
  {
    SnapshotMapOfOne(v, p, x);
  }

  lemma SnapshotMapOfOne(v: string, p: ProxyRequest, x: string)
    requires SnapshotLookup(p, v) == x
    ensures SnapshotMap([v], p) == map[v := x]
  {
  }

  lemma NamesOfAcceptLanguage()
    ensures VaryNames("Accept-Language") == ["Accept-Language"]
  {
    SingleName("Accept-Language");
  }

  lemma SingleName(v: string)
    requires ',' !in v && |v| > 0 && !IsWhitespace(v[0]) && !IsWhitespace(v[|v| - 1])
    ensures VaryNames(v) == [v]
  {
    SplitNoSeparator(v, ',');
    assert TrimStart(v) == v;
    assert TrimEnd(v) == v;
  }
}
