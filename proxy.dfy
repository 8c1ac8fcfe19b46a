/**
 * src/proxy/mod.rs and the `proxy` handler of src/main.rs: tagging a response with its cache status, serving a
 * stored response, fetching from the origin and storing what it answered, and the per-request decision flow.
 */
module Proxy {
  import opened Wrappers
  import opened Errors
  import opened Strings
  import opened Utf8
  import opened Http
  import opened CacheControl
  import opened ProxyRequests
  import opened Cache
  import opened ProxyResponses
  import opened Stores

  /** The header every answer carries, and its three values. */
  const CacherStatus := "cacher_status"
  const StatusHit := "HIT"
  const StatusMiss := "MISS"
  const StatusDynamic := "DYNAMIC"

  /** The time to live, in seconds, every stored response is given. */
  const EntryTtl := 5

  /** `serde_json::to_string` and `serde_json::from_str` on `ProxyResponse`. */
  datatype Codec = Codec(encode: ProxyResponse -> string, decode: string -> Option<ProxyResponse>)

  /** What serde promises of the pair: decoding an encoding gives the response back. */
  ghost predicate RoundTrips(codec: Codec) {
    forall pr :: codec.decode(codec.encode(pr)) == Some(pr)
  }

  /** What lies outside the proxy: the origin behind the hyper client (None when the request fails),
    * `Uri::try_from` and the codec. */
  datatype Backend = Backend(origin: HttpRequest -> Option<HttpResponse>, parseUri: string -> Option<Uri>, codec: Codec)

  /** `CacherConfig`: the base URL requests are forwarded to and whether Vary is honoured. */
  datatype Config = Config(backendHost: string, handleVary: bool)

  /** Which of the request's store operations fail: the pool checkout, the Vary registration read, the lookup,
    * and the three writes of a miss. */
  datatype Faults = Faults(checkout: bool, varyRead: bool, lookup: bool, setEntry: bool, expireEntry: bool, setVary: bool)

  /** `HeaderMap::append`: one more value under the name, the existing ones kept in front. */
  function Append(h: HeaderMap, name: string, value: Bytes): (r: HeaderMap)
    requires IsCanonicalName(name) && IsValidValue(value)
    ensures r.Keys == h.Keys + {name}
    ensures forall n :: n in h && n != name ==> r[n] == h[n]
    ensures r[name] == (if name in h then h[name] else []) + [value]
  {
    h[name := (if name in h then h[name] else []) + [value]]
  }

  /** `add_header`: fails without a value, on a name with upper-case or invalid characters, and on a value
    * `str::parse::<HeaderValue>` refuses; otherwise appends the value and changes nothing else. */
  function AddHeader(resp: HttpResponse, key: string, value: Option<string>): (r: Result<HttpResponse, ProxyError>)
    ensures value.None? ==> r == Failure(MissingHeaderValue)
    ensures value.Some? && !IsCanonicalName(key) ==> r == Failure(InvalidHeaderName)
    ensures value.Some? && IsCanonicalName(key) && !IsValidValue(Encode(value.value)) ==> r == Failure(InvalidHeaderValue)
    ensures r.Success? <==> value.Some? && IsCanonicalName(key) && IsValidValue(Encode(value.value))
    ensures r.Success? ==> r.value.status == resp.status && r.value.version == resp.version && r.value.body == resp.body
    ensures r.Success? ==> r.value.headers.Keys == resp.headers.Keys + {key}
    ensures value.Some? && IsCanonicalName(key) && IsValidValue(Encode(value.value)) ==>
      r.Success? && r.value.headers == Append(resp.headers, key, Encode(value.value))
  {
    match value
    case None => Failure(MissingHeaderValue)
    case Some(text) =>
      match ParseLowercaseHeaderName(key)
      case None => Failure(InvalidHeaderName)
      case Some(name) =>
        var bytes := Encode(text);
        if !IsValidValue(bytes) then Failure(InvalidHeaderValue)
        else Success(resp.(headers := Append(resp.headers, name, bytes)))
  }

  /** Appending keeps what every name read before: a header the response already had under the same name still
    * comes first, and a name the response lacked now reads as the new value. */
  lemma AddHeaderAppends(resp: HttpResponse, key: string, value: string, name: string)
    requires AddHeader(resp, key, Some(value)).Success?
    ensures var h := AddHeader(resp, key, Some(value)).value.headers;
      (Get(resp.headers, name).Some? ==> Get(h, name) == Get(resp.headers, name))
      && (Get(resp.headers, name).None? && IsValidName(name) && AsciiLower(name) == key ==> Get(h, name) == Some(Encode(value)))
      && (Get(resp.headers, name).None? && !(IsValidName(name) && AsciiLower(name) == key) ==> Get(h, name).None?)
  {
  }

  predicate IsStatusMarker(s: string) {
    s == StatusHit || s == StatusMiss || s == StatusDynamic
  }

  /** Tagging with the status header never fails: the name is lower-case and the markers are plain text. */
  lemma StatusMarkerApplies(resp: HttpResponse, marker: string)
    requires IsStatusMarker(marker)
    ensures AddHeader(resp, CacherStatus, Some(marker)).Success?
  {
    CacherStatusIsCanonical();
    MarkerIsValidValue(marker);
  }

  lemma CacherStatusIsCanonical()
    ensures IsCanonicalName(CacherStatus)
  {
    var n := CacherStatus;
    assert forall i :: 0 <= i < |n| ==> IsTokenChar(n[i]) && !('A' <= n[i] <= 'Z');
  }

  lemma MarkerIsValidValue(marker: string)
    requires IsStatusMarker(marker)
    ensures IsValidValue(Encode(marker))
  {
    if marker == StatusHit {
      PrintableIsValidValue(StatusHit);
    } else if marker == StatusMiss {
      PrintableIsValidValue(StatusMiss);
    } else {
      PrintableIsValidValue(StatusDynamic);
    }
  }

  /** Printable ASCII text is a valid header value, byte for byte. */
  lemma PrintableIsValidValue(s: string)
    requires forall i :: 0 <= i < |s| ==> ' ' <= s[i] <= '~'
    ensures IsValidValue(Encode(s))
  {
    EncodeAscii(s);
  }

  /** `resp` is what the proxy answers for the stored form `pr`: a response `try_from` may rebuild from it,
    * tagged with the marker. */
  ghost predicate Served(pr: ProxyResponse, resp: HttpResponse, marker: string) {
    exists w :: RebuiltFrom(pr, w) && AddHeader(w, CacherStatus, Some(marker)) == Success(resp)
  }

  /** The result of serving `pr` with `marker`: a tagged rebuild exactly when `pr` can be rebuilt, otherwise the
    * error `try_from` reports. */
  ghost predicate ServedOrRefused(pr: ProxyResponse, r: Result<HttpResponse, ProxyError>, marker: string) {
    (r.Success? <==> Reconstructible(pr))
    && (r.Success? ==> Served(pr, r.value, marker))
    && (r.Failure? ==> r.error == InvalidStatus || r.error == InvalidHeaderName || r.error == InvalidHeaderValue)
  }

  /** Rebuild `pr` and tag it with `marker`. */
  method RebuildAndTag(pr: ProxyResponse, marker: string) returns (r: Result<HttpResponse, ProxyError>)
    requires IsStatusMarker(marker)
    ensures ServedOrRefused(pr, r, marker)
  {
    var rebuilt := Reconstruct(pr);
    if rebuilt.Failure? {
      return Failure(rebuilt.error);
    }
    StatusMarkerApplies(rebuilt.value, marker);
    r := AddHeader(rebuilt.value, CacherStatus, Some(marker));
  }

  /** The result of `response_from_cache` on the stored text `stored`. */
  ghost predicate HitOutcome(codec: Codec, stored: string, r: Result<HttpResponse, ProxyError>) {
    match codec.decode(stored)
    case None => r == Failure(DecodeFailed)
    case Some(pr) => ServedOrRefused(pr, r, StatusHit)
  }

  /** `response_from_cache`: decode the stored text, rebuild the response, tag it HIT. */
  method ResponseFromCache(stored: string, codec: Codec) returns (r: Result<HttpResponse, ProxyError>)
    ensures HitOutcome(codec, stored, r)
  {
    var decoded := codec.decode(stored);
    if decoded.None? {
      return Failure(DecodeFailed);
    }
    r := RebuildAndTag(decoded.value, StatusHit);
  }

  /** The `vary` value of the origin's answer, "" without one. */
  function VaryText(pr: ProxyResponse): (r: string)
    ensures "vary" !in pr.headers ==> r == ""
    ensures "vary" in pr.headers ==> r == pr.headers["vary"]
  {
    if "vary" in pr.headers then pr.headers["vary"] else ""
  }

  /** The writes of a miss without Vary: the entry, then its time to live. */
  function NoVaryMissCommands(key: string, pr: ProxyResponse, codec: Codec): seq<Command> {
    [Command.Set(key, codec.encode(pr)), Command.Expire(key, EntryTtl)]
  }

  /** The writes of a miss with Vary: the entry under the key the snapshot and the answer's Vary give, its time to
    * live, and the Vary text under the registration key. */
  ghost function VaryMissCommands(varyKey: string, snapshot: ProxyRequest, pr: ProxyResponse, codec: Codec): seq<Command> {
    var key := SnapshotVaryKey(VaryText(pr), snapshot);
    [Command.Set(key, codec.encode(pr)), Command.Expire(key, EntryTtl), Command.Set(varyKey, VaryText(pr))]
  }

  /** `response_from_origin_with_vary`. The snapshot is taken before forwarding (a request without a scheme makes
    * the source panic, an error here); an origin failure leaves the store alone; otherwise the three writes are
    * issued, each failing silently, and only then is the response rebuilt and tagged MISS. */
  method ResponseFromOriginWithVary(req: HttpRequest, origin: HttpRequest -> Option<HttpResponse>, codec: Codec,
                                    store: Store, varyKey: string, faults: Faults)
    returns (r: Result<HttpResponse, ProxyError>)
    requires store.Valid()
    modifies store
    ensures store.Valid()
    ensures req.uri.scheme.None? ==> r == Failure(SchemeMissing) && unchanged(store)
    ensures req.uri.scheme.Some? ==>
      MissEffect(old(store.log), old(store.State()), store.log, store.State(), req, origin, r,
                 VaryMissCommands(varyKey, FromRequest(req), OriginAnswer(req, origin), codec),
                 [faults.setEntry, faults.expireEntry, faults.setVary])
  {
    if req.uri.scheme.None? {
      return Failure(SchemeMissing);
    }
    var proxyReq := FromRequest(req);
    var answer := origin(req);
    if answer.None? {
      return Failure(OriginRequest);
    }
    var pr := FromResp(answer.value);
    StoreVaryAnswer(store, proxyReq, pr, codec, varyKey, faults);
    r := RebuildAndTag(pr, StatusMiss);
  }

  /** Lines 42-50 of `response_from_origin_with_vary`: the key from the snapshot and the answer's Vary text,
    * the entry and its time to live under it, then the Vary text under the registration key. */
  method StoreVaryAnswer(store: Store, proxyReq: ProxyRequest, pr: ProxyResponse, codec: Codec, varyKey: string, faults: Faults)
    requires store.Valid()
    modifies store
    ensures store.Valid()
    ensures store.log == old(store.log) + VaryMissCommands(varyKey, proxyReq, pr, codec)
    ensures store.State() == Writes(old(store.State()), VaryMissCommands(varyKey, proxyReq, pr, codec),
                                    [faults.setEntry, faults.expireEntry, faults.setVary])
  {
    ghost var s0 := store.State();
    var varyContent := VaryText(pr);
    var key := NewFromProxy(varyContent, proxyReq);
    var cacheKey := VaryGet(key);
    VaryMissWritesSplit(s0, varyKey, proxyReq, pr, codec, cacheKey, faults);
    StoreEntry(store, cacheKey, codec.encode(pr), faults);
    store.Set(varyKey, varyContent, faults.setVary);
  }

  /** The writes of a Vary miss are those of a plain miss under the Vary-aware key, then the registration. */
  lemma VaryMissCommandsSplit(varyKey: string, snapshot: ProxyRequest, pr: ProxyResponse, codec: Codec, cacheKey: string)
    requires cacheKey == SnapshotVaryKey(VaryText(pr), snapshot)
    ensures NoVaryMissCommands(cacheKey, pr, codec) + [Command.Set(varyKey, VaryText(pr))]
         == VaryMissCommands(varyKey, snapshot, pr, codec)
  {
  }

  /** The state after a Vary miss's writes is the registration applied after the entry's two writes. */
  lemma VaryMissWritesSplit(s0: StoreState, varyKey: string, snapshot: ProxyRequest, pr: ProxyResponse, codec: Codec,
                            cacheKey: string, faults: Faults)
    requires cacheKey == SnapshotVaryKey(VaryText(pr), snapshot)
    ensures Writes(s0, VaryMissCommands(varyKey, snapshot, pr, codec), [faults.setEntry, faults.expireEntry, faults.setVary])
         == Step(Writes(s0, [Command.Set(cacheKey, codec.encode(pr)), Command.Expire(cacheKey, EntryTtl)],
                        [faults.setEntry, faults.expireEntry]),
                 Command.Set(varyKey, VaryText(pr)), faults.setVary)
  {
    VaryMissCommandsSplit(varyKey, snapshot, pr, codec, cacheKey);
    WritesAppendOne(s0, NoVaryMissCommands(cacheKey, pr, codec), [faults.setEntry, faults.expireEntry],
                    Command.Set(varyKey, VaryText(pr)), faults.setVary);
    assert [faults.setEntry, faults.expireEntry, faults.setVary] == [faults.setEntry, faults.expireEntry] + [faults.setVary];
  }

  /** The two writes that store a response: SET of the entry, then EXPIRE, each result ignored. */
  method StoreEntry(store: Store, key: string, entry: string, faults: Faults)
    requires store.Valid()
    modifies store
    ensures store.Valid()
    ensures store.log == old(store.log) + [Command.Set(key, entry), Command.Expire(key, EntryTtl)]
    ensures store.State() == Writes(old(store.State()), [Command.Set(key, entry), Command.Expire(key, EntryTtl)],
                                    [faults.setEntry, faults.expireEntry])
  {
    store.Set(key, entry, faults.setEntry);
    store.Expire(key, EntryTtl, faults.expireEntry);
    WritesOfTwo(old(store.State()), [Command.Set(key, entry), Command.Expire(key, EntryTtl)], [faults.setEntry, faults.expireEntry]);
  }

  /** Writes over two commands, one step at a time. */
  lemma WritesOfTwo(s: StoreState, cmds: seq<Command>, fails: seq<bool>)
    requires |cmds| == 2 && |fails| == 2
    ensures Writes(s, cmds, fails) == Step(Step(s, cmds[0], fails[0]), cmds[1], fails[1])
  {
    var s1 := Step(s, cmds[0], fails[0]);
    var s2 := Step(s1, cmds[1], fails[1]);
    assert Writes(s2, cmds[1..][1..], fails[1..][1..]) == s2;
    assert Writes(s1, cmds[1..], fails[1..]) == s2;
  }

  /** Writes over three commands, one step at a time. */
  lemma WritesOfThree(s: StoreState, cmds: seq<Command>, fails: seq<bool>)
    requires |cmds| == 3 && |fails| == 3
    ensures Writes(s, cmds, fails) == Step(Step(Step(s, cmds[0], fails[0]), cmds[1], fails[1]), cmds[2], fails[2])
  {
    var s1 := Step(s, cmds[0], fails[0]);
    WritesOfTwo(s1, cmds[1..], fails[1..]);
  }

  /** One more write after a sequence of them. */
  lemma {:induction false} WritesAppendOne(s: StoreState, cmds: seq<Command>, fails: seq<bool>, c: Command, fail: bool)
    requires |cmds| == |fails|
    ensures Writes(s, cmds + [c], fails + [fail]) == Step(Writes(s, cmds, fails), c, fail)
    decreases |cmds|
  {
    if |cmds| == 0 {
      assert Writes(Step(s, c, fail), [], []) == Step(s, c, fail);
      assert [c][1..] == [] && [fail][1..] == [];
    } else {
      assert (cmds + [c])[1..] == cmds[1..] + [c];
      assert (fails + [fail])[1..] == fails[1..] + [fail];
      WritesAppendOne(Step(s, cmds[0], fails[0]), cmds[1..], fails[1..], c, fail);
    }
  }

  /** `response_from_origin_without_vary`: an origin failure leaves the store alone; otherwise the entry and its
    * time to live are written under `cacheKey`, each failing silently, and the response is rebuilt and tagged MISS. */
  method ResponseFromOriginWithoutVary(req: HttpRequest, origin: HttpRequest -> Option<HttpResponse>, codec: Codec,
                                       store: Store, cacheKey: string, faults: Faults)
    returns (r: Result<HttpResponse, ProxyError>)
    requires store.Valid()
    modifies store
    ensures store.Valid()
    ensures MissEffect(old(store.log), old(store.State()), store.log, store.State(), req, origin, r,
                       NoVaryMissCommands(cacheKey, OriginAnswer(req, origin), codec),
                       [faults.setEntry, faults.expireEntry])
  {
    var answer := origin(req);
    if answer.None? {
      return Failure(OriginRequest);
    }
    var pr := FromResp(answer.value);
    StoreEntry(store, cacheKey, codec.encode(pr), faults);
    r := RebuildAndTag(pr, StatusMiss);
  }

  /** `response_from_origin_without_cache`: the origin's answer as it is, tagged DYNAMIC; the store is not used. */
  function ResponseFromOriginWithoutCache(req: HttpRequest, origin: HttpRequest -> Option<HttpResponse>)
    : (r: Result<HttpResponse, ProxyError>)
    ensures r.Success? <==> origin(req).Some?
    ensures r.Failure? ==> r.error == OriginRequest
    ensures r.Success? ==> AddHeader(origin(req).value, CacherStatus, Some(StatusDynamic)) == r
  {
    match origin(req)
    case None => Failure(OriginRequest)
    case Some(w) =>
      StatusMarkerApplies(w, StatusDynamic);
      AddHeader(w, CacherStatus, Some(StatusDynamic))
  }

  /** The request as forwarded: its URI replaced by the backend base and its own path and query. */
  function Forwarded(req: HttpRequest, config: Config, backend: Backend): (r: Option<HttpRequest>)
    ensures r.Some? <==> backend.parseUri(GetProxyUri(req, config.backendHost)).Some?
    ensures r.Some? ==> r.value.uri == backend.parseUri(GetProxyUri(req, config.backendHost)).value
    ensures r.Some? ==> r.value.httpMethod == req.httpMethod && r.value.version == req.version
                        && r.value.headers == req.headers && r.value.body == req.body
  {
    match backend.parseUri(GetProxyUri(req, config.backendHost))
    case None => None
    case Some(uri) => Some(req.(uri := uri))
  }

  /** Where a path's Vary registration is kept: the path in lower case. */
  function RegistrationKey(req: HttpRequest): (r: string)
    ensures |r| == |req.uri.path| && HasNoUpper(r)
    ensures HasNoUpper(req.uri.path) ==> r == req.uri.path
  {
    AsciiLowerFixes(req.uri.path);
    AsciiLower(req.uri.path)
  }

  /** The registered Vary text of the request's path, "" when none is stored. */
  function Registration(entries: map<string, string>, req: HttpRequest): string {
    var k := RegistrationKey(req);
    if k in entries then entries[k] else ""
  }

  /** The key the handler looks the request up under, given what the store holds. */
  ghost function LookupKey(config: Config, entries: map<string, string>, req: HttpRequest): (r: string)
    ensures !config.handleVary ==> r == NoVaryKey(req)
    ensures config.handleVary && Registration(entries, req) == "" ==> r == NativePrefix(req)
  {
    EmptyVaryIsNativePrefix(req);
    if config.handleVary then NativeVaryKey(Registration(entries, req), req) else NoVaryKey(req)
  }

  /** The request's Cache-Control as the handler reads it: a missing header gives the empty set, never an error. */
  function RequestCacheControl(req: HttpRequest): (d: RequestDirectives)
    ensures "cache-control" !in req.headers ==> d == NoRequestDirectives
    ensures "cache-control" in req.headers ==> Success(d) == ParseRequestDirectives(req)
  {
    match ParseRequestDirectives(req)
    case Success(d) => d
    case Failure(_) => NoRequestDirectives
  }

  /** The answer's Cache-Control as the handler reads it after a miss, with the same fallback. */
  function ResponseCacheControl(resp: HttpResponse): (d: ResponseDirectives)
    ensures "cache-control" !in resp.headers ==> d == NoResponseDirectives
    ensures "cache-control" in resp.headers ==> Success(d) == ParseResponseDirectives(resp)
  {
    match ParseResponseDirectives(resp)
    case Success(d) => d
    case Failure(_) => NoResponseDirectives
  }

  /** `ProxyState`: the store behind the pool, the configuration and what lies beyond the proxy. */
  class ProxyState {
    const store: Store
    const config: Config
    const backend: Backend

    constructor (store: Store, config: Config, backend: Backend)
      ensures this.store == store && this.config == config && this.backend == backend
    {
      this.store, this.config, this.backend := store, config, backend;
    }

    /** The `proxy` handler. A pool checkout failure, an unparsable forwarded URI, and a failed registration read
      * or lookup fail the request and leave the store alone. A stored entry is served HIT without writing;
      * otherwise the miss path that matches `handle_vary` fetches, stores and answers MISS. */
    method Proxy(req: HttpRequest, faults: Faults) returns (r: Result<HttpResponse, ProxyError>)
      requires store.Valid()
      modifies store
      ensures store.Valid()
      ensures faults.checkout ==> r == Failure(PoolCheckout) && unchanged(store)
      ensures !faults.checkout && Forwarded(req, config, backend).None? ==> r == Failure(InvalidUri) && unchanged(store)
      ensures !faults.checkout && Forwarded(req, config, backend).Some? ==>
        var target := Forwarded(req, config, backend).value;
        var key := LookupKey(config, old(store.entries), target);
        (config.handleVary && faults.varyRead ==> r == Failure(StoreRead) && unchanged(store))
        && (!(config.handleVary && faults.varyRead) && faults.lookup ==> r == Failure(StoreRead) && unchanged(store))
        && (!(config.handleVary && faults.varyRead) && !faults.lookup ==>
              (key in old(store.entries) ==> unchanged(store) && HitOutcome(backend.codec, old(store.entries)[key], r))
              && (key !in old(store.entries) && config.handleVary ==>
                    target.uri.scheme.None? ==> r == Failure(SchemeMissing) && unchanged(store))
              && (key !in old(store.entries) && config.handleVary && target.uri.scheme.Some? ==>
                    MissEffect(old(store.log), old(store.State()), store.log, store.State(), target, backend.origin, r,
                               VaryMissCommands(RegistrationKey(target), FromRequest(target), OriginAnswer(target, backend.origin), backend.codec),
                               [faults.setEntry, faults.expireEntry, faults.setVary]))
              && (key !in old(store.entries) && !config.handleVary ==>
                    MissEffect(old(store.log), old(store.State()), store.log, store.State(), target, backend.origin, r,
                               NoVaryMissCommands(key, OriginAnswer(target, backend.origin), backend.codec),
                               [faults.setEntry, faults.expireEntry])))
    {
      if faults.checkout {
        return Failure(PoolCheckout);
      }
      var uri := backend.parseUri(GetProxyUri(req, config.backendHost));
      if uri.None? {
        return Failure(InvalidUri);
      }
      var target := req.(uri := uri.value);
      var requestDirectives := RequestCacheControl(target);
      var varyKey := AsciiLower(target.uri.path);
      var cacheKey: string;
      if config.handleVary {
        var registration := store.Get(varyKey, faults.varyRead);
        if registration.Failure? {
          return Failure(registration.error);
        }
        var varyContent := registration.value.GetOr("");
        var k := NewFromNative(varyContent, target);
        cacheKey := VaryGet(k);
      } else {
        cacheKey := NoVaryGet(NoVaryFrom(target));
      }
      var cached := store.Get(cacheKey, faults.lookup);
      if cached.Failure? {
        return Failure(cached.error);
      }
      if cached.value.Some? {
        r := ResponseFromCache(cached.value.value, backend.codec);
      } else {
        if config.handleVary {
          r := ResponseFromOriginWithVary(target, backend.origin, backend.codec, store, varyKey, faults);
        } else {
          r := ResponseFromOriginWithoutVary(target, backend.origin, backend.codec, store, cacheKey, faults);
        }
        if r.Success? {
          var responseDirectives := ResponseCacheControl(r.value);
        }
      }
    }
  }

  /** The stored form of the origin's answer to `req`, the empty response when the origin fails. */
  function OriginAnswer(req: HttpRequest, origin: HttpRequest -> Option<HttpResponse>): ProxyResponse {
    match origin(req)
    case None => ProxyResponse(0, "", map[], "")
    case Some(w) => FromResp(w)
  }

  /** What a miss did, from the store's log and state before (`log0`, `s0`) to after (`log1`, `s1`): an origin
    * failure wrote nothing and fails the request; an answer led to the writes `cmds`, each taking effect unless it
    * failed, and then to serving or refusing the answer MISS. */
  ghost predicate MissEffect(log0: seq<Command>, s0: StoreState, log1: seq<Command>, s1: StoreState,
                             req: HttpRequest, origin: HttpRequest -> Option<HttpResponse>,
                             r: Result<HttpResponse, ProxyError>, cmds: seq<Command>, fails: seq<bool>)
    requires |cmds| == |fails|
  {
    (origin(req).None? ==> r == Failure(OriginRequest) && log1 == log0 && s1 == s0)
    && (origin(req).Some? ==>
          log1 == log0 + cmds && s1 == Writes(s0, cmds, fails) && ServedOrRefused(FromResp(origin(req).value), r, StatusMiss))
  }

  /** A HIT on the stored form of an origin answer that survives storage is that answer, tagged HIT. */
  lemma HitServesOriginAnswer(w: HttpResponse, resp: HttpResponse)
    requires Storable(w) && Served(FromResp(w), resp, StatusHit)
    ensures AddHeader(w, CacherStatus, Some(StatusHit)) == Success(resp)
  {
    var w' :| RebuiltFrom(FromResp(w), w') && AddHeader(w', CacherStatus, Some(StatusHit)) == Success(resp);
    ReconstructAfterFromResp(w, w');
  }

  /** After a miss without Vary whose writes all succeed, the key holds the encoded answer with the entry's time to
    * live, and decoding it gives the answer back. */
  lemma NoVaryMissThenHit(s: StoreState, key: string, pr: ProxyResponse, codec: Codec)
    requires RoundTrips(codec)
    ensures var s' := Writes(s, NoVaryMissCommands(key, pr, codec), [false, false]);
      key in s'.entries && codec.decode(s'.entries[key]) == Some(pr) && key in s'.ttl && s'.ttl[key] == EntryTtl
  {
    WritesOfTwo(s, NoVaryMissCommands(key, pr, codec), [false, false]);
    SetThenExpire(s, key, codec.encode(pr), EntryTtl);
  }

  /** After a miss with Vary whose writes all succeed, the next identical request finds the entry: the handler
    * reads back the registered Vary text and the live request gives the key the snapshot gave, provided the
    * registration key and the entry key differ, the answer's Vary names are lower-case, and each header it names
    * has a single value. */
  lemma VaryMissThenHit(s: StoreState, target: HttpRequest, pr: ProxyResponse, codec: Codec, backendHost: string)
    requires RoundTrips(codec) && target.uri.scheme.Some?
    requires forall n :: n in VaryNames(VaryText(pr)) ==> HasNoUpper(n)
    requires forall n :: n in VaryNames(VaryText(pr)) && n in target.headers ==> |target.headers[n]| == 1
    requires RegistrationKey(target) != SnapshotVaryKey(VaryText(pr), FromRequest(target))
    ensures var s' := Writes(s, VaryMissCommands(RegistrationKey(target), FromRequest(target), pr, codec), [false, false, false]);
      var key := LookupKey(Config(backendHost, true), s'.entries, target);
      key in s'.entries && codec.decode(s'.entries[key]) == Some(pr)
  {
    var varyKey := RegistrationKey(target);
    var key := SnapshotVaryKey(VaryText(pr), FromRequest(target));
    var cmds := VaryMissCommands(varyKey, FromRequest(target), pr, codec);
    assert cmds == NoVaryMissCommands(key, pr, codec) + [Command.Set(varyKey, VaryText(pr))];
    VaryWritesStore(s, key, varyKey, VaryText(pr), pr, codec);
    var s' := Writes(s, cmds, [false, false, false]);
    assert Registration(s'.entries, target) == VaryText(pr);
    SnapshotMatchesNative(VaryText(pr), target);
  }

  /** The three writes of a miss with Vary leave the entry and the registration both readable. */
  lemma VaryWritesStore(s: StoreState, key: string, varyKey: string, text: string, pr: ProxyResponse, codec: Codec)
    requires RoundTrips(codec) && varyKey != key
    ensures var s' := Writes(s, NoVaryMissCommands(key, pr, codec) + [Command.Set(varyKey, text)], [false, false, false]);
      key in s'.entries && codec.decode(s'.entries[key]) == Some(pr) && varyKey in s'.entries && s'.entries[varyKey] == text
  {
    var cmds := NoVaryMissCommands(key, pr, codec) + [Command.Set(varyKey, text)];
    WritesOfThree(s, cmds, [false, false, false]);
    SetThenExpire(s, key, codec.encode(pr), EntryTtl);
  }

  /** A miss never fails after the origin answered: what `from_resp` stores can always be rebuilt, so the
    * error paths after the writes are unreachable. */
  lemma MissAfterAnswerSucceeds(log0: seq<Command>, s0: StoreState, log1: seq<Command>, s1: StoreState,
                                req: HttpRequest, origin: HttpRequest -> Option<HttpResponse>,
                                r: Result<HttpResponse, ProxyError>, cmds: seq<Command>, fails: seq<bool>)
    requires |cmds| == |fails| && origin(req).Some?
    requires MissEffect(log0, s0, log1, s1, req, origin, r, cmds, fails)
    ensures r.Success? && Served(FromResp(origin(req).value), r.value, StatusMiss)
  {
    FromRespReconstructible(origin(req).value);
  }
}
