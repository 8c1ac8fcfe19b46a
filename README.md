# cacher — a verified model of a caching reverse proxy

cacher is a small caching reverse proxy written in Rust. For each GET request it does the following:

- It rewrites the request's target onto a backend base URL.
- It derives a cache key for the request.
- It looks the key up in Redis.
- When the key holds a stored response, it answers with it, tagged `cacher_status: HIT`.
- Otherwise it forwards the request to the origin and stores the answer with a 5-second time to live. The stored form is a normalised `ProxyResponse` serialised to JSON. It then answers tagged `MISS`.
- With Vary handling switched on, the key also covers the values of the headers named by the last `Vary` the origin sent for that path. That `Vary` text is registered in the store under the lower-cased path.

This project models that core in Dafny and proves properties of the model:

- **Cache-Control recognisers** (`CacheControl`). They split the header on commas, trim each token, and record for each directive the lower-cased first token that starts with its name. Unknown tokens are ignored, and a missing header is an error.
- **Cache keys** (`Cache`).
  - The no-vary key is a plain concatenation.
  - The Vary-aware key is a prefix followed by header values in ascending order of header name. It can be built from the live request or from the snapshot taken before forwarding.
  - The fill loops and the ordered concatenation loop are methods proved against specification functions.
- **Request snapshot and backend rewrite** (`ProxyRequests`).
- **Version tables** (`Helpers`).
- **Response normalisation and reconstruction** (`ProxyResponses`). Reconstruction is a method that visits the entries of a hash map in an unspecified order and stops at the first invalid name or value.
- **Orchestration** (`Proxy`). It covers `add_header`, the HIT path, the two MISS paths, the bypass path, and the `proxy` handler as a method of the `ProxyState` class over a `Store` object.
- **The Redis store** (`Stores`). A class holds the entries, a recorded time to live per key, and the log of write commands it was sent. GET, SET and EXPIRE follow Redis semantics.

## Supporting modules

- `Strings`: `str::split`, `str::trim` (Unicode White_Space), ASCII lower-casing, the ordering of Rust `String` that `BTreeMap` iterates in, and decimal rendering.
- `Utf8`: UTF-8 encoding and decoding following RFC 3629, which is the check `String::from_utf8` performs, with both round trips proved.
- `Http`: the values of the `http` crate the core reads:
  - header names are tokens of section 5.6.2 of RFC 9110, folded to lower case;
  - a header value may be any byte except a control byte, tab excepted;
  - `to_str` accepts only visible ASCII;
  - a header map is a multimap with case-insensitive `get`.

## External behaviour taken as parameters

- The origin behind the hyper client is a function from request to optional response. None means the request failed.
- `Uri::try_from` is a function from text to an optional URI, seen through the accessors the core calls.
- `serde_json` is a `Codec` (an encode/decode pair). Its round trip is a hypothesis of the lemmas that need it, not an axiom.
- The configuration (`backend_host`, `handle_vary`) is a `Config` value.
- Which store operations fail is a `Faults` value, with one flag per operation.

## Surprising behaviour of the code

- **The no-vary key uses the URI's full display text, not its path and query** (src/cache/mod.rs:30,32). After the rewrite at src/main.rs:80 that text is absolute, so `GET http://host/a` keys as `GET_http://hosthttp://host/a`: the scheme and host appear twice. `Cache.NoVaryKeyOfAbsoluteTarget` states this.
- **The snapshot lookup is case-sensitive, while the live lookup is case-insensitive** (src/cache/mod.rs:64 against 85). The snapshot's names are lower-case. So a `Vary` that names a header in its usual capitalised spelling can give the two builders different keys. `Cache.CapitalisedVaryKeysAgreeIff` shows that for `Accept-Language` the two keys agree exactly when the request's Accept-Language text is empty (absent, opaque, or an empty value). A response stored after a Vary miss is therefore not found again by a request that carries a non-empty Accept-Language; `Cache.CapitalisedVaryNameDisagrees` is one such request.
- **Reconstruction can only fail on a corrupted stored entry.** `from_resp` produces only valid statuses, canonical names, and visible-ASCII or empty values. So reconstruction on a MISS never fails (`ProxyResponses.FromRespReconstructible`, `Proxy.MissAfterAnswerSucceeds`), and the error path after the store writes of a miss cannot be reached.

## Model

| member | source | states |
|---|---|---|
| Strings.SplitJoin | src/cache/cache_control.rs:42 | the pieces `split(',')` yields, joined back with the separator, give the original text: nothing is lost or reordered |
| Strings.TrimIsInfix | src/cache/cache_control.rs:42 | `trim` keeps a contiguous part of the text and removes only whitespace before and after it |
| Strings.Trim | src/cache/mod.rs:59 | a trimmed token neither starts nor ends with whitespace |
| Strings.TrimStart | src/cache/cache_control.rs:42 | drops exactly the leading whitespace: the rest is a suffix that does not start with whitespace |
| Strings.TrimEnd | src/cache/cache_control.rs:42 | drops exactly the trailing whitespace: the rest is a prefix that does not end with whitespace |
| Strings.DecimalRoundTrip | src/proxy_request/request.rs:26 | the decimal text of a port reads back as the same number |
| Utf8.DecodeEncode | src/proxy_response/response.rs:67 | every string's UTF-8 bytes decode back to the string |
| Utf8.EncodeDecode | src/proxy_response/response.rs:67 | bytes that decode are exactly the encoding of the decoded text |
| Http.ParseHeaderName | src/proxy_response/response.rs:49 | a name is accepted exactly when it is a non-empty token; the result is its lower-case form, and an already canonical name is returned unchanged |
| Http.ParseLowercaseHeaderName | src/proxy/mod.rs:18 | a name is accepted exactly when it is a lower-case token, and is then returned unchanged |
| Http.ToStr | src/proxy_request/request.rs:28 | a value reads as text exactly when it is visible ASCII, and that text's bytes are the value |
| Http.Get | src/cache/mod.rs:85 | a header is found exactly when the name is valid and its lower-case form is present; the result is the first value under it |
| Helpers.HttpVersionAsStr | src/proxy/helpers.rs:3-12 | the text is always one of the five version texts |
| Helpers.GetHttpVersion | src/proxy/helpers.rs:15-24 | any text other than the five maps to HTTP/1.1 |
| Helpers.VersionRoundTrip | src/proxy/helpers.rs:3-24 | each version survives the trip through its text |
| Helpers.VersionTextRoundTrip | src/proxy/helpers.rs:3-24 | a known version text survives the trip through the version; any other text comes back as "HTTP/1.1" |
| Strings.Split | src/cache/cache_control.rs:42 | `split(',')` yields at least one piece, and no piece contains the separator |
| CacheControl.FirstWithPrefix | src/cache/cache_control.rs:43 | a found token is lower-case and starts with the lower-cased directive name |
| CacheControl.RequestDirectivesFrom | src/cache/cache_control.rs:43-50 | every request field that is present is lower-case text; no tokens give the empty directive set |
| CacheControl.ResponseDirectivesFrom | src/cache/cache_control.rs:67-79 | every response field that is present is lower-case text; no tokens give the empty directive set |
| CacheControl.FirstMatch | src/cache/cache_control.rs:43 | the result is present exactly when some token starts with the name, and is then the lower-cased first such token |
| CacheControl.RequestDirectivesMatch | src/cache/cache_control.rs:42-51 | each of the 8 request fields is the lower-cased first token that starts with its directive name, or absent when none does |
| CacheControl.ResponseDirectivesMatch | src/cache/cache_control.rs:66-80 | each of the 13 response fields is the lower-cased first token that starts with its directive name, or absent when none does |
| CacheControl.CacheControlText | src/cache/cache_control.rs:40 | the header text is present exactly when the header is; an opaque value reads as "" |
| CacheControl.ParseRequestDirectives | src/cache/cache_control.rs:38-56 | fails exactly when the request has no cache-control header, and then with that error |
| CacheControl.ParsedRequestFields | src/cache/cache_control.rs:38-56 | with the header present, the parse succeeds and every field is the first prefix match over the trimmed comma-separated tokens |
| CacheControl.ParseResponseDirectives | src/cache/cache_control.rs:62-85 | fails exactly when the response has no cache-control header, and then with that error |
| CacheControl.ParsedResponseFields | src/cache/cache_control.rs:62-85 | with the header present, the parse succeeds and every field is the first prefix match over the trimmed comma-separated tokens |
| CacheControl.OpaqueRequestHeaderParsesEmpty | src/cache/cache_control.rs:40-42 | a request Cache-Control header that is present but not visible ASCII parses successfully with every field absent |
| CacheControl.OpaqueResponseHeaderParsesEmpty | src/cache/cache_control.rs:64-66 | the same for a response Cache-Control header |
| CacheControl.PrivateXYZ | src/cache/cache_control.rs:75 | the token `privateXYZ` sets `private` to `privatexyz`: the match is by prefix and lower-casing comes after it |
| CacheControl.PrefixMatches | src/cache/cache_control.rs:64-75 | a response whose cache-control is `privateXYZ` parses with `private` set to `privatexyz` |
| CacheControl.MaxAgeCapitalised | src/cache/cache_control.rs:43 | the token `Max-Age=5` leaves `max-age` absent: the match is case-sensitive |
| CacheControl.CaseSensitive | src/cache/cache_control.rs:40-51 | a request whose cache-control is `Max-Age=5` parses with `max-age` absent |
| CacheControl.FirstWithPrefixRecognised | src/cache/cache_control.rs:43-50 | for a recognised name, dropping the unrecognised tokens does not change its first prefix match |
| CacheControl.UnrecognisedIgnored | src/cache/cache_control.rs:43-51 | dropping every token that no recognised name prefixes gives the same directive sets |
| ProxyRequests.PortText | src/proxy_request/request.rs:26 | the port text is present exactly when the port is, is all digits, and reads back as the port |
| ProxyRequests.FromRequest | src/proxy_request/request.rs:20-30 | the snapshot has the scheme, the host or "", the port text, and path-and-query falling back to the URI text; it keeps the request's header names in lower case, each with the text of its last value or "" |
| ProxyRequests.GetProxyUri | src/proxy_request/request.rs:39-47 | the backend base followed verbatim by the path and query, or by the path when there is none |
| Cache.AcceptLanguage | src/cache/mod.rs:26 | the first Accept-Language value as text; "" when the header is absent or not visible ASCII |
| Cache.KeyPrefix | src/cache/mod.rs:30-32 | the key text starts with the method and `_`; its length is that of the parts plus the separators `_` and `://`, and one `:` more before a port |
| Cache.NoVaryFrom | src/cache/mod.rs:25-34 | the no-vary key starts with the method and `_`, is longer than the URI's full text and the Accept-Language text together, and ends with the Accept-Language text |
| Cache.NoVaryKeySeparatesTargets | src/cache/mod.rs:29-33 | with method, scheme, host, port and Accept-Language fixed, two requests share a no-vary key exactly when their URI texts are equal |
| Cache.NoVaryKeyCollides | src/cache/mod.rs:29-33 | the key is a plain concatenation: `/ab` without Accept-Language and `/a` with Accept-Language `b` share it |
| Cache.NoVaryKeyOfAbsoluteTarget | src/cache/mod.rs:30-32 | `GET http://host/a` without a port or Accept-Language keys as `GET_http://hosthttp://host/a` |
| Cache.SnapshotLookup | src/cache/mod.rs:63-64 | a name is looked up exactly as spelled: the stored text when present, else ""; a name with an upper-case letter is never found among lower-case names |
| Cache.NativeLookup | src/cache/mod.rs:85 | a non-empty result comes from the first value under the lower-cased name, and a visible-ASCII first value is always read |
| Cache.SnapshotPrefix | src/cache/mod.rs:54-58 | the snapshot's key start begins with the method and `_`, and ends with the snapshot's path and query |
| Cache.NativePrefix | src/cache/mod.rs:71-80 | the live key start begins with the method and `_`, and ends with the path and query (the URI text when there is none) |
| Cache.CollectFromProxy | src/cache/mod.rs:61-66 | the insert loop leaves one entry per listed name, holding the snapshot's value or "" |
| Cache.CollectFromNative | src/cache/mod.rs:83-87 | the insert loop leaves one entry per listed name, holding the live request's value or "" |
| Cache.NewFromProxy | src/cache/mod.rs:53-68 | the key start is built from the snapshot, and the map has one entry per trimmed Vary name, holding the snapshot's value |
| Cache.NewFromNative | src/cache/mod.rs:70-89 | the key start is built from the live request with path and query, and the map has one entry per trimmed Vary name, holding the live value |
| Cache.VaryGet | src/cache/mod.rs:45-49 | the key is the start followed by the map's values in ascending order of name |
| Cache.ValuesInAscendingOrder | src/cache/mod.rs:44-50 | for any strictly ascending list of the map's names, the ordered concatenation is the values under those names one after another, with no names between them |
| Cache.VaryOrderIrrelevant | src/cache/mod.rs:59-66 | two Vary texts that list the same names, in any order and with any repetition, give the same key from both builders |
| Cache.VaryPermutationIrrelevant | src/cache/mod.rs:81-87 | permuting the comma-separated names of a Vary text leaves both keys unchanged |
| Cache.EmptyVaryIsPrefix | src/cache/mod.rs:59-66 | an empty Vary text gives the key start alone |
| Cache.EmptyVaryIsNativePrefix | src/cache/mod.rs:81-87 | an empty Vary text gives the live key start alone, whatever the request's headers |
| Cache.SnapshotMatchesNative | src/cache/mod.rs:53-89 | the snapshot builder agrees with the live builder when every Vary name is lower-case and each named header has one value |
| Cache.CapitalisedVaryKeysAgreeIff | src/cache/mod.rs:64-85 | with Vary `Accept-Language`, the live key and the snapshot key agree exactly when the request's Accept-Language text is empty |
| Cache.CapitalisedVaryNameDisagrees | src/cache/mod.rs:64 | with Vary `Accept-Language` and a request carrying it, the live key and the snapshot key differ |
| Cache.SnapshotPrefixMatches | src/cache/mod.rs:54-58 | the snapshot's key start equals the live request's |
| Cache.NativeKeyOfAcceptLanguage | src/cache/mod.rs:85 | the live builder finds a capitalised Vary name case-insensitively |
| Cache.SnapshotKeyOfAcceptLanguage | src/cache/mod.rs:64 | the snapshot builder misses a capitalised Vary name and contributes "" |
| ProxyResponses.BodyAsString | src/proxy_response/response.rs:65-69 | succeeds exactly when the body reads completely and its bytes are valid UTF-8; a read failure and invalid UTF-8 are their errors; decoded text encodes back to exactly the body's bytes |
| ProxyResponses.BodyText | src/proxy_response/response.rs:32 | a body that reads and decodes gives text encoding to exactly its bytes; any other body gives "" |
| ProxyResponses.FromResp | src/proxy_response/response.rs:27-34 | keeps the status, maps the version to its text, and keeps each header name with the text of its last value, or "" when that value is opaque; the body text encodes to exactly the body's bytes when the body reads completely and is valid UTF-8, and is "" otherwise |
| ProxyResponses.Reconstruct | src/proxy_response/response.rs:40-54 | succeeds exactly when the status and every name and value are valid; an invalid status gives its error first, otherwise the error is a name or value error; a success carries the status, the mapped version, the body bytes, and one value per lower-cased name from an entry with that name |
| ProxyResponses.FromRespReconstructible | src/proxy_response/response.rs:27-54 | whatever `from_resp` produces can be reconstructed |
| ProxyResponses.RebuiltUnique | src/proxy_response/response.rs:48-50 | with lower-case names, every visiting order rebuilds the same response |
| ProxyResponses.FromRespRoundTrip | src/proxy_response/response.rs:27-54 | a response with single-valued visible-ASCII headers and a UTF-8 body is rebuilt exactly from its normalised form |
| ProxyResponses.ReconstructAfterFromResp | src/proxy_response/response.rs:27-54 | for such a response, whatever order reconstruction visits the entries in, it gives back the response |
| Stores.Apply | src/proxy/mod.rs:48-50 | a command keeps the store's invariant and leaves every other key's value and time to live untouched |
| Stores.Writes | src/proxy/mod.rs:48-50 | a sequence of writes, each of which may fail, keeps the invariant and leaves the value and the time to live of every key it does not name untouched |
| Stores.Step | src/proxy/mod.rs:69 | one write, applied or lost, keeps the invariant |
| Stores.SetThenExpire | src/proxy/mod.rs:69-70 | after SET then EXPIRE, the key holds the value with that time to live |
| Stores.ExpireLostKeepsForever | src/proxy/mod.rs:70 | when the EXPIRE after a SET fails, the value stays with no time to live |
| Stores.FailedWritesChangeNothing | src/proxy/mod.rs:48-50 | writes that all fail leave the store as it was |
| Stores.Store.Get | src/main.rs:110 | a failing read is an error; otherwise the stored value, or None exactly when the key is absent |
| Stores.Store.Set | src/proxy/mod.rs:69 | the command is logged; the state is SET's effect, or unchanged when the write fails |
| Stores.Store.Expire | src/proxy/mod.rs:70 | the command is logged; the state is EXPIRE's effect, or unchanged when the write fails |
| Proxy.Append | src/proxy/mod.rs:19 | the name gains one value after its existing ones, and every other name is unchanged |
| Proxy.AddHeader | src/proxy/mod.rs:16-24 | fails without a value, then on a name that is not a lower-case token, then on an invalid value; otherwise it succeeds, its headers are the old ones with the value appended under the name, and status, version and body are kept |
| Proxy.AddHeaderAppends | src/proxy/mod.rs:19 | after appending, every name reads as before; a name that was absent and matches the key reads as the new value |
| Proxy.StatusMarkerApplies | src/proxy/mod.rs:29 | tagging with HIT, MISS or DYNAMIC never fails |
| Proxy.RebuildAndTag | src/proxy/mod.rs:52-53 | the result is a tagged rebuild exactly when the stored form can be rebuilt, and otherwise a reconstruction error |
| Proxy.ResponseFromCache | src/proxy/mod.rs:26-31 | undecodable text is a decode error; otherwise the decoded form is rebuilt and tagged HIT, or refused with a reconstruction error |
| Proxy.ResponseFromOriginWithVary | src/proxy/mod.rs:33-56 | without a scheme or without an answer, the store is untouched. Otherwise it issues, in order, the entry under the snapshot/Vary key, EXPIRE 5, and the Vary text under the registration key, each failure ignored, then rebuilds and tags MISS |
| Proxy.StoreVaryAnswer | src/proxy/mod.rs:42-50 | logs and applies the entry under the key from the snapshot and the answer's Vary text (default ""), EXPIRE 5, then the Vary registration |
| Proxy.VaryText | src/proxy/mod.rs:42 | the stored `vary` entry looked up exactly as spelled, "" when absent |
| Proxy.StoreEntry | src/proxy/mod.rs:69-70 | logs SET then EXPIRE 5 for the key, and the state is their effect, each unless it failed |
| Proxy.WritesAppendOne | src/proxy/mod.rs:48-50 | issuing one more write is applying it to the state the earlier writes left |
| Proxy.ResponseFromOriginWithoutVary | src/proxy/mod.rs:59-76 | without an answer the store is untouched; otherwise SET and EXPIRE 5 under the key are issued, each failure ignored, and the answer is rebuilt and tagged MISS |
| Proxy.ResponseFromOriginWithoutCache | src/proxy/mod.rs:78-85 | succeeds exactly when the origin answers; the answer is tagged DYNAMIC, and an origin failure is an origin error |
| Proxy.Forwarded | src/main.rs:79-80 | the rewrite succeeds exactly when the URI parser accepts the proxy URI; only the URI changes, to the parsed one |
| Proxy.RegistrationKey | src/main.rs:101 | the registration key has the path's length and no upper-case letter, and is the path itself when that has none |
| Proxy.LookupKey | src/main.rs:101-108 | with Vary handling off, the no-vary key; with it on and nothing registered, the live key start alone |
| Proxy.VaryWritesStore | src/proxy/mod.rs:48-50 | after the three writes of a Vary miss succeed, the entry decodes to the answer and the registration holds the Vary text |
| Proxy.RequestCacheControl | src/main.rs:83 | a missing request Cache-Control gives the empty directive set, never an error |
| Proxy.ResponseCacheControl | src/main.rs:125 | a missing response Cache-Control gives the empty directive set, never an error |
| Proxy.ProxyState.Proxy | src/main.rs:71-129 | a failed checkout, an unparsable forwarded URI, or a failed registration read or lookup fails with its error and leaves the store untouched; a stored key gives the HIT outcome without writing; an absent key takes the miss path `handle_vary` selects, with the writes it issues; the lookup key is the Vary-aware key from the lower-cased path's registration, or the no-vary key |
| Proxy.HitServesOriginAnswer | src/proxy/mod.rs:26-31 | a HIT on the stored form of a storable answer is that answer tagged HIT |
| Proxy.NoVaryMissThenHit | src/main.rs:107-121 | after a no-vary miss whose writes succeed, the key holds the encoded answer with time to live 5, and it decodes to the answer |
| Proxy.VaryMissThenHit | src/main.rs:101-121 | after a Vary miss whose writes succeed, an identical request finds the entry (lower-case, single-valued Vary names) |
| Proxy.MissAfterAnswerSucceeds | src/proxy/mod.rs:52-53 | once the origin has answered, a miss always succeeds and serves the answer tagged MISS |

## Left out

- The `main()` bootstrap, routing, tracing, timing and the Redis pool (src/main.rs:45-69, 72-76, 132-136): process plumbing with no effect on results.
- `CacherConfig` (src/config/mod.rs) is not part of this model. The backend base and the Vary switch are a `Config` parameter.
- The error envelope (src/error/mod.rs) is not part of this model. Failures are `Failure` values of one `ProxyError` type.
- Real time is not modelled. A time to live is recorded but never counts down, so expiry after 5 seconds is not modelled.
- Concurrent requests and the `async` framing are not modelled. Each request is one sequential run of the handler.
- The hyper client and the URI parser are parameters. Their behaviour, for example rejecting a URI, is whatever the parameter says.
- `serde_json` is an abstract codec. Its encode cannot fail in the model: the `?` on `to_string` (src/proxy/mod.rs:46,67) is not modelled, because serialising this struct of strings, a number and a string map does not fail.
- The `_` arm of `http_version_as_str` (src/proxy/helpers.rs:10) is unreachable, because the model's version type has exactly the five known versions.
- The `http` crate's limits on header-name length, and its other URI and header rules, are not modelled. Names are tokens of RFC 9110, and values are checked byte by byte.
- Proxy.ProxyState.Proxy: omits the bypass branch at src/main.rs:93-99. It is guarded by the constant `false` and can never run. `Proxy.ResponseFromOriginWithoutCache` models the function it would call.
- Proxy.ProxyState.Proxy: a request without a scheme makes `ProxyRequest::from` panic (src/proxy_request/request.rs:23). On the Vary miss path this is modelled as a `SchemeMissing` failure instead.
- Proxy.ProxyState.Proxy: the response Cache-Control parse after a miss (src/main.rs:125-126) is computed and discarded, as in the source. It only feeds logging.
- `CacheKey::get` for the no-vary key and `get_headers` return a field unchanged. They are modelled as `Cache.NoVaryGet` and `ProxyRequests.GetHeaders`, with no contract beyond their bodies.
