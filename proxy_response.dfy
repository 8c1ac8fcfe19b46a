/**
 * src/proxy_response/response.rs: the storable form of a response (`ProxyResponse`), taking it from an origin
 * response, rebuilding a response from it, and reading a body as UTF-8 text.
 */
module ProxyResponses {
  import opened Wrappers
  import opened Errors
  import opened Strings
  import opened Utf8
  import opened Http
  import opened Helpers

  type U16 = x: int | 0 <= x < 0x1_0000

  /** `ProxyResponse`: the numeric status, the version text, header names to value text, and the body text. */
  datatype ProxyResponse = ProxyResponse(status: U16, version: string, headers: map<string, string>, body: string)

  /** `get_response_body_as_string`: the body's bytes read to the end and decoded as UTF-8. */
  function BodyAsString(body: Body): (r: Result<string, ProxyError>)
    ensures body.ReadError? ==> r == Failure(BodyRead)
    ensures body.Complete? && Decode(body.bytes).None? ==> r == Failure(InvalidUtf8)
    ensures r.Success? <==> body.Complete? && Decode(body.bytes).Some?
    ensures r.Success? ==> body.Complete? && Encode(r.value) == body.bytes
  {
    match body
    case ReadError => Failure(BodyRead)
    case Complete(bytes) =>
      match Decode(bytes)
      case None => Failure(InvalidUtf8)
      case Some(text) => EncodeDecode(bytes); Success(text)
  }

  /** The text of a body that reads and decodes; every other body is the empty text. */
  function BodyText(body: Body): (r: string)
    ensures body.Complete? && Decode(body.bytes).Some? ==> Encode(r) == body.bytes
    ensures body.ReadError? || Decode(body.bytes).None? ==> r == ""
  {
    match BodyAsString(body)
    case Success(text) => text
    case Failure(_) => ""
  }

  /** `ProxyResponse::from_resp`: never fails; each header name keeps the text of its last value, an opaque value
    * becoming "", and a body that fails to read or to decode becoming "". */
  function FromResp(resp: HttpResponse): (pr: ProxyResponse)
    ensures pr.status == resp.status && pr.version == HttpVersionAsStr(resp.version)
    ensures pr.headers.Keys == resp.headers.Keys
    ensures forall n :: n in pr.headers ==>
      var vs := resp.headers[n];
      (IsVisibleAscii(vs[|vs| - 1]) ==> Encode(pr.headers[n]) == vs[|vs| - 1])
      && (!IsVisibleAscii(vs[|vs| - 1]) ==> pr.headers[n] == "")
    ensures BodyAsString(resp.body).Success? ==> Encode(pr.body) == resp.body.bytes
    ensures BodyAsString(resp.body).Failure? ==> pr.body == ""
    ensures resp.body.Complete? && Decode(resp.body.bytes).Some? ==> Encode(pr.body) == resp.body.bytes
    ensures resp.body.ReadError? || Decode(resp.body.bytes).None? ==> pr.body == ""
  {
    ProxyResponse(
      resp.status, HttpVersionAsStr(resp.version),
      map n | n in resp.headers :: TextOrEmpty(resp.headers[n][|resp.headers[n]| - 1]),
      BodyText(resp.body))
  }

  predicate IsStatus(code: int) {
    100 <= code < 1000
  }

  /** What `try_from` demands: a status `StatusCode::from_u16` accepts, every name a valid header name and
    * every value's bytes a valid header value. */
  predicate Reconstructible(pr: ProxyResponse) {
    IsStatus(pr.status)
    && forall k :: k in pr.headers ==> IsValidName(k) && IsValidValue(Encode(pr.headers[k]))
  }

  /** `w` is a response `try_from` may build from `pr`: its status, the mapped version, the body's bytes, and
    * for every lower-cased name one value taken from an entry carrying that name. When two entries differ only
    * in case, which one survives depends on the `HashMap`'s iteration order. */
  predicate RebuiltFrom(pr: ProxyResponse, w: HttpResponse) {
    w.status == pr.status && w.version == GetHttpVersion(pr.version) && w.body == Complete(Encode(pr.body))
    && w.headers.Keys == (set k | k in pr.headers :: AsciiLower(k))
    && forall n :: n in w.headers ==> exists k :: k in pr.headers && AsciiLower(k) == n && w.headers[n] == [Encode(pr.headers[k])]
  }

  /** After inserting the entries `done`: the header map holds one value per lower-cased name of `done`, taken
    * from an entry of `done` carrying that name. */
  predicate InsertedFrom(pr: ProxyResponse, done: set<string>, headers: map<string, seq<Bytes>>) {
    && headers.Keys == (set k | k in pr.headers && k in done :: AsciiLower(k))
    && forall n :: n in headers ==>
         exists k :: k in pr.headers && k in done && AsciiLower(k) == n && headers[n] == [Encode(pr.headers[k])]
  }

  /** Inserting one more pending entry keeps `InsertedFrom`. */
  lemma InsertOne(pr: ProxyResponse, pending: set<string>, headers: map<string, seq<Bytes>>, k: string)
    requires pending <= pr.headers.Keys && k in pending
    requires InsertedFrom(pr, pr.headers.Keys - pending, headers)
    ensures InsertedFrom(pr, pr.headers.Keys - (pending - {k}), headers[AsciiLower(k) := [Encode(pr.headers[k])]])
  {
    var done := pr.headers.Keys - pending;
    assert pr.headers.Keys - (pending - {k}) == done + {k};
    var h := headers[AsciiLower(k) := [Encode(pr.headers[k])]];
    assert h.Keys == (set j | j in pr.headers && j in done + {k} :: AsciiLower(j)) by {
      forall n ensures n in h.Keys <==> n in (set j | j in pr.headers && j in done + {k} :: AsciiLower(j)) {
        if n in headers.Keys && n != AsciiLower(k) {
          var j :| j in pr.headers && j in done && AsciiLower(j) == n;
        }
      }
    }
    forall n | n in h
      ensures exists j :: j in pr.headers && j in done + {k} && AsciiLower(j) == n && h[n] == [Encode(pr.headers[j])]
    {
      if n == AsciiLower(k) {
        assert k in done + {k};
      } else {
        var j :| j in pr.headers && j in done && AsciiLower(j) == n && headers[n] == [Encode(pr.headers[j])];
        assert j in done + {k};
      }
    }
  }

  /** `TryFrom<ProxyResponse> for Response`: the status is checked first; then the entries are inserted one by
    * one in the map's (unspecified) order, the first invalid name or value ending the loop with an error. */
  method Reconstruct(pr: ProxyResponse) returns (r: Result<HttpResponse, ProxyError>)
    ensures r.Success? <==> Reconstructible(pr)
    ensures !IsStatus(pr.status) ==> r == Failure(InvalidStatus)
    ensures r.Failure? && IsStatus(pr.status) ==> r.error == InvalidHeaderName || r.error == InvalidHeaderValue
    ensures r.Success? ==> RebuiltFrom(pr, r.value)
  {
    if !IsStatus(pr.status) {
      return Failure(InvalidStatus);
    }
    var headers: HeaderMap := map[];
    var pending := pr.headers.Keys;
    while pending != {}
      invariant pending <= pr.headers.Keys
      invariant forall k :: k in pr.headers && k !in pending ==> IsValidName(k) && IsValidValue(Encode(pr.headers[k]))
      invariant InsertedFrom(pr, pr.headers.Keys - pending, headers)
      decreases pending
    {
      var k :| k in pending;
      var name := ParseHeaderName(k);
      if name.None? {
        return Failure(InvalidHeaderName);
      }
      var value := Encode(pr.headers[k]);
      if !IsValidValue(value) {
        return Failure(InvalidHeaderValue);
      }
      InsertOne(pr, pending, headers, k);
      PutKeepsWellFormed(headers, name.value, value);
      headers := headers[name.value := [value]];
      pending := pending - {k};
    }
    r := Success(HttpResponse(pr.status, GetHttpVersion(pr.version), headers, Complete(Encode(pr.body))));
    assert pr.headers.Keys - pending == pr.headers.Keys;
  }

  /** `from_resp` only produces what `try_from` accepts: a valid status, canonical names, and values that are
    * visible ASCII or empty. */
  lemma FromRespReconstructible(w: HttpResponse)
    ensures Reconstructible(FromResp(w))
  {
    var pr := FromResp(w);
    forall k | k in pr.headers ensures IsValidName(k) && IsValidValue(Encode(pr.headers[k])) {
      var v := w.headers[k][|w.headers[k]| - 1];
      assert IsValidName(k) && IsValidValue(v);
      if !IsVisibleAscii(v) {
        assert Encode(pr.headers[k]) == [];
      }
    }
  }

  /** The response rebuilt from a `ProxyResponse` whose names are already lower-case. */
  function Rebuilt(pr: ProxyResponse): HttpResponse
    requires Reconstructible(pr)
    requires forall k :: k in pr.headers ==> HasNoUpper(k)
  {
    HttpResponse(pr.status, GetHttpVersion(pr.version), map k | k in pr.headers :: [Encode(pr.headers[k])],
                 Complete(Encode(pr.body)))
  }

  /** With lower-case names no two entries collide, so the iteration order does not matter: the rebuilt response
    * is unique. */
  lemma RebuiltUnique(pr: ProxyResponse, w: HttpResponse)
    requires Reconstructible(pr) && forall k :: k in pr.headers ==> HasNoUpper(k)
    requires RebuiltFrom(pr, w)
    ensures w == Rebuilt(pr)
  {
    forall k | k in pr.headers ensures AsciiLower(k) == k {
      AsciiLowerFixes(k);
    }
    var e := Rebuilt(pr);
    assert w.headers.Keys == e.headers.Keys;
    forall n | n in w.headers ensures w.headers[n] == e.headers[n] {
      var k :| k in pr.headers && AsciiLower(k) == n && w.headers[n] == [Encode(pr.headers[k])];
    }
    assert w.headers == e.headers;
  }

  /** What survives the trip through `ProxyResponse`: every header single-valued and visible ASCII,
    * the body complete UTF-8. */
  predicate Storable(w: HttpResponse) {
    (forall n :: n in w.headers ==> |w.headers[n]| == 1 && IsVisibleAscii(w.headers[n][0]))
    && w.body.Complete? && Decode(w.body.bytes).Some?
  }

  /** A stored header value encodes back to the single value it came from. */
  lemma StoredValueRoundTrip(w: HttpResponse, n: string)
    requires Storable(w) && n in w.headers
    ensures n in FromResp(w).headers && Encode(FromResp(w).headers[n]) == w.headers[n][0]
  {
  }

  /** `from_resp` followed by `try_from` gives back the response: status, version, headers and body. */
  lemma FromRespRoundTrip(w: HttpResponse)
    requires Storable(w)
    ensures Reconstructible(FromResp(w))
    ensures forall k :: k in FromResp(w).headers ==> HasNoUpper(k)
    ensures Rebuilt(FromResp(w)) == w
  {
    var pr := FromResp(w);
    StoredReconstructible(w);
    StoredHeadersRoundTrip(w);
    VersionRoundTrip(w.version);
    assert BodyAsString(w.body).Success?;
  }

  lemma StoredReconstructible(w: HttpResponse)
    requires Storable(w)
    ensures Reconstructible(FromResp(w))
    ensures forall k :: k in FromResp(w).headers ==> HasNoUpper(k)
  {
    var pr := FromResp(w);
    forall k | k in pr.headers ensures IsValidName(k) && IsValidValue(Encode(pr.headers[k])) {
      StoredValueRoundTrip(w, k);
    }
  }

  lemma StoredHeadersRoundTrip(w: HttpResponse)
    requires Storable(w)
    ensures (map k | k in FromResp(w).headers :: [Encode(FromResp(w).headers[k])]) == w.headers
  {
    var pr := FromResp(w);
    var h := map k | k in pr.headers :: [Encode(pr.headers[k])];
    assert h.Keys == w.headers.Keys;
    forall n | n in w.headers ensures h[n] == w.headers[n] {
      StoredValueRoundTrip(w, n);
      assert h[n] == [Encode(pr.headers[n])];
      assert |w.headers[n]| == 1;
    }
  }

  /** Whatever order `try_from` visits the entries in, a response that went through `from_resp` comes back
    * unchanged. */
  lemma ReconstructAfterFromResp(w: HttpResponse, w': HttpResponse)
    requires Storable(w) && RebuiltFrom(FromResp(w), w')
    ensures w' == w
  {
    FromRespRoundTrip(w);
    RebuiltUnique(FromResp(w), w');
  }
}
