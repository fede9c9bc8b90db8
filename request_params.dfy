/**
  `SxcApiRequestParams` (src/request_params.py): what a request sends. The
  credentials are injected into the payload of authenticated requests, and the
  headers carry an HMAC of the serialised payload. Serialisation (`json.dumps`)
  and the HMAC-SHA512 digest are parameters of the model; the nonce, which the
  source reads from the clock, is an argument.
*/
module RequestParams {

  import opened Wrappers
  import opened Http
  import opened Values

  type Payload = map<string, Value>
  type Headers = map<string, string>

  /** The `requests` function a request is sent with (the `method` field). */
  datatype HttpMethod = Get | Post

  /** The request parameters. A key is None when the client that built them holds
      None, as the older client does when it is given no keys. */
  datatype SxcApiRequestParams = SxcApiRequestParams(
    verb: HttpMethod,
    url: string,
    payload: Payload,
    authRequired: bool,
    accessKey: Option<string>,
    secretKey: Option<string>)

  /** The keyword arguments handed to the transport: `url`, `data` and `headers`. */
  datatype RequestArgs = RequestArgs(url: string, data: string, headers: Headers)

  /** What surrounds a request: the nonce read from the clock, JSON serialisation,
      the HMAC-SHA512 hex digest (key, message), the HTTP transport, and JSON
      decoding of a response body. */
  datatype Env = Env(
    nonce: int,
    dumps: Payload -> string,
    hmac: (string, string) -> string,
    transport: (HttpMethod, RequestArgs) -> Response,
    decode: string -> Value)

  /** The dataclass built with only `method` and `url`: its defaults. */
  function WithDefaults(verb: HttpMethod, url: string): SxcApiRequestParams {
    SxcApiRequestParams(verb, url, map[], false, Some(""), Some(""))
  }

  /** How a key is serialised into the payload: None becomes JSON `null`. */
  function KeyEntry(k: Option<string>): (v: Value)
    ensures v == Null <==> k.None?
    ensures k.Some? ==> v == Str(k.value)
  {
    if k.Some? then Str(k.value) else Null
  }

  /** The headers every request carries. */
  function BaseHeaders(): (h: Headers) {
    map["Content-Type" := "application/json", "Cache-Control" := "no-cache", "Pragma" := "no-cache"]
  }

  /** `payload_auth_injected`: the caller's payload, with `key` and `nonce` merged in
      first for an authenticated request, so that caller entries with those names win. */
  function PayloadAuthInjected(p: SxcApiRequestParams, nonce: int): (r: Payload)
    ensures !p.authRequired ==> r == p.payload
    ensures p.authRequired ==> r.Keys == p.payload.Keys + {"key", "nonce"}
    ensures p.authRequired ==> forall k :: k in p.payload ==> r[k] == p.payload[k]
    ensures p.authRequired && "key" !in p.payload ==> r["key"] == KeyEntry(p.accessKey)
    ensures p.authRequired && "nonce" !in p.payload ==> r["nonce"] == Int(nonce)
  {
    if !p.authRequired then p.payload
    else map["key" := KeyEntry(p.accessKey), "nonce" := Int(nonce)] + p.payload
  }

  /** Whether signing raises: `self.secret_key.encode(...)` on a None secret key is an
      `AttributeError`. */
  predicate CannotSign(p: SxcApiRequestParams) {
    p.authRequired && p.secretKey.None?
  }

  /** The headers `_get_headers_with_auth` returns for a given payload, or None when it
      raises. */
  function SignedHeaders(p: SxcApiRequestParams, payload: Payload,
                         dumps: Payload -> string, hmac: (string, string) -> string): (h: Option<Headers>)
    ensures h.None? <==> CannotSign(p)
    ensures h.Some? ==> forall k :: k in BaseHeaders() ==> k in h.value && h.value[k] == BaseHeaders()[k]
    ensures h.Some? ==> ("Hash" in h.value <==> p.authRequired)
    ensures h.Some? && p.authRequired ==> h.value["Hash"] == hmac(p.secretKey.value, dumps(payload))
    ensures h.Some? ==> h.value.Keys <= BaseHeaders().Keys + {"Hash"}
  {
    if !p.authRequired then Some(BaseHeaders())
    else if p.secretKey.None? then None
    else Some(BaseHeaders()["Hash" := hmac(p.secretKey.value, dumps(payload))])
  }

  /** `_get_headers_with_auth`: builds a fresh headers dict and, for an authenticated
      request, adds the `Hash` entry to it; None when encoding the secret key raises. */
  method GetHeadersWithAuth(p: SxcApiRequestParams, payload: Payload,
                            dumps: Payload -> string, hmac: (string, string) -> string)
    returns (headers: Option<Headers>)
    ensures headers == SignedHeaders(p, payload, dumps, hmac)
  {
    var h := BaseHeaders();
    if p.authRequired {
      if p.secretKey.None? {
        return None;
      }
      h := h["Hash" := hmac(p.secretKey.value, dumps(payload))];
    }
    return Some(h);
  }

  /** `request_args`: the injected payload is computed once and used both as the
      body and as the input of the hash; None when signing raises. */
  function BuildRequestArgs(p: SxcApiRequestParams, nonce: int,
                            dumps: Payload -> string, hmac: (string, string) -> string): (r: Option<RequestArgs>)
    ensures r.None? <==> CannotSign(p)
    ensures r.Some? ==> r.value.url == p.url
    ensures r.Some? ==> r.value.data == dumps(PayloadAuthInjected(p, nonce))
    ensures r.Some? ==> ("Hash" in r.value.headers <==> p.authRequired)
    ensures r.Some? && p.authRequired ==> r.value.headers["Hash"] == hmac(p.secretKey.value, r.value.data)
  {
    var payload := PayloadAuthInjected(p, nonce);
    match SignedHeaders(p, payload, dumps, hmac)
    case None => None
    case Some(headers) => Some(RequestArgs(p.url, dumps(payload), headers))
  }

  /** `payload_json`. */
  function PayloadJson(p: SxcApiRequestParams, dumps: Payload -> string): string {
    dumps(p.payload)
  }

  /** `payload_auth_injected_json`: differs from `payload_json` only for an
      authenticated request. */
  function PayloadAuthInjectedJson(p: SxcApiRequestParams, nonce: int, dumps: Payload -> string): (s: string)
    ensures !p.authRequired ==> s == PayloadJson(p, dumps)
  {
    dumps(PayloadAuthInjected(p, nonce))
  }

  // ---------------------------------------------------------------------------
  // Properties

  /** The three fixed headers are sent on every request that is built, signed or not. */
  lemma FixedHeadersAlwaysSent(p: SxcApiRequestParams, nonce: int,
                               dumps: Payload -> string, hmac: (string, string) -> string)
    requires !CannotSign(p)
    ensures BuildRequestArgs(p, nonce, dumps, hmac).Some?
    ensures var h := BuildRequestArgs(p, nonce, dumps, hmac).value.headers;
            "Content-Type" in h && h["Content-Type"] == "application/json" &&
            "Cache-Control" in h && h["Cache-Control"] == "no-cache" &&
            "Pragma" in h && h["Pragma"] == "no-cache"
  {
    assert "Content-Type" in BaseHeaders() && "Cache-Control" in BaseHeaders() && "Pragma" in BaseHeaders();
  }

  /** A request built from the defaults sends the serialised empty payload, unsigned. */
  lemma DefaultsSendUnsignedEmptyPayload(verb: HttpMethod, url: string, nonce: int,
                                         dumps: Payload -> string, hmac: (string, string) -> string)
    ensures BuildRequestArgs(WithDefaults(verb, url), nonce, dumps, hmac) == Some(RequestArgs(url, dumps(map[]), BaseHeaders()))
  {
  }

  /** An unauthenticated request does not depend on the nonce or the keys. */
  lemma UnsignedIgnoresNonceAndKeys(p: SxcApiRequestParams, q: SxcApiRequestParams, n1: int, n2: int,
                                    dumps: Payload -> string, hmac: (string, string) -> string)
    requires !p.authRequired && !q.authRequired
    requires p.url == q.url && p.payload == q.payload
    ensures BuildRequestArgs(p, n1, dumps, hmac) == BuildRequestArgs(q, n2, dumps, hmac)
  {
  }

  /** Caller entries named `key` or `nonce` override the injected ones. */
  lemma CallerEntriesOverrideInjected(p: SxcApiRequestParams, nonce: int)
    requires p.authRequired
    ensures "key" in p.payload ==> PayloadAuthInjected(p, nonce)["key"] == p.payload["key"]
    ensures "nonce" in p.payload ==> PayloadAuthInjected(p, nonce)["nonce"] == p.payload["nonce"]
  {
  }

  /** An authenticated request without an access key still goes out, signed, with
      `"key": null` in its body. */
  lemma MissingAccessKeySentAsNull(p: SxcApiRequestParams, nonce: int,
                                   dumps: Payload -> string, hmac: (string, string) -> string)
    requires p.authRequired && p.accessKey.None? && p.secretKey.Some? && "key" !in p.payload
    ensures BuildRequestArgs(p, nonce, dumps, hmac).Some?
    ensures PayloadAuthInjected(p, nonce)["key"] == Null
    ensures "Hash" in BuildRequestArgs(p, nonce, dumps, hmac).value.headers
  {
  }
}
