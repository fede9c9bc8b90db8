/**
  `send_request` of the older client (src/client.py): no credential check, the
  anchored classifier of src/exceptions.py, and None for a 204 response. Its
  `__init__` defaults both keys to None, which the request parameters carry over.
*/
module LegacyClient {

  import opened Wrappers
  import opened Http
  import opened Values
  import opened RequestParams
  import LegacyExceptions

  /** The client object: a key it was not given is None. */
  datatype SxcApiClient = SxcApiClient(accessKey: Option<string>, secretKey: Option<string>)

  /** The client built with no arguments. */
  const DefaultClient: SxcApiClient := SxcApiClient(None, None)

  /** `_get_request_params`: the client's keys as they are, and `payload or {}`. */
  function GetRequestParams(c: SxcApiClient, verb: HttpMethod, url: string, payload: Payload,
                            authRequired: bool): (p: SxcApiRequestParams)
    ensures p.accessKey == c.accessKey && p.secretKey == c.secretKey
    ensures p.payload == payload && p.authRequired == authRequired && p.url == url
  {
    SxcApiRequestParams(verb, url, payload, authRequired, c.accessKey, c.secretKey)
  }

  /** The ways `send_request` fails: the classified error of a non-success response,
      or the `AttributeError` raised while signing with a None secret key. */
  datatype Failure = Raised(error: LegacyExceptions.ApiError) | NoSecretKey

  /** The arguments handed to the transport (None when building them raised), and the
      return value or raised error. */
  datatype SendOutcome = SendOutcome(sent: Option<RequestArgs>, result: Result<Option<Value>, Failure>)

  /** `send_request`: build the arguments, send, let `raise_by_response` judge the
      status, then return None for 204 and the decoded body otherwise. */
  function SendRequest(p: SxcApiRequestParams, env: Env): (o: SendOutcome)
    ensures o.sent == BuildRequestArgs(p, env.nonce, env.dumps, env.hmac)
    ensures o.sent.None? <==> CannotSign(p)
    ensures o.sent.None? ==> o.result == Err(NoSecretKey)
    ensures o.sent.Some? ==>
              var resp := env.transport(p.verb, o.sent.value);
              (o.result.Err? <==> !IsSuccess(resp.status)) &&
              (o.result.Err? ==> o.result.error.Raised? && LegacyExceptions.Classify(resp) == Some(o.result.error.error)) &&
              (resp.status == NoContent ==> o.result == Ok(None)) &&
              (resp.status == 200 ==> o.result == Ok(Some(env.decode(resp.body))))
  {
    match BuildRequestArgs(p, env.nonce, env.dumps, env.hmac)
    case None => SendOutcome(None, Err(NoSecretKey))
    case Some(args) =>
      var resp := env.transport(p.verb, args);
      match LegacyExceptions.Classify(resp)
      case Some(e) => SendOutcome(Some(args), Err(Raised(e)))
      case None =>
        if resp.status == NoContent then SendOutcome(Some(args), Ok(None))
        else SendOutcome(Some(args), Ok(Some(env.decode(resp.body))))
  }

  /** A client built without keys cannot make an authenticated request: signing
      raises before anything is sent. Its public requests go out as usual. */
  lemma DefaultClientCannotSign(verb: HttpMethod, url: string, payload: Payload, authRequired: bool, env: Env)
    ensures var o := SendRequest(GetRequestParams(DefaultClient, verb, url, payload, authRequired), env);
            (authRequired <==> o.sent.None?) &&
            (authRequired ==> o.result == Err(NoSecretKey))
  {
  }

  /** Without a credential check, an authenticated request with an empty access key is
      still sent, signed, with an empty `key` entry. */
  lemma EmptyKeysAreStillSent(p: SxcApiRequestParams, env: Env)
    requires p.authRequired && p.accessKey == Some("") && p.secretKey.Some? && "key" !in p.payload
    ensures var sent := SendRequest(p, env).sent;
            sent.Some? &&
            sent.value.data == env.dumps(PayloadAuthInjected(p, env.nonce)) &&
            PayloadAuthInjected(p, env.nonce)["key"] == Str("") &&
            "Hash" in sent.value.headers
  {
  }
}
