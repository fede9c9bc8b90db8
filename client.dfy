/**
  The current client (sxc_api_client/client.py): sending a request, the checks
  it makes on responses, the optional payload entries of two endpoints, and the
  in-place rewriting of date fields in the lists it returns.
*/
module Client {

  import opened Wrappers
  import opened Http
  import opened Values
  import opened RequestParams
  import DateParsing
  import Exceptions

  const BaseUrl: string := "https://www.southxchange.com/api/v4"

  /** The client object: the credentials it was built with. */
  datatype SxcApiClient = SxcApiClient(accessKey: string, secretKey: string)

  /** The ways a client call fails: a raised `SxcApiError`, a response the date loop
      cannot iterate or index (Python's `TypeError` or `KeyError`), or a list entry
      whose date field cannot be rewritten. */
  datatype Failure = Raised(error: Exceptions.ApiError) | NotIterable | BadEntry(index: nat)

  /** `_get_request_params`: the client's credentials, and `payload or {}`. */
  function GetRequestParams(c: SxcApiClient, verb: HttpMethod, url: string, payload: Payload,
                            authRequired: bool): (p: SxcApiRequestParams)
    ensures p.accessKey == Some(c.accessKey) && p.secretKey == Some(c.secretKey)
  {
    SxcApiRequestParams(verb, url, payload, authRequired, Some(c.accessKey), Some(c.secretKey))
  }

  /** The message of `SxcAuthDataMissingError`. */
  const AuthDataMissingMessage: string :=
    "Request requires authentication. Please provide API access and secret keys."

  /** A key that counts as given in `all([...])`: neither None nor empty. */
  predicate Given(k: Option<string>) {
    k.Some? && k.value != ""
  }

  /** Whether `send_request` refuses the parameters: authentication is required and
      one of the keys is falsy. */
  predicate MissingCredentials(p: SxcApiRequestParams) {
    p.authRequired && !(Given(p.accessKey) && Given(p.secretKey))
  }

  /** What `send_request` did: the arguments it handed to the transport (None when it
      raised before that), and its return value or the error it raised. */
  datatype SendOutcome = SendOutcome(sent: Option<RequestArgs>, result: Result<Option<Value>, Exceptions.ApiError>)

  /** `send_request`: refuse missing credentials before any transport call, send,
      let `raise_by_response` judge the status, then return None for 204 and the
      decoded body otherwise. */
  function SendRequest(p: SxcApiRequestParams, env: Env): (o: SendOutcome)
    ensures o.sent.None? <==> MissingCredentials(p)
    ensures o.sent.None? ==> o.result.Err? && o.result.error.cls == Exceptions.SxcAuthDataMissingError &&
                             o.result.error.responseStatusCode.None?
    ensures o.sent.Some? ==> Some(o.sent.value) == BuildRequestArgs(p, env.nonce, env.dumps, env.hmac)
    ensures o.sent.Some? ==>
              var resp := env.transport(p.verb, o.sent.value);
              (o.result.Err? <==> !IsSuccess(resp.status)) &&
              (o.result.Err? ==> Exceptions.Classify(resp) == Some(o.result.error)) &&
              (resp.status == NoContent ==> o.result == Ok(None)) &&
              (resp.status == 200 ==> o.result == Ok(Some(env.decode(resp.body))))
  {
    if MissingCredentials(p) then
      SendOutcome(None, Err(Exceptions.ApiError(Exceptions.SxcAuthDataMissingError, AuthDataMissingMessage, None)))
    else
      var args := BuildRequestArgs(p, env.nonce, env.dumps, env.hmac).value;
      var resp := env.transport(p.verb, args);
      match Exceptions.Classify(resp)
      case Some(e) => SendOutcome(Some(args), Err(e))
      case None =>
        if resp.status == NoContent then SendOutcome(Some(args), Ok(None))
        else SendOutcome(Some(args), Ok(Some(env.decode(resp.body))))
  }

  // ---------------------------------------------------------------------------
  // Market checks

  /** The error `_raise_invalid_market_error` raises. */
  const InvalidMarket: Exceptions.ApiError :=
    Exceptions.ApiError(Exceptions.SxcInvalidMarketError, "Market does not exist", None)

  /** `if not resp: self._raise_invalid_market_error()`, applied to what `send_request` gave. */
  function RequireMarket(sent: Result<Option<Value>, Exceptions.ApiError>): (r: Result<Value, Exceptions.ApiError>)
    ensures sent.Err? ==> r == Err(sent.error)
    ensures r.Ok? <==> sent.Ok? && sent.value.Some? && Truthy(sent.value.value)
    ensures r.Ok? ==> r.value == sent.value.value
    ensures sent.Ok? && !(sent.value.Some? && Truthy(sent.value.value)) ==> r == Err(InvalidMarket)
  {
    match sent
    case Err(e) => Err(e)
    case Ok(resp) => if resp.Some? && Truthy(resp.value) then Ok(resp.value) else Err(InvalidMarket)
  }

  function MarketUrl(endpoint: string, target: string, reference: string): string {
    BaseUrl + "/" + endpoint + "/" + target + "/" + reference
  }

  /** `get_price`: an empty answer means the market does not exist. */
  function GetPrice(c: SxcApiClient, target: string, reference: string, env: Env): (r: Result<Value, Exceptions.ApiError>)
    ensures r.Ok? ==> Truthy(r.value)
  {
    RequireMarket(SendRequest(GetRequestParams(c, Get, MarketUrl("price", target, reference), map[], false), env).result)
  }

  /** `list_order_book`: same check as `get_price`. */
  function ListOrderBook(c: SxcApiClient, target: string, reference: string, env: Env): (r: Result<Value, Exceptions.ApiError>)
    ensures r.Ok? ==> Truthy(r.value)
  {
    RequireMarket(SendRequest(GetRequestParams(c, Get, MarketUrl("book", target, reference), map[], false), env).result)
  }

  /** A 204 or an empty body for a price request raises `SxcInvalidMarketError`,
      whose status code is None. */
  lemma EmptyPriceIsInvalidMarket(c: SxcApiClient, target: string, reference: string, env: Env)
    requires var p := GetRequestParams(c, Get, MarketUrl("price", target, reference), map[], false);
             var resp := env.transport(Get, BuildRequestArgs(p, env.nonce, env.dumps, env.hmac).value);
             resp.status == NoContent || (resp.status == 200 && !Truthy(env.decode(resp.body)))
    ensures GetPrice(c, target, reference, env) == Err(InvalidMarket)
    ensures GetPrice(c, target, reference, env).error.cls == Exceptions.SxcInvalidMarketError
  {
  }

  /** A public request is sent whatever the credentials, and the credential check only
      stops authenticated requests. */
  lemma PublicRequestsIgnoreCredentials(p: SxcApiRequestParams, env: Env)
    requires !p.authRequired
    ensures SendRequest(p, env).sent.Some?
  {
  }

  // ---------------------------------------------------------------------------
  // Payload rules

  /** The payload of `place_order`: `limitPrice` only when the limit price is truthy. */
  function PlaceOrderPayload(target: string, reference: string, orderType: string, amount: Value,
                             limitPrice: Value, amountInReferenceCurrency: bool): (p: Payload)
    ensures "limitPrice" in p <==> Truthy(limitPrice)
    ensures "limitPrice" in p ==> p["limitPrice"] == limitPrice
    ensures p.Keys - {"limitPrice"} == {"listingCurrency", "referenceCurrency", "type", "amount", "amountInReferenceCurrency"}
    ensures p["listingCurrency"] == Str(target) && p["referenceCurrency"] == Str(reference)
    ensures p["type"] == Str(orderType) && p["amount"] == amount
    ensures p["amountInReferenceCurrency"] == Bool(amountInReferenceCurrency)
  {
    var payload := map["listingCurrency" := Str(target), "referenceCurrency" := Str(reference), "type" := Str(orderType),
                       "amount" := amount, "amountInReferenceCurrency" := Bool(amountInReferenceCurrency)];
    if Truthy(limitPrice) then payload["limitPrice" := limitPrice] else payload
  }

  /** `place_order`: an authenticated request with that payload. */
  function PlaceOrder(c: SxcApiClient, target: string, reference: string, orderType: string, amount: Value,
                      limitPrice: Value, amountInReferenceCurrency: bool, env: Env): SendOutcome
  {
    var payload := PlaceOrderPayload(target, reference, orderType, amount, limitPrice, amountInReferenceCurrency);
    SendRequest(GetRequestParams(c, Post, BaseUrl + "/placeOrder", payload, true), env)
  }

  /** A limit price of zero is falsy: the order is sent without one, as a market order. */
  lemma ZeroLimitPriceIsOmitted(target: string, reference: string, orderType: string, amount: Value, inRef: bool)
    ensures "limitPrice" !in PlaceOrderPayload(target, reference, orderType, amount, Num(0.0), inRef)
    ensures "limitPrice" !in PlaceOrderPayload(target, reference, orderType, amount, Null, inRef)
  {
  }

  /** Without both keys an order is never sent. */
  lemma OrderNeedsCredentials(c: SxcApiClient, target: string, reference: string, orderType: string, amount: Value,
                              limitPrice: Value, inRef: bool, env: Env)
    requires c.accessKey == "" || c.secretKey == ""
    ensures var o := PlaceOrder(c, target, reference, orderType, amount, limitPrice, inRef, env);
            o.sent.None? && o.result.Err? && o.result.error.cls == Exceptions.SxcAuthDataMissingError
  {
  }

  /** The transaction types whose request carries `optionalFilter`. */
  const FilteredTransactionTypes: set<string> := {"tradesbyordercode", "depositsbyaddressid"}

  /** The payload of `list_transactions`: `currency` only for a truthy currency,
      `optionalFilter` only for the two filtered transaction types. */
  function ListTransactionsPayload(targetCurrency: Value, transactionType: string, optionalFilter: Value,
                                   pageIndex: int, pageSize: int): (p: Payload)
    ensures "currency" in p <==> Truthy(targetCurrency)
    ensures "currency" in p ==> p["currency"] == targetCurrency
    ensures "optionalFilter" in p <==> transactionType in FilteredTransactionTypes
    ensures "optionalFilter" in p ==> p["optionalFilter"] == optionalFilter
    ensures p.Keys - {"currency", "optionalFilter"} == {"transactionType", "pageIndex", "pageSize", "sortField", "descending"}
    ensures p["transactionType"] == Str(transactionType) && p["pageIndex"] == Int(pageIndex) &&
            p["pageSize"] == Int(pageSize) && p["sortField"] == Str("Date") && p["descending"] == Bool(true)
  {
    var payload := map["transactionType" := Str(transactionType), "pageIndex" := Int(pageIndex),
                       "pageSize" := Int(pageSize), "sortField" := Str("Date"), "descending" := Bool(true)];
    var withCurrency := if Truthy(targetCurrency) then payload["currency" := targetCurrency] else payload;
    if transactionType in FilteredTransactionTypes then withCurrency["optionalFilter" := optionalFilter]
    else withCurrency
  }

  // ---------------------------------------------------------------------------
  // Date rewriting in returned lists

  /** A response that `for entry in resp` runs over zero times although it is not a
      list: an empty dict or an empty string. */
  predicate EmptyIterable(v: Value) {
    v == Dict(map[]) || v == Str("")
  }

  /** What `for entry in resp: entry[key] = self._to_datetime(entry[key])` followed by
      `return resp` gives. A list comes back with every entry rewritten, or fails at
      its first entry that cannot be. An empty dict or string comes back unchanged.
      Anything else raises: it is not iterable, or it yields strings, which cannot be
      indexed by a key. */
  predicate Rewrites(resp: Value, key: string, r: Result<Value, Failure>) {
    if resp.List? then
      (r.Ok? <==> forall i :: 0 <= i < |resp.items| ==> NormalizedEntry(resp.items[i], key).Some?) &&
      (r.Ok? ==> r.value.List? && |r.value.items| == |resp.items| &&
                 forall i :: 0 <= i < |resp.items| ==> Some(r.value.items[i]) == NormalizedEntry(resp.items[i], key)) &&
      (r.Err? ==> r.error.BadEntry? && r.error.index < |resp.items| &&
                  NormalizedEntry(resp.items[r.error.index], key).None? &&
                  forall i :: 0 <= i < r.error.index ==> NormalizedEntry(resp.items[i], key).Some?)
    else if EmptyIterable(resp) then r == Ok(resp)
    else r == Err(NotIterable)
  }

  /** `Rewrites` pins the outcome down: a response has exactly one rewritten form or
      first failing entry. */
  lemma RewritesDetermined(resp: Value, key: string, r1: Result<Value, Failure>, r2: Result<Value, Failure>)
    requires Rewrites(resp, key, r1) && Rewrites(resp, key, r2)
    ensures r1 == r2
  {
    if resp.List? {
      if r1.Ok? {
        assert forall i :: 0 <= i < |resp.items| ==> r1.value.items[i] == r2.value.items[i] by {
          forall i | 0 <= i < |resp.items|
            ensures r1.value.items[i] == r2.value.items[i]
          {
            assert Some(r1.value.items[i]) == Some(r2.value.items[i]);
          }
        }
        assert r1.value.items == r2.value.items;
      }
    }
  }

  /** Rewrites the `key` field of every entry of a returned list in place and returns
      the response. */
  method NormalizeList(resp: Value, key: string) returns (r: Result<Value, Failure>)
    ensures Rewrites(resp, key, r)
  {
    if !resp.List? {
      if EmptyIterable(resp) {
        return Ok(resp);
      }
      return Err(NotIterable);
    }
    var entries := new Value[|resp.items|](i requires 0 <= i < |resp.items| => resp.items[i]);
    label Filled:
    var failedAt := NormalizeDates(entries, key);
    assert forall i :: 0 <= i < entries.Length ==> old@Filled(entries[i]) == resp.items[i];
    if failedAt.Some? {
      return Err(BadEntry(failedAt.value));
    }
    return Ok(List(entries[..]));
  }

  /** The URL of a history request; timestamps are sent in milliseconds. */
  function HistoryUrl(target: string, reference: string, startTs: int, endTs: int, periods: int): string {
    BaseUrl + "/history/" + target + "/" + reference + "/" +
    DateParsing.Decimal(startTs * 1000) + "/" + DateParsing.Decimal(endTs * 1000) + "/" + DateParsing.Decimal(periods)
  }

  /** `x or []`. */
  function OrEmpty(resp: Option<Value>): (v: Value)
    ensures resp.None? ==> v == List([])
    ensures Truthy(v) || v == List([])
  {
    if resp.Some? && Truthy(resp.value) then resp.value else List([])
  }

  /** `list_market_history`: a 204 answer (None) or any empty answer becomes `[]`,
      then the `Date` field of each entry is rewritten. */
  method ListMarketHistory(c: SxcApiClient, target: string, reference: string, startTs: int, endTs: int,
                           periods: int, env: Env)
    returns (r: Result<Value, Failure>)
    ensures var sent := SendRequest(GetRequestParams(c, Get, HistoryUrl(target, reference, startTs, endTs, periods),
                                                     map[], false), env).result;
            (sent.Err? ==> r == Err(Raised(sent.error))) &&
            (sent.Ok? ==> Rewrites(OrEmpty(sent.value), "Date", r)) &&
            (sent == Ok(None) ==> r == Ok(List([])))
    ensures r.Ok? ==> r.value.List?
  {
    var params := GetRequestParams(c, Get, HistoryUrl(target, reference, startTs, endTs, periods), map[], false);
    var sent := SendRequest(params, env).result;
    if sent.Err? {
      return Err(Raised(sent.error));
    }
    var result := OrEmpty(sent.value);
    r := NormalizeList(result, "Date");
  }

  /** What a list endpoint without `or []` returns for what `send_request` gave: a
      raised error passes through, a 204 answer (None) cannot be iterated, and a
      decoded body is rewritten as `Rewrites` says. */
  predicate Answered(sent: Result<Option<Value>, Exceptions.ApiError>, key: string, r: Result<Value, Failure>) {
    match sent
    case Err(e) => r == Err(Raised(e))
    case Ok(None) => r == Err(NotIterable)
    case Ok(Some(resp)) => Rewrites(resp, key, r)
  }

  /** A list endpoint without `or []`: an authenticated request whose answer has the
      `key` field of each entry rewritten. */
  method ListWithDates(c: SxcApiClient, verb: HttpMethod, endpoint: string, key: string, env: Env)
    returns (r: Result<Value, Failure>)
    ensures Answered(SendRequest(GetRequestParams(c, verb, BaseUrl + endpoint, map[], true), env).result, key, r)
  {
    var params := GetRequestParams(c, verb, BaseUrl + endpoint, map[], true);
    var sent := SendRequest(params, env).result;
    if sent.Err? {
      return Err(Raised(sent.error));
    }
    if sent.value.None? {
      return Err(NotIterable);
    }
    r := NormalizeList(sent.value.value, key);
  }

  /** `list_prices`: the `LastUpdate` field of each price is rewritten. */
  method ListPrices(c: SxcApiClient, env: Env) returns (r: Result<Value, Failure>)
    ensures Answered(SendRequest(GetRequestParams(c, Get, BaseUrl + "/prices", map[], true), env).result, "LastUpdate", r)
    ensures MissingCredentials(GetRequestParams(c, Get, BaseUrl + "/prices", map[], true)) ==>
            r.Err? && r.error.Raised? && r.error.error.cls == Exceptions.SxcAuthDataMissingError
  {
    r := ListWithDates(c, Get, "/prices", "LastUpdate", env);
  }

  /** `list_wallets`: the `LastUpdate` field of each wallet is rewritten. */
  method ListWallets(c: SxcApiClient, env: Env) returns (r: Result<Value, Failure>)
    ensures Answered(SendRequest(GetRequestParams(c, Get, BaseUrl + "/wallets", map[], true), env).result, "LastUpdate", r)
    ensures MissingCredentials(GetRequestParams(c, Get, BaseUrl + "/wallets", map[], true)) ==>
            r.Err? && r.error.Raised? && r.error.error.cls == Exceptions.SxcAuthDataMissingError
  {
    r := ListWithDates(c, Get, "/wallets", "LastUpdate", env);
  }

  /** `list_pending_orders`: the `DateAdded` field of each order is rewritten. */
  method ListPendingOrders(c: SxcApiClient, env: Env) returns (r: Result<Value, Failure>)
    ensures Answered(SendRequest(GetRequestParams(c, Post, BaseUrl + "/listOrders", map[], true), env).result, "DateAdded", r)
    ensures MissingCredentials(GetRequestParams(c, Post, BaseUrl + "/listOrders", map[], true)) ==>
            r.Err? && r.error.Raised? && r.error.error.cls == Exceptions.SxcAuthDataMissingError
  {
    r := ListWithDates(c, Post, "/listOrders", "DateAdded", env);
  }

  /** Whether `resp["Result"]` can be read: the answer is a dict holding that key. */
  predicate HasResult(resp: Option<Value>) {
    resp.Some? && resp.value.Dict? && "Result" in resp.value.entries
  }

  /** `list_transactions`: the `Date` field of each transaction under `Result` is
      rewritten in place, and the whole response is returned. */
  method ListTransactions(c: SxcApiClient, targetCurrency: Value, transactionType: string, optionalFilter: Value,
                          pageIndex: int, pageSize: int, env: Env)
    returns (r: Result<Value, Failure>)
    ensures var payload := ListTransactionsPayload(targetCurrency, transactionType, optionalFilter, pageIndex, pageSize);
            var sent := SendRequest(GetRequestParams(c, Post, BaseUrl + "/listTransactions", payload, true), env).result;
            (sent.Err? ==> r == Err(Raised(sent.error))) &&
            (sent.Ok? && !HasResult(sent.value) ==> r == Err(NotIterable)) &&
            (sent.Ok? && HasResult(sent.value) ==>
               var resp := sent.value.value;
               (r.Err? ==> Rewrites(resp.entries["Result"], "Date", r)) &&
               (r.Ok? ==> r.value.Dict? && "Result" in r.value.entries &&
                          r.value.entries == resp.entries["Result" := r.value.entries["Result"]] &&
                          Rewrites(resp.entries["Result"], "Date", Ok(r.value.entries["Result"]))))
  {
    var payload := ListTransactionsPayload(targetCurrency, transactionType, optionalFilter, pageIndex, pageSize);
    var params := GetRequestParams(c, Post, BaseUrl + "/listTransactions", payload, true);
    var sent := SendRequest(params, env).result;
    if sent.Err? {
      return Err(Raised(sent.error));
    }
    if !HasResult(sent.value) {
      return Err(NotIterable);
    }
    var resp := sent.value.value;
    var txs := NormalizeList(resp.entries["Result"], "Date");
    if txs.Err? {
      return Err(txs.error);
    }
    return Ok(Dict(resp.entries["Result" := txs.value]));
  }

  /** An answer that decodes to an empty dict or an empty string is returned as it is
      by the endpoints without `or []`, while `list_market_history` turns it into `[]`. */
  lemma EmptyAnswersPassThrough(resp: Value, key: string, r: Result<Value, Failure>, h: Result<Value, Failure>)
    requires EmptyIterable(resp)
    requires Answered(Ok(Some(resp)), key, r)
    requires Rewrites(OrEmpty(Some(resp)), "Date", h)
    ensures r == Ok(resp)
    ensures h == Ok(List([]))
  {
    assert OrEmpty(Some(resp)) == List([]);
  }
}
