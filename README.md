# sxc-api-client core, modelled in Dafny

This project models the sequential core of the SouthXchange API client. The
client ships in two generations: `sxc_api_client/` is the current one and
`src/` the older one. Both are modelled where their behaviour differs.

- **Response classification** (`raise_by_response`). A 200 or 204 response
  passes. Any other status raises an error whose class comes from an ordered
  table of message patterns: the first rule whose pattern matches the body
  wins. The current client searches anywhere in the body (`re.search`). The
  older one matches only at the start (`re.match`). The patterns use a small
  regex subset: literal text, `.`, `\d+` and `\w+`. The module `RegexSubset`
  implements a matcher for that subset.
- **Request assembly** (`SxcApiRequestParams`). For an authenticated request,
  `key` and `nonce` are merged into the payload. The headers carry an HMAC of
  exactly the body that is sent. `send_request` refuses missing credentials
  (current client only) and returns None for a 204.
- **Date normalisation** (`_to_datetime`). The response date string is split
  on `.`, the fraction is cut to six digits, and otherwise the whole-second
  format is used. The result is tagged UTC. The list endpoints rewrite a date
  field of every returned entry in place.
- **History windowing.** The current generator
  `scroll_market_history_by_granularity` cuts a range into inclusive windows
  of at most 500 periods, each one granularity past the previous end, and has
  a strict-mode cadence check. The older `list_market_history` has a
  floor-based split loop with shared boundaries and a re-request when the
  data starts late.

The environment is passed in as parameters: the transport, JSON encoding and
decoding, the HMAC-SHA512 digest and the clock nonce (`RequestParams.Env`).
The remote history is a function from a requested window to the timestamps
it returns. Timestamps are integer epoch seconds, and `granularity > 0`.

Modules:

| file | module | models |
|---|---|---|
| wrappers.dfy | Wrappers | `Option` and `Result` |
| http.dfy | Http | a response as status and body |
| regex_subset.dfy | RegexSubset | the regex subset and ordered first-match tables |
| exceptions.dfy | Exceptions | sxc_api_client/exceptions.py |
| legacy_exceptions.dfy | LegacyExceptions | src/exceptions.py |
| request_params.dfy | RequestParams | src/request_params.py |
| values.dfy | Values | decoded JSON values; in-place date rewriting |
| date_parsing.dfy | DateParsing | `_to_datetime` (identical in both clients) |
| client.dfy | Client | sxc_api_client/client.py |
| legacy_client.dfy | LegacyClient | `send_request` of src/client.py |
| history_windows.dfy | HistoryWindows | `scroll_market_history_by_granularity` |
| legacy_history.dfy | LegacyHistory | `list_market_history` of src/client.py |

## Model

| member | source | states |
|---|---|---|
| RegexSubset.Search | sxc_api_client/exceptions.py:89 | `re.search` semantics: true exactly when the pattern matches starting at some position of the body |
| RegexSubset.RunCharacterization | sxc_api_client/exceptions.py:74-75 | `\d+` / `\w+` followed by the rest matches exactly when a non-empty run of class characters is followed by a match of the rest |
| RegexSubset.MatchExtends | src/exceptions.py:59 | `re.match` needs only a prefix: a match stays a match whatever text follows it |
| RegexSubset.FirstMatch | sxc_api_client/exceptions.py:88-91 | the selected index matches and no earlier rule does; None exactly when no rule matches |
| RegexSubset.ClassOf | sxc_api_client/exceptions.py:87-91 | no matching rule gives the default class; otherwise the class of the first matching rule in table order |
| Exceptions.Classify | sxc_api_client/exceptions.py:83-92 | no error exactly for status 200 or 204; an error carries the body as `msg` and the status as `response_status_code` |
| Exceptions.RaiseByResponse | sxc_api_client/exceptions.py:83-92 | the reassign-and-break loop over the table raises exactly `Classify`'s error, with the class of the first rule found anywhere in the body |
| Exceptions.UnquotedBodyIsGeneric | sxc_api_client/exceptions.py:68-80 | every pattern includes its double quotes, so a body without `"` is always the generic `SxcApiError` |
| Exceptions.NoQuoteNoMatch | sxc_api_client/exceptions.py:68-80 | a pattern that begins with a double quote is found in no body without one |
| Exceptions.InvalidKeyOrNonceWinsAnywhere | sxc_api_client/exceptions.py:69 | the quoted invalid-key message is recognised wherever it sits in the body |
| Exceptions.TableOrderBeatsBodyOrder | sxc_api_client/exceptions.py:88-91 | with two known messages in the body, the earlier table entry wins, not the earlier position in the body |
| Exceptions.NotEnoughBalanceSkipsEarlierRules | sxc_api_client/exceptions.py:69-73 | the three rules before "Not enough balance" do not match its quoted message |
| Exceptions.QuotedNotEnoughBalance | sxc_api_client/exceptions.py:73 | the quoted "Not enough balance" body gives `SxcNotEnoughBalanceError` |
| Exceptions.UnquotedNotEnoughBalance | sxc_api_client/exceptions.py:73 | the same text without quotes gives the generic class |
| Exceptions.TooManyOrdersAcceptsAnyCount | sxc_api_client/exceptions.py:75 | the too-many-orders rule accepts any non-empty digit run as the count |
| Exceptions.UnsupportedCurrencyAcceptsAnyCode | sxc_api_client/exceptions.py:76 | the unsupported-currency rule accepts any non-empty word-character run as the code |
| Exceptions.MarketDotIsWildcard | sxc_api_client/exceptions.py:78 | the `.` of "Market does not exist." accepts exactly the characters other than a newline |
| Exceptions.MarketNewlineMisses | sxc_api_client/exceptions.py:78 | with a newline in place of the dot, the invalid-market message is found nowhere in the body |
| Exceptions.AnotherOrderDotsAreWildcards | sxc_api_client/exceptions.py:71 | both dots of the another-order message accept any non-newline character |
| Exceptions.LeadMismatch | sxc_api_client/exceptions.py:68-80 | a quoted message is not found in a quoted body whose text starts differently or is too short |
| LegacyExceptions.Classify | src/exceptions.py:54-62 | no error exactly for status 200 or 204; an error carries the status as `error_code` and the body as `msg` |
| LegacyExceptions.RaiseByResponse | src/exceptions.py:54-62 | the loop raises exactly `Classify`'s error, with the class of the first rule matching at the start of the body |
| LegacyExceptions.OnlyFiveCategories | src/exceptions.py:44-51 | the class is the generic one or one of the five table classes |
| LegacyExceptions.NotStartingWithQuoteIsGeneric | src/exceptions.py:57-59 | a body that does not start with `"` is always the generic class |
| LegacyExceptions.PrecededMessageIsGeneric | src/exceptions.py:57-62 | a known message preceded by other text falls back to the generic class |
| LegacyExceptions.AnchoredLeadMismatch | src/exceptions.py:59 | an anchored pattern fails on a quoted body whose text starts with a different character |
| LegacyExceptions.LeadingNotEnoughBalance | src/exceptions.py:49 | a body that starts with the quoted "Not enough balance" gives `NotEnoughBalanceError`, whatever follows |
| RequestParams.PayloadAuthInjected | src/request_params.py:35-44 | without auth, exactly the caller's payload; with auth, the caller's keys plus `key` and `nonce`, caller entries kept, `key` = the access key (JSON `null` for None) and `nonce` = the nonce when absent |
| RequestParams.KeyEntry | src/request_params.py:39-43 | a None key is serialised as `null`, any string key as that string |
| RequestParams.SignedHeaders | src/request_params.py:46-51 | signing raises exactly when auth is required and the secret key is None; otherwise the three fixed headers are kept, `Hash` is present exactly when auth is required and is the HMAC of the serialised payload under the secret key, and there is no other header |
| RequestParams.GetHeadersWithAuth | src/request_params.py:46-51 | adding `Hash` to the fresh headers, or raising on a None secret key, yields `SignedHeaders` |
| RequestParams.BuildRequestArgs | src/request_params.py:30-33 | building raises exactly when signing does; otherwise the url is kept, the sent data is the serialised injected payload, and `Hash` is present exactly with auth and signs that same data |
| RequestParams.PayloadAuthInjectedJson | src/request_params.py:53-59 | without auth it equals `payload_json` |
| RequestParams.FixedHeadersAlwaysSent | src/request_params.py:22-28 | every request that can be signed is built, and carries Content-Type `application/json`, Cache-Control and Pragma `no-cache` |
| RequestParams.DefaultsSendUnsignedEmptyPayload | src/request_params.py:9-16 | the defaults send the serialised empty payload with no `Hash` |
| RequestParams.UnsignedIgnoresNonceAndKeys | src/request_params.py:18-20 | an unauthenticated request depends on neither the nonce nor the keys |
| RequestParams.CallerEntriesOverrideInjected | src/request_params.py:39-43 | caller entries named `key` or `nonce` win over the injected ones |
| RequestParams.MissingAccessKeySentAsNull | src/request_params.py:39-43 | an authenticated request with a None access key and a secret key is built and signed, with `"key": null` in its body |
| DateParsing.Split | sxc_api_client/client.py:911 | `str.split`: at least one part, no part contains the separator, and joining the parts gives back the string |
| DateParsing.SplitJoin | sxc_api_client/client.py:911-913 | splitting a join of separator-free parts gives back the parts |
| DateParsing.Number | sxc_api_client/constants.py:7-8 | a digit string of length n denotes a value below 10^n |
| DateParsing.NumberOfPad | sxc_api_client/constants.py:7-8 | reading back a zero-padded field gives the number |
| DateParsing.ParseWhole | sxc_api_client/constants.py:7 | a success has 19 characters, in-range fields and no microseconds |
| DateParsing.ParseWithFraction | sxc_api_client/constants.py:8 | a success has 1 to 6 fraction digits and in-range fields |
| DateParsing.Truncated | sxc_api_client/client.py:912 | `[:6]`: a prefix of at most 6 characters, exactly 6 when the fraction is that long |
| DateParsing.ToDatetime | sxc_api_client/client.py:901-916 | every successful result is tagged UTC and has in-range fields |
| DateParsing.NoDotTakesWholeSecondPath | src/client.py:607-611 | a string without `.` succeeds exactly when the whole-second format does, with that value and no microseconds |
| DateParsing.LongFractionIsTruncated | sxc_api_client/client.py:911-913 | a fraction of 6 or more digits normalises exactly like its 6-digit truncation |
| DateParsing.WholeRoundTrip | sxc_api_client/client.py:914-916 | rendering a UTC time without microseconds in the whole-second format and parsing it gives back that time |
| DateParsing.FractionRoundTrip | sxc_api_client/client.py:911-913 | rendering a UTC time with a 6-digit fraction and parsing it gives back that time |
| DateParsing.ParseRenderedFraction | sxc_api_client/constants.py:8 | parsing a time rendered in the fraction format gives back that time, untagged |
| Values.NormalizedEntry | sxc_api_client/client.py:170-171 | the entry's keys are kept and only the date field changes, to the UTC date the string parses to; fails exactly when the entry is not a dict with a parsable date string |
| Values.NormalizeDates | src/client.py:162-163 | the in-place loop fails exactly when some entry cannot be rewritten; entries before the failure are rewritten, the rest unchanged |
| Values.NormalizeOnce | sxc_api_client/client.py:170-171 | a rewritten entry cannot be rewritten a second time |
| Client.GetRequestParams | sxc_api_client/client.py:918-927 | the parameters carry the client's own credentials |
| Client.SendRequest | sxc_api_client/client.py:20-29 | nothing is sent exactly when auth is required and a key is None or empty, and then `SxcAuthDataMissingError` is raised without a status; otherwise the built arguments are sent; errors occur exactly for non-success statuses and are `raise_by_response`'s; 204 gives None and 200 the decoded body |
| Client.PublicRequestsIgnoreCredentials | sxc_api_client/client.py:22 | a request without auth is always sent |
| Client.RequireMarket | sxc_api_client/client.py:73-74 | an answer passes exactly when it is truthy; a falsy answer or None raises `SxcInvalidMarketError`; transport errors pass through |
| Client.GetPrice | sxc_api_client/client.py:68-75 | a returned price is never empty |
| Client.ListOrderBook | sxc_api_client/client.py:289-296 | a returned order book is never empty |
| Client.EmptyPriceIsInvalidMarket | sxc_api_client/client.py:72-74 | a 204 or an empty price body raises `SxcInvalidMarketError` |
| Client.PlaceOrderPayload | sxc_api_client/client.py:476-484 | `limitPrice` is present exactly when the limit price is truthy; the five fixed keys carry the arguments |
| Client.ZeroLimitPriceIsOmitted | sxc_api_client/client.py:483-484 | a zero or None limit price sends a market order |
| Client.OrderNeedsCredentials | sxc_api_client/client.py:485-491 | without both keys no order is sent and `SxcAuthDataMissingError` is raised |
| Client.ListTransactionsPayload | sxc_api_client/client.py:875-886 | `currency` is present exactly when truthy; `optionalFilter` exactly for the two filtered transaction types; the fixed keys carry the arguments |
| Client.NormalizeList | sxc_api_client/client.py:111-113 | `Rewrites`: a list comes back with every entry replaced by its `NormalizedEntry`, or fails at its first entry that cannot be rewritten; an empty dict or string comes back unchanged; any other answer fails as not iterable |
| Client.RewritesDetermined | sxc_api_client/client.py:111-113 | `Rewrites` allows exactly one outcome per answer, so each endpoint contract stated with it fixes the returned value |
| Client.EmptyAnswersPassThrough | sxc_api_client/client.py:111-113 | an empty dict or string answer is returned as it is by an endpoint without `or []`, and becomes `[]` in `list_market_history` |
| Client.OrEmpty | sxc_api_client/client.py:169 | `or []`: None becomes the empty list; the result is truthy or empty |
| Client.ListMarketHistory | sxc_api_client/client.py:163-172 | raised errors pass through; otherwise the answer after `or []` is rewritten as `Rewrites` says on the `Date` key, so a success is the list with every entry's date parsed, and it succeeds exactly when every entry can be; a 204 gives `[]` |
| Client.ListWithDates | sxc_api_client/client.py:104-113 | `Answered`: raised errors pass through, a 204 (None) fails as not iterable, and a decoded answer is rewritten as `Rewrites` says on the given key |
| Client.ListPrices | sxc_api_client/client.py:104-113 | the `/prices` answer is rewritten on `LastUpdate` as `Answered` says; missing credentials raise `SxcAuthDataMissingError` |
| Client.ListWallets | sxc_api_client/client.py:446-455 | the `/wallets` answer is rewritten on `LastUpdate` as `Answered` says; missing credentials raise `SxcAuthDataMissingError` |
| Client.ListPendingOrders | sxc_api_client/client.py:566-575 | the `/listOrders` answer is rewritten on `DateAdded` as `Answered` says; missing credentials raise `SxcAuthDataMissingError` |
| Client.ListTransactions | sxc_api_client/client.py:873-898 | raised errors pass through; an answer without a `Result` entry fails; otherwise a success is the answer with only `Result` replaced by its rewriting on `Date` (an empty `Result` dict or string is kept), and a failure is that rewriting's failure |
| LegacyClient.SendRequest | src/client.py:19-26 | building the arguments raises exactly when auth is required and the secret key is None, and then nothing is sent; otherwise the built arguments are sent, errors occur exactly for non-success statuses and are the anchored classifier's, 204 gives None and 200 the decoded body |
| LegacyClient.GetRequestParams | src/client.py:614-623 | the parameters carry the client's keys as they are, None included |
| LegacyClient.DefaultClientCannotSign | src/client.py:15-17 | a client built without keys raises on every authenticated request before sending, and sends its public ones |
| LegacyClient.EmptyKeysAreStillSent | src/client.py:19-26 | with no credential check, an empty access key is sent, signed, as an empty `key` entry |
| HistoryWindows.CeilDiv | sxc_api_client/client.py:236 | `ceil(d / g)`: the least q with d <= g*q |
| HistoryWindows.Periods | sxc_api_client/client.py:236 | the period count is positive exactly when the end is after the start |
| HistoryWindows.Schedule | sxc_api_client/client.py:238-249 | no window exactly when no period remains |
| HistoryWindows.CadenceError | sxc_api_client/client.py:229-231 | a cadence mismatch raises `SxcMarketHistoryError` with no status |
| HistoryWindows.ValidateGranularity | sxc_api_client/client.py:225-231 | no error exactly when the batch has fewer than two points or its first two are one granularity apart; otherwise the `SxcMarketHistoryError` built from the observed spacing |
| HistoryWindows.StrictMode | sxc_api_client/client.py:234 | strict mode is on unless `strict_mode` is passed with a falsy value |
| HistoryWindows.ScrollMarketHistory | sxc_api_client/client.py:233-250 | the loop that updates `req_start_ts` and `periods_remained` does exactly what `Walk` does over the window `Schedule` of the range, in the strict mode `StrictMode` reads from the keyword arguments: it requests the windows in order, validates each batch in strict mode, and yields it unless validation raised, which ends the run |
| HistoryWindows.WalkIssuesPrefix | sxc_api_client/client.py:238-250 | the requested windows are a prefix of the schedule, all of it when nothing was raised; an error only comes in strict mode, from the last requested batch failing the check, and is an `SxcMarketHistoryError` |
| HistoryWindows.WalkYieldsBatches | sxc_api_client/client.py:241-250 | yielded batch i is the data of requested window i; every requested batch is yielded except the one that raised |
| HistoryWindows.WalkStrictOutcome | sxc_api_client/client.py:225-234 | in strict mode every yielded batch has the requested cadence; the run ends without error exactly when strict mode is off or every scheduled batch passes (batches of fewer than two points always pass) |
| HistoryWindows.NonStrictWalksEverything | sxc_api_client/client.py:234 | with `strict_mode=False` every scheduled window is requested, every batch yielded, and nothing raised |
| HistoryWindows.WindowShape | sxc_api_client/client.py:239-248 | each window asks for 1 to 500 periods and ends that many granularities after its start; the first starts at `start_ts`; each next starts one granularity after the previous end |
| HistoryWindows.StartsFrom | sxc_api_client/client.py:237 | no window starts before `start_ts` |
| HistoryWindows.WindowsDisjoint | sxc_api_client/client.py:246-248 | every window ends strictly before any later window starts, so no inclusive timestamp is fetched twice |
| HistoryWindows.EndsWithinRange | sxc_api_client/client.py:236-249 | no window ends after `start_ts + granularity * periods` |
| HistoryWindows.StartBeforeEnd | sxc_api_client/client.py:240-241 | every window is non-empty |
| HistoryWindows.WindowCount | sxc_api_client/client.py:236-249 | P periods give (P + 500) / 501 windows, since each window consumes its periods plus the skipped one |
| HistoryWindows.LastWindowEnd | sxc_api_client/client.py:236-249 | the last window ends at `start + g*P`, or one granularity earlier when P is a multiple of 501 |
| HistoryWindows.GridPointCovered | sxc_api_client/client.py:236-249 | every grid point `start + g*k` with k <= P falls in some window, except the final one when P is a multiple of 501 |
| HistoryWindows.EndMissedOnMultipleOf501 | sxc_api_client/client.py:246-249 | when P is a positive multiple of 501, no window reaches `start + g*P` |
| HistoryWindows.ThousandPeriodScenario | sxc_api_client/client.py:236-249 | `[0, 1000g]` gives exactly the windows `(0, 500g, 500)` and `(501g, 1000g, 499)` |
| LegacyHistory.TruncDiv | src/client.py:151 | `int(d / g)` truncates toward zero: floor for d >= 0, ceiling for d < 0 |
| LegacyHistory.Iterations | src/client.py:152 | `ceil(periods / 500)` is 1 exactly for 1 to 500 periods, and at most 0 exactly for no periods |
| LegacyHistory.ReRequestStart | src/client.py:168 | the new start is a multiple of the granularity, at least the first point and less than one granularity after it |
| LegacyHistory.ReRequestMovesForward | src/client.py:166-168 | a re-request starts strictly later than the old start |
| LegacyHistory.ReRequestShrinks | src/client.py:166-169 | a re-request covers a strictly shorter range, which never needs more than one request |
| LegacyHistory.ChunkShape | src/client.py:172-178 | every chunk has 1 to 500 periods and lies inside the range; its sub-call counts the same periods and takes the single-request branch |
| LegacyHistory.ChunksContiguous | src/client.py:176-180 | the first chunk starts at `start_ts`, each next one where the previous ended, and the last ends `periods_initial` granularities after `start_ts` |
| LegacyHistory.ChunkTotals | src/client.py:172-181 | the chunk periods sum to `periods_initial` and there are `ceil(periods_initial / 500)` chunks |
| LegacyHistory.NoPeriodsNoRequest | src/client.py:151-153 | no periods gives `[]` and no request |
| LegacyHistory.RequestsInRange | src/client.py:153-182 | every request, including re-requests and chunk sub-calls, lies inside the original range and asks for 1 to 500 periods, the truncated count of its own span |
| LegacyHistory.ListMarketHistory | src/client.py:150-182 | the function with its split loop, which extends `result` chunk by chunk, returns exactly the data and requests of `History` |
| LegacyHistory.SingleRequest | src/client.py:153-170 | the single-request branch, with its re-request, returns exactly the data and requests of `History` |
| LegacyHistory.ChunkFits | src/client.py:174-177 | the next chunk of the split loop fits one request, so its recursive call does not split again |
| LegacyHistory.ResponsePointsAsWritten | src/client.py:159-161 | `len(None)` of a 204 raises `TypeError` |
| LegacyHistory.ResponsePoints | src/client.py:159-161 | the corrected reading: a 204 counts as an empty answer |
| LegacyHistory.NoContentGivesEmptyHistory | src/client.py:159-161 | under the corrected reading, a 204 for a single request gives `[]` after that one request |
| LegacyHistory.NoContentRaisesTypeError | src/client.py:159-161 | as written, a 204 raises `TypeError`; corrected, it gives `[]` |

## Left out

- HTTP transport, `resp.json()` and UTF-8 decoding are parameters of `RequestParams.Env`. A response is a status and a body string. A missing body is the empty string, as `resp.content.decode(...) if resp.content else ""` gives.
- `json.dumps`, HMAC-SHA512 and the `time.time()` nonce are parameters too. The nonce is one integer per request, so the single nonce read in `request_args` is modelled but a second, different read is not.
- sxc_api_client/request_params.py is not part of this model. The current client is assumed to use the same parameter class as src/request_params.py.
- DateParsing.ToDatetime: models the fixed zero-padded `YYYY-MM-DDTHH:MM:SS[.ffffff]` layout with range checks per field. It leaves out `strptime`'s acceptance of single-digit fields and its day-of-month calendar check, which is why only field ranges are stated.
- DateParsing.WholeLayout: the `T` separator must be upper case and fields must be ASCII digits. `strptime` matches case-insensitively (`2022-01-01t00:00:00` parses) and reads any Unicode decimal digit; both are left out.
- Float timestamps and prices are left out. Timestamps are integers, `granularity > 0`, and `(end - start) / granularity` is exact rational arithmetic rather than floating point.
- `\w` is ASCII letters, digits and `_`. Unicode word characters are left out.
- RegexSubset.IsDigit: `\d` is the ASCII digits only. Python's `\d` also matches every other Unicode decimal digit, so a count written in such digits is classified generic here.
- Generators are modelled by the sequence of windows issued and batches yielded. Laziness and suspension are left out.
- HistoryWindows.ScrollMarketHistory: the fetch of each window is a total function. Errors raised by the inner `list_market_history` and its date rewriting are left out, and a batch is its timestamps.
- LegacyHistory.ListMarketHistory: termination of the re-request rests on integer timestamps (the start strictly increases and stays a single request). It also uses the corrected 204 reading (see Findings). Date rewriting of each batch is left out.
- LegacyHistory.ListMarketHistory: the fetch of each request is a total function. An `SxcApiError` from a non-success status, or a transport error, that the source propagates out of the recursion and the split loop is left out, so the model always returns a history.
- LegacyHistory.SingleRequest: the fetch is total as above, so an error raised by its request or its re-request is left out. It uses the corrected 204 reading (see Findings), under which a 204 is an empty answer instead of a `TypeError`.
- Values.NormalizedEntry: the distinct Python exceptions for a bad entry (`KeyError`, `TypeError`, `ValueError`) are one failure.
- Endpoint boilerplate that only builds a URL and calls `send_request` is not modelled (`list_markets`, `list_fees`, `get_user_info`, withdrawals, …). `list_prices`, `list_wallets`, `list_pending_orders` and `list_transactions` are modelled for their date rewriting.
- The older client's endpoint methods other than `send_request`, `list_market_history` and `_to_datetime` are not modelled.
- Constants are copied: `MAX_MARKET_HISTORY_PERIODS = 500` and the two date formats. `MAX_PAGE_SIZE` only supplies default arguments of endpoints not modelled here.

## Findings

| source | as written | input that shows it | evidently intended | confidence | as-written member | corrected member |
|---|---|---|---|---|---|---|
| src/client.py:159-161 | `if not len(interim_result)` runs on what `send_request` returns, which is None for a 204 | a single-window history request answered with status 204 raises `TypeError` | a 204 is an empty history and gives `[]` (the current client writes `or []`, sxc_api_client/client.py:169) | high, not executed | LegacyHistory.ResponsePointsAsWritten (shown by LegacyHistory.NoContentRaisesTypeError) | LegacyHistory.ResponsePoints (proved by LegacyHistory.NoContentGivesEmptyHistory) |
