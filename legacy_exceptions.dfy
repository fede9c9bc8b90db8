/**
  The exception classes of the older client (src/exceptions.py) and its
  `raise_by_response`, which tries its ordered patterns with `re.match`, that is
  anchored at the start of the body.
*/
module LegacyExceptions {

  import opened Wrappers
  import opened Http
  import opened RegexSubset
  import Exceptions

  /** One tag per exception class; `SxcApiError` is the generic base class. */
  datatype ErrorClass =
    | SxcApiError
    | NotEnoughBalanceError
    | AnotherOrderIsInProcessError
    | NoOrderCodeReturnedError
    | InvalidKeyOrNonceError
    | InvalidHashError
    | OrderNotExistsError
    | TooManyOrdersError
    | InvalidMarketError

  /** A raised error: its class, `error_code` and `msg`. */
  datatype ApiError = ApiError(cls: ErrorClass, errorCode: int, msg: string)

  /** `MESSAGE_PATTERN_ERROR_MAP`, in its insertion order. Its pattern texts are the
      same as the first, second, third, fourth and sixth patterns of the newer table. */
  const MessagePatternErrorMap: seq<Rule<ErrorClass>> := [
    Rule(Exceptions.InvalidKeyOrNonceRule.pattern, InvalidKeyOrNonceError),
    Rule(Exceptions.InvalidHashRule.pattern, InvalidHashError),
    Rule(Exceptions.AnotherOrderRule.pattern, AnotherOrderIsInProcessError),
    Rule(Exceptions.NotEnoughBalanceRule.pattern, NotEnoughBalanceError),
    Rule(Exceptions.TooManyOrdersRule.pattern, TooManyOrdersError)
  ]

  /** The class a failure body selects: that of the first rule, in table order, whose
      pattern matches at the start of the body; the generic class when none does. */
  function ErrorClassFor(msg: string): ErrorClass {
    ClassOf(MessagePatternErrorMap, MatchAtStart, msg, SxcApiError)
  }

  /** What `raise_by_response` does with a response: nothing (None) or raise the given error. */
  function Classify(resp: Response): (r: Option<ApiError>)
    ensures r.None? <==> IsSuccess(resp.status)
    ensures r.Some? ==> r.value.errorCode == resp.status && r.value.msg == resp.body
  {
    if IsSuccess(resp.status) then None
    else Some(ApiError(ErrorClassFor(resp.body), resp.status, resp.body))
  }

  /** `raise_by_response`: a scan over the table that keeps the generic class until
      the first pattern that matches at the start of the body, then stops. */
  method RaiseByResponse(resp: Response) returns (raised: Option<ApiError>)
    ensures raised == Classify(resp)
    ensures raised.Some? ==> raised.value.cls == ErrorClassFor(resp.body)
  {
    if !IsSuccess(resp.status) {
      var msg := resp.body;
      var errorClass := SxcApiError;
      var i := 0;
      while i < |MessagePatternErrorMap|
        invariant 0 <= i <= |MessagePatternErrorMap|
        invariant forall j :: 0 <= j < i ==> !MatchesPrefix(MessagePatternErrorMap[j].pattern, msg)
        invariant errorClass == SxcApiError
      {
        if MatchesPrefix(MessagePatternErrorMap[i].pattern, msg) {
          errorClass := MessagePatternErrorMap[i].cls;
          break;
        }
        i := i + 1;
      }
      return Some(ApiError(errorClass, resp.status, msg));
    }
    return None;
  }

  // ---------------------------------------------------------------------------
  // Properties of the table

  /** Only five specific categories can ever be selected; the classes for a missing
      order code, a missing order and an invalid market never are. */
  lemma OnlyFiveCategories(msg: string)
    ensures ErrorClassFor(msg) in {SxcApiError, InvalidKeyOrNonceError, InvalidHashError,
                                   AnotherOrderIsInProcessError, NotEnoughBalanceError, TooManyOrdersError}
  {
    var c := ErrorClassFor(msg);
    if c != SxcApiError {
      var i :| 0 <= i < |MessagePatternErrorMap| && c == MessagePatternErrorMap[i].cls;
      Entries();
      assert i == 0 || i == 1 || i == 2 || i == 3 || i == 4;
    }
  }

  /** The five entries of the table, one by one. */
  lemma Entries()
    ensures |MessagePatternErrorMap| == 5
    ensures MessagePatternErrorMap[0] == Rule(Exceptions.InvalidKeyOrNonceRule.pattern, InvalidKeyOrNonceError)
    ensures MessagePatternErrorMap[1] == Rule(Exceptions.InvalidHashRule.pattern, InvalidHashError)
    ensures MessagePatternErrorMap[2] == Rule(Exceptions.AnotherOrderRule.pattern, AnotherOrderIsInProcessError)
    ensures MessagePatternErrorMap[3] == Rule(Exceptions.NotEnoughBalanceRule.pattern, NotEnoughBalanceError)
    ensures MessagePatternErrorMap[4] == Rule(Exceptions.TooManyOrdersRule.pattern, TooManyOrdersError)
  {
  }

  /** Matching is anchored: a body that does not start with a double quote selects the
      generic class, whatever known message it carries later. */
  lemma NotStartingWithQuoteIsGeneric(msg: string)
    requires msg == [] || msg[0] != '"'
    ensures ErrorClassFor(msg) == SxcApiError
  {
    Entries();
    forall j | 0 <= j < |MessagePatternErrorMap|
      ensures !Finds(MatchAtStart, MessagePatternErrorMap[j].pattern, msg)
    {
      assert j == 0 || j == 1 || j == 2 || j == 3 || j == 4;
      assert MessagePatternErrorMap[j].pattern[0] == Text(Exceptions.Q);
    }
  }

  /** A known message preceded by any text that does not start with a quote falls back
      to the generic class. */
  lemma PrecededMessageIsGeneric(before: string, after: string)
    requires before != [] && before[0] != '"'
    ensures ErrorClassFor(before + Exceptions.Q + "Not enough balance" + Exceptions.Q + after) == SxcApiError
  {
    var msg := before + Exceptions.Q + "Not enough balance" + Exceptions.Q + after;
    assert msg[0] == before[0];
    NotStartingWithQuoteIsGeneric(msg);
  }

  /** A quoted pattern whose message text starts with another character than the
      body's text after its opening quote does not match at the start. */
  lemma AnchoredLeadMismatch(inner: Pattern, m: string)
    requires inner != [] && inner[0].Text? && |inner[0].t| > 0
    requires m == [] || inner[0].t[0] != m[0]
    ensures !MatchesPrefix(Exceptions.Quoted(inner), Exceptions.Q + m)
  {
    Exceptions.QuotedThen(inner, m);
    assert (inner + [Text(Exceptions.Q)])[0] == inner[0];
  }

  /** A body that starts with the quoted balance message selects the balance error,
      whatever follows. */
  lemma LeadingNotEnoughBalance(after: string)
    ensures ErrorClassFor(Exceptions.Q + "Not enough balance" + Exceptions.Q + after) == NotEnoughBalanceError
  {
    var m := "Not enough balance";
    var Q := Exceptions.Q;
    var msg := Q + m + Q + after;
    var rest := m + Q + after;
    Assoc(Q, m, Q);
    Assoc(Q, m + Q, after);
    assert rest[0] == 'N';
    AnchoredLeadMismatch([Text("Invalid API key or nonce")], rest);
    AnchoredLeadMismatch([Text("Invalid API hash")], rest);
    AnchoredLeadMismatch([Text(Exceptions.AnotherOrderText), AnyChar, Text(" Please wait"), AnyChar], rest);
    Exceptions.PlainMessageMatches(m);
    MatchExtends(Exceptions.NotEnoughBalanceRule.pattern, Q + m + Q, after);
    Entries();
    forall j | 0 <= j < 3 ensures !Finds(MatchAtStart, MessagePatternErrorMap[j].pattern, msg) {
      assert j == 0 || j == 1 || j == 2;
    }
    ClassOfIs(MessagePatternErrorMap, MatchAtStart, msg, SxcApiError, 3);
  }
}
