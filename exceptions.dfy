/**
  The exception classes of the current client (sxc_api_client/exceptions.py)
  and `raise_by_response`, which turns a failed response into a typed error
  by searching its body with an ordered table of message patterns.
*/
module Exceptions {

  import opened Wrappers
  import opened Http
  import opened RegexSubset

  /** One tag per exception class; `SxcApiError` is the generic base class. */
  datatype ErrorClass =
    | SxcApiError
    | SxcAuthDataMissingError
    | SxcNotEnoughBalanceError
    | SxcAnotherOrderIsInProcessError
    | SxcInvalidKeyOrNonceError
    | SxcInvalidHashError
    | SxcOrderNotExistsError
    | SxcTooManyOrdersError
    | SxcInvalidMarketError
    | SxcNotEnoughPermissionError
    | SxcUnsupportedCurrencyError
    | SxcInvalidDestinationTypeError
    | SxcMarketHistoryError
    | SxcArgumentError
    | SxcOrderAmountBelowMinimumError

  /** A raised error: its class, `msg`, and `response_status_code` (None when the raiser gives none). */
  datatype ApiError = ApiError(cls: ErrorClass, msg: string, responseStatusCode: Option<int>)

  const Q: string := "\""

  /** A message pattern between the double quotes that every table pattern keeps. */
  function Quoted(inner: Pattern): (p: Pattern)
    ensures p == [Text(Q)] + (inner + [Text(Q)])
  {
    [Text(Q)] + inner + [Text(Q)]
  }

  const InvalidKeyOrNonceRule := Rule(Quoted([Text("Invalid API key or nonce")]), SxcInvalidKeyOrNonceError)
  const InvalidHashRule := Rule(Quoted([Text("Invalid API hash")]), SxcInvalidHashError)
  /** Written in two pieces so that the verifier sees its first characters. */
  const AnotherOrderText := "There is another order currently " + "being processed in this market"
  /** Both dots of "...in this market. Please wait." are wildcards. */
  const AnotherOrderRule := Rule(Quoted([Text(AnotherOrderText), AnyChar, Text(" Please wait"), AnyChar]),
                                 SxcAnotherOrderIsInProcessError)
  const NotEnoughBalanceRule := Rule(Quoted([Text("Not enough balance")]), SxcNotEnoughBalanceError)
  const NotEnoughPermissionRule := Rule(Quoted([Text("API key with not enough permission")]), SxcNotEnoughPermissionError)
  const TooManyOrdersRule := Rule(Quoted([Text("You cannot have more than "), OneOrMore(Digit),
                                          Text(" orders in this market")]), SxcTooManyOrdersError)
  const UnsupportedCurrencyRule := Rule(Quoted([Text("Currency "), OneOrMore(Word),
                                                Text(" does not support lightning invoice")]), SxcUnsupportedCurrencyError)
  const InvalidDestinationTypeRule := Rule(Quoted([Text("Destination Type invalid")]), SxcInvalidDestinationTypeError)
  /** The dot of "Market does not exist." is a wildcard. */
  const InvalidMarketRule := Rule(Quoted([Text("Market does not exist"), AnyChar]), SxcInvalidMarketError)
  const AmountBelowMinimumRule := Rule(Quoted([Text("Amount below minimum")]), SxcOrderAmountBelowMinimumError)

  /** `_MESSAGE_PATTERN_ERROR_MAP`, in its insertion order. */
  const MessagePatternErrorMap: seq<Rule<ErrorClass>> := [
    InvalidKeyOrNonceRule, InvalidHashRule, AnotherOrderRule, NotEnoughBalanceRule, NotEnoughPermissionRule,
    TooManyOrdersRule, UnsupportedCurrencyRule, InvalidDestinationTypeRule, InvalidMarketRule, AmountBelowMinimumRule
  ]

  predicate RuleFinds(r: Rule<ErrorClass>, msg: string) {
    Search(r.pattern, msg)
  }

  /** The class a failure body selects: that of the first rule, in table order,
      whose pattern occurs anywhere in the body; the generic class when none does. */
  function ErrorClassFor(msg: string): ErrorClass {
    ClassOf(MessagePatternErrorMap, SearchAnywhere, msg, SxcApiError)
  }

  /** What `raise_by_response` does with a response: nothing (None) or raise the given error. */
  function Classify(resp: Response): (r: Option<ApiError>)
    ensures r.None? <==> IsSuccess(resp.status)
    ensures r.Some? ==> r.value.msg == resp.body && r.value.responseStatusCode == Some(resp.status)
  {
    if IsSuccess(resp.status) then None
    else Some(ApiError(ErrorClassFor(resp.body), resp.body, Some(resp.status)))
  }

  /** `raise_by_response`: a scan over the table that keeps the generic class
      until the first pattern found in the body, then stops. */
  method RaiseByResponse(resp: Response) returns (raised: Option<ApiError>)
    ensures raised == Classify(resp)
    ensures raised.Some? ==> raised.value.cls == ErrorClassFor(resp.body)
  {
    if IsSuccess(resp.status) {
      return None;
    }
    var msg := resp.body;
    var errorClass := SxcApiError;
    var i := 0;
    while i < |MessagePatternErrorMap|
      invariant 0 <= i <= |MessagePatternErrorMap|
      invariant forall j :: 0 <= j < i ==> !Search(MessagePatternErrorMap[j].pattern, msg)
      invariant errorClass == SxcApiError
    {
      if Search(MessagePatternErrorMap[i].pattern, msg) {
        errorClass := MessagePatternErrorMap[i].cls;
        break;
      }
      i := i + 1;
    }
    raised := Some(ApiError(errorClass, msg, Some(resp.status)));
  }

  // ---------------------------------------------------------------------------
  // Properties of the table

  lemma QuotedThen(inner: Pattern, s: string)
    ensures MatchesPrefix(Quoted(inner), Q + s) <==> MatchesPrefix(inner + [Text(Q)], s)
  {
    TextThen(Q, inner + [Text(Q)], s);
  }

  /** A body without a double quote never matches: every pattern begins with one. */
  lemma UnquotedBodyIsGeneric(msg: string)
    requires '"' !in msg
    ensures ErrorClassFor(msg) == SxcApiError
  {
    TableQuoted();
    forall j | 0 <= j < |MessagePatternErrorMap|
      ensures !Finds(SearchAnywhere, MessagePatternErrorMap[j].pattern, msg)
    {
      NoQuoteNoMatch(MessagePatternErrorMap[j].pattern, msg);
    }
  }

  /** Every pattern of the table begins with a double quote. */
  lemma TableQuoted()
    ensures forall j :: 0 <= j < |MessagePatternErrorMap| ==>
              MessagePatternErrorMap[j].pattern != [] && MessagePatternErrorMap[j].pattern[0] == Text(Q)
  {
  }

  /** A pattern that begins with a double quote is found in no body without one. */
  lemma NoQuoteNoMatch(p: Pattern, msg: string)
    requires p != [] && p[0] == Text(Q) && '"' !in msg
    ensures !Search(p, msg)
  {
    forall i | 0 <= i <= |msg| ensures !MatchesPrefix(p, msg[i..]) {
      if i < |msg| {
        assert msg[i..][0] == msg[i];
        assert msg[i] in msg;
      }
    }
  }

  /** In a quoted body whose inside has no quote, a quoted pattern can only match at
      the very start, so its leading text must begin the inside. */
  lemma OnlyAtStart(inner: Pattern, m: string)
    requires inner != [] && inner[0].Text? && |inner[0].t| > 0
    requires '"' !in m
    ensures Search(Quoted(inner), Q + m + Q) ==> MatchesPrefix(Quoted(inner), Q + m + Q)
    ensures Search(Quoted(inner), Q + m + Q) ==> inner[0].t <= m + Q
  {
    var p, s := Quoted(inner), Q + m + Q;
    if Search(p, s) {
      assert p[0] == Text(Q) && p[1..][0] == inner[0];
      forall i | 0 < i <= |s| ensures !MatchesPrefix(p, s[i..]) {
        if i <= |m| {
          assert s[i..][0] == m[i - 1];
          assert m[i - 1] in m;
        } else if i == |m| + 1 {
          assert s[i..] == Q;
          assert s[i..][1..] == [];
        }
      }
      var i :| 0 <= i <= |s| && MatchesPrefix(p, s[i..]);
      assert i == 0 && s[0..] == s;
      assert s[|Q|..] == m + Q;
      assert MatchesPrefix(p[1..], m + Q);
    }
  }

  /** A quoted pattern whose message text starts differently from the body's inside
      does not match it. */
  lemma LeadMismatch(inner: Pattern, m: string)
    requires inner != [] && inner[0].Text? && |inner[0].t| > 0
    requires '"' !in m
    requires || |inner[0].t| > |m| + 1
             || inner[0].t[0] != (m + Q)[0]
             || (|inner[0].t| > 1 && |m| > 1 && inner[0].t[1] != m[1])
    ensures !Search(Quoted(inner), Q + m + Q)
  {
    OnlyAtStart(inner, m);
  }

  /** The invalid-key message selects its class wherever it occurs and whatever else
      the body says, because it is the first entry of the table. */
  lemma InvalidKeyOrNonceWinsAnywhere(before: string, after: string)
    ensures ErrorClassFor(before + Q + "Invalid API key or nonce" + Q + after) == SxcInvalidKeyOrNonceError
  {
    var k := "Invalid API key or nonce";
    var msg := before + Q + k + Q + after;
    assert msg == before + (Q + (k + (Q + after)));
    TextThen(Q, [], after);
    TextThen(k, [Text(Q)], Q + after);
    assert [Text(k)] + [Text(Q)] == [Text(k), Text(Q)];
    QuotedThen([Text(k)], k + (Q + after));
    FoundAfter(InvalidKeyOrNonceRule.pattern, before, Q + (k + (Q + after)));
    assert Finds(SearchAnywhere, MessagePatternErrorMap[0].pattern, msg);
  }

  /** A body that carries two known messages gets the earlier TABLE entry, not the
      message that comes first in the body. */
  lemma TableOrderBeatsBodyOrder(before: string, between: string, after: string)
    ensures ErrorClassFor(before + Q + "Not enough balance" + Q + between + Q + "Invalid API key or nonce" + Q + after)
            == SxcInvalidKeyOrNonceError
  {
    var b := before + Q + "Not enough balance" + Q + between;
    assert b + Q + "Invalid API key or nonce" + Q + after
        == before + Q + "Not enough balance" + Q + between + Q + "Invalid API key or nonce" + Q + after;
    InvalidKeyOrNonceWinsAnywhere(b, after);
  }

  /** A quoted pattern made of a single message text matches that text in quotes. */
  lemma PlainMessageMatches(m: string)
    ensures MatchesPrefix(Quoted([Text(m)]), Q + m + Q)
  {
    TextThen(Q, [], []);
    TextThen(m, [Text(Q)], Q);
    assert [Text(m)] + [Text(Q)] == [Text(m), Text(Q)];
    QuotedThen([Text(m)], m + Q);
    assert Q + (m + Q) == Q + m + Q;
  }

  /** None of the first three rules matches the quoted balance message. */
  lemma NotEnoughBalanceSkipsEarlierRules()
    ensures forall j :: 0 <= j < 3 ==>
              !Finds(SearchAnywhere, MessagePatternErrorMap[j].pattern, Q + "Not enough balance" + Q)
  {
    BalanceMissesRule([Text("Invalid API key or nonce")]);
    BalanceMissesRule([Text("Invalid API hash")]);
    BalanceMissesRule([Text(AnotherOrderText), AnyChar, Text(" Please wait"), AnyChar]);
  }

  /** A quoted pattern whose message text starts with `I` or `T` misses the quoted
      balance message. */
  lemma BalanceMissesRule(inner: Pattern)
    requires inner != [] && inner[0].Text? && |inner[0].t| > 0 && inner[0].t[0] in "IT"
    ensures !Search(Quoted(inner), Q + "Not enough balance" + Q)
  {
    var m := "Not enough balance";
    assert '"' !in m;
    assert (m + Q)[0] == 'N';
    LeadMismatch(inner, m);
  }

  /** The quoted message selects the balance error. */
  lemma QuotedNotEnoughBalance()
    ensures ErrorClassFor(Q + "Not enough balance" + Q) == SxcNotEnoughBalanceError
  {
    var m := "Not enough balance";
    NotEnoughBalanceSkipsEarlierRules();
    PlainMessageMatches(m);
    FoundAfter(NotEnoughBalanceRule.pattern, [], Q + m + Q);
    ClassOfIs(MessagePatternErrorMap, SearchAnywhere, Q + m + Q, SxcApiError, 3);
  }

  /** The same words without their quotes select the generic class. */
  lemma UnquotedNotEnoughBalance()
    ensures ErrorClassFor("Not enough balance") == SxcApiError
  {
    UnquotedBodyIsGeneric("Not enough balance");
  }

  /** The too-many-orders rule accepts any non-empty run of digits as the count. */
  lemma TooManyOrdersAcceptsAnyCount(count: string)
    requires |count| > 0 && AllInClass(Digit, count)
    ensures RuleFinds(TooManyOrdersRule, Q + "You cannot have more than " + count + " orders in this market" + Q)
  {
    TextRunTextFound("You cannot have more than ", Digit, count, " orders in this market");
  }

  /** The unsupported-currency rule accepts any non-empty run of word characters as the code. */
  lemma UnsupportedCurrencyAcceptsAnyCode(code: string)
    requires |code| > 0 && AllInClass(Word, code)
    ensures RuleFinds(UnsupportedCurrencyRule, Q + "Currency " + code + " does not support lightning invoice" + Q)
  {
    TextRunTextFound("Currency ", Word, code, " does not support lightning invoice");
  }

  /** A quoted `a k+ b` is found in the quoted text `a`, a run of class `k`, then `b`. */
  lemma TextRunTextFound(a: string, k: CharClass, run: string, b: string)
    requires |run| > 0 && AllInClass(k, run)
    ensures Search(Quoted([Text(a), OneOrMore(k), Text(b)]), Q + a + run + b + Q)
  {
    TextThen(Q, [], []);
    assert MatchesPrefix([Text(Q)], Q);
    TextThen(b, [Text(Q)], Q);
    assert MatchesPrefix([Text(b), Text(Q)], b + Q);
    RunThen(k, run, [Text(b), Text(Q)], b + Q);
    assert MatchesPrefix([OneOrMore(k), Text(b), Text(Q)], run + (b + Q));
    TextThen(a, [OneOrMore(k), Text(b), Text(Q)], run + (b + Q));
    assert MatchesPrefix([Text(a), OneOrMore(k), Text(b), Text(Q)], a + (run + (b + Q)));
    assert [Text(a), OneOrMore(k), Text(b)] + [Text(Q)] == [Text(a), OneOrMore(k), Text(b), Text(Q)];
    QuotedThen([Text(a), OneOrMore(k), Text(b)], a + (run + (b + Q)));
    Regroup5(Q, a, run, b, Q);
    FoundAfter(Quoted([Text(a), OneOrMore(k), Text(b)]), [], Q + a + run + b + Q);
  }

  lemma MarketMatchAtStart(c: char)
    ensures MatchesPrefix(InvalidMarketRule.pattern, Q + "Market does not exist" + [c] + Q) <==> c != '\n'
  {
    TextAnyAtStart("Market does not exist", c);
  }

  /** A quoted `a.` matches at the start of the quoted `a` and one character, unless
      that character is a newline. */
  lemma TextAnyAtStart(a: string, c: char)
    ensures MatchesPrefix(Quoted([Text(a), AnyChar]), Q + a + [c] + Q) <==> c != '\n'
  {
    TextThen(Q, [], []);
    AnyThen(c, [Text(Q)], Q);
    TextThen(a, [AnyChar, Text(Q)], [c] + Q);
    assert [Text(a), AnyChar] + [Text(Q)] == [Text(a), AnyChar, Text(Q)];
    QuotedThen([Text(a), AnyChar], a + ([c] + Q));
    Assoc(Q + a, [c], Q);
    Assoc(Q, a, [c] + Q);
  }

  /** The `.` in "Market does not exist." stands for any one character but a newline. */
  lemma MarketDotIsWildcard(c: char)
    ensures RuleFinds(InvalidMarketRule, Q + "Market does not exist" + [c] + Q) <==> c != '\n'
  {
    MarketMatchAtStart(c);
    if c != '\n' {
      FoundAfter(InvalidMarketRule.pattern, [], Q + "Market does not exist" + [c] + Q);
    } else {
      MarketNewlineMisses();
    }
  }

  /** With a newline in place of the dot the market rule is found nowhere. */
  lemma MarketNewlineMisses()
    ensures !Search(InvalidMarketRule.pattern, Q + "Market does not exist" + ['\n'] + Q)
  {
    var a := "Market does not exist";
    var m := a + ['\n'];
    assert '"' !in m;
    assert Q + m + Q == Q + a + ['\n'] + Q;
    MarketMatchAtStart('\n');
    OnlyAtStart([Text(a), AnyChar], m);
  }

  /** The dots of "...in this market. Please wait." stand for any characters but newlines. */
  lemma AnotherOrderDotsAreWildcards(c1: char, c2: char)
    requires c1 != '\n' && c2 != '\n'
    ensures RuleFinds(AnotherOrderRule,
                      Q + AnotherOrderText + [c1] +
                      " Please wait" + [c2] + Q)
  {
    TextAnyTextAnyFound(AnotherOrderText, c1, " Please wait", c2);
  }

  /** A quoted `a.b.` is found in the quoted `a`, a character, `b` and a character,
      when neither character is a newline. */
  lemma TextAnyTextAnyFound(a: string, c1: char, b: string, c2: char)
    requires c1 != '\n' && c2 != '\n'
    ensures Search(Quoted([Text(a), AnyChar, Text(b), AnyChar]), Q + a + [c1] + b + [c2] + Q)
  {
    TextThen(Q, [], []);
    AnyThen(c2, [Text(Q)], Q);
    TextThen(b, [AnyChar, Text(Q)], [c2] + Q);
    AnyThen(c1, [Text(b), AnyChar, Text(Q)], b + ([c2] + Q));
    TextThen(a, [AnyChar, Text(b), AnyChar, Text(Q)], [c1] + (b + ([c2] + Q)));
    assert [Text(a), AnyChar, Text(b), AnyChar] + [Text(Q)]
        == [Text(a)] + ([AnyChar] + ([Text(b)] + ([AnyChar] + [Text(Q)])));
    assert [Text(a), AnyChar, Text(b), AnyChar] + [Text(Q)] == [Text(a), AnyChar, Text(b), AnyChar, Text(Q)];
    QuotedThen([Text(a), AnyChar, Text(b), AnyChar], a + ([c1] + (b + ([c2] + Q))));
    Regroup6(Q, a, [c1], b, [c2], Q);
    FoundAfter(Quoted([Text(a), AnyChar, Text(b), AnyChar]), [], Q + a + [c1] + b + [c2] + Q);
  }
}
