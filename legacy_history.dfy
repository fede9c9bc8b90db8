/**
  The older `list_market_history` (src/client.py). A range of at most 500 whole
  periods is fetched with one request; when the first returned point is later
  than the requested start, the request is repeated from the first multiple of
  the granularity at or after that point. A longer range is cut into contiguous
  chunks of at most 500 periods that share their boundaries, and each chunk is
  fetched by a recursive call.

  Timestamps are integer epoch seconds; the remote history is a function from a
  requested window to the timestamps of the returned points, None standing for
  a 204 response.
*/
module LegacyHistory {

  import opened Wrappers
  import opened HistoryWindows

  /** `int(d / g)`: the float quotient truncated toward zero. */
  function TruncDiv(d: int, g: int): (q: int)
    requires g > 0
    ensures d >= 0 ==> 0 <= q && g * q <= d < g * q + g
    ensures d < 0 ==> q <= 0 && g * q - g < d <= g * q
  {
    if d >= 0 then
      FloorBounds(d, g);
      d / g
    else
      FloorBounds(-d, g);
      MulNeg(g, (-d) / g);
      -((-d) / g)
  }

  /** Euclidean division of a non-negative number brackets it between two multiples. */
  lemma FloorBounds(d: int, g: int)
    requires g > 0 && d >= 0
    ensures 0 <= d / g && g * (d / g) <= d < g * (d / g) + g
  {
    assert d == g * (d / g) + d % g;
  }

  lemma MulNeg(g: int, m: int)
    ensures g * (-m) == -(g * m)
  {
  }

  lemma MulCancel(g: int, a: int, b: int)
    requires g > 0 && g * a < g * b
    ensures a < b
  {
  }

  lemma ModMultiple(k: int, g: int)
    requires g > 0
    ensures (k * g) % g == 0
  {
    var q, r := (k * g) / g, (k * g) % g;
    assert k * g == g * q + r;
    assert g * (k - q) == r;
    assert g * (k - q) < g * 1;
    MulCancel(g, k - q, 1);
    assert g * (-1) < g * (k - q);
    MulCancel(g, -1, k - q);
  }

  /** Whole periods are counted exactly. */
  lemma TruncDivExact(k: int, g: int)
    requires g > 0 && k >= 0
    ensures TruncDiv(g * k, g) == k
  {
    var q := TruncDiv(g * k, g);
    assert g * k < g * (q + 1);
    MulCancel(g, k, q + 1);
    assert g * q < g * (k + 1);
    MulCancel(g, q, k + 1);
  }

  /** `ceil(periods / MAX_MARKET_HISTORY_PERIODS)`: how many requests a period count needs. */
  function Iterations(periods: int): (n: int)
    ensures n == 1 <==> 1 <= periods <= MaxMarketHistoryPeriods
    ensures n <= 0 <==> periods <= 0
  {
    CeilDiv(periods, MaxMarketHistoryPeriods)
  }

  /** 0 for a range that is fetched with a single request (or none), 1 for one that is split. */
  function Rank(s: int, e: int, g: int): nat
    requires g > 0
  {
    if TruncDiv(e - s, g) <= MaxMarketHistoryPeriods then 0 else 1
  }

  /** What a call produced: the points it returns and, in order, the windows it requested. */
  datatype Run = Run(points: seq<int>, requests: seq<Window>)

  /** `result.extend(...)` of one run by another. */
  function Then(a: Run, b: Run): Run {
    Run(a.points + b.points, a.requests + b.requests)
  }

  /** The only exception the single-request branch raises on its own. */
  datatype PyError = TypeError

  /** The response check as written: `len(interim_result)` on the None returned for a
      204 response raises `TypeError`. */
  function ResponsePointsAsWritten(resp: Option<seq<int>>): (r: Result<seq<int>, PyError>)
    ensures r.Err? <==> resp.None?
  {
    if resp.None? then Err(TypeError) else Ok(resp.value)
  }

  /** The response check as intended, and as the newer client does it with `or []`:
      a 204 response counts as an empty list. */
  function ResponsePoints(resp: Option<seq<int>>): (b: seq<int>)
    ensures resp.Some? ==> b == resp.value
    ensures resp.None? ==> b == []
  {
    if resp.None? then [] else resp.value
  }

  /** The start of the repeated request: the first multiple of the granularity at or
      after the first returned point. */
  function ReRequestStart(first: int, g: int): (ns: int)
    requires g > 0
    ensures ns % g == 0 && first <= ns < first + g
  {
    var c := CeilDiv(first, g);
    ModMultiple(c, g);
    assert g * (c - 1) == g * c - g;
    c * g
  }

  /** A repeated request starts later, so it spans less, and still needs no split. */
  lemma ReRequestShrinks(s: int, e: int, g: int, first: int)
    requires g > 0 && 1 <= TruncDiv(e - s, g) <= MaxMarketHistoryPeriods && first > s
    ensures Rank(ReRequestStart(first, g), e, g) == 0
    ensures e - ReRequestStart(first, g) < e - s
  {
    var p := TruncDiv(e - s, g);
    var ns := ReRequestStart(first, g);
    var q := TruncDiv(e - ns, g);
    if e - ns >= 0 {
      assert g * q < g * (p + 1);
      MulCancel(g, q, p + 1);
    }
  }

  /** The chunks the split loop hands to its recursive calls, from `start` with
      `remained` periods left and `endInit` the original end. */
  function Chunks(start: int, endInit: int, g: int, remained: int): (cs: seq<Window>)
    requires g > 0
    decreases remained
  {
    if remained <= 0 then []
    else
      var periods := Min(remained, MaxMarketHistoryPeriods);
      var end := Min(start + g * periods, endInit);
      [Window(start, end, periods)] + Chunks(end, endInit, g, remained - periods)
  }

  /** The model of `list_market_history(start_ts=s, end_ts=e, granularity=g)`. */
  function History(s: int, e: int, g: int, fetch: Window -> Option<seq<int>>): Run
    requires g > 0
    decreases Rank(s, e, g), e - s, 1, 0
  {
    var periodsInitial := TruncDiv(e - s, g);
    if Iterations(periodsInitial) == 1 then
      var w := Window(s, e, periodsInitial);
      var batch := ResponsePoints(fetch(w));
      if batch == [] then Run([], [w])
      else if batch[0] > s then
        var ns := ReRequestStart(batch[0], g);
        ReRequestShrinks(s, e, g, batch[0]);
        Then(Run([], [w]), History(ns, e, g, fetch))
      else Run(batch, [w])
    else if periodsInitial <= 0 then Run([], [])
    else
      ChunkShape(s, e, g, periodsInitial);
      RunChunks(Chunks(s, e, g, periodsInitial), g, fetch)
  }

  /** The recursive calls of the split loop, one per chunk, their results concatenated. */
  function RunChunks(cs: seq<Window>, g: int, fetch: Window -> Option<seq<int>>): Run
    requires g > 0
    requires forall c :: c in cs ==> Rank(c.start, c.end, g) == 0
    decreases 1, 0, 0, |cs|
  {
    if cs == [] then Run([], [])
    else Then(History(cs[0].start, cs[0].end, g, fetch), RunChunks(cs[1..], g, fetch))
  }

  lemma ThenAssoc(a: Run, b: Run, c: Run)
    ensures Then(Then(a, b), c) == Then(a, Then(b, c))
  {
  }

  // ---------------------------------------------------------------------------
  // The split schedule

  function SumPeriods(cs: seq<Window>): int {
    if cs == [] then 0 else cs[0].periods + SumPeriods(cs[1..])
  }

  /** Each chunk has `min(remaining, 500)` periods and ends exactly that many
      granularities after its start, never after the original end; so its recursive
      call counts the same periods and takes the single-request branch. */
  lemma {:induction false} ChunkShape(start: int, endInit: int, g: int, remained: int)
    requires g > 0 && start + g * remained <= endInit
    ensures forall c :: c in Chunks(start, endInit, g, remained) ==>
              1 <= c.periods <= MaxMarketHistoryPeriods && c.end == c.start + g * c.periods &&
              start <= c.start && c.end <= endInit &&
              TruncDiv(c.end - c.start, g) == c.periods && Iterations(c.periods) == 1 &&
              Rank(c.start, c.end, g) == 0
    decreases remained
  {
    if remained > 0 {
      var periods := Min(remained, MaxMarketHistoryPeriods);
      var end := start + g * periods;
      assert end + g * (remained - periods) == start + g * remained;
      MulMono(g, periods, remained);
      MulMono(g, 1, periods);
      ChunkShape(end, endInit, g, remained - periods);
      TruncDivExact(periods, g);
    }
  }

  /** A range that does not fit one request is fetched chunk by chunk. */
  lemma SplitBranch(s: int, e: int, g: int, fetch: Window -> Option<seq<int>>)
    requires g > 0 && Iterations(TruncDiv(e - s, g)) != 1
    ensures var p := TruncDiv(e - s, g);
            (p > 0 ==> s + g * p <= e && Rank(s, e, g) == 1) &&
            (forall c :: c in Chunks(s, e, g, p) ==> Rank(c.start, c.end, g) == 0) &&
            History(s, e, g, fetch) == RunChunks(Chunks(s, e, g, p), g, fetch)
  {
    var p := TruncDiv(e - s, g);
    if p > 0 {
      ChunkShape(s, e, g, p);
    }
  }

  /** One turn of the split loop: the first chunk ends `min(remaining, 500)` periods on,
      and the rest of the loop handles the remaining chunks. */
  lemma ChunkStep(start: int, endInit: int, g: int, remained: int, fetch: Window -> Option<seq<int>>)
    requires g > 0 && remained > 0 && start + g * remained <= endInit
    ensures var periods := Min(remained, MaxMarketHistoryPeriods);
            var end := start + g * periods;
            Min(start + g * periods, endInit) == end &&
            Chunks(start, endInit, g, remained) == [Window(start, end, periods)] + Chunks(end, endInit, g, remained - periods) &&
            (remained - periods > 0 ==> end + g * (remained - periods) <= endInit) &&
            Rank(start, end, g) == 0 &&
            (forall c :: c in Chunks(end, endInit, g, remained - periods) ==> Rank(c.start, c.end, g) == 0) &&
            RunChunks(Chunks(start, endInit, g, remained), g, fetch) ==
              Then(History(start, end, g, fetch), RunChunks(Chunks(end, endInit, g, remained - periods), g, fetch))
  {
    var periods := Min(remained, MaxMarketHistoryPeriods);
    var end := start + g * periods;
    assert end + g * (remained - periods) == start + g * remained;
    MulMono(g, periods, remained);
    ChunkShape(start, endInit, g, remained);
    var cs := Chunks(start, endInit, g, remained);
    assert cs[0] in cs;
    assert cs[1..] == Chunks(end, endInit, g, remained - periods);
    forall c | c in cs[1..] ensures c in cs { }
  }

  /** Chunks are contiguous with shared boundaries: the first starts at `start`, each
      next one starts where the previous ended, and the last ends at `start + g * remained`. */
  lemma {:induction false} ChunksContiguous(start: int, endInit: int, g: int, remained: int)
    requires g > 0 && remained > 0 && start + g * remained <= endInit
    ensures var cs := Chunks(start, endInit, g, remained);
            |cs| >= 1 && cs[0].start == start && cs[|cs| - 1].end == start + g * remained &&
            forall i :: 0 <= i < |cs| - 1 ==> cs[i + 1].start == cs[i].end
    decreases remained
  {
    var periods := Min(remained, MaxMarketHistoryPeriods);
    var end := start + g * periods;
    assert end + g * (remained - periods) == start + g * remained;
    MulMono(g, periods, remained);
    if remained > periods {
      ChunksContiguous(end, endInit, g, remained - periods);
    }
  }

  /** The chunk period counts add up to the period count of the whole range, and there
      are `ceil(remained / 500)` chunks. */
  lemma {:induction false} ChunkTotals(start: int, endInit: int, g: int, remained: int)
    requires g > 0 && remained >= 0
    ensures SumPeriods(Chunks(start, endInit, g, remained)) == remained
    ensures |Chunks(start, endInit, g, remained)| == Iterations(remained)
    decreases remained
  {
    if remained > 0 {
      var periods := Min(remained, MaxMarketHistoryPeriods);
      var end := Min(start + g * periods, endInit);
      ChunkTotals(end, endInit, g, remained - periods);
    }
  }

  // ---------------------------------------------------------------------------
  // Properties of a call

  /** Without a whole period in the range nothing is requested and nothing returned. */
  lemma NoPeriodsNoRequest(s: int, e: int, g: int, fetch: Window -> Option<seq<int>>)
    requires g > 0 && TruncDiv(e - s, g) <= 0
    ensures History(s, e, g, fetch) == Run([], [])
  {
  }

  /** The repeated request starts on the granularity grid, not before the first point
      returned, and strictly after the previous start. */
  lemma ReRequestMovesForward(s: int, first: int, g: int)
    requires g > 0 && first > s
    ensures var ns := ReRequestStart(first, g); ns % g == 0 && ns >= first && ns > s
  {
  }

  /** Every request asks for 1 to 500 whole periods of a window inside `[s, e]`. */
  lemma {:induction false} RequestsInRange(s: int, e: int, g: int, fetch: Window -> Option<seq<int>>)
    requires g > 0
    ensures forall w :: w in History(s, e, g, fetch).requests ==>
              s <= w.start && w.end <= e && 1 <= w.periods <= MaxMarketHistoryPeriods &&
              w.periods == TruncDiv(w.end - w.start, g)
    decreases Rank(s, e, g), e - s, 1, 0
  {
    var periodsInitial := TruncDiv(e - s, g);
    if Iterations(periodsInitial) == 1 {
      var w := Window(s, e, periodsInitial);
      var batch := ResponsePoints(fetch(w));
      if batch != [] && batch[0] > s {
        var ns := ReRequestStart(batch[0], g);
        ReRequestShrinks(s, e, g, batch[0]);
        RequestsInRange(ns, e, g, fetch);
      }
    } else if periodsInitial > 0 {
      var cs := Chunks(s, e, g, periodsInitial);
      ChunkShape(s, e, g, periodsInitial);
      ChunkRequestsInRange(cs, g, fetch);
      forall w | w in History(s, e, g, fetch).requests
        ensures s <= w.start && w.end <= e
      {
        var c :| c in cs && c.start <= w.start && w.end <= c.end;
      }
    }
  }

  lemma {:induction false} ChunkRequestsInRange(cs: seq<Window>, g: int, fetch: Window -> Option<seq<int>>)
    requires g > 0
    requires forall c :: c in cs ==> Rank(c.start, c.end, g) == 0
    ensures forall w :: w in RunChunks(cs, g, fetch).requests ==>
              (exists c :: c in cs && c.start <= w.start && w.end <= c.end) &&
              1 <= w.periods <= MaxMarketHistoryPeriods && w.periods == TruncDiv(w.end - w.start, g)
    decreases 1, 0, 0, |cs|
  {
    if cs != [] {
      RequestsInRange(cs[0].start, cs[0].end, g, fetch);
      ChunkRequestsInRange(cs[1..], g, fetch);
      var head := History(cs[0].start, cs[0].end, g, fetch);
      var tail := RunChunks(cs[1..], g, fetch);
      forall w | w in RunChunks(cs, g, fetch).requests
        ensures exists c :: c in cs && c.start <= w.start && w.end <= c.end
      {
        if w in head.requests {
          assert cs[0] in cs;
        } else {
          assert w in tail.requests;
          var c :| c in cs[1..] && c.start <= w.start && w.end <= c.end;
          assert c in cs;
        }
      }
    }
  }

  /** The intended behaviour on a 204 response: the single-request branch returns an
      empty history after its one request, as it does for an empty list. */
  lemma NoContentGivesEmptyHistory(s: int, e: int, g: int, fetch: Window -> Option<seq<int>>)
    requires g > 0 && 1 <= TruncDiv(e - s, g) <= MaxMarketHistoryPeriods
    requires fetch(Window(s, e, TruncDiv(e - s, g))) == None
    ensures History(s, e, g, fetch) == Run([], [Window(s, e, TruncDiv(e - s, g))])
  {
  }

  /** As written, the same 204 response makes the response check raise `TypeError`
      where the intended check yields no points. */
  lemma NoContentRaisesTypeError()
    ensures ResponsePointsAsWritten(None) == Err(TypeError)
    ensures ResponsePoints(None) == []
  {
  }

  // ---------------------------------------------------------------------------
  // The imperative original

  /** `list_market_history`: the single-request branch, or the split loop that
      extends the result chunk by chunk. */
  method ListMarketHistory(startTs: int, endTs: int, g: int, fetch: Window -> Option<seq<int>>)
    returns (result: Run)
    requires g > 0
    ensures result == History(startTs, endTs, g, fetch)
    decreases Rank(startTs, endTs, g), endTs - startTs, 1
  {
    var endTsInitial := endTs;
    var periodsInitial := TruncDiv(endTs - startTs, g);
    var iterations := Iterations(periodsInitial);
    if iterations == 1 {
      result := SingleRequest(startTs, endTs, g, periodsInitial, fetch);
      return;
    }
    var periodsRemained := periodsInitial;
    var start := startTs;
    result := Run([], []);
    SplitBranch(startTs, endTsInitial, g, fetch);
    while periodsRemained > 0
      invariant SplitLoop(result, start, endTsInitial, g, periodsRemained, fetch, History(startTs, endTsInitial, g, fetch))
      decreases periodsRemained
    {
      var periods := Min(periodsRemained, MaxMarketHistoryPeriods);
      var end := Min(start + g * periods, endTsInitial);
      ChunkFits(start, endTsInitial, g, periodsRemained, periods, end);
      var interim := ListMarketHistory(start, end, g, fetch);
      ChunkAdvance(result, interim, start, endTsInitial, g, periodsRemained, periods, end, fetch,
                   History(startTs, endTsInitial, g, fetch));
      result := Then(result, interim);
      start := end;
      periodsRemained := periodsRemained - periods;
    }
  }

  /** The split loop's state: the result so far, extended by the calls for the chunks
      still to come, gives the whole history `total`. */
  ghost predicate SplitLoop(result: Run, start: int, endInit: int, g: int, remained: int,
                            fetch: Window -> Option<seq<int>>, total: Run)
    requires g > 0
  {
    (remained > 0 ==> start + g * remained <= endInit) &&
    (forall c :: c in Chunks(start, endInit, g, remained) ==> Rank(c.start, c.end, g) == 0) &&
    Then(result, RunChunks(Chunks(start, endInit, g, remained), g, fetch)) == total
  }

  /** The next chunk fits one request, so its recursive call does not split again. */
  lemma ChunkFits(start: int, endInit: int, g: int, remained: int, periods: int, end: int)
    requires g > 0 && remained > 0 && start + g * remained <= endInit
    requires periods == Min(remained, MaxMarketHistoryPeriods) && end == Min(start + g * periods, endInit)
    ensures Rank(start, end, g) == 0
  {
    ChunkShape(start, endInit, g, remained);
    var cs := Chunks(start, endInit, g, remained);
    assert cs[0] in cs;
  }

  /** One turn of the split loop: the call for the next chunk extends the result. */
  lemma ChunkAdvance(result: Run, interim: Run, start: int, endInit: int, g: int, remained: int,
                     periods: int, end: int, fetch: Window -> Option<seq<int>>, total: Run)
    requires g > 0 && remained > 0 && SplitLoop(result, start, endInit, g, remained, fetch, total)
    requires periods == Min(remained, MaxMarketHistoryPeriods) && end == Min(start + g * periods, endInit)
    requires interim == History(start, end, g, fetch)
    ensures SplitLoop(Then(result, interim), end, endInit, g, remained - periods, fetch, total)
  {
    ChunkStep(start, endInit, g, remained, fetch);
    ThenAssoc(result, interim, RunChunks(Chunks(end, endInit, g, remained - periods), g, fetch));
  }

  /** The single-request branch of `list_market_history`: one request for the whole
      range, repeated from the grid point at or after the first returned point when
      that point is later than the start. */
  method SingleRequest(startTs: int, endTs: int, g: int, periodsInitial: int, fetch: Window -> Option<seq<int>>)
    returns (result: Run)
    requires g > 0 && periodsInitial == TruncDiv(endTs - startTs, g) && Iterations(periodsInitial) == 1
    ensures result == History(startTs, endTs, g, fetch)
    decreases Rank(startTs, endTs, g), endTs - startTs, 0
  {
    var w := Window(startTs, endTs, periodsInitial);
    var interimResult := ResponsePoints(fetch(w));
    if |interimResult| == 0 {
      return Run([], [w]);
    }
    var firstEntryTs := interimResult[0];
    if firstEntryTs > startTs {
      var newStart := ReRequestStart(firstEntryTs, g);
      ReRequestShrinks(startTs, endTs, g, firstEntryTs);
      var again := ListMarketHistory(newStart, endTs, g, fetch);
      return Then(Run([], [w]), again);
    }
    return Run(interimResult, [w]);
  }
}
