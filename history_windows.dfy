/**
  `scroll_market_history_by_granularity` (sxc_api_client/client.py): the range
  `[start_ts, end_ts]` is cut into request windows of at most 500 periods of the
  given granularity. Windows are inclusive at both ends, so each next window
  starts one granularity after the previous end. In strict mode the spacing of
  the first two points of each returned batch must equal the granularity.

  Timestamps are integer epoch seconds; the remote history is a function from a
  requested window to the timestamps of the points it returns.
*/
module HistoryWindows {

  import opened Wrappers
  import opened Values
  import DateParsing
  import Exceptions

  /** `MAX_MARKET_HISTORY_PERIODS`. */
  const MaxMarketHistoryPeriods: nat := 500

  /** One request: the inclusive range `[start, end]` and the period count asked for. */
  datatype Window = Window(start: int, end: int, periods: int)

  function Min(a: int, b: int): int {
    if a <= b then a else b
  }

  /** `int(ceil(d / g))` for an integer `d` and a positive `g`. */
  function CeilDiv(d: int, g: int): (q: int)
    requires g > 0
    ensures g * (q - 1) < d <= g * q
  {
    var m := (-d) / g;
    assert -d == g * m + (-d) % g;
    -m
  }

  /** Multiplying by a positive granularity keeps the order. */
  lemma MulMono(g: int, a: int, b: int)
    requires g > 0 && a <= b
    ensures g * a <= g * b
  {
  }

  /** The number of periods the whole range spans. */
  function Periods(startTs: int, endTs: int, granularity: int): (p: int)
    requires granularity > 0
    ensures p <= 0 <==> endTs <= startTs
  {
    CeilDiv(endTs - startTs, granularity)
  }

  /** The windows the loop requests from `reqStart` on, with `remaining` periods left. */
  function Schedule(reqStart: int, granularity: int, remaining: int): (ws: seq<Window>)
    requires granularity > 0
    ensures ws == [] <==> remaining <= 0
    decreases remaining
  {
    if remaining <= 0 then []
    else
      var p := Min(remaining, MaxMarketHistoryPeriods);
      var reqEnd := reqStart + granularity * p;
      [Window(reqStart, reqEnd, p)] + Schedule(reqEnd + granularity, granularity, remaining - (p + 1))
  }

  /** `validate_granularity` accepts the batch: fewer than two points, or the first
      two are exactly one granularity apart. */
  predicate CadenceMatches(batch: seq<int>, granularity: int) {
    |batch| < 2 || batch[1] - batch[0] == granularity
  }

  /** The error `validate_granularity` raises. */
  function CadenceError(respGranularity: int, granularity: int): (e: Exceptions.ApiError)
    ensures e.cls == Exceptions.SxcMarketHistoryError && e.responseStatusCode.None?
  {
    Exceptions.ApiError(Exceptions.SxcMarketHistoryError,
                        "Granularity in the response does not match the given one: " +
                        DateParsing.Decimal(respGranularity) + " vs " + DateParsing.Decimal(granularity),
                        None)
  }

  /** `validate_granularity`: the error it raises for a batch, if any. */
  method ValidateGranularity(data: seq<int>, granularity: int) returns (error: Option<Exceptions.ApiError>)
    ensures error.None? <==> CadenceMatches(data, granularity)
    ensures error.Some? ==> |data| >= 2 && error.value == CadenceError(data[1] - data[0], granularity)
  {
    if |data| < 2 {
      return None;
    }
    var respGranularity := data[1] - data[0];
    if respGranularity != granularity {
      return Some(CadenceError(respGranularity, granularity));
    }
    return None;
  }

  /** What the generator does: the windows it requests, the batches it yields and
      the error that stops it, if any. */
  datatype Scroll = Scroll(issued: seq<Window>, yielded: seq<seq<int>>, error: Option<Exceptions.ApiError>)

  /** The generator walking the windows `ws` still to request: each batch is fetched,
      checked in strict mode, and yielded unless the check fails, which stops it. */
  function Walk(ws: seq<Window>, granularity: int, strictMode: bool, fetch: Window -> seq<int>): Scroll {
    if ws == [] then Scroll([], [], None)
    else
      var batch := fetch(ws[0]);
      if strictMode && !CadenceMatches(batch, granularity) then
        Scroll([ws[0]], [], Some(CadenceError(batch[1] - batch[0], granularity)))
      else
        var rest := Walk(ws[1..], granularity, strictMode, fetch);
        Scroll([ws[0]] + rest.issued, [batch] + rest.yielded, rest.error)
  }

  /** `kwargs.get('strict_mode', True)` as `if strict_mode` reads it: strict unless the
      caller passes a falsy `strict_mode`. */
  function StrictMode(kwargs: map<string, Value>): (strict: bool)
    ensures "strict_mode" !in kwargs ==> strict
    ensures "strict_mode" in kwargs ==> (strict <==> Truthy(kwargs["strict_mode"]))
  {
    "strict_mode" !in kwargs || Truthy(kwargs["strict_mode"])
  }

  /** The generator, run to completion: it walks the window schedule of the range,
      in strict mode unless the keyword arguments turn it off. */
  method ScrollMarketHistory(startTs: int, endTs: int, granularity: int, kwargs: map<string, Value>,
                             fetch: Window -> seq<int>)
    returns (issued: seq<Window>, yielded: seq<seq<int>>, error: Option<Exceptions.ApiError>)
    requires granularity > 0
    ensures Scroll(issued, yielded, error) ==
            Walk(Schedule(startTs, granularity, Periods(startTs, endTs, granularity)), granularity,
                 StrictMode(kwargs), fetch)
  {
    var strictMode := StrictMode(kwargs);
    var periods := Periods(startTs, endTs, granularity);
    ghost var pending := Schedule(startTs, granularity, periods);
    ghost var total := Walk(pending, granularity, strictMode, fetch);
    var reqStartTs := startTs;
    var periodsRemained := periods;
    issued, yielded, error := [], [], None;
    while periodsRemained > 0
      invariant error.None?
      invariant pending == Schedule(reqStartTs, granularity, periodsRemained)
      invariant WalkedSoFar(issued, yielded, pending, total, granularity, strictMode, fetch)
      decreases periodsRemained
    {
      var reqPeriods := Min(periodsRemained, MaxMarketHistoryPeriods);
      var reqEndTs := reqStartTs + granularity * reqPeriods;
      var window := Window(reqStartTs, reqEndTs, reqPeriods);
      var interimResult := fetch(window);
      ghost var later := Schedule(reqEndTs + granularity, granularity, periodsRemained - (reqPeriods + 1));
      ScheduleStep(reqStartTs, granularity, periodsRemained, window, reqEndTs + granularity);
      if strictMode {
        error := ValidateGranularity(interimResult, granularity);
        if error.Some? {
          WalkStops(issued, yielded, pending, window, later, total, granularity, strictMode, fetch);
          issued := issued + [window];
          return;
        }
      }
      WalkAdvances(issued, yielded, pending, window, later, total, granularity, strictMode, fetch);
      issued := issued + [window];
      yielded := yielded + [interimResult];
      reqStartTs := reqEndTs + granularity;
      periodsRemained := periodsRemained - (reqPeriods + 1);
      pending := later;
    }
  }

  /** The schedule from `reqStart` is the window `w` the loop builds, then the
      schedule from one granularity after its end. */
  lemma ScheduleStep(reqStart: int, granularity: int, remaining: int, w: Window, nextStart: int)
    requires granularity > 0 && remaining > 0
    requires w.periods == Min(remaining, MaxMarketHistoryPeriods)
    requires w == Window(reqStart, reqStart + granularity * w.periods, w.periods)
    requires nextStart == w.end + granularity
    ensures Schedule(reqStart, granularity, remaining) ==
            [w] + Schedule(nextStart, granularity, remaining - (w.periods + 1))
  {
  }

  /** The loop state: what was requested and yielded so far, followed by the walk of
      the windows still `pending`, makes up the whole walk `total`. */
  ghost predicate WalkedSoFar(issued: seq<Window>, yielded: seq<seq<int>>, pending: seq<Window>, total: Scroll,
                              granularity: int, strictMode: bool, fetch: Window -> seq<int>)
  {
    var r := Walk(pending, granularity, strictMode, fetch);
    issued + r.issued == total.issued && yielded + r.yielded == total.yielded && r.error == total.error
  }

  /** A batch that passes is yielded and the walk goes on with the rest. */
  lemma WalkAdvances(issued: seq<Window>, yielded: seq<seq<int>>, ws: seq<Window>, w: Window, pending: seq<Window>,
                     total: Scroll, granularity: int, strictMode: bool, fetch: Window -> seq<int>)
    requires ws == [w] + pending
    requires WalkedSoFar(issued, yielded, ws, total, granularity, strictMode, fetch)
    requires !strictMode || CadenceMatches(fetch(w), granularity)
    ensures WalkedSoFar(issued + [w], yielded + [fetch(w)], pending, total, granularity, strictMode, fetch)
  {
    assert ([w] + pending)[0] == w && ([w] + pending)[1..] == pending;
    var rest := Walk(pending, granularity, strictMode, fetch);
    assert (issued + [w]) + rest.issued == issued + ([w] + rest.issued);
    assert (yielded + [fetch(w)]) + rest.yielded == yielded + ([fetch(w)] + rest.yielded);
  }

  /** A batch that fails the strict check stops the walk with the cadence error,
      after its window was requested and before it is yielded. */
  lemma WalkStops(issued: seq<Window>, yielded: seq<seq<int>>, ws: seq<Window>, w: Window, pending: seq<Window>,
                  total: Scroll, granularity: int, strictMode: bool, fetch: Window -> seq<int>)
    requires ws == [w] + pending
    requires WalkedSoFar(issued, yielded, ws, total, granularity, strictMode, fetch)
    requires strictMode && !CadenceMatches(fetch(w), granularity)
    ensures Scroll(issued + [w], yielded, Some(CadenceError(fetch(w)[1] - fetch(w)[0], granularity))) == total
  {
    assert ([w] + pending)[0] == w;
  }

  /** The requested windows are a prefix of the walked windows, all of them when
      nothing went wrong; an error only comes in strict mode, from the last requested
      batch failing the check. */
  lemma {:induction false} WalkIssuesPrefix(ws: seq<Window>, g: int, strictMode: bool, fetch: Window -> seq<int>)
    ensures var r := Walk(ws, g, strictMode, fetch);
            r.issued <= ws && (r.error.None? ==> r.issued == ws)
    ensures var r := Walk(ws, g, strictMode, fetch);
            r.error.Some? ==> strictMode && |r.issued| >= 1 &&
                              !CadenceMatches(fetch(r.issued[|r.issued| - 1]), g) &&
                              r.error.value.cls == Exceptions.SxcMarketHistoryError
    decreases |ws|
  {
    if ws != [] {
      WalkIssuesPrefix(ws[1..], g, strictMode, fetch);
      var r := Walk(ws, g, strictMode, fetch);
      var rest := Walk(ws[1..], g, strictMode, fetch);
      if !(strictMode && !CadenceMatches(fetch(ws[0]), g)) {
        assert r.issued == [ws[0]] + rest.issued;
        assert ws == [ws[0]] + ws[1..];
        if rest.error.Some? {
          assert r.issued[|r.issued| - 1] == rest.issued[|rest.issued| - 1];
        }
      }
    }
  }

  /** Every yielded batch is the data of the requested window at its index, and all
      requested batches are yielded except the one that raised. */
  lemma {:induction false} WalkYieldsBatches(ws: seq<Window>, g: int, strictMode: bool, fetch: Window -> seq<int>)
    ensures var r := Walk(ws, g, strictMode, fetch);
            |r.yielded| == if r.error.None? then |r.issued| else |r.issued| - 1
    ensures var r := Walk(ws, g, strictMode, fetch);
            forall i :: 0 <= i < |r.yielded| ==> r.yielded[i] == fetch(r.issued[i])
    decreases |ws|
  {
    if ws != [] {
      WalkYieldsBatches(ws[1..], g, strictMode, fetch);
      var r := Walk(ws, g, strictMode, fetch);
      var rest := Walk(ws[1..], g, strictMode, fetch);
      if !(strictMode && !CadenceMatches(fetch(ws[0]), g)) {
        assert r.issued == [ws[0]] + rest.issued && r.yielded == [fetch(ws[0])] + rest.yielded;
        forall i | 0 <= i < |r.yielded| ensures r.yielded[i] == fetch(r.issued[i]) {
          if i > 0 {
            assert r.yielded[i] == rest.yielded[i - 1] && r.issued[i] == rest.issued[i - 1];
          }
        }
      }
    }
  }

  /** In strict mode every yielded batch has the requested cadence, and the walk ends
      with no error exactly when strict mode is off or every walked batch passes;
      batches of fewer than two points always pass. */
  lemma {:induction false} WalkStrictOutcome(ws: seq<Window>, g: int, strictMode: bool, fetch: Window -> seq<int>)
    ensures var r := Walk(ws, g, strictMode, fetch);
            strictMode ==> forall i :: 0 <= i < |r.yielded| ==> CadenceMatches(r.yielded[i], g)
    ensures var r := Walk(ws, g, strictMode, fetch);
            r.error.None? <==> (!strictMode || forall w :: w in ws ==> CadenceMatches(fetch(w), g))
    decreases |ws|
  {
    if ws != [] {
      WalkStrictOutcome(ws[1..], g, strictMode, fetch);
      var r := Walk(ws, g, strictMode, fetch);
      var rest := Walk(ws[1..], g, strictMode, fetch);
      assert ws == [ws[0]] + ws[1..];
      if !(strictMode && !CadenceMatches(fetch(ws[0]), g)) {
        assert r.yielded == [fetch(ws[0])] + rest.yielded;
        if strictMode {
          forall i | 0 <= i < |r.yielded| ensures CadenceMatches(r.yielded[i], g) {
            if i > 0 {
              assert r.yielded[i] == rest.yielded[i - 1];
            }
          }
        }
      }
    }
  }

  /** With strict mode off the generator requests the whole schedule, yields every
      batch and never raises. */
  lemma NonStrictWalksEverything(ws: seq<Window>, g: int, fetch: Window -> seq<int>)
    ensures var r := Walk(ws, g, false, fetch);
            r.error.None? && r.issued == ws && |r.yielded| == |ws|
  {
    WalkIssuesPrefix(ws, g, false, fetch);
    WalkYieldsBatches(ws, g, false, fetch);
    WalkStrictOutcome(ws, g, false, fetch);
  }

  // ---------------------------------------------------------------------------
  // Properties of the schedule

  /** Every window asks for 1 to 500 periods and ends that many granularities after
      its start; the first starts at the range start and each next one starts one
      granularity after the previous end. */
  lemma {:induction false} WindowShape(s: int, g: int, p: int)
    requires g > 0
    ensures var ws := Schedule(s, g, p);
            forall i :: 0 <= i < |ws| ==>
              1 <= ws[i].periods <= MaxMarketHistoryPeriods && ws[i].end == ws[i].start + g * ws[i].periods
    ensures var ws := Schedule(s, g, p); ws != [] ==> ws[0].start == s
    ensures var ws := Schedule(s, g, p);
            forall i :: 0 <= i < |ws| - 1 ==> ws[i + 1].start == ws[i].end + g
    decreases p
  {
    if p > 0 {
      var q := Min(p, MaxMarketHistoryPeriods);
      WindowShape(s + g * q + g, g, p - (q + 1));
    }
  }

  /** No window starts before the point the schedule starts from. */
  lemma {:induction false} StartsFrom(s: int, g: int, p: int)
    requires g > 0
    ensures forall w :: w in Schedule(s, g, p) ==> s <= w.start
    decreases p
  {
    if p > 0 {
      var q := Min(p, MaxMarketHistoryPeriods);
      StartsFrom(s + g * q + g, g, p - (q + 1));
    }
  }

  /** Windows never overlap: each ends before any later one starts. */
  lemma {:induction false} WindowsDisjoint(s: int, g: int, p: int)
    requires g > 0
    ensures forall i, j :: 0 <= i < j < |Schedule(s, g, p)| ==> Schedule(s, g, p)[i].end < Schedule(s, g, p)[j].start
    decreases p
  {
    if p > 0 {
      var q := Min(p, MaxMarketHistoryPeriods);
      var rest := Schedule(s + g * q + g, g, p - (q + 1));
      WindowsDisjoint(s + g * q + g, g, p - (q + 1));
      StartsFrom(s + g * q + g, g, p - (q + 1));
      var ws := Schedule(s, g, p);
      assert ws == [Window(s, s + g * q, q)] + rest;
      forall i, j | 0 <= i < j < |ws| ensures ws[i].end < ws[j].start {
        assert ws[j] == rest[j - 1];
        if i > 0 {
          assert ws[i] == rest[i - 1];
          assert rest[i - 1].end < rest[j - 1].start;
        } else {
          assert rest[j - 1] in rest;
          assert s + g * q + g <= rest[j - 1].start;
          assert ws[0].end == s + g * q;
        }
      }
    }
  }

  /** No window ends after `s + g * p`. */
  lemma {:induction false} EndsWithinRange(s: int, g: int, p: int)
    requires g > 0
    ensures forall w :: w in Schedule(s, g, p) ==> w.end <= s + g * p
    decreases p
  {
    if p > 0 {
      var q := Min(p, MaxMarketHistoryPeriods);
      var s' := s + g * q + g;
      EndsWithinRange(s', g, p - (q + 1));
      assert s' + g * (p - (q + 1)) == s + g * p;
      assert s + g * q <= s + g * p;
    }
  }

  /** The loop makes `ceil(p / 501)` requests: each one consumes its periods plus the
      one-granularity shift. */
  lemma {:induction false} WindowCount(s: int, g: int, p: int)
    requires g > 0 && p >= 0
    ensures |Schedule(s, g, p)| == (p + MaxMarketHistoryPeriods) / (MaxMarketHistoryPeriods + 1)
    decreases p
  {
    if p > MaxMarketHistoryPeriods {
      WindowCount(s + g * MaxMarketHistoryPeriods + g, g, p - (MaxMarketHistoryPeriods + 1));
    } else if p > 0 {
      assert Schedule(s + g * p + g, g, p - (p + 1)) == [];
    }
  }

  /** Where the last window ends: at `s + g * p`, except when `p` is a multiple of 501,
      where the final shift uses up the last period and the last window ends one
      granularity short of it. */
  lemma {:induction false} LastWindowEnd(s: int, g: int, p: int)
    requires g > 0 && p > 0
    ensures var ws := Schedule(s, g, p);
            ws[|ws| - 1].end == if p % (MaxMarketHistoryPeriods + 1) == 0 then s + g * p - g else s + g * p
    decreases p
  {
    var q := Min(p, MaxMarketHistoryPeriods);
    var s' := s + g * q + g;
    var ws := Schedule(s, g, p);
    var rest := Schedule(s', g, p - (q + 1));
    assert ws == [Window(s, s + g * q, q)] + rest;
    if p > MaxMarketHistoryPeriods + 1 {
      LastWindowEnd(s', g, p - (q + 1));
      assert ws[|ws| - 1] == rest[|rest| - 1];
      ModShift(p);
      SplitProduct(g, p, q);
    } else {
      ModSmall(p);
      assert rest == [];
      if p == MaxMarketHistoryPeriods + 1 {
        SplitProduct(g, p, q);
      }
    }
  }

  /** `g * p` split after the first `q + 1` periods. */
  lemma SplitProduct(g: int, p: int, q: int)
    ensures g * p == g * q + g + g * (p - (q + 1))
  {
  }

  /** Removing one block of 501 periods keeps the remainder. */
  lemma ModShift(p: int)
    requires p > MaxMarketHistoryPeriods + 1
    ensures (p - (MaxMarketHistoryPeriods + 1)) % (MaxMarketHistoryPeriods + 1) == p % (MaxMarketHistoryPeriods + 1)
  {
  }

  /** Up to 501, only 501 itself is a multiple of 501. */
  lemma ModSmall(p: int)
    requires 0 < p <= MaxMarketHistoryPeriods + 1
    ensures p % (MaxMarketHistoryPeriods + 1) == 0 <==> p == MaxMarketHistoryPeriods + 1
  {
  }

  /** Every grid point `s + g * k` of the range lies in some window, except the very
      last one when `p` is a multiple of 501. */
  lemma {:induction false} GridPointCovered(s: int, g: int, p: int, k: int)
    requires g > 0 && 0 <= k <= p
    requires k < p || p % (MaxMarketHistoryPeriods + 1) != 0
    ensures exists w :: w in Schedule(s, g, p) && w.start <= s + g * k <= w.end
    decreases p
  {
    var q := Min(p, MaxMarketHistoryPeriods);
    var s' := s + g * q + g;
    var ws := Schedule(s, g, p);
    var rest := Schedule(s', g, p - (q + 1));
    assert ws == [Window(s, s + g * q, q)] + rest;
    if k <= q {
      MulMono(g, 0, k);
      MulMono(g, k, q);
      assert ws[0] in ws;
    } else {
      assert s + g * k == s' + g * (k - (q + 1));
      GridPointCovered(s', g, p - (q + 1), k - (q + 1));
      var w :| w in rest && w.start <= s + g * k <= w.end;
      assert w in ws;
    }
  }

  /** Every window spans at least one granularity. */
  lemma {:induction false} StartBeforeEnd(s: int, g: int, p: int)
    requires g > 0
    ensures forall w :: w in Schedule(s, g, p) ==> w.start < w.end
    decreases p
  {
    if p > 0 {
      var q := Min(p, MaxMarketHistoryPeriods);
      StartBeforeEnd(s + g * q + g, g, p - (q + 1));
    }
  }

  /** When the period count is a positive multiple of 501, the range end is in no window. */
  lemma EndMissedOnMultipleOf501(s: int, g: int, p: int)
    requires g > 0 && p > 0 && p % (MaxMarketHistoryPeriods + 1) == 0
    ensures forall w :: w in Schedule(s, g, p) ==> w.end < s + g * p
  {
    var ws := Schedule(s, g, p);
    var last := ws[|ws| - 1];
    LastWindowEnd(s, g, p);
    assert last.end < s + g * p;
    WindowsDisjoint(s, g, p);
    StartBeforeEnd(s, g, p);
    assert last in ws;
    forall w | w in ws ensures w.end < s + g * p {
      var i :| 0 <= i < |ws| && ws[i] == w;
      if i < |ws| - 1 {
        assert ws[i].end < last.start;
      }
    }
  }

  /** The range `[0, 1000 g]` is requested as `(0, 500 g, 500)` then `(501 g, 1000 g, 499)`. */
  lemma ThousandPeriodScenario(g: int)
    requires g > 0
    ensures Periods(0, 1000 * g, g) == 1000
    ensures Schedule(0, g, Periods(0, 1000 * g, g)) == [Window(0, 500 * g, 500), Window(501 * g, 1000 * g, 499)]
  {
    var p := Periods(0, 1000 * g, g);
    assert g * (p - 1) < 1000 * g <= g * p;
    assert p == 1000;
    assert Schedule(501 * g + 499 * g + g, g, -1) == [];
    assert Schedule(501 * g, g, 499) == [Window(501 * g, 1000 * g, 499)];
  }
}
