/** The two ways of reporting on a period, run on the in-place algorithms
    (gryphon/lib/gryphonfury/revenue.py:66-223, _old_revenue.py:18-55). */
module PeriodReports {
  import opened Wrappers
  import opened Trades
  import opened History
  import opened Fifo
  import opened Splitting
  import opened SplitInPlace
  import opened OpenPosition
  import opened PositionScan
  import opened Revenue

  /** The table as the queries list it: in order of creation time; trades created together keep one order. */
  predicate Listed(db: seq<Trade>) { NonNegative(db) && SortedByTime(db) && DistinctIds(db) }

  lemma VolumeOfCandidates(ts: seq<Trade>)
    requires NonNegative(ts)
    ensures var p := FastPosition(ts);
      Abs(p) <= Volume(OfSide(ts, if p > 0.0 then Bid else Ask))
  {
    OfSideKeeps(ts, Bid);
    OfSideKeeps(ts, Ask);
    assert Volume(OfSide(ts, Bid)) >= 0.0 && Volume(OfSide(ts, Ask)) >= 0.0;
  }

  /** The scan always finds enough volume: a net position never exceeds its side's total. */
  lemma ScanIsFed(db: seq<Trade>, time: int)
    requires NonNegative(db)
    ensures var p := FastPosition(Before(Mine(db), time));
      Abs(p) <= Volume(Candidates(db, STRATEGY, if p > 0.0 then Bid else Ask, time))
  {
    WhereNonNegative(db, (t: Trade) => t.actor == STRATEGY);
    WhereNonNegative(Mine(db), (t: Trade) => t.time < time);
    VolumeOfCandidates(Before(Mine(db), time));
  }

  lemma PositionAtEnd(db: seq<Trade>, start: int, end: int)
    requires SortedByTime(db) && start <= end
    ensures FastPosition(Before(Mine(db), start)) + FastPosition(Window(Mine(db), start, end))
         == FastPosition(Before(Mine(db), end))
  {
    hide FastPosition;
    WhereSorted(db, (t: Trade) => t.actor == STRATEGY);
    var before, period := Before(Mine(db), start), Window(Mine(db), start, end);
    PeriodAppends(Mine(db), start, end);
    NetIsPosition(before);
    NetIsPosition(period);
    NetIsPosition(before + period);
    SumAppend(before, period, NET);
  }

  /** fast_revenue_fees_profit_in_period. */
  method FastRevenueFeesProfitInPeriod(db: seq<Trade>, start: int, end: int) returns (r: Report)
    requires Listed(db) && start <= end
    ensures r == Fast(db, start, end)
  {
    hide FastPosition;
    hide Before;
    hide Window;
    hide OpenTrades;
    hide Candidates;
    var mine := Mine(db);
    var startPosition := FastPosition(Before(mine, start));
    var endPosition := startPosition + FastPosition(Window(mine, start, end));
    ScanIsFed(db, start);
    ScanIsFed(db, end);
    PositionAtEnd(db, start, end);
    var startTrades := OpenPositionTrades(startPosition, db, start, STRATEGY);
    var endTrades := OpenPositionTrades(endPosition, db, end, STRATEGY);
    var revenue :=
      RevenueGiven(Window(mine, start, end), startPosition, endPosition, startTrades, endTrades);
    var fees := MatchedFeesGiven(Window(db, start, end), startTrades, endTrades);
    r := Report(revenue, fees, revenue - fees);
  }

  /** The trades the slow path splits. */
  function SlowInput(db: seq<Trade>, start: int, end: int): seq<Trade> {
    OpeningTrades(Mine(db), start) + SortByTime(Window(Mine(db), start, end))
  }

  lemma {:induction false} KeptNonNegative(ls: seq<Lot>, need: real)
    requires AllNonNegative(ls) && AllFair(ls)
    ensures NonNegative(Values(KeepNewest(ls, need)))
  {
    if ls != [] && need > 0.0 {
      var last := ls[|ls| - 1];
      if last.volume < need {
        KeptNonNegative(ls[..|ls| - 1], need - last.volume);
        ValuesAppend(KeepNewest(ls[..|ls| - 1], need - last.volume), [last]);
      }
    }
  }

  lemma SlowInputNonNegative(db: seq<Trade>, start: int, end: int)
    requires NonNegative(db)
    ensures NonNegative(SlowInput(db, start, end))
  {
    hide Lot.Value;
    hide KeepNewest;
    hide SortByTime;
    WhereNonNegative(db, (t: Trade) => t.actor == STRATEGY);
    WhereNonNegative(Mine(db), (t: Trade) => t.time < start);
    WhereNonNegative(Mine(db), (t: Trade) => start <= t.time < end);
    SortKeepsNonNegative(Window(Mine(db), start, end));
    var before := Before(Mine(db), start);
    var offset := FastPosition(before);
    var side := if offset > 0.0 then Bid else Ask;
    OfSideKeeps(before, side);
    LotsValues(OfSide(before, side));
    KeptNonNegative(Lots(OfSide(before, side)), Abs(offset));
  }

  /** revenue_fees_profit_in_period. It raises if and only if the trades without volume that its split throws away
      are not free; with positive volumes it never does. */
  method RevenueFeesProfitInPeriod(db: seq<Trade>, start: int, end: int) returns (r: Result<Report>)
    requires Listed(db)
    ensures r == if ThrowsAwayFree(SlowInput(db, start, end), "USD") then Ok(Slow(db, start, end)) else AssertionError
  {
    hide FastPosition;
    hide Before;
    hide Window;
    hide OpenTrades;
    hide Candidates;
    hide SplitOf;
    hide SortByTime;
    hide Sum;
    hide NothingLost;
    hide ThrowsAwayFree;
    SlowInputNonNegative(db, start, end);
    var mine := Mine(db);
    var trades := SortByTime(Window(mine, start, end));
    var offset := FastPosition(Before(mine, start));
    ScanIsFed(db, start);
    var positionTrades := OpenPositionTrades(offset, db, start, STRATEGY);
    var split := SplitTrades(positionTrades + trades, "USD");
    if !split.Ok? { return AssertionError; }
    var values := Contents(split.value.matched);
    HoldsContents(split.value.matched, SlowMatched(db, start, end));
    MatchedCloses(positionTrades + trades);
    SharedConverts(values);
    var profits := ProfitData(values, PriceCurrency(values), "BTC");
    r := Ok(profits.value.report);
  }

  lemma PositiveNeverRaises(db: seq<Trade>, start: int, end: int)
    requires Clean(db) && start <= end
    ensures ThrowsAwayFree(SlowInput(db, start, end), "USD")
  {
    hide FastPosition;
    hide Before;
    hide Window;
    hide OpenTrades;
    hide SplitOf;
    hide SortByTime;
    hide ThrownAway;
    WhereClean(db, (t: Trade) => t.actor == STRATEGY);
    PeriodTrades(Mine(db), start, end);
    ThrownAwayAre(SlowInput(db, start, end));
  }
}
