/** Profit, revenue and fees of a period, fast and slow (gryphon/lib/gryphonfury/revenue.py,
    positions.py, _old_revenue.py). */
module Revenue {
  import opened Wrappers
  import opened Trades
  import opened History
  import opened Fifo
  import opened Splitting
  import opened OpenPosition

  // ---- reports on a list of trades ----

  /** What position_delta returns: the volume and fiat positions of a list of trades. */
  datatype Delta = Delta(volume: real, fiat: real)

  /** Raises when an amount cannot be converted. */
  method PositionDelta(ts: seq<Trade>, cur: string) returns (r: Result<Delta>)
    ensures r == if AllConvert(ts, cur) then Ok(Delta(Sum(ts, NET), Sum(ts, Profit(cur)))) else ValueError
  {
    var fiat, vol := 0.0, 0.0;
    for i := 0 to |ts|
      invariant AllConvert(ts[..i], cur)
      invariant vol == Sum(ts[..i], NET) && fiat == Sum(ts[..i], Profit(cur))
    {
      SumSnoc(ts, i, NET);
      SumSnoc(ts, i, Profit(cur));
      if !ts[i].Converts(cur) { return ValueError; }
      if ts[i].side == Ask {
        vol := vol - ts[i].volume;
        fiat := fiat + ts[i].PriceIn(cur);
      } else {
        vol := vol + ts[i].volume;
        fiat := fiat - ts[i].PriceIn(cur);
      }
      fiat := fiat - ts[i].FeeIn(cur);
      assert Profit(cur)(ts[i]) == Cash(cur)(ts[i]) - ts[i].FeeIn(cur);
    }
    assert ts[..|ts|] == ts;
    r := Ok(Delta(vol, fiat));
  }

  lemma SumSnoc(ts: seq<Trade>, i: nat, w: Trade -> real)
    requires i < |ts|
    ensures Sum(ts[..i + 1], w) == Sum(ts[..i], w) + w(ts[i])
  {
    assert ts[..i + 1] == ts[..i] + [ts[i]];
    SumAppend(ts[..i], [ts[i]], w);
  }

  datatype Report = Report(revenue: real, fees: real, profit: real)

  /** What profit_data returns: the report, and the fees that were charged in the volume currency. */
  datatype Profits = Profits(report: Report, volumeFees: real)

  function VolumeFee(volumeCurrency: string): Trade -> real {
    (t: Trade) => if t.feeCurrency == volumeCurrency then t.fee else 0.0
  }

  function ChargedIn(currency: string): Trade -> bool { (t: Trade) => t.feeCurrency == currency }

  const FEE_ITSELF: Trade -> real := (t: Trade) => t.fee

  /** The fees themselves of the trades that were charged in a currency. */
  lemma {:induction false} VolumeFees(ts: seq<Trade>, volumeCurrency: string)
    ensures Sum(ts, VolumeFee(volumeCurrency)) == Sum(Where(ts, ChargedIn(volumeCurrency)), FEE_ITSELF)
  {
    if ts != [] {
      VolumeFees(ts[1..], volumeCurrency);
      var rest := Where(ts[1..], ChargedIn(volumeCurrency));
      if ts[0].feeCurrency == volumeCurrency {
        assert Where(ts, ChargedIn(volumeCurrency)) == [ts[0]] + rest;
        assert ([ts[0]] + rest)[1..] == rest;
      } else {
        assert Where(ts, ChargedIn(volumeCurrency)) == [] + rest == rest;
      }
    }
  }

  /** profit_data: an error unless the amounts convert and the trades close. */
  method ProfitData(matched: seq<Trade>, cur: string, volumeCurrency: string) returns (r: Result<Profits>)
    ensures !AllConvert(matched, cur) || Sum(matched, NET) != 0.0 ==> r == ValueError
    ensures AllConvert(matched, cur) && Sum(matched, NET) == 0.0 ==>
      r == Ok(Profits(Report(Sum(matched, Cash(cur)), Sum(matched, Fee(cur)), Sum(matched, Profit(cur))),
                      Sum(matched, VolumeFee(volumeCurrency))))
  {
    var position, revenue, fees, volumeFees := 0.0, 0.0, 0.0, 0.0;
    for i := 0 to |matched|
      invariant AllConvert(matched[..i], cur)
      invariant position == Sum(matched[..i], NET)
      invariant revenue == Sum(matched[..i], Cash(cur)) && fees == Sum(matched[..i], Fee(cur))
      invariant volumeFees == Sum(matched[..i], VolumeFee(volumeCurrency))
    {
      SumSnoc(matched, i, NET);
      SumSnoc(matched, i, Cash(cur));
      SumSnoc(matched, i, Fee(cur));
      SumSnoc(matched, i, VolumeFee(volumeCurrency));
      if !matched[i].Converts(cur) { return ValueError; }
      if matched[i].side == Ask {
        position := position - matched[i].volume;
        revenue := revenue + matched[i].PriceIn(cur);
      } else {
        position := position + matched[i].volume;
        revenue := revenue - matched[i].PriceIn(cur);
      }
      if matched[i].feeCurrency == volumeCurrency { volumeFees := volumeFees + matched[i].fee; }
      fees := fees + matched[i].FeeIn(cur);
    }
    assert matched[..|matched|] == matched;
    ProfitSplits(matched, cur);
    if position != 0.0 { return ValueError; }
    r := Ok(Profits(Report(revenue, fees, revenue - fees), volumeFees));
  }

  method RealizedPl(matched: seq<Trade>, cur: string) returns (r: Result<real>)
    ensures r == if !AllConvert(matched, cur) || Sum(matched, NET) != 0.0 then ValueError
                 else Ok(Sum(matched, Profit(cur)))
  {
    var d := PositionDelta(matched, cur);
    if d.ValueError? { return ValueError; }
    r := if d.value.volume != 0.0 then ValueError else Ok(d.value.fiat);
  }

  /** A net volume at a unit price. */
  function Valued(unitPrice: real, volume: real): real { unitPrice * volume }

  /** The fiat flow of the open trades, and their net volume at the fundamental value. */
  function OpenValue(open: seq<Trade>, fundamentalValue: real, cur: string): real {
    Sum(open, Profit(cur)) + Valued(fundamentalValue, Sum(open, NET))
  }

  method OpenPl(open: seq<Trade>, fundamentalValue: real, cur: string) returns (r: Result<real>)
    ensures r == if AllConvert(open, cur) then Ok(OpenValue(open, fundamentalValue, cur)) else ValueError
    ensures r.Ok? ==> r.value == Sum(open + [Closer(open, fundamentalValue, cur)], Profit(cur))
  {
    ClosingRealises(open, fundamentalValue, cur);
    var d := PositionDelta(open, cur);
    if d.ValueError? { return ValueError; }
    var openPl := d.value.fiat + fundamentalValue * d.value.volume;
    assert openPl == OpenValue(open, fundamentalValue, cur);
    hide Sum;
    hide Valued;
    r := Ok(openPl);
  }

  /** The trade that would close open trades at a unit price without a fee. */
  function Closer(open: seq<Trade>, unitPrice: real, cur: string): Trade {
    var net := Sum(open, NET);
    Trade(if net > 0.0 then Ask else Bid, 0, 0, STRATEGY, "", cur, 1.0, cur, 1.0,
          Abs(net), Valued(unitPrice, Abs(net)), 0.0)
  }

  /** The open profit is what closing at the fundamental value would realise. */
  lemma ClosingRealises(open: seq<Trade>, fundamentalValue: real, cur: string)
    ensures var closed := open + [Closer(open, fundamentalValue, cur)];
      && Sum(closed, NET) == 0.0
      && OpenValue(open, fundamentalValue, cur) == Sum(closed, Profit(cur))
  {
    var c := Closer(open, fundamentalValue, cur);
    SumAppend(open, [c], NET);
    SumAppend(open, [c], Profit(cur));
    assert Sum([c], NET) == NET(c);
    assert Sum([c], Profit(cur)) == Profit(cur)(c);
    assert c.FeeIn(cur) == 0.0;
    var net := Sum(open, NET);
    assert Valued(fundamentalValue, -net) == -Valued(fundamentalValue, net);
    assert c.side == if net > 0.0 then Ask else Bid;
    assert c.PriceIn(cur) == c.price;
    assert Cash(cur)(c) == if net > 0.0 then c.price else -c.price;
    assert Profit(cur)(c) == Cash(cur)(c) - c.FeeIn(cur);
    assert c.price == Valued(fundamentalValue, if net < 0.0 then -net else net);
    assert Profit(cur)(c) == Valued(fundamentalValue, net);
    hide *;
  }

  datatype Unit = Unit(time: int, profit: real, revenue: real, exchanges: seq<string>)

  predicate Closing(a: Trade, b: Trade) { a.volume == b.volume && a.side != b.side }

  predicate AllClosing(m: seq<Trade>) {
    |m| % 2 == 0 && forall k :: 0 <= k < |m| - 1 && k % 2 == 0 ==> Closing(m[k], m[k + 1])
  }

  function UnitOf(a: Trade, b: Trade, cur: string): Unit {
    Unit(if a.time >= b.time then a.time else b.time,
         Profit(cur)(a) + Profit(cur)(b), Cash(cur)(a) + Cash(cur)(b), [a.exchange, b.exchange])
  }

  /** One pair of profit_units: what the sale brought in above what the purchase cost, without both fees, at the
      later of the two times. */
  method PairUnit(t1: Trade, t2: Trade, cur: string) returns (r: Result<Unit>)
    ensures r.Ok? <==> Closing(t1, t2) && t1.Converts(cur) && t2.Converts(cur)
    ensures r.Ok? ==> r.value == UnitOf(t1, t2, cur) && IsUnit(r.value, t1, t2, cur)
  {
    if t1.volume != t2.volume { return AssertionError; }
    if t1.side == t2.side { return ValueError; }
    if !t1.Converts(cur) || !t2.Converts(cur) { return ValueError; }
    var ask, bid := if t1.side == Ask then t1 else t2, if t1.side == Ask then t2 else t1;
    var revenue := ask.PriceIn(cur) - bid.PriceIn(cur);
    var fees := ask.FeeIn(cur) + bid.FeeIn(cur);
    var time := if t1.time >= t2.time then t1.time else t2.time;
    r := Ok(Unit(time, revenue - fees, revenue, [t1.exchange, t2.exchange]));
  }

  /** A unit of two closing trades, field by field. */
  predicate IsUnit(u: Unit, t1: Trade, t2: Trade, cur: string) {
    && u.revenue == (if t1.side == Ask then t1.PriceIn(cur) - t2.PriceIn(cur) else t2.PriceIn(cur) - t1.PriceIn(cur))
    && u.profit == u.revenue - t1.FeeIn(cur) - t2.FeeIn(cur)
    && t1.time <= u.time && t2.time <= u.time && (u.time == t1.time || u.time == t2.time)
    && u.exchanges == [t1.exchange, t2.exchange]
  }

  /** profit_units: one unit per pair; it raises when a pair is not two closing trades or does not convert. */
  method ProfitUnits(m: seq<Trade>, cur: string) returns (r: Result<seq<Unit>>)
    ensures r.Ok? <==> AllClosing(m) && AllConvert(m, cur)
    ensures r.Ok? ==> |r.value| * 2 == |m|
    ensures r.Ok? ==>
      forall k :: 0 <= k < |r.value| ==>
        r.value[k] == UnitOf(m[2 * k], m[2 * k + 1], cur) && IsUnit(r.value[k], m[2 * k], m[2 * k + 1], cur)
  {
    hide UnitOf;
    hide IsUnit;
    var units: seq<Unit> := [];
    var i := 0;
    while i < |m|
      invariant i == 2 * |units| && i <= |m|
      invariant forall k :: 0 <= k < i - 1 && k % 2 == 0 ==> Closing(m[k], m[k + 1])
      invariant forall k :: 0 <= k < i ==> m[k].Converts(cur)
      invariant forall k :: 0 <= k < |units| ==>
        units[k] == UnitOf(m[2 * k], m[2 * k + 1], cur) && IsUnit(units[k], m[2 * k], m[2 * k + 1], cur)
    {
      if i + 1 == |m| { return ValueError; }
      var unit := PairUnit(m[i], m[i + 1], cur);
      match unit {
        case Ok(u) => units := units + [u];
        case ValueError => return ValueError;
        case AssertionError => return AssertionError;
      }
      i := i + 2;
    }
    r := Ok(units);
  }

  function UnitProfits(us: seq<Unit>): real { if us == [] then 0.0 else us[0].profit + UnitProfits(us[1..]) }

  function UnitRevenues(us: seq<Unit>): real { if us == [] then 0.0 else us[0].revenue + UnitRevenues(us[1..]) }

  /** The profits and revenues of the units add up to those of the trades. */
  lemma {:induction false} UnitsAddUp(m: seq<Trade>, us: seq<Unit>, cur: string)
    requires |us| * 2 == |m|
    requires forall k :: 0 <= k < |us| ==> us[k] == UnitOf(m[2 * k], m[2 * k + 1], cur)
    ensures UnitProfits(us) == Sum(m, Profit(cur)) && UnitRevenues(us) == Sum(m, Cash(cur))
  {
    if us != [] {
      var rest := m[2..];
      assert m == [m[0]] + ([m[1]] + rest);
      assert m[1..] == [m[1]] + rest && m[1..][1..] == rest;
      forall k | 0 <= k < |us[1..]| ensures us[1..][k] == UnitOf(rest[2 * k], rest[2 * k + 1], cur) {
        assert us[k + 1] == UnitOf(m[2 * (k + 1)], m[2 * (k + 1) + 1], cur);
      }
      UnitsAddUp(rest, us[1..], cur);
      assert us[0] == UnitOf(m[2 * 0], m[2 * 0 + 1], cur);
    }
  }

  /** The matched list of any split consists of closing pairs, so profit_units never raises on it
      and profit_data and realized_pl agree with it. */
  lemma MatchedCloses(ts: seq<Trade>)
    ensures AllClosing(Values(SplitOf(ts).matched)) && Sum(Values(SplitOf(ts).matched), NET) == 0.0
  {
    hide Lot.Value;
    SplitNet(ts);
    Sides(ts);
    var sorted := SortByTime(ts);
    var b, a := Lots(OfSide(sorted, Bid)), Lots(OfSide(sorted, Ask));
    MatchPairs(b, a);
    var m := SplitOf(ts).matched;
    forall k | 0 <= k < |m| - 1 && k % 2 == 0 ensures Closing(Values(m)[k], Values(m)[k + 1]) {
      assert Opposed(m[k], m[k + 1]);
      ValuesAt(m, k);
      ValuesAt(m, k + 1);
      MatchedFair(b, a);
    }
  }

  /** The matched list converts into the currency its trades share, or into USD. */
  lemma SharedConverts(ts: seq<Trade>)
    ensures AllConvert(ts, PriceCurrency(ts))
  {
  }

  lemma {:induction false} VolumelessNet(ts: seq<Trade>)
    requires forall t :: t in ts ==> t.volume == 0.0
    ensures Sum(ts, NET) == 0.0
  {
    if ts != [] { VolumelessNet(ts[1..]); }
  }

  /** What is matched and what stays open share the position, and the profit of everything but the trades without
      volume that are thrown away. */
  lemma SplitShares(ts: seq<Trade>, cur: string)
    requires NonNegative(ts)
    ensures var s := SplitOf(ts);
      && Sum(Values(s.matched), Profit(cur)) + Sum(Values(s.position), Profit(cur))
         == Sum(ts, Profit(cur)) - Sum(ThrownAway(ts), Profit(cur))
      && Sum(Values(s.position), NET) == Sum(ts, NET)
      && (Positive(ts) ==> ThrownAway(ts) == [])
  {
    hide SplitOf;
    hide ThrownAway;
    var s := SplitOf(ts);
    MeasuresAdditive(cur);
    SplitAccounts(ts, Cash(cur));
    SplitAccounts(ts, Fee(cur));
    SplitAccounts(ts, NET);
    SplitNet(ts);
    ThrownAwayAre(ts);
    VolumelessNet(ThrownAway(ts));
    ProfitSplits(ts, cur);
    ProfitSplits(ThrownAway(ts), cur);
    ProfitSplits(Values(s.matched), cur);
    ProfitSplits(Values(s.position), cur);
    hide *;
  }

  /** Realized plus open profit is the mark-to-market of the whole list: what the trades brought in plus the value
      of the net position, without what the trades thrown away cost. */
  lemma MarkToMarket(ts: seq<Trade>, fundamentalValue: real, cur: string)
    requires NonNegative(ts)
    ensures var s := SplitOf(ts);
      Sum(Values(s.matched), Profit(cur)) + OpenValue(Values(s.position), fundamentalValue, cur)
      == Sum(ts, Profit(cur)) + fundamentalValue * Sum(ts, NET) - Sum(ThrownAway(ts), Profit(cur))
  {
    SplitShares(ts, cur);
    SamePosition(Values(SplitOf(ts).position), ts, fundamentalValue, cur);
    hide *;
  }

  lemma SamePosition(a: seq<Trade>, b: seq<Trade>, fundamentalValue: real, cur: string)
    requires Sum(a, NET) == Sum(b, NET)
    ensures OpenValue(a, fundamentalValue, cur) - OpenValue(b, fundamentalValue, cur)
         == Sum(a, Profit(cur)) - Sum(b, Profit(cur))
  {
    hide Sum;
  }

  // ---- the revenue, fees and profit of a period ----

  const STRATEGY := "Multi"

  function Mine(db: seq<Trade>): seq<Trade> { OfActor(db, STRATEGY) }

  function FastPosition(ts: seq<Trade>): real { Volume(OfSide(ts, Bid)) - Volume(OfSide(ts, Ask)) }

  function PriceUsd(): Trade -> real { (t: Trade) => t.PriceInUsd() }

  function FeeUsd(): Trade -> real { (t: Trade) => t.FeeInUsd() }

  /** get_revenue_in_period_given_positions_and_position_trades. */
  function RevenueGiven(period: seq<Trade>, startPosition: real, endPosition: real,
                        startTrades: seq<Trade>, endTrades: seq<Trade>): real
  {
    var asks, bids := Sum(OfSide(period, Ask), PriceUsd()), Sum(OfSide(period, Bid), PriceUsd());
    var startPrice, endPrice := Sum(startTrades, PriceUsd()), Sum(endTrades, PriceUsd());
    var bids1 := if startPosition > 0.0 then bids + startPrice else bids;
    var asks1 := if startPosition > 0.0 then asks else asks + startPrice;
    var bids2 := if endPosition > 0.0 then bids1 - endPrice else bids1;
    var asks2 := if endPosition > 0.0 then asks1 else asks1 - endPrice;
    asks2 - bids2
  }

  /** get_matched_fees_in_period_given_position_trades: `all` are everyone's trades in the period. */
  function MatchedFeesGiven(all: seq<Trade>, startTrades: seq<Trade>, endTrades: seq<Trade>): real {
    Sum(all, FeeUsd()) + Sum(startTrades, FeeUsd()) - Sum(endTrades, FeeUsd())
  }

  /** fast_revenue_fees_profit_in_period: arithmetic on totals and the two open positions. */
  function Fast(db: seq<Trade>, start: int, end: int): Report {
    var mine := Mine(db);
    var startPosition := FastPosition(Before(mine, start));
    var endPosition := startPosition + FastPosition(Window(mine, start, end));
    var startTrades := OpenTrades(startPosition, Before(mine, start));
    var endTrades := OpenTrades(endPosition, Before(mine, end));
    var revenue :=
      RevenueGiven(Window(mine, start, end), startPosition, endPosition, startTrades, endTrades);
    var fees := MatchedFeesGiven(Window(db, start, end), startTrades, endTrades);
    Report(revenue, fees, revenue - fees)
  }

  /** The matched trades of the slow path: split the opening position with the period's trades. */
  function SlowMatched(db: seq<Trade>, start: int, end: int): seq<Trade> {
    var mine := Mine(db);
    var positionTrades := OpenTrades(FastPosition(Before(mine, start)), Before(mine, start));
    Values(SplitOf(positionTrades + SortByTime(Window(mine, start, end))).matched)
  }

  /** The slow path, reported in currency `cur`. */
  function SlowIn(db: seq<Trade>, start: int, end: int, cur: string): Report {
    var matched := SlowMatched(db, start, end);
    Report(Sum(matched, Cash(cur)), Sum(matched, Fee(cur)), Sum(matched, Profit(cur)))
  }

  /** price_currency_for_trades. */
  function PriceCurrency(ts: seq<Trade>): string {
    if ts == [] then "USD"
    else if forall i :: 0 <= i < |ts| ==> ts[i].currency == ts[0].currency then ts[0].currency
    else "USD"
  }

  /** revenue_fees_profit_in_period: the slow path reports in whatever currency its matched trades
      share. */
  function Slow(db: seq<Trade>, start: int, end: int): Report {
    SlowIn(db, start, end, PriceCurrency(SlowMatched(db, start, end)))
  }

  /** The table: in order, with positive volumes; a USD trade has the exchange rate 1. */
  predicate IsHistory(db: seq<Trade>) { Clean(db) && AtPar(db) }

  predicate Par(t: Trade) { t.currency == "USD" ==> t.rate == 1.0 }

  predicate AtPar(ts: seq<Trade>) { forall i :: 0 <= i < |ts| ==> Par(ts[i]) }

  lemma WhereClean(ts: seq<Trade>, p: Trade -> bool)
    requires Clean(ts)
    ensures Clean(Where(ts, p))
  {
    WhereSorted(ts, p);
    var r := Where(ts, p);
    forall i | 0 <= i < |r| ensures r[i].volume > 0.0 { WhereIn(ts, p, r[i]); }
  }

  lemma PeriodClean(ts: seq<Trade>, start: int, end: int)
    requires Clean(ts) && start <= end
    ensures Clean(Before(ts, start)) && Clean(Before(ts, end)) && Clean(Window(ts, start, end))
    ensures AllBefore(Before(ts, start), start)
    ensures var w := Window(ts, start, end); forall i :: 0 <= i < |w| ==> start <= w[i].time
    ensures Before(ts, end) == Before(ts, start) + Window(ts, start, end)
  {
    PeriodAppends(ts, start, end);
    WhereClean(ts, (t: Trade) => t.time < start);
    WhereClean(ts, (t: Trade) => t.time < end);
    WhereClean(ts, (t: Trade) => start <= t.time < end);
    var b, w := Before(ts, start), Window(ts, start, end);
    forall i | 0 <= i < |b| ensures b[i].time < start { WhereIn(ts, (t: Trade) => t.time < start, b[i]); }
    forall i | 0 <= i < |w| ensures start <= w[i].time {
      WhereIn(ts, (t: Trade) => start <= t.time < end, w[i]);
    }
  }

  lemma NetIsPosition(ts: seq<Trade>)
    ensures FastPosition(ts) == Sum(ts, NET)
  {
    NetBySide(ts);
  }

  /** Opening trades, period trades and closing trades of one actor's history. */
  lemma PeriodTrades(ts: seq<Trade>, start: int, end: int)
    requires Clean(ts) && start <= end
    ensures var before, period := Before(ts, start), Window(ts, start, end);
            var opening := OpenTrades(FastPosition(before), before);
            var closing := OpenTrades(FastPosition(before) + FastPosition(period), Before(ts, end));
      && SortByTime(period) == period && Clean(opening + period)
      && opening == Values(SplitOf(before).position)
      && closing == Values(SplitOf(Before(ts, end)).position)
      && closing == Values(SplitOf(opening + period).position)
  {
    hide SplitOf;
    hide OpenTrades;
    hide FastPosition;
    hide Before;
    hide Window;
    hide SortByTime;
    PeriodClean(ts, start, end);
    var before, period := Before(ts, start), Window(ts, start, end);
    SortId(period);
    LeftoverIsOpen(before);
    LeftoverIsOpen(Before(ts, end));
    NetIsPosition(before);
    NetIsPosition(period);
    SumAppend(before, period, NET);
    CarryOn(before, period, start);
  }

  /** Whatever is measured: what a period realises is what it opened with, plus what was traded,
      minus what it closes with. */
  lemma PeriodIdentity(ts: seq<Trade>, start: int, end: int, w: Trade -> real)
    requires Clean(ts) && start <= end && Additive(w)
    ensures var before, period := Before(ts, start), Window(ts, start, end);
            var opening := OpenTrades(FastPosition(before), before);
            var closing := OpenTrades(FastPosition(before) + FastPosition(period), Before(ts, end));
      Sum(Values(SplitOf(opening + SortByTime(period)).matched), w)
      == Sum(opening, w) + Sum(period, w) - Sum(closing, w)
  {
    hide SplitOf;
    hide OpenTrades;
    var before, period := Before(ts, start), Window(ts, start, end);
    var opening := OpenTrades(FastPosition(before), before);
    PeriodTrades(ts, start, end);
    SplitConserves(opening + period, w);
    PositiveLosesNothing(opening + period);
    SumAppend(opening, period, w);
  }

  /** What a trade brings in, in USD. */
  function CashUsd(): Trade -> real {
    (t: Trade) => if t.side == Ask then t.PriceInUsd() else -t.PriceInUsd()
  }

  lemma {:induction false} CashOneSided(ts: seq<Trade>, side: Side)
    requires OneSided(ts, side)
    ensures Sum(ts, CashUsd()) == if side == Ask then Sum(ts, PriceUsd()) else -Sum(ts, PriceUsd())
  {
    if ts != [] { CashOneSided(ts[1..], side); }
  }

  /** The arithmetic of the fast path is a signed sum. */
  lemma RevenueIsCash(period: seq<Trade>, startPosition: real, endPosition: real,
                      startTrades: seq<Trade>, endTrades: seq<Trade>)
    requires if startPosition > 0.0 then OneSided(startTrades, Bid) else OneSided(startTrades, Ask)
    requires if endPosition > 0.0 then OneSided(endTrades, Bid) else OneSided(endTrades, Ask)
    ensures RevenueGiven(period, startPosition, endPosition, startTrades, endTrades)
         == Sum(startTrades, CashUsd()) + Sum(period, CashUsd()) - Sum(endTrades, CashUsd())
  {
    CashOneSided(startTrades, if startPosition > 0.0 then Bid else Ask);
    CashOneSided(endTrades, if endPosition > 0.0 then Bid else Ask);
    SumBySide(period, CashUsd());
    OfSideKeeps(period, Bid);
    OfSideKeeps(period, Ask);
    CashOneSided(OfSide(period, Bid), Bid);
    CashOneSided(OfSide(period, Ask), Ask);
  }

  lemma UsdAdditive()
    ensures Additive(CashUsd()) && Additive(FeeUsd())
  {
    forall t: Trade, v: real | 0.0 < v < t.volume
      ensures t.Trim(v).PriceInUsd() + t.Trim(t.volume - v).PriceInUsd() == t.PriceInUsd()
      ensures t.Trim(v).FeeInUsd() + t.Trim(t.volume - v).FeeInUsd() == t.FeeInUsd()
    {
      var a, b := v / t.volume, (t.volume - v) / t.volume;
      RatiosAddUp(t.volume, v);
      Pieces(t.price, a, b, t.rate);
      Pieces(t.fee, a, b, t.feeRate * t.rate);
    }
  }

  function OpeningTrades(ts: seq<Trade>, start: int): seq<Trade> {
    OpenTrades(FastPosition(Before(ts, start)), Before(ts, start))
  }

  function ClosingTrades(ts: seq<Trade>, start: int, end: int): seq<Trade> {
    OpenTrades(FastPosition(Before(ts, start)) + FastPosition(Window(ts, start, end)), Before(ts, end))
  }

  lemma PeriodSides(ts: seq<Trade>, start: int, end: int)
    requires Clean(ts) && start <= end
    ensures var p := FastPosition(Before(ts, start));
            var q := p + FastPosition(Window(ts, start, end));
      && (if p > 0.0 then OneSided(OpeningTrades(ts, start), Bid) else OneSided(OpeningTrades(ts, start), Ask))
      && (if q > 0.0 then OneSided(ClosingTrades(ts, start, end), Bid) else OneSided(ClosingTrades(ts, start, end), Ask))
  {
    hide SplitOf;
    hide OpenTrades;
    hide FastPosition;
    hide Before;
    hide Window;
    PeriodTrades(ts, start, end);
    PeriodClean(ts, start, end);
    HeldSign(Before(ts, start));
    HeldSign(Before(ts, end));
    NetIsPosition(Before(ts, start));
    NetIsPosition(Window(ts, start, end));
    SumAppend(Before(ts, start), Window(ts, start, end), NET);
  }

  /** What the fast path computes, measured on the trades the slow path matches. */
  lemma FastIsMatched(db: seq<Trade>, start: int, end: int)
    requires Clean(db) && start <= end
    ensures Fast(db, start, end).revenue == Sum(SlowMatched(db, start, end), CashUsd())
    ensures Fast(db, start, end).fees
         == Sum(SlowMatched(db, start, end), FeeUsd())
            + Sum(Window(Others(db, STRATEGY), start, end), FeeUsd())
  {
    hide SplitOf;
    hide OpenTrades;
    hide RevenueGiven;
    hide FastPosition;
    hide Before;
    hide SortByTime;
    hide Sum;
    var mine := Mine(db);
    WhereClean(db, (t: Trade) => t.actor == STRATEGY);
    UsdAdditive();
    PeriodIdentity(mine, start, end, CashUsd());
    PeriodIdentity(mine, start, end, FeeUsd());
    PeriodSides(mine, start, end);
    var p := FastPosition(Before(mine, start));
    RevenueIsCash(Window(mine, start, end), p, p + FastPosition(Window(mine, start, end)),
                  OpeningTrades(mine, start), ClosingTrades(mine, start, end));
    SumByActor(db, (t: Trade) => start <= t.time < end, STRATEGY, FeeUsd());
  }

  lemma {:induction false} UsdAtPar(ts: seq<Trade>)
    requires AtPar(ts)
    ensures Sum(ts, CashUsd()) == Sum(ts, Cash("USD")) && Sum(ts, FeeUsd()) == Sum(ts, Fee("USD"))
  {
    if ts != [] { UsdAtPar(ts[1..]); }
  }

  lemma SlowAtPar(db: seq<Trade>, start: int, end: int)
    requires IsHistory(db) && start <= end
    ensures AtPar(SlowMatched(db, start, end))
  {
    hide SplitOf;
    hide OpenTrades;
    hide FastPosition;
    hide SortByTime;
    var mine := Mine(db);
    var before, period := Before(mine, start), Window(mine, start, end);
    WhereAtPar(db, (t: Trade) => t.actor == STRATEGY);
    WhereAtPar(mine, (t: Trade) => t.time < start);
    WhereAtPar(mine, (t: Trade) => start <= t.time < end);
    WhereClean(db, (t: Trade) => t.actor == STRATEGY);
    PeriodTrades(mine, start, end);
    SplitKeeps(before, t => Par(t));
    var opening := OpenTrades(FastPosition(before), before);
    assert AtPar(opening + period);
    SplitKeeps(opening + period, t => Par(t));
  }

  lemma WhereAtPar(ts: seq<Trade>, p: Trade -> bool)
    requires AtPar(ts)
    ensures AtPar(Where(ts, p))
  {
    var r := Where(ts, p);
    forall i | 0 <= i < |r| ensures Par(r[i]) { WhereIn(ts, p, r[i]); }
  }

  /** The fast revenue is the slow revenue in USD; the fast fees also count the fees that other
      actors paid in the period. */
  lemma FastEqualsSlowInUsd(db: seq<Trade>, start: int, end: int)
    requires IsHistory(db) && start <= end
    ensures var fast, slow := Fast(db, start, end), SlowIn(db, start, end, "USD");
            var foreign := Sum(Window(Others(db, STRATEGY), start, end), FeeUsd());
      && fast.revenue == slow.revenue
      && fast.fees == slow.fees + foreign
      && fast.profit == slow.profit - foreign
      && (fast == slow <==> foreign == 0.0)
      && (PriceCurrency(SlowMatched(db, start, end)) == "USD" ==> slow == Slow(db, start, end))
  {
    hide SlowMatched;
    hide Window;
    FastIsMatched(db, start, end);
    SlowAtPar(db, start, end);
    UsdAtPar(SlowMatched(db, start, end));
    ProfitSplits(SlowMatched(db, start, end), "USD");
  }

  // ---- what the two paths report, read off the rows ----

  /** The strategy's trades before the end of the period: every row that either path looks at, other than other
      actors' fees. */
  function Rows(db: seq<Trade>, end: int): seq<Trade> { Before(Mine(db), end) }

  function OthersFees(db: seq<Trade>, start: int, end: int): real {
    Sum(Window(Others(db, STRATEGY), start, end), FeeUsd())
  }

  /** What a period realises in a measure: what it opens with and what is traded in it, without what it closes
      with. No trades are matched for it. */
  function Realised(db: seq<Trade>, start: int, end: int, w: Trade -> real): real {
    var mine := Mine(db);
    Sum(OpeningTrades(mine, start), w) + Sum(Window(mine, start, end), w) - Sum(ClosingTrades(mine, start, end), w)
  }

  lemma RealisedIsMatched(db: seq<Trade>, start: int, end: int, w: Trade -> real)
    requires Clean(db) && start <= end && Additive(w)
    ensures Sum(SlowMatched(db, start, end), w) == Realised(db, start, end, w)
  {
    hide SplitOf;
    hide OpenTrades;
    hide FastPosition;
    WhereClean(db, (t: Trade) => t.actor == STRATEGY);
    PeriodIdentity(Mine(db), start, end, w);
  }

  lemma SlowIs(db: seq<Trade>, start: int, end: int)
    ensures var matched := SlowMatched(db, start, end);
            var cur := PriceCurrency(matched);
      Slow(db, start, end)
      == Report(Sum(matched, Cash(cur)), Sum(matched, Fee(cur)), Sum(matched, Profit(cur)))
  {
  }

  /** What a trade brings in, and pays in fees, more in USD than in a currency. */
  function CashExcess(cur: string): Trade -> real { (t: Trade) => CashUsd()(t) - Cash(cur)(t) }

  function FeeExcess(cur: string): Trade -> real { (t: Trade) => FeeUsd()(t) - Fee(cur)(t) }

  lemma {:induction false} SumExcess(ts: seq<Trade>, cur: string)
    ensures Sum(ts, CashExcess(cur)) == Sum(ts, CashUsd()) - Sum(ts, Cash(cur))
    ensures Sum(ts, FeeExcess(cur)) == Sum(ts, FeeUsd()) - Sum(ts, Fee(cur))
  {
    hide CashUsd;
    hide FeeUsd;
    hide Cash;
    hide Fee;
    if ts != [] { SumExcess(ts[1..], cur); }
  }

  lemma ExcessAdditive(cur: string)
    ensures Additive(CashExcess(cur)) && Additive(FeeExcess(cur))
  {
    UsdAdditive();
    MeasuresAdditive(cur);
    hide CashUsd;
    hide FeeUsd;
    hide Cash;
    hide Fee;
  }

  lemma ExceedsReported(db: seq<Trade>, start: int, end: int)
    requires Clean(db) && start <= end
    ensures var fast, slow := Fast(db, start, end), Slow(db, start, end);
            var cur := PriceCurrency(SlowMatched(db, start, end));
      && fast.revenue - slow.revenue == Realised(db, start, end, CashExcess(cur))
      && fast.fees - slow.fees == Realised(db, start, end, FeeExcess(cur)) + OthersFees(db, start, end)
      && fast.profit == fast.revenue - fast.fees && slow.profit == slow.revenue - slow.fees
  {
    var matched := SlowMatched(db, start, end);
    var cur := PriceCurrency(matched);
    FastIsMatched(db, start, end);
    FastProfit(db, start, end);
    SlowIs(db, start, end);
    ProfitSplits(matched, cur);
    SumExcess(matched, cur);
    ExcessAdditive(cur);
    RealisedIsMatched(db, start, end, CashExcess(cur));
    RealisedIsMatched(db, start, end, FeeExcess(cur));
    assert OthersFees(db, start, end) == Sum(Window(Others(db, STRATEGY), start, end), FeeUsd());
    hide *;
  }

  /** The matched trades share every property of the strategy's rows that amounts do not touch. */
  lemma SlowKeeps(db: seq<Trade>, start: int, end: int, p: Trade -> bool)
    requires Clean(db) && start <= end && AmountBlind(p) && All(Rows(db, end), p)
    ensures All(SlowMatched(db, start, end), p)
  {
    hide SplitOf;
    hide OpenTrades;
    hide FastPosition;
    hide SortByTime;
    hide Before;
    hide Window;
    var mine := Mine(db);
    var before, period := Before(mine, start), Window(mine, start, end);
    WhereClean(db, (t: Trade) => t.actor == STRATEGY);
    PeriodClean(mine, start, end);
    AllParts(before, period, p);
    PeriodTrades(mine, start, end);
    SplitKeeps(before, p);
    var opening := OpenTrades(FastPosition(before), before);
    assert All(opening + period, p);
    SplitKeeps(opening + period, p);
  }

  lemma AllParts(a: seq<Trade>, b: seq<Trade>, p: Trade -> bool)
    requires All(a + b, p)
    ensures All(a, p) && All(b, p)
  {
    forall i | 0 <= i < |a| ensures p(a[i]) { assert (a + b)[i] == a[i]; }
    forall i | 0 <= i < |b| ensures p(b[i]) { assert (a + b)[|a| + i] == b[i]; }
  }

  predicate InCurrency(ts: seq<Trade>, cur: string) { forall i :: 0 <= i < |ts| ==> ts[i].currency == cur }

  /** The volume of a trade in any other currency. */
  function Outside(cur: string): Trade -> real { (t: Trade) => if t.currency == cur then 0.0 else t.volume }

  lemma {:induction false} OutsideIff(ts: seq<Trade>, cur: string)
    requires Positive(ts)
    ensures Sum(ts, Outside(cur)) >= 0.0
    ensures Sum(ts, Outside(cur)) == 0.0 <==> InCurrency(ts, cur)
  {
    if ts != [] {
      OutsideIff(ts[1..], cur);
      assert ts == [ts[0]] + ts[1..];
      assert InCurrency(ts, cur) <==> ts[0].currency == cur && InCurrency(ts[1..], cur);
    }
  }

  /** Everything matched is in a currency if and only if the rows realise no volume outside it. */
  lemma RealisedInIff(db: seq<Trade>, start: int, end: int, cur: string)
    requires Clean(db) && start <= end
    ensures Realised(db, start, end, Outside(cur)) == 0.0 <==> InCurrency(SlowMatched(db, start, end), cur)
  {
    assert Additive(Outside(cur));
    RealisedIsMatched(db, start, end, Outside(cur));
    SlowPositive(db, start, end);
    OutsideIff(SlowMatched(db, start, end), cur);
    hide *;
  }

  lemma SlowPositive(db: seq<Trade>, start: int, end: int)
    ensures Positive(SlowMatched(db, start, end))
  {
    hide SplitOf;
    hide OpenTrades;
    hide FastPosition;
    var mine := Mine(db);
    MatchedPositive(OpenTrades(FastPosition(Before(mine, start)), Before(mine, start))
                    + SortByTime(Window(mine, start, end)));
  }

  /** The first currency of some rows outside which the period realises no volume; USD when there is none. */
  function FirstCurrency(rows: seq<Trade>, db: seq<Trade>, start: int, end: int): string {
    if rows == [] then "USD"
    else if Realised(db, start, end, Outside(rows[0].currency)) == 0.0 then rows[0].currency
    else FirstCurrency(rows[1..], db, start, end)
  }

  /** The currency the slow path will report in, read off the rows before anything is matched. */
  function ReportCurrency(db: seq<Trade>, start: int, end: int): string {
    FirstCurrency(Rows(db, end), db, start, end)
  }

  lemma {:induction false} FirstCurrencyIs(rows: seq<Trade>, db: seq<Trade>, start: int, end: int)
    requires Clean(db) && start <= end
    ensures var cur, matched := FirstCurrency(rows, db, start, end), SlowMatched(db, start, end);
      && (InCurrency(matched, cur) || cur == "USD")
      && ((exists t :: t in rows && InCurrency(matched, t.currency)) ==> InCurrency(matched, cur))
  {
    hide Realised;
    hide SlowMatched;
    hide InCurrency;
    if rows != [] {
      RealisedInIff(db, start, end, rows[0].currency);
      FirstCurrencyIs(rows[1..], db, start, end);
      assert rows == [rows[0]] + rows[1..];
    }
  }

  lemma SharedCurrency(ts: seq<Trade>, cur: string)
    requires ts != []
    ensures InCurrency(ts, cur) ==> PriceCurrency(ts) == cur == ts[0].currency
    ensures !InCurrency(ts, ts[0].currency) ==> PriceCurrency(ts) == "USD"
  {
  }

  predicate CurrencyOf(rows: seq<Trade>, cur: string) { exists t :: t in rows && t.currency == cur }

  lemma MatchedCurrency(db: seq<Trade>, start: int, end: int)
    requires Clean(db) && start <= end
    ensures SlowMatched(db, start, end) != [] ==> CurrencyOf(Rows(db, end), SlowMatched(db, start, end)[0].currency)
  {
    hide SlowMatched;
    hide Rows;
    var rows := Rows(db, end);
    SlowKeeps(db, start, end, (t: Trade) => CurrencyOf(rows, t.currency));
  }

  /** It is the currency of the slow report, unless there is nothing to report. */
  lemma ReportCurrencyIs(db: seq<Trade>, start: int, end: int)
    requires Clean(db) && start <= end
    ensures var matched := SlowMatched(db, start, end);
      matched == [] || PriceCurrency(matched) == ReportCurrency(db, start, end)
  {
    hide SlowMatched;
    hide Rows;
    hide PriceCurrency;
    hide InCurrency;
    var matched := SlowMatched(db, start, end);
    FirstCurrencyIs(Rows(db, end), db, start, end);
    hide FirstCurrency;
    if matched != [] {
      MatchedCurrency(db, start, end);
      SharedCurrency(matched, ReportCurrency(db, start, end));
    }
  }

  /** For every history and period, read off the rows: the fast report exceeds the slow one by exactly what the rows
      realise in the difference between USD and the currency of the report, and in fees by what others paid. */
  lemma FastExceedsSlow(db: seq<Trade>, start: int, end: int)
    requires Clean(db) && start <= end
    ensures var fast, slow, cur := Fast(db, start, end), Slow(db, start, end), ReportCurrency(db, start, end);
      && fast.revenue - slow.revenue == Realised(db, start, end, CashExcess(cur))
      && fast.fees - slow.fees == Realised(db, start, end, FeeExcess(cur)) + OthersFees(db, start, end)
      && fast.profit == fast.revenue - fast.fees && slow.profit == slow.revenue - slow.fees
  {
    ExceedsReported(db, start, end);
    ReportCurrencyIs(db, start, end);
    NothingRealised(db, start, end, ReportCurrency(db, start, end));
    NothingRealised(db, start, end, "USD");
    hide Fast;
    hide Slow;
    hide Realised;
    hide ReportCurrency;
    hide SlowMatched;
    hide OthersFees;
  }

  /** For every history and period, in whatever currencies and at whatever rates, the two reports are equal if and
      only if the rows realise no difference between USD and the currency of the report, and others paid nothing on
      top. */
  lemma FastEqualsSlowIff(db: seq<Trade>, start: int, end: int)
    requires Clean(db) && start <= end
    ensures var cur := ReportCurrency(db, start, end);
      Fast(db, start, end) == Slow(db, start, end)
      <==> Realised(db, start, end, CashExcess(cur)) == 0.0
           && Realised(db, start, end, FeeExcess(cur)) + OthersFees(db, start, end) == 0.0
  {
    FastExceedsSlow(db, start, end);
    hide *;
  }

  lemma NothingRealised(db: seq<Trade>, start: int, end: int, cur: string)
    requires Clean(db) && start <= end
    ensures SlowMatched(db, start, end) == [] ==>
      Realised(db, start, end, CashExcess(cur)) == 0.0 && Realised(db, start, end, FeeExcess(cur)) == 0.0
  {
    hide SlowMatched;
    hide Realised;
    ExcessAdditive(cur);
    RealisedIsMatched(db, start, end, CashExcess(cur));
    RealisedIsMatched(db, start, end, FeeExcess(cur));
    NothingSums(CashExcess(cur), FeeExcess(cur));
  }

  predicate AtRateOne(ts: seq<Trade>) { forall i :: 0 <= i < |ts| ==> ts[i].rate == 1.0 }

  lemma {:induction false} NoExcess(ts: seq<Trade>, cur: string)
    requires AtRateOne(ts)
    ensures Sum(ts, CashUsd()) == Sum(ts, Cash(cur)) && Sum(ts, FeeUsd()) == Sum(ts, Fee(cur))
  {
    if ts != [] { NoExcess(ts[1..], cur); }
  }

  /** Where the strategy's rows are at rate one, in whatever currencies, the two paths differ by others' fees
      alone. */
  lemma FastEqualsSlow(db: seq<Trade>, start: int, end: int)
    requires Clean(db) && start <= end && AtRateOne(Rows(db, end))
    ensures var fast, slow, others := Fast(db, start, end), Slow(db, start, end), OthersFees(db, start, end);
      && fast.revenue == slow.revenue && fast.fees == slow.fees + others && fast.profit == slow.profit - others
      && (fast == slow <==> others == 0.0)
  {
    var matched := SlowMatched(db, start, end);
    var cur := PriceCurrency(matched);
    SlowKeeps(db, start, end, (t: Trade) => t.rate == 1.0);
    NoExcess(matched, cur);
    FastIsMatched(db, start, end);
    FastProfit(db, start, end);
    SlowIs(db, start, end);
    ProfitSplits(matched, cur);
    assert OthersFees(db, start, end) == Sum(Window(Others(db, STRATEGY), start, end), FeeUsd());
    hide *;
  }

  /** An amount converted at a rate. */
  function Rated(rate: real, amount: real): real { rate * amount }

  predicate Priced(ts: seq<Trade>, cur: string, rate: real) {
    forall i :: 0 <= i < |ts| ==> ts[i].currency == cur && ts[i].rate == rate
  }

  lemma FeeScales(t: Trade, rate: real)
    requires t.rate == rate
    ensures FeeUsd()(t) == rate * Fee(t.currency)(t)
  {
    assert t.fee * (t.feeRate * rate) == rate * (t.fee * t.feeRate);
  }

  lemma {:induction false} PricedScales(ts: seq<Trade>, cur: string, rate: real)
    requires Priced(ts, cur, rate)
    ensures Sum(ts, CashUsd()) == rate * Sum(ts, Cash(cur))
    ensures Sum(ts, FeeUsd()) == rate * Sum(ts, Fee(cur))
  {
    if ts != [] {
      PricedScales(ts[1..], cur, rate);
      var t, c, f := ts[0], Sum(ts[1..], Cash(cur)), Sum(ts[1..], Fee(cur));
      assert CashUsd()(t) == rate * Cash(cur)(t);
      FeeScales(t, rate);
      assert rate * (Cash(cur)(t) + c) == rate * Cash(cur)(t) + rate * c;
      assert rate * (Fee(cur)(t) + f) == rate * Fee(cur)(t) + rate * f;
    }
  }

  /** Where the strategy's rows are in one currency at one exchange rate, the fast path reports `rate` times what the
      slow path reports, and others' fees. Without those they agree if and only if that currency is at par with
      USD or there was nothing to report. */
  lemma FastScalesSlow(db: seq<Trade>, start: int, end: int, cur: string, rate: real)
    requires Clean(db) && start <= end && Priced(Rows(db, end), cur, rate)
    ensures var fast, slow, others := Fast(db, start, end), Slow(db, start, end), OthersFees(db, start, end);
      && fast.revenue == Rated(rate, slow.revenue) && fast.fees == Rated(rate, slow.fees) + others
      && fast.profit == Rated(rate, slow.profit) - others
      && (others == 0.0 ==> (fast == slow <==> rate == 1.0 || (slow.revenue == 0.0 && slow.fees == 0.0)))
  {
    var matched := SlowMatched(db, start, end);
    var pc := PriceCurrency(matched);
    FastIsMatched(db, start, end);
    FastProfit(db, start, end);
    SlowKeeps(db, start, end, (t: Trade) => t.currency == cur && t.rate == rate);
    MatchedScales(matched, cur, rate);
    SlowIs(db, start, end);
    ProfitSplits(matched, pc);
    assert OthersFees(db, start, end) == Sum(Window(Others(db, STRATEGY), start, end), FeeUsd());
    hide *;
    ScaledReports(Fast(db, start, end), Slow(db, start, end), rate, OthersFees(db, start, end));
  }

  lemma FastProfit(db: seq<Trade>, start: int, end: int)
    ensures var fast := Fast(db, start, end); fast.profit == fast.revenue - fast.fees
  {
    hide RevenueGiven;
    hide MatchedFeesGiven;
    hide OpenTrades;
  }

  /** In the currency the trades share, or whatever else when there are none. */
  lemma MatchedScales(ts: seq<Trade>, cur: string, rate: real)
    requires Priced(ts, cur, rate)
    ensures Sum(ts, CashUsd()) == Rated(rate, Sum(ts, Cash(PriceCurrency(ts))))
    ensures Sum(ts, FeeUsd()) == Rated(rate, Sum(ts, Fee(PriceCurrency(ts))))
  {
    PricedScales(ts, cur, rate);
    if ts == [] {
      NothingSums(CashUsd(), FeeUsd());
      NothingSums(Cash("USD"), Fee("USD"));
    }
  }

  lemma NothingSums(w: Trade -> real, w': Trade -> real)
    ensures Sum([], w) == 0.0 && Sum([], w') == 0.0
  {
  }

  lemma ScaledReports(fast: Report, slow: Report, rate: real, others: real)
    requires fast.revenue == Rated(rate, slow.revenue) && fast.fees == Rated(rate, slow.fees) + others
    requires fast.profit == fast.revenue - fast.fees && slow.profit == slow.revenue - slow.fees
    ensures fast.profit == Rated(rate, slow.profit) - others
    ensures others == 0.0 ==> (fast == slow <==> rate == 1.0 || (slow.revenue == 0.0 && slow.fees == 0.0))
  {
    RatedDifference(rate, slow.revenue, slow.fees);
    RatedSame(rate, slow.revenue);
    RatedSame(rate, slow.fees);
    hide Rated;
  }

  lemma RatedDifference(rate: real, x: real, y: real)
    ensures Rated(rate, x - y) == Rated(rate, x) - Rated(rate, y)
  {
  }

  lemma RatedSame(rate: real, x: real)
    ensures Rated(rate, x) == x <==> rate == 1.0 || x == 0.0
  {
    assert rate * x - x == (rate - 1.0) * x;
  }

  // ---- inputs on which the two paths differ ----

  lemma SumOfTwo(a: Trade, b: Trade, w: Trade -> real)
    ensures Sum([a], w) == w(a) && Sum([a, b], w) == w(a) + w(b)
  {
    assert [a, b][1..] == [b] && [b][1..] == [];
    assert Sum([b], w) == w(b);
  }

  function OthersTrade(): Trade {
    Trade(Bid, 0, 0, "Other", "BITSTAMP", "USD", 1.0, "USD", 1.0, 1.0, 10.0, 1.0)
  }

  lemma OthersRows()
    ensures var db := [OthersTrade()]; Rows(db, 1) == [] && OthersFees(db, 0, 1) == 1.0
  {
    var db := [OthersTrade()];
    WhereNone(db, (t: Trade) => t.actor == STRATEGY);
    WhereAll(db, (t: Trade) => t.actor != STRATEGY);
    WhereAll(db, (t: Trade) => 0 <= t.time < 1);
    SumOfTwo(OthersTrade(), OthersTrade(), FeeUsd());
  }

  /** The strategy did nothing; another actor paid a fee of one dollar. The fast path charges it. */
  lemma OthersFeeIsCharged()
    ensures var db := [OthersTrade()];
      IsHistory(db) && Rows(db, 1) == [] && Fast(db, 0, 1).fees == Slow(db, 0, 1).fees + 1.0
  {
    hide Fast;
    hide Slow;
    hide Rows;
    hide OthersFees;
    OthersRows();
    FastEqualsSlow([OthersTrade()], 0, 1);
  }

  function CanadianBuy(): Trade {
    Trade(Bid, 0, 0, "Multi", "CAVIRTEX", "CAD", 0.5, "CAD", 1.0, 1.0, 10.0, 0.0)
  }

  function CanadianSale(): Trade {
    Trade(Ask, 1, 1, "Multi", "CAVIRTEX", "CAD", 0.5, "CAD", 1.0, 1.0, 30.0, 0.0)
  }

  lemma CanadianRows()
    ensures var db := [CanadianBuy(), CanadianSale()];
      Rows(db, 2) == db && Realised(db, 0, 2, CashUsd()) == 10.0
  {
    var db := [CanadianBuy(), CanadianSale()];
    WhereAll(db, (t: Trade) => t.actor == STRATEGY);
    WhereNone(db, (t: Trade) => t.time < 0);
    WhereAll(db, (t: Trade) => t.time < 2);
    WhereAll(db, (t: Trade) => 0 <= t.time < 2);
    assert OpeningTrades(db, 0) == [];
    assert FastPosition(db) == 0.0 by { NetIsPosition(db); SumOfTwo(CanadianBuy(), CanadianSale(), NET); }
    assert ClosingTrades(db, 0, 2) == [];
    SumOfTwo(CanadianBuy(), CanadianSale(), CashUsd());
  }

  /** Bought for 10 and sold for 30 Canadian dollars of half a dollar each: the slow path reports 20, the fast
      path 10. */
  lemma CanadianReportsDiffer()
    ensures var db := [CanadianBuy(), CanadianSale()];
      && IsHistory(db) && InCurrency(Rows(db, 2), "CAD")
      && Fast(db, 0, 2).revenue == 10.0 && Slow(db, 0, 2).revenue == 20.0
  {
    var db := [CanadianBuy(), CanadianSale()];
    hide SlowMatched;
    hide Fast;
    hide Slow;
    hide Rows;
    hide Realised;
    hide OthersFees;
    hide CashUsd;
    CanadianRows();
    FastScalesSlow(db, 0, 2, "CAD", 0.5);
    UsdAdditive();
    RealisedIsMatched(db, 0, 2, CashUsd());
    FastIsMatched(db, 0, 2);
  }
}
