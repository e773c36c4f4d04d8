/** Trades and the sums taken over them (gryphon/lib/models/trade.pyx). */
module Trades {
  import opened Wrappers
  import Sorting

  datatype Result<+T> = Ok(value: T) | ValueError | AssertionError

  /** One row of the trade table. `price` and `fee` are totals for the whole trade, not
      per-unit figures. `rate` is the order's exchange rate to USD; `feeRate` is the number of
      units of the price currency in one unit of the fee: 1 for a fee charged in the price
      currency, the fundamental value for a fee charged in the volume currency. */
  datatype Trade = Trade(
    side: Side, time: int, id: nat, actor: string, exchange: string,
    currency: string, rate: real, feeCurrency: string, feeRate: real,
    volume: real, price: real, fee: real)
  {
    /** Amounts convert into the trade's own currency and into USD; anything else raises. */
    predicate Converts(cur: string) { currency == cur || cur == "USD" }

    function PriceIn(cur: string): real {
      if currency == cur then price else price * rate
    }

    function FeeIn(cur: string): real {
      if currency == cur then fee * feeRate else fee * (feeRate * rate)
    }

    function PriceInUsd(): real { price * rate }

    function FeeInUsd(): real { fee * (feeRate * rate) }

    /** The fragment of this trade that holds volume `v`: price and fee shrink with it. */
    function Trim(v: real): Trade
      requires volume != 0.0
    {
      this.(volume := v, price := price * (v / volume), fee := fee * (v / volume))
    }
  }

  /** What amounts are worth: in its own currency a trade costs its price, and its fee the fee times the fee's rate,
      which is nothing more than the fee when that was charged in the price currency; in USD both are worth as much
      again times the exchange rate. */
  lemma AmountsAre(t: Trade)
    ensures t.PriceIn(t.currency) == t.price && t.FeeIn(t.currency) == t.fee * t.feeRate
    ensures t.feeRate == 1.0 ==> t.FeeIn(t.currency) == t.fee && t.FeeInUsd() == t.fee * t.rate
    ensures t.PriceInUsd() == t.PriceIn(t.currency) * t.rate && t.FeeInUsd() == t.FeeIn(t.currency) * t.rate
    ensures t.currency != "USD" ==> t.PriceIn("USD") == t.PriceInUsd() && t.FeeIn("USD") == t.FeeInUsd()
  {
    assert t.fee * (t.feeRate * t.rate) == t.fee * t.feeRate * t.rate;
  }

  /** A fraction of an amount. */
  function Share(amount: real, fraction: real): real { amount * fraction }

  lemma TrimIs(t: Trade, v: real, ratio: real)
    requires t.volume != 0.0 && ratio == v / t.volume
    ensures t.Trim(v) == t.(volume := v, price := Share(t.price, ratio), fee := Share(t.fee, ratio))
  {
  }

  lemma SharesAddUp(amount: real, volume: real, v: real)
    requires volume > 0.0
    ensures Share(amount, v / volume) + Share(amount, (volume - v) / volume) == amount
  {
    RatiosAddUp(volume, v);
    Pieces(amount, v / volume, (volume - v) / volume, 1.0);
  }

  predicate NonNegative(ts: seq<Trade>) { forall i :: 0 <= i < |ts| ==> ts[i].volume >= 0.0 }

  predicate Positive(ts: seq<Trade>) { forall i :: 0 <= i < |ts| ==> ts[i].volume > 0.0 }

  predicate OneSided(ts: seq<Trade>, side: Side) { forall i :: 0 <= i < |ts| ==> ts[i].side == side }

  predicate SortedByTime(ts: seq<Trade>) {
    forall i, j :: 0 <= i < j < |ts| ==> ts[i].time <= ts[j].time
  }

  predicate AllConvert(ts: seq<Trade>, cur: string) { forall i :: 0 <= i < |ts| ==> ts[i].Converts(cur) }

  function OfSide(ts: seq<Trade>, side: Side): seq<Trade> {
    if ts == [] then [] else
      (if ts[0].side == side then [ts[0]] else []) + OfSide(ts[1..], side)
  }

  lemma {:induction false} OfSideKeeps(ts: seq<Trade>, side: Side)
    ensures OneSided(OfSide(ts, side), side)
    ensures Positive(ts) ==> Positive(OfSide(ts, side))
    ensures NonNegative(ts) ==> NonNegative(OfSide(ts, side))
  {
    if ts != [] { OfSideKeeps(ts[1..], side); }
  }

  lemma {:induction false} OfSideIn(ts: seq<Trade>, side: Side, t: Trade)
    ensures t in OfSide(ts, side) <==> t in ts && t.side == side
  {
    if ts != [] {
      OfSideIn(ts[1..], side, t);
      assert ts == [ts[0]] + ts[1..];
    }
  }

  lemma {:induction false} OfSideOrder(ts: seq<Trade>, side: Side)
    requires SortedByTime(ts)
    ensures SortedByTime(OfSide(ts, side))
  {
    if ts != [] {
      var t, rest, r := ts[0], ts[1..], OfSide(ts[1..], side);
      OfSideOrder(rest, side);
      forall i | 0 <= i < |r| ensures t.time <= r[i].time {
        OfSideIn(rest, side, r[i]);
        var k :| 0 <= k < |rest| && rest[k] == r[i];
        assert rest[k] == ts[k + 1];
      }
      assert SortedByTime([t] + r);
    }
  }

  // ---- sums ----

  /** The sum of a measure over a list of trades. */
  function Sum(ts: seq<Trade>, w: Trade -> real): real {
    if ts == [] then 0.0 else w(ts[0]) + Sum(ts[1..], w)
  }

  /** A measure that cutting a trade in two does not change. */
  ghost predicate Additive(w: Trade -> real) {
    forall t: Trade, v: real :: 0.0 < v < t.volume ==>
      w(t.Trim(v)) + w(t.Trim(t.volume - v)) == w(t)
  }

  function Volume(ts: seq<Trade>): (v: real)
    ensures NonNegative(ts) ==> v >= 0.0
    ensures Positive(ts) && ts != [] ==> v > 0.0
  {
    if ts == [] then 0.0 else ts[0].volume + Volume(ts[1..])
  }

  /** The position a trade leaves behind in the volume currency. */
  const NET: Trade -> real := (t: Trade) => if t.side == Ask then -t.volume else t.volume

  /** What a trade brings in, before fees, in currency `cur`. */
  function Cash(cur: string): Trade -> real {
    (t: Trade) => if t.side == Ask then t.PriceIn(cur) else -t.PriceIn(cur)
  }

  function Fee(cur: string): Trade -> real { (t: Trade) => t.FeeIn(cur) }

  /** What a trade brings in after fees. */
  function Profit(cur: string): Trade -> real { (t: Trade) => Cash(cur)(t) - t.FeeIn(cur) }

  lemma {:induction false} SumAppend(a: seq<Trade>, b: seq<Trade>, w: Trade -> real)
    ensures Sum(a + b, w) == Sum(a, w) + Sum(b, w)
  {
    if a == [] {
      assert a + b == b;
    } else {
      assert (a + b)[1..] == a[1..] + b;
      SumAppend(a[1..], b, w);
    }
  }

  /** The order of the trades does not matter to a sum. */
  lemma {:induction false} SumPermuted(a: seq<Trade>, b: seq<Trade>, w: Trade -> real)
    requires multiset(a) == multiset(b)
    ensures Sum(a, w) == Sum(b, w)
  {
    if a == [] {
      assert |b| == |multiset(b)| == 0;
    } else {
      assert a == [a[0]] + a[1..];
      var before, after := Sorting.TakeOut(a[0], a[1..], b);
      SumPermuted(a[1..], before + after, w);
      SumAppend(before, after, w);
      SumAppend(before, [a[0]] + after, w);
    }
  }

  lemma {:induction false} VolumeAppend(a: seq<Trade>, b: seq<Trade>)
    ensures Volume(a + b) == Volume(a) + Volume(b)
  {
    if a == [] {
      assert a + b == b;
    } else {
      assert (a + b)[1..] == a[1..] + b;
      VolumeAppend(a[1..], b);
    }
  }

  lemma {:induction false} OfSideAppend(a: seq<Trade>, b: seq<Trade>, side: Side)
    ensures OfSide(a + b, side) == OfSide(a, side) + OfSide(b, side)
  {
    if a == [] {
      assert a + b == b;
    } else {
      assert (a + b)[1..] == a[1..] + b;
      OfSideAppend(a[1..], b, side);
      var first := if a[0].side == side then [a[0]] else [];
      assert first + OfSide(a[1..], side) + OfSide(b, side) == first + (OfSide(a[1..], side) + OfSide(b, side));
    }
  }

  lemma {:induction false} OfSideId(ts: seq<Trade>, side: Side)
    requires OneSided(ts, side)
    ensures OfSide(ts, side) == ts && OfSide(ts, side.Opposite()) == []
  {
    if ts != [] { OfSideId(ts[1..], side); }
  }

  /** Splitting the trades by side loses nothing. */
  lemma {:induction false} SumBySide(ts: seq<Trade>, w: Trade -> real)
    ensures Sum(OfSide(ts, Bid), w) + Sum(OfSide(ts, Ask), w) == Sum(ts, w)
  {
    if ts != [] {
      var side, rest := ts[0].side, ts[1..];
      SumBySide(rest, w);
      assert ([ts[0]] + OfSide(rest, side))[1..] == OfSide(rest, side);
      assert OfSide(ts, side.Opposite()) == OfSide(rest, side.Opposite());
    }
  }

  /** On one side the net position is the volume, with the side's sign. */
  lemma {:induction false} NetOneSided(ts: seq<Trade>, side: Side)
    requires OneSided(ts, side)
    ensures Sum(ts, NET) == if side == Ask then -Volume(ts) else Volume(ts)
  {
    if ts != [] { NetOneSided(ts[1..], side); }
  }

  lemma NetBySide(ts: seq<Trade>)
    ensures Sum(ts, NET) == Volume(OfSide(ts, Bid)) - Volume(OfSide(ts, Ask))
  {
    SumBySide(ts, NET);
    OfSideKeeps(ts, Bid);
    OfSideKeeps(ts, Ask);
    NetOneSided(OfSide(ts, Bid), Bid);
    NetOneSided(OfSide(ts, Ask), Ask);
  }

  lemma {:induction false} ProfitSplits(ts: seq<Trade>, cur: string)
    ensures Sum(ts, Profit(cur)) == Sum(ts, Cash(cur)) - Sum(ts, Fee(cur))
  {
    if ts != [] { ProfitSplits(ts[1..], cur); }
  }

  // ---- cutting one trade ----

  lemma TrimAgain(t: Trade, v: real, w: real)
    requires t.volume > 0.0 && v > 0.0
    ensures t.Trim(v).Trim(w) == t.Trim(w)
  {
    var a, b, c := v / t.volume, w / v, w / t.volume;
    RatioChain(t.volume, v, w);
    assert t.price * a * b == t.price * (a * b) == t.price * c;
    assert t.fee * a * b == t.fee * (a * b) == t.fee * c;
  }

  lemma RatioChain(x: real, v: real, w: real)
    requires x > 0.0 && v > 0.0
    ensures (v / x) * (w / v) == w / x
  {
    var a, b := v / x, w / v;
    assert a * x == v;
    assert b * v == w;
    assert (a * b) * x == b * (a * x) == w;
  }

  lemma TrimWhole(t: Trade)
    requires t.volume > 0.0
    ensures t.Trim(t.volume) == t
  {
    assert t.volume / t.volume == 1.0;
  }

  /** The ratios of the two pieces of a cut add up to one. */
  lemma RatiosAddUp(x: real, v: real)
    requires x > 0.0
    ensures v / x + (x - v) / x == 1.0
  {
    var a, b := v / x, (x - v) / x;
    assert a * x == v;
    assert b * x == x - v;
    Distribute(a, b, x);
  }

  lemma Distribute(a: real, b: real, x: real)
    ensures (a + b) * x == a * x + b * x
  {
  }

  lemma Pieces(x: real, a: real, b: real, r: real)
    requires a + b == 1.0
    ensures x * a + x * b == x
    ensures x * a * r + x * b * r == x * r
  {
    assert x * a * r + x * b * r == (x * (a + b)) * r;
  }

  /** The measures used by the reports are additive. */
  lemma MeasuresAdditive(cur: string)
    ensures Additive(NET) && Additive(Cash(cur)) && Additive(Fee(cur))
  {
    forall t: Trade, v: real | 0.0 < v < t.volume
      ensures t.Trim(v).PriceIn(cur) + t.Trim(t.volume - v).PriceIn(cur) == t.PriceIn(cur)
      ensures t.Trim(v).FeeIn(cur) + t.Trim(t.volume - v).FeeIn(cur) == t.FeeIn(cur)
    {
      var a, b := v / t.volume, (t.volume - v) / t.volume;
      RatiosAddUp(t.volume, v);
      Pieces(t.price, a, b, t.rate);
      Pieces(t.fee, a, b, t.feeRate);
      Pieces(t.fee, a, b, t.feeRate * t.rate);
    }
  }

  /** `f` is a piece of `t`, at the same unit price and the same unit fee. */
  predicate Fragment(f: Trade, t: Trade) {
    0.0 < f.volume <= t.volume && f == t.Trim(f.volume)
  }

  /** The same unit price and unit fee. */
  predicate UnitsSame(f: Trade, t: Trade) {
    f.price * t.volume == t.price * f.volume && f.fee * t.volume == t.fee * f.volume
  }

  lemma UnitsKept(f: Trade, t: Trade)
    requires Fragment(f, t)
    ensures UnitsSame(f, t)
  {
    var r := f.volume / t.volume;
    assert r * t.volume == f.volume;
    assert t.price * r * t.volume == t.price * (r * t.volume);
    assert t.fee * r * t.volume == t.fee * (r * t.volume);
  }
}
