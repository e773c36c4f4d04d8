/** The price of a volume and the volume a balance buys (gryphon/lib/metrics/quote.py:11-56,
    gryphon/lib/arbitrage.py:193-270). */
module Quotes {
  import opened Wrappers
  import opened Books

  datatype Quote = Quoted(totalPrice: real, priceForOrder: real) | NoLiquidity | IndexError | ValueError

  /** The price of the first `v` of volume; a negative volume is priced by the first order. */
  function CostOf(ls: seq<Level>, v: real): real {
    if v < 0.0 && ls != [] then Mul(ls[0].price, v) else Along(ls, v, PRICE)
  }

  /** The order at which volume `v` is reached. */
  predicate ReachedAt(ls: seq<Level>, v: real, k: nat) {
    k < |ls| && v <= Upto(ls, k + 1) && (k > 0 ==> Upto(ls, k) < v)
  }

  /** The mode is the intention: a bid is quoted on the asks, an ask on the bids. The volumes of the book are in one
      currency. */
  method PriceQuote(book: Orderbook, bookCurrency: string, mode: Side, volume: real, currency: string)
    returns (q: Quote)
    requires NonNegative(book.On(mode.Opposite()))
    ensures book.On(mode.Opposite()) == [] ==> q == IndexError
    ensures q == ValueError <==> book.On(mode.Opposite()) != [] && currency != bookCurrency
    ensures book.On(mode.Opposite()) != [] && currency == bookCurrency && volume > Total(book.On(mode.Opposite())) ==>
      q == NoLiquidity
    ensures book.On(mode.Opposite()) != [] && currency == bookCurrency && volume <= Total(book.On(mode.Opposite())) ==>
      var orders := book.On(mode.Opposite());
      && q.Quoted? && q.totalPrice == CostOf(orders, volume)
      && q.totalPrice == (if volume >= 0.0 then Along(orders, volume, PRICE) else Mul(orders[0].price, volume))
      && exists k: nat :: ReachedAt(orders, volume, k) && q.priceForOrder == orders[k].price
  {
    hide Mul;
    var orders := book.On(mode.Opposite());
    // The currency check reads the first order before the side is known to have one.
    if orders == [] { return IndexError; }
    if currency != bookCurrency { return ValueError; }
    var price, remaining := 0.0, volume;
    var k := 0;
    NothingCosts(orders, PRICE, |orders|);
    while k < |orders|
      invariant k <= |orders|
      invariant k > 0 ==> 0.0 < remaining
      invariant remaining == volume - Upto(orders, k) && price == Along(orders, Upto(orders, k), PRICE)
    {
      var order := orders[k];
      var v := if order.volume > remaining then remaining else order.volume;
      TakeFrom(orders, k, v);
      remaining := remaining - v;
      price := price + Mul(order.price, v);
      UptoGrows(orders, k + 1, |orders|);
      UptoGrows(orders, 0, k);
      if remaining <= 0.0 {
        assert ReachedAt(orders, volume, k);
        return Quoted(price, order.price);
      }
      k := k + 1;
    }
    q := NoLiquidity;
  }

  /** Taking `v` from order `k` after everything before it. */
  lemma TakeFrom(ls: seq<Level>, k: nat, v: real)
    requires NonNegative(ls) && k < |ls| && v <= ls[k].volume
    ensures 0.0 <= v ==>
      Along(ls, Upto(ls, k) + v, PRICE) == Along(ls, Upto(ls, k), PRICE) + Mul(ls[k].price, v)
  {
    if 0.0 <= v { MarginalCost(ls, Upto(ls, k), v, k, PRICE); }
  }

  /** What `v` costs with the exchange's fee on top. */
  function WithFee(ls: seq<Level>, v: real, fee: real): real { Mul(1.0 + fee, CostOf(ls, v)) }

  lemma OrderCost(ls: seq<Level>, k: nat, v: real, fee: real)
    requires NonNegative(ls) && k < |ls| && 0.0 <= v <= ls[k].volume
    ensures WithFee(ls, Upto(ls, k) + v, fee)
         == WithFee(ls, Upto(ls, k), fee) + Mul(1.0 + fee, Mul(ls[k].price, v))
  {
    hide Mul;
    UptoGrows(ls, 0, k);
    TakeFrom(ls, k, v);
    MulSplits(1.0 + fee, Along(ls, Upto(ls, k), PRICE), Mul(ls[k].price, v));
  }

  lemma FeeOnTop(x: real, fee: real)
    ensures x + Mul(x, fee) == Mul(1.0 + fee, x)
  {
  }

  /** The last volume spends the rest of the balance exactly, and is less than the order holds. */
  lemma LastVolume(remaining: real, fee: real, price: real, volume: real, v: real)
    requires 1.0 + fee > 0.0 && price > 0.0 && v == (remaining / (1.0 + fee)) / price
    requires Mul(1.0 + fee, Mul(price, volume)) > remaining
    ensures Mul(1.0 + fee, Mul(price, v)) == remaining && v < volume
    ensures (remaining >= 0.0 ==> v >= 0.0) && (remaining < 0.0 ==> v < 0.0)
  {
    var q := remaining / (1.0 + fee);
    assert price * v == q;
    assert (1.0 + fee) * q == remaining;
    if v >= volume {
      MulOrder(price, volume, v);
      MulOrder(1.0 + fee, Mul(price, volume), Mul(price, v));
    }
    Quotient(remaining, 1.0 + fee, q);
    Quotient(q, price, v);
  }

  lemma Quotient(x: real, y: real, q: real)
    requires y > 0.0 && q == x / y
    ensures (x >= 0.0 ==> q >= 0.0) && (x < 0.0 ==> q < 0.0)
  {
    assert q * y == x;
  }

  /** Any larger volume costs more. */
  lemma LargerCostsMore(ls: seq<Level>, v: real, w: real, fee: real)
    requires NonNegative(ls) && PositivePrices(ls) && ls != [] && 1.0 + fee > 0.0
    requires v < w <= Total(ls)
    ensures WithFee(ls, v, fee) < WithFee(ls, w, fee)
  {
    hide Mul;
    if 0.0 <= v {
      DeeperCosts(ls, v, w, |ls|);
    } else {
      MulOrder(ls[0].price, v, w);
      MulOrder(ls[0].price, v, 0.0);
      MulSplits(ls[0].price, 0.0, 0.0);
      if 0.0 <= w { AlongNonNegative(ls, w, |ls|); }
    }
    MulOrder(1.0 + fee, CostOf(ls, v), CostOf(ls, w));
  }

  lemma {:induction false} AlongNonNegative(ls: seq<Level>, v: real, k: nat)
    requires NonNegative(ls) && PositivePrices(ls) && k <= |ls|
    ensures Dot(ls, Fill(ls, v), PRICE, k) >= 0.0
  {
    if k > 0 {
      hide Mul;
      AlongNonNegative(ls, v, k - 1);
      MulOrder(ls[k - 1].price, 0.0, Amount(ls, v, k - 1));
      MulSplits(ls[k - 1].price, 0.0, 0.0);
    }
  }

  /** What max_buy_volume promises: the whole side if the balance covers it; otherwise the volume
      that costs exactly the balance, fee included. */
  predicate SpendsBalance(asks: seq<Level>, balance: real, fee: real, v: real) {
    if WithFee(asks, Total(asks), fee) <= balance then v == Total(asks)
    else v < Total(asks) && WithFee(asks, v, fee) == balance
  }

  /** The price along the side, and the fee on that price. */
  lemma WithFeeIs(ls: seq<Level>, v: real, fee: real)
    requires v >= 0.0
    ensures WithFee(ls, v, fee) == Along(ls, v, PRICE) + Along(ls, v, PRICE) * fee
  {
    FeeOnTop(Along(ls, v, PRICE), fee);
  }

  /** In the books' own terms: the price of the volume along the asks and the fee on that price stay within the balance, and
      use it up unless all the asks are taken. */
  lemma SpendingIs(asks: seq<Level>, balance: real, fee: real, v: real)
    requires NonNegative(asks) && SpendsBalance(asks, balance, fee, v) && v >= 0.0
    ensures var price := Along(asks, v, PRICE);
            var cost := price + price * fee;
      v <= Total(asks) && cost <= balance && (v < Total(asks) ==> cost == balance)
  {
    WithFeeIs(asks, v, fee);
  }

  datatype Executable = NoCross | Volume(value: real) | RaisesIndexError

  /** The fee is that of the exchange the first order stands on, so an empty side raises. */
  method MaxBuyVolume(balance: real, asks: seq<Level>) returns (e: Executable)
    requires NonNegative(asks) && PositivePrices(asks) && (asks != [] ==> 1.0 + asks[0].fee > 0.0)
    ensures asks == [] ==> e == RaisesIndexError
    ensures asks != [] ==>
      e.Volume? && SpendsBalance(asks, balance, asks[0].fee, e.value) && (balance >= 0.0 ==> e.value >= 0.0)
  {
    if asks == [] { return RaisesIndexError; }
    hide Mul;
    var fee := asks[0].fee;
    var remaining, available := balance, 0.0;
    NothingCosts(asks, PRICE, |asks|);
    MulSplits(1.0 + fee, 0.0, 0.0);
    for k := 0 to |asks|
      invariant available == Upto(asks, k) && remaining == balance - WithFee(asks, available, fee)
      invariant k > 0 ==> remaining >= 0.0
    {
      var order := asks[k];
      var orderPrice := Mul(order.price, order.volume);
      var orderCost := orderPrice + Mul(orderPrice, fee);
      FeeOnTop(orderPrice, fee);
      if orderCost <= remaining {
        OrderCost(asks, k, order.volume, fee);
        remaining := remaining - orderCost;
        available := available + order.volume;
      } else {
        var lastVolume := (remaining / (1.0 + fee)) / order.price;
        LastVolume(remaining, fee, order.price, order.volume, lastVolume);
        UptoGrows(asks, 0, k);
        UptoGrows(asks, k + 1, |asks|);
        if remaining >= 0.0 { OrderCost(asks, k, lastVolume, fee); }
        LargerCostsMore(asks, available + lastVolume, Total(asks), fee);
        return Volume(available + lastVolume);
      }
    }
    UptoGrows(asks, 0, |asks|);
    e := Volume(available);
  }

  /** The volume of a cross that both accounts can afford: `price` is the buy side's balance in the
      price currency, `volume` the sell side's in the volume currency. It falls short of what there is and of
      what can be sold only where buying it takes the whole balance. */
  method GetExecutableVolume(crossVolume: real, asks: seq<Level>, price: real, volume: real)
    returns (e: Executable)
    requires NonNegative(asks) && PositivePrices(asks) && (asks != [] ==> 1.0 + asks[0].fee > 0.0)
    ensures e == NoCross <==> crossVolume == 0.0
    ensures e == RaisesIndexError <==> crossVolume != 0.0 && asks == []
    ensures e.Volume? ==>
      && e.value <= crossVolume && e.value <= volume && e.value <= Total(asks)
      && WithFee(asks, e.value, asks[0].fee) <= price
      && (e.value < crossVolume && e.value < volume && e.value < Total(asks)
          ==> WithFee(asks, e.value, asks[0].fee) == price)
  {
    if crossVolume == 0.0 { return NoCross; }
    var sellMax := if crossVolume <= volume then crossVolume else volume;
    var buyMax := MaxBuyVolume(price, asks);
    if buyMax.RaisesIndexError? { return buyMax; }
    var v := if buyMax.value <= sellMax then buyMax.value else sellMax;
    if v < buyMax.value { LargerCostsMore(asks, v, buyMax.value, asks[0].fee); }
    e := Volume(v);
  }
}
