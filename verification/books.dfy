/** One side of an order book, and ways of taking volume from it. */
module Books {
  import opened Wrappers

  /** An order; `fee` is the market order fee of the exchange it stands on. */
  datatype Level = Level(price: real, volume: real, fee: real)

  datatype Orderbook = Orderbook(bids: seq<Level>, asks: seq<Level>) {
    function On(side: Side): seq<Level> { if side == Bid then bids else asks }
  }

  predicate NonNegative(ls: seq<Level>) { forall i :: 0 <= i < |ls| ==> ls[i].volume >= 0.0 }

  predicate Ascending(ls: seq<Level>) {
    forall i, j :: 0 <= i < j < |ls| ==> ls[i].price <= ls[j].price
  }

  predicate Descending(ls: seq<Level>) {
    forall i, j :: 0 <= i < j < |ls| ==> ls[i].price >= ls[j].price
  }

  /** The volume of the first `k` orders. */
  function Upto(ls: seq<Level>, k: nat): real
    requires k <= |ls|
  {
    if k == 0 then 0.0 else Upto(ls, k - 1) + ls[k - 1].volume
  }

  function Total(ls: seq<Level>): real { Upto(ls, |ls|) }

  lemma {:induction false} UptoGrows(ls: seq<Level>, i: nat, j: nat)
    requires NonNegative(ls) && i <= j <= |ls|
    ensures Upto(ls, i) <= Upto(ls, j)
    decreases j
  {
    if i < j { UptoGrows(ls, i, j - 1); }
  }

  // ---- plans: how much to take from each order ----

  predicate IsPlan(ls: seq<Level>, xs: seq<real>) {
    |xs| == |ls| && forall i :: 0 <= i < |xs| ==> 0.0 <= xs[i] <= ls[i].volume
  }

  /** The total of the first `k` amounts. */
  function Taken(xs: seq<real>, k: nat): real
    requires k <= |xs|
  {
    if k == 0 then 0.0 else Taken(xs, k - 1) + xs[k - 1]
  }

  /** Multiplication under a name, so that proofs can leave it alone. */
  function Mul(a: real, b: real): real { a * b }

  lemma MulOrder(a: real, x: real, y: real)
    ensures a >= 0.0 && x <= y ==> Mul(a, x) <= Mul(a, y)
    ensures a <= 0.0 && x <= y ==> Mul(a, x) >= Mul(a, y)
    ensures a > 0.0 && x < y ==> Mul(a, x) < Mul(a, y)
  {
    assert a * (y - x) == a * y - a * x;
  }

  lemma MulSplits(a: real, x: real, y: real)
    ensures Mul(a, x + y) == Mul(a, x) + Mul(a, y)
    ensures Mul(x + y, a) == Mul(x, a) + Mul(y, a)
    ensures Mul(x - y, a) == Mul(x, a) - Mul(y, a)
    ensures Mul(a, 0.0) == 0.0
  {
  }

  /** The first `k` amounts, each weighted by its order. */
  function Dot(ls: seq<Level>, xs: seq<real>, w: Level -> real, k: nat): real
    requires k <= |ls| && |xs| == |ls|
  {
    if k == 0 then 0.0 else Dot(ls, xs, w, k - 1) + Mul(w(ls[k - 1]), xs[k - 1])
  }

  const PRICE: Level -> real := (l: Level) => l.price
  const FEE_RATE: Level -> real := (l: Level) => l.price * l.fee

  function Clip(v: real, max: real): real {
    if v <= 0.0 then 0.0 else if v >= max then max else v
  }

  function Amount(ls: seq<Level>, v: real, i: nat): real
    requires i < |ls|
  {
    Clip(v - Upto(ls, i), ls[i].volume)
  }

  /** Taking volume `v` from the front of the book. */
  function Fill(ls: seq<Level>, v: real): seq<real> {
    seq(|ls|, i requires 0 <= i < |ls| => Amount(ls, v, i))
  }

  /** What the first `v` of volume comes to. */
  function Along(ls: seq<Level>, v: real, w: Level -> real): real { Dot(ls, Fill(ls, v), w, |ls|) }

  lemma FillIsPlan(ls: seq<Level>, v: real)
    requires NonNegative(ls)
    ensures IsPlan(ls, Fill(ls, v))
  {
  }

  lemma {:induction false} NothingCosts(ls: seq<Level>, w: Level -> real, k: nat)
    requires NonNegative(ls) && k <= |ls|
    ensures Dot(ls, Fill(ls, 0.0), w, k) == 0.0
  {
    if k > 0 {
      NothingCosts(ls, w, k - 1);
      UptoGrows(ls, 0, k - 1);
    }
  }

  lemma {:induction false} FillTakes(ls: seq<Level>, v: real, k: nat)
    requires NonNegative(ls) && k <= |ls| && 0.0 <= v
    ensures Taken(Fill(ls, v), k) == if v <= Upto(ls, k) then v else Upto(ls, k)
  {
    if k > 0 {
      FillTakes(ls, v, k - 1);
      assert Fill(ls, v)[k - 1] == Amount(ls, v, k - 1);
    }
  }

  lemma FillAround(ls: seq<Level>, v: real, i: nat, j: nat)
    requires NonNegative(ls) && i < |ls| && j < |ls| && Upto(ls, i) <= v <= Upto(ls, i + 1)
    ensures Amount(ls, v, j)
         == if j < i then ls[j].volume else if j > i then 0.0 else v - Upto(ls, i)
  {
    if j < i { UptoGrows(ls, j + 1, i); }
    if j > i { UptoGrows(ls, i + 1, j); }
  }

  /** Going `d` deeper inside order `i` costs `d` at that order's price. */
  lemma {:induction false} Marginal(ls: seq<Level>, v: real, d: real, i: nat, w: Level -> real, k: nat)
    requires NonNegative(ls) && i < |ls| && k <= |ls|
    requires Upto(ls, i) <= v && 0.0 <= d && v + d <= Upto(ls, i + 1)
    ensures Dot(ls, Fill(ls, v + d), w, k)
         == Dot(ls, Fill(ls, v), w, k) + if i < k then Mul(w(ls[i]), d) else 0.0
  {
    if k > 0 {
      hide Mul;
      hide Amount;
      hide Upto;
      Marginal(ls, v, d, i, w, k - 1);
      FillAround(ls, v, i, k - 1);
      FillAround(ls, v + d, i, k - 1);
      MulSplits(w(ls[k - 1]), v - Upto(ls, i), d);
    }
  }

  lemma MarginalCost(ls: seq<Level>, v: real, d: real, i: nat, w: Level -> real)
    requires NonNegative(ls) && i < |ls|
    requires Upto(ls, i) <= v && 0.0 <= d && v + d <= Upto(ls, i + 1)
    ensures Along(ls, v + d, w) == Along(ls, v, w) + Mul(w(ls[i]), d)
  {
    Marginal(ls, v, d, i, w, |ls|);
  }

  // ---- nothing beats taking from the front ----

  /** Orders used are not dearer than `mark`, orders not used up are not cheaper. */
  ghost predicate BuysBelow(ls: seq<Level>, v: real, mark: real) {
    forall i :: 0 <= i < |ls| ==>
      && (Amount(ls, v, i) > 0.0 ==> ls[i].price <= mark)
      && (Amount(ls, v, i) < ls[i].volume ==> mark <= ls[i].price)
  }

  ghost predicate SellsAbove(ls: seq<Level>, v: real, mark: real) {
    forall i :: 0 <= i < |ls| ==>
      && (Amount(ls, v, i) > 0.0 ==> ls[i].price >= mark)
      && (Amount(ls, v, i) < ls[i].volume ==> mark >= ls[i].price)
  }

  /** The price of an order, counted from `mark`. */
  function Above(mark: real): Level -> real { (l: Level) => l.price - mark }

  lemma {:induction false} DotAbove(ls: seq<Level>, xs: seq<real>, mark: real, k: nat)
    requires k <= |ls| == |xs|
    ensures Dot(ls, xs, Above(mark), k) == Dot(ls, xs, PRICE, k) - Mul(mark, Taken(xs, k))
  {
    if k > 0 {
      hide Mul;
      DotAbove(ls, xs, mark, k - 1);
      MulSplits(xs[k - 1], ls[k - 1].price, mark);
      MulSplits(mark, Taken(xs, k - 1), xs[k - 1]);
    } else {
      assert Mul(mark, 0.0) == 0.0;
    }
  }

  /** No amount at one order beats taking all of it where it pays and none where it costs. */
  lemma OneOrder(d: real, x: real, f: real, volume: real)
    requires 0.0 <= x <= volume && 0.0 <= f <= volume
    ensures (f > 0.0 ==> d <= 0.0) && (f < volume ==> d >= 0.0) ==> Mul(d, x) >= Mul(d, f)
    ensures (f > 0.0 ==> d >= 0.0) && (f < volume ==> d <= 0.0) ==> Mul(d, x) <= Mul(d, f)
  {
    hide Mul;
    MulOrder(d, x, f);
    MulOrder(d, f, x);
    if f == 0.0 && volume == 0.0 { assert x == f; }
  }

  lemma BuyingOrder(ls: seq<Level>, xs: seq<real>, v: real, mark: real, i: nat)
    requires NonNegative(ls) && IsPlan(ls, xs) && BuysBelow(ls, v, mark) && i < |ls|
    ensures Mul(Above(mark)(ls[i]), xs[i]) >= Mul(Above(mark)(ls[i]), Fill(ls, v)[i])
  {
    hide Upto;
    OneOrder(ls[i].price - mark, xs[i], Amount(ls, v, i), ls[i].volume);
  }

  lemma SellingOrder(ls: seq<Level>, xs: seq<real>, v: real, mark: real, i: nat)
    requires NonNegative(ls) && IsPlan(ls, xs) && SellsAbove(ls, v, mark) && i < |ls|
    ensures Mul(Above(mark)(ls[i]), xs[i]) <= Mul(Above(mark)(ls[i]), Fill(ls, v)[i])
  {
    hide Upto;
    OneOrder(ls[i].price - mark, xs[i], Amount(ls, v, i), ls[i].volume);
  }

  lemma {:induction false} BuyingPlan(ls: seq<Level>, xs: seq<real>, v: real, mark: real, k: nat)
    requires NonNegative(ls) && IsPlan(ls, xs) && BuysBelow(ls, v, mark) && k <= |ls|
    ensures Dot(ls, xs, Above(mark), k) >= Dot(ls, Fill(ls, v), Above(mark), k)
  {
    hide Mul;
    hide Above;
    hide Amount;
    hide BuysBelow;
    if k > 0 {
      BuyingPlan(ls, xs, v, mark, k - 1);
      BuyingOrder(ls, xs, v, mark, k - 1);
    }
  }

  lemma {:induction false} SellingPlan(ls: seq<Level>, xs: seq<real>, v: real, mark: real, k: nat)
    requires NonNegative(ls) && IsPlan(ls, xs) && SellsAbove(ls, v, mark) && k <= |ls|
    ensures Dot(ls, xs, Above(mark), k) <= Dot(ls, Fill(ls, v), Above(mark), k)
  {
    hide Mul;
    hide Above;
    hide Amount;
    hide SellsAbove;
    if k > 0 {
      SellingPlan(ls, xs, v, mark, k - 1);
      SellingOrder(ls, xs, v, mark, k - 1);
    }
  }

  /** With a mark, the front beats any plan, the difference in volume valued at the mark. */
  lemma BuysBest(ls: seq<Level>, xs: seq<real>, v: real, mark: real)
    requires NonNegative(ls) && IsPlan(ls, xs) && BuysBelow(ls, v, mark) && 0.0 <= v <= Total(ls)
    ensures Dot(ls, xs, PRICE, |ls|) - Mul(mark, Taken(xs, |ls|)) >= Along(ls, v, PRICE) - Mul(mark, v)
  {
    BuyingPlan(ls, xs, v, mark, |ls|);
    DotAbove(ls, xs, mark, |ls|);
    DotAbove(ls, Fill(ls, v), mark, |ls|);
    FillTakes(ls, v, |ls|);
  }

  lemma SellsBest(ls: seq<Level>, xs: seq<real>, v: real, mark: real)
    requires NonNegative(ls) && IsPlan(ls, xs) && SellsAbove(ls, v, mark) && 0.0 <= v <= Total(ls)
    ensures Dot(ls, xs, PRICE, |ls|) - Mul(mark, Taken(xs, |ls|)) <= Along(ls, v, PRICE) - Mul(mark, v)
  {
    SellingPlan(ls, xs, v, mark, |ls|);
    DotAbove(ls, xs, mark, |ls|);
    DotAbove(ls, Fill(ls, v), mark, |ls|);
    FillTakes(ls, v, |ls|);
  }

  lemma {:induction false} LastUsed(ls: seq<Level>, v: real, k: nat) returns (i: nat)
    requires NonNegative(ls) && 0 < k <= |ls| && 0.0 <= v <= Upto(ls, k)
    ensures i < k && Upto(ls, i) <= v <= Upto(ls, i + 1)
  {
    if k == 1 || Upto(ls, k - 1) <= v { return k - 1; }
    i := LastUsed(ls, v, k - 1);
  }

  /** In a sorted side the price of the last order used is such a mark. */
  lemma MarkAt(ls: seq<Level>, v: real, i: nat)
    requires NonNegative(ls) && i < |ls| && Upto(ls, i) <= v <= Upto(ls, i + 1)
    ensures Ascending(ls) ==> BuysBelow(ls, v, ls[i].price)
    ensures Descending(ls) ==> SellsAbove(ls, v, ls[i].price)
  {
    forall j | 0 <= j < |ls|
      ensures j < i ==> Amount(ls, v, j) == ls[j].volume
      ensures j > i ==> Amount(ls, v, j) == 0.0
    {
      FillAround(ls, v, i, j);
    }
  }

  lemma {:induction false} PlanWithin(ls: seq<Level>, xs: seq<real>, k: nat)
    requires IsPlan(ls, xs) && k <= |ls|
    ensures 0.0 <= Taken(xs, k) <= Upto(ls, k)
  {
    if k > 0 { PlanWithin(ls, xs, k - 1); }
  }

  /** Buying from the front is the cheapest way to buy a volume. */
  lemma CheapestBuy(ls: seq<Level>, xs: seq<real>)
    requires NonNegative(ls) && Ascending(ls) && IsPlan(ls, xs)
    ensures Along(ls, Taken(xs, |xs|), PRICE) <= Dot(ls, xs, PRICE, |ls|)
  {
    hide Mul;
    var v := Taken(xs, |xs|);
    PlanWithin(ls, xs, |xs|);
    if ls != [] {
      var i := LastUsed(ls, v, |ls|);
      MarkAt(ls, v, i);
      BuysBest(ls, xs, v, ls[i].price);
    }
  }

  /** Selling into the front is the dearest way to sell a volume. */
  lemma DearestSale(ls: seq<Level>, xs: seq<real>)
    requires NonNegative(ls) && Descending(ls) && IsPlan(ls, xs)
    ensures Dot(ls, xs, PRICE, |ls|) <= Along(ls, Taken(xs, |xs|), PRICE)
  {
    hide Mul;
    var v := Taken(xs, |xs|);
    PlanWithin(ls, xs, |xs|);
    if ls != [] {
      var i := LastUsed(ls, v, |ls|);
      MarkAt(ls, v, i);
      SellsBest(ls, xs, v, ls[i].price);
    }
  }

  // ---- cost grows with volume ----

  predicate PositivePrices(ls: seq<Level>) { forall i :: 0 <= i < |ls| ==> ls[i].price > 0.0 }

  lemma {:induction false} DeeperCosts(ls: seq<Level>, v: real, v': real, k: nat)
    requires NonNegative(ls) && PositivePrices(ls) && k <= |ls| && 0.0 <= v < v'
    ensures Dot(ls, Fill(ls, v), PRICE, k) <= Dot(ls, Fill(ls, v'), PRICE, k)
    ensures v < Upto(ls, k) ==> Dot(ls, Fill(ls, v), PRICE, k) < Dot(ls, Fill(ls, v'), PRICE, k)
  {
    if k > 0 {
      hide Mul;
      DeeperCosts(ls, v, v', k - 1);
      MulOrder(ls[k - 1].price, Amount(ls, v, k - 1), Amount(ls, v', k - 1));
    }
  }
}
