/** Looking for overlap between two order books (gryphon/lib/arbitrage.py:71-190). */
module Arbitrage {
  import opened Books

  /** How the matching loop ended. `ListEnd` is the loop condition turning false, `IndexError` a bid
      loaded past the end of its list. */
  datatype Exit = NoCross | ListEnd | IndexError

  /** The loop's variables: the orders loaded last, what remains of them, and the totals so far. */
  datatype State = State(ask: int, askLeft: real, bid: int, bidLeft: real,
                         volume: real, revenue: real, fees: real)

  datatype Walk = Walk(exit: Exit, end: State)

  const START := State(-1, 0.0, -1, 0.0, 0.0, 0.0, 0.0)

  predicate InRange(asks: seq<Level>, bids: seq<Level>, s: State) {
    -1 <= s.ask < |asks| && -1 <= s.bid < |bids| && (s.askLeft == 0.0 || s.bidLeft == 0.0)
    && (s.ask == -1 ==> s.askLeft == 0.0) && (s.bid == -1 ==> s.bidLeft == 0.0)
  }

  /** The next orders, as the top of the loop body loads them. */
  function Load(asks: seq<Level>, bids: seq<Level>, s: State): State
    requires InRange(asks, bids, s) && s.ask < |asks| - 1
    requires s.bidLeft == 0.0 ==> s.bid < |bids| - 1
  {
    var s1 := if s.askLeft == 0.0 then s.(ask := s.ask + 1, askLeft := asks[s.ask + 1].volume) else s;
    if s.bidLeft == 0.0 then s1.(bid := s.bid + 1, bidLeft := bids[s.bid + 1].volume) else s1
  }

  function Trade(asks: seq<Level>, bids: seq<Level>, s: State): State
    requires 0 <= s.ask < |asks| && 0 <= s.bid < |bids|
  {
    var a, b := asks[s.ask], bids[s.bid];
    var v := if s.bidLeft > s.askLeft then s.askLeft else s.bidLeft;
    s.(volume := s.volume + v,
       revenue := s.revenue + Mul(b.price - a.price, v),
       fees := s.fees + Mul(Mul(b.price, v), b.fee) + Mul(Mul(a.price, v), a.fee),
       bidLeft := s.bidLeft - v, askLeft := s.askLeft - v)
  }

  /** The matching loop. It runs while neither the asks nor the first `limit` bids are all loaded,
      where `limit` is the number of asks, not bids, in the book being sold into. */
  function Run(asks: seq<Level>, bids: seq<Level>, limit: nat, s: State): Walk
    requires InRange(asks, bids, s)
    decreases |asks| - s.ask + |bids| - s.bid
  {
    if !(s.ask < |asks| - 1 && s.bid < limit - 1) then Walk(ListEnd, s)
    else if s.bidLeft == 0.0 && s.bid + 1 >= |bids| then Walk(IndexError, s)
    else
      var s1 := Load(asks, bids, s);
      if bids[s1.bid].price > asks[s1.ask].price then Run(asks, bids, limit, Trade(asks, bids, s1))
      else Walk(NoCross, s1)
  }

  /** The bids, priced in the buy book's currency. */
  function Converted(bids: seq<Level>, rate: real): (r: seq<Level>)
    ensures |r| == |bids| && forall i :: 0 <= i < |r| ==> r[i] == bids[i].(price := Mul(bids[i].price, rate))
  {
    seq(|bids|, i requires 0 <= i < |bids| => bids[i].(price := Mul(bids[i].price, rate)))
  }

  datatype Cross = Cross(volume: real, revenue: real, fees: real)

  datatype Detection = NoneFound | Found(cross: Cross) | RaisesIndexError

  /** What the answer means. A cross has its own volume bought along the asks and sold along the bids, in the buy
      book's currency, and where that matters it earns more than its fees. There is none when no volume trades or when
      the revenue does not cover the fees, where that matters. */
  ghost predicate Answers(d: Detection, asks: seq<Level>, bids: seq<Level>, rate: real, limit: nat,
                          ignoreUnprofitable: bool)
  {
    if asks == [] || bids == [] then d == NoneFound else
      var w := Run(asks, Converted(bids, rate), limit, START);
      var v := w.end.volume;
      var revenue := Mul(rate, Along(bids, v, PRICE)) - Along(asks, v, PRICE);
      var fees := Mul(rate, Along(bids, v, FEE_RATE)) + Along(asks, v, FEE_RATE);
      && (d.RaisesIndexError? <==> w.exit == IndexError)
      && (d.NoneFound? <==> w.exit != IndexError && (v == 0.0 || (ignoreUnprofitable && revenue <= fees)))
      && (d.Found? ==>
            && d.cross.volume == v && 0.0 < v <= Total(asks) && v <= Total(bids)
            && d.cross.revenue == revenue && d.cross.fees == fees
            && (ignoreUnprofitable ==> d.cross.revenue > d.cross.fees))
  }

  /** The matching loop; `bids` are in the sell book's currency. False when it indexes past the bids. */
  method MatchBooks(asks: seq<Level>, bids: seq<Level>, sellAsks: seq<Level>, rate: real)
    returns (ok: bool, volume: real, revenue: real, fees: real)
    ensures var w := Run(asks, Converted(bids, rate), |sellAsks|, START);
      && (ok <==> w.exit != IndexError)
      && (ok ==> volume == w.end.volume && revenue == w.end.revenue && fees == w.end.fees)
  {
    hide Mul;
    ghost var cb := Converted(bids, rate);
    volume, revenue, fees := 0.0, 0.0, 0.0;
    var ask, bid := -1, -1;
    var askLeft, bidLeft := 0.0, 0.0;
    var askPrice, bidPrice := 0.0, 0.0;
    ghost var s := START;
    while ask < |asks| - 1 && bid < |sellAsks| - 1
      invariant s == State(ask, askLeft, bid, bidLeft, volume, revenue, fees)
      invariant InRange(asks, cb, s)
      invariant Run(asks, cb, |sellAsks|, START) == Run(asks, cb, |sellAsks|, s)
      invariant ask >= 0 ==> askPrice == asks[ask].price
      invariant bid >= 0 ==> bidPrice == cb[bid].price
      decreases |asks| - ask + |bids| - bid
    {
      if askLeft == 0.0 {
        ask := ask + 1;
        askPrice := asks[ask].price;
        askLeft := asks[ask].volume;
      }
      if bidLeft == 0.0 {
        bid := bid + 1;
        if bid >= |bids| { return false, volume, revenue, fees; }
        bidPrice := Mul(bids[bid].price, rate);
        bidLeft := bids[bid].volume;
      }
      s := Load(asks, cb, s);
      if bidPrice <= askPrice { return true, volume, revenue, fees; }
      var margin := bidPrice - askPrice;
      var v := if bidLeft > askLeft then askLeft else bidLeft;
      revenue := revenue + Mul(margin, v);
      fees := fees + Mul(Mul(bidPrice, v), bids[bid].fee);
      fees := fees + Mul(Mul(askPrice, v), asks[ask].fee);
      volume := volume + v;
      bidLeft := bidLeft - v;
      askLeft := askLeft - v;
      s := Trade(asks, cb, s);
    }
    ok := true;
  }

  /** `rate` converts the sell book's currency into the buy book's. */
  method DetectDirectionalCross(asks: seq<Level>, bids: seq<Level>, sellAsks: seq<Level>, rate: real,
                                ignoreUnprofitable: bool)
    returns (d: Detection)
    ensures asks == [] || bids == [] ==> d == NoneFound
    ensures asks != [] && bids != [] ==>
      d == Verdict(Run(asks, Converted(bids, rate), |sellAsks|, START), ignoreUnprofitable)
    ensures rate >= 0.0 && SortedBooks(asks, bids) ==> Answers(d, asks, bids, rate, |sellAsks|, ignoreUnprofitable)
  {
    if rate >= 0.0 && SortedBooks(asks, bids) { DetectionIs(asks, bids, rate, |sellAsks|, ignoreUnprofitable); }
    hide Run;
    hide Answers;
    hide SortedBooks;
    if asks == [] || bids == [] { return NoneFound; }
    var ok, volume, revenue, fees := MatchBooks(asks, bids, sellAsks, rate);
    if !ok { return RaisesIndexError; }
    if volume == 0.0 { return NoneFound; }
    if !ignoreUnprofitable || revenue > fees { return Found(Cross(volume, revenue, fees)); }
    d := NoneFound;
  }

  /** What detect_directional_cross returns, given how the loop ended. */
  function Verdict(w: Walk, ignoreUnprofitable: bool): Detection {
    if w.exit == IndexError then RaisesIndexError
    else if w.end.volume == 0.0 then NoneFound
    else if !ignoreUnprofitable || w.end.revenue > w.end.fees then Found(Cross(w.end.volume, w.end.revenue, w.end.fees))
    else NoneFound
  }

  // ---- what the loop finds ----

  /** The totals are those of the first `volume` of both sides. */
  predicate Accounts(asks: seq<Level>, bids: seq<Level>, s: State) {
    && 0.0 <= s.volume <= Total(asks) && s.volume <= Total(bids)
    && s.revenue == Along(bids, s.volume, PRICE) - Along(asks, s.volume, PRICE)
    && s.fees == Along(bids, s.volume, FEE_RATE) + Along(asks, s.volume, FEE_RATE)
  }

  /** The loaded orders are where the volume traded so far ends, and they crossed. */
  predicate Placed(asks: seq<Level>, bids: seq<Level>, s: State) {
    && InRange(asks, bids, s) && (s.ask == -1 <==> s.bid == -1)
    && s.volume == Upto(asks, s.ask + 1) - s.askLeft == Upto(bids, s.bid + 1) - s.bidLeft
    && (s.ask >= 0 ==>
          && 0.0 <= s.askLeft <= asks[s.ask].volume && 0.0 <= s.bidLeft <= bids[s.bid].volume
          && asks[s.ask].price < bids[s.bid].price)
  }

  predicate SortedBooks(asks: seq<Level>, bids: seq<Level>) {
    NonNegative(asks) && NonNegative(bids) && Ascending(asks) && Descending(bids)
  }

  /** The state after loading: both orders at hand, volume ending inside or before them. */
  predicate Loaded(asks: seq<Level>, bids: seq<Level>, s: State) {
    && 0 <= s.ask < |asks| && 0 <= s.bid < |bids|
    && s.volume == Upto(asks, s.ask + 1) - s.askLeft == Upto(bids, s.bid + 1) - s.bidLeft
    && 0.0 <= s.askLeft <= asks[s.ask].volume && 0.0 <= s.bidLeft <= bids[s.bid].volume
  }

  lemma LoadPlaces(asks: seq<Level>, bids: seq<Level>, s: State)
    requires NonNegative(asks) && NonNegative(bids)
    requires Placed(asks, bids, s) && s.ask < |asks| - 1 && (s.bidLeft == 0.0 ==> s.bid < |bids| - 1)
    ensures Loaded(asks, bids, Load(asks, bids, s))
  {
  }

  lemma FeeProduct(l: Level, v: real)
    ensures Mul(Mul(l.price, v), l.fee) == Mul(FEE_RATE(l), v)
  {
    assert l.price * v * l.fee == l.price * l.fee * v;
  }

  lemma TradeAccounts(asks: seq<Level>, bids: seq<Level>, s: State)
    requires NonNegative(asks) && NonNegative(bids)
    requires Loaded(asks, bids, s) && Accounts(asks, bids, s)
    requires asks[s.ask].price < bids[s.bid].price
    ensures var t := Trade(asks, bids, s); Placed(asks, bids, t) && Accounts(asks, bids, t)
  {
    hide Mul;
    hide Along;
    var t, a, b := Trade(asks, bids, s), asks[s.ask], bids[s.bid];
    var v := t.volume - s.volume;
    MarginalCost(asks, s.volume, v, s.ask, PRICE);
    MarginalCost(asks, s.volume, v, s.ask, FEE_RATE);
    MarginalCost(bids, s.volume, v, s.bid, PRICE);
    MarginalCost(bids, s.volume, v, s.bid, FEE_RATE);
    MulSplits(v, b.price, a.price);
    FeeProduct(b, v);
    FeeProduct(a, v);
    UptoGrows(asks, s.ask + 1, |asks|);
    UptoGrows(bids, s.bid + 1, |bids|);
  }

  /** At a break, one price separates what was traded from what was not. */
  ghost predicate Separated(asks: seq<Level>, bids: seq<Level>, v: real) {
    exists mark :: BuysBelow(asks, v, mark) && SellsAbove(bids, v, mark)
  }

  lemma BreakSeparates(asks: seq<Level>, bids: seq<Level>, s: State)
    requires SortedBooks(asks, bids) && Placed(asks, bids, s)
    requires s.ask < |asks| - 1 && (s.bidLeft == 0.0 ==> s.bid < |bids| - 1)
    requires var t := Load(asks, bids, s); bids[t.bid].price <= asks[t.ask].price
    ensures Separated(asks, bids, s.volume)
  {
    var t := Load(asks, bids, s);
    LoadPlaces(asks, bids, s);
    assert Upto(asks, t.ask) <= s.volume <= Upto(asks, t.ask + 1);
    assert Upto(bids, t.bid) <= s.volume <= Upto(bids, t.bid + 1);
    assert s.ask >= 0 ==> Upto(asks, s.ask) <= s.volume <= Upto(asks, s.ask + 1);
    assert s.bid >= 0 ==> Upto(bids, s.bid) <= s.volume <= Upto(bids, s.bid + 1);
    var pb := bids[t.bid].price;
    var mark := if s.ask >= 0 && asks[s.ask].price > pb then asks[s.ask].price else pb;
    AsksBelow(asks, s.volume, mark, s.ask, t.ask);
    BidsAbove(bids, s.volume, mark, s.bid, t.bid);
  }

  /** The volume ends in or at the last ask used and the next: a mark between their prices separates. */
  lemma AsksBelow(asks: seq<Level>, v: real, mark: real, last: int, next: nat)
    requires NonNegative(asks) && Ascending(asks) && -1 <= last <= next < |asks|
    requires Upto(asks, next) <= v <= Upto(asks, next + 1)
    requires last >= 0 ==> Upto(asks, last) <= v <= Upto(asks, last + 1) && asks[last].price <= mark
    requires last < 0 ==> next == 0 && v == 0.0
    requires mark <= asks[next].price
    ensures BuysBelow(asks, v, mark)
  {
    assert Upto(asks, 0) == 0.0;
    hide Upto;
    forall i | 0 <= i < |asks|
      ensures Amount(asks, v, i) > 0.0 ==> asks[i].price <= mark
      ensures Amount(asks, v, i) < asks[i].volume ==> mark <= asks[i].price
    {
      FillAround(asks, v, next, i);
      if last >= 0 { FillAround(asks, v, last, i); }
    }
  }

  lemma BidsAbove(bids: seq<Level>, v: real, mark: real, last: int, next: nat)
    requires NonNegative(bids) && Descending(bids) && -1 <= last <= next < |bids|
    requires Upto(bids, next) <= v <= Upto(bids, next + 1)
    requires last >= 0 ==> Upto(bids, last) <= v <= Upto(bids, last + 1) && bids[last].price >= mark
    requires last < 0 ==> next == 0 && v == 0.0
    requires mark >= bids[next].price
    ensures SellsAbove(bids, v, mark)
  {
    assert Upto(bids, 0) == 0.0;
    hide Upto;
    forall j | 0 <= j < |bids|
      ensures Amount(bids, v, j) > 0.0 ==> bids[j].price >= mark
      ensures Amount(bids, v, j) < bids[j].volume ==> mark >= bids[j].price
    {
      FillAround(bids, v, next, j);
      if last >= 0 { FillAround(bids, v, last, j); }
    }
  }

  /** Every ask used is cheaper than every bid used. */
  predicate Crossing(asks: seq<Level>, bids: seq<Level>, v: real) {
    forall i, j | 0 <= i < |asks| && 0 <= j < |bids| ::
      Amount(asks, v, i) > 0.0 && Amount(bids, v, j) > 0.0 ==> asks[i].price < bids[j].price
  }

  lemma PlacedCrosses(asks: seq<Level>, bids: seq<Level>, s: State)
    requires SortedBooks(asks, bids) && Placed(asks, bids, s)
    ensures Crossing(asks, bids, s.volume)
  {
    forall i, j | 0 <= i < |asks| && 0 <= j < |bids|
      && Amount(asks, s.volume, i) > 0.0 && Amount(bids, s.volume, j) > 0.0
      ensures asks[i].price < bids[j].price
    {
      if s.ask == -1 {
        UptoGrows(asks, 0, i);
      } else {
        FillAround(asks, s.volume, s.ask, i);
        FillAround(bids, s.volume, s.bid, j);
      }
    }
  }

  lemma {:induction false} RunFinds(asks: seq<Level>, bids: seq<Level>, limit: nat, s: State)
    requires SortedBooks(asks, bids) && Placed(asks, bids, s) && Accounts(asks, bids, s)
    ensures var w := Run(asks, bids, limit, s);
      && Accounts(asks, bids, w.end) && Crossing(asks, bids, w.end.volume)
      && (w.exit == NoCross ==> Separated(asks, bids, w.end.volume))
      && (w.exit == IndexError ==> limit > |bids|)
      && (w.exit == ListEnd ==> Placed(asks, bids, w.end)
                                && (w.end.ask == |asks| - 1 || w.end.bid >= limit - 1))
    decreases |asks| - s.ask + |bids| - s.bid
  {
    hide Accounts;
    hide Crossing;
    PlacedCrosses(asks, bids, s);
    if s.ask < |asks| - 1 && s.bid < limit - 1 && (s.bidLeft == 0.0 ==> s.bid + 1 < |bids|) {
      var s1 := Load(asks, bids, s);
      LoadPlaces(asks, bids, s);
      SameAccounts(asks, bids, s, s1);
      if bids[s1.bid].price > asks[s1.ask].price {
        TradeAccounts(asks, bids, s1);
        RunFinds(asks, bids, limit, Trade(asks, bids, s1));
      } else {
        BreakSeparates(asks, bids, s);
      }
    }
  }

  lemma SameAccounts(asks: seq<Level>, bids: seq<Level>, s: State, t: State)
    requires Accounts(asks, bids, s)
    requires t.volume == s.volume && t.revenue == s.revenue && t.fees == s.fees
    ensures Accounts(asks, bids, t)
  {
  }

  /** The gross revenue of buying `xs` and selling `ys`. */
  function Gross(asks: seq<Level>, bids: seq<Level>, xs: seq<real>, ys: seq<real>): real
    requires IsPlan(asks, xs) && IsPlan(bids, ys)
  {
    Dot(bids, ys, PRICE, |bids|) - Dot(asks, xs, PRICE, |asks|)
  }

  lemma StartAccounts(asks: seq<Level>, bids: seq<Level>)
    requires NonNegative(asks) && NonNegative(bids)
    ensures Placed(asks, bids, START) && Accounts(asks, bids, START)
  {
    NothingCosts(asks, PRICE, |asks|);
    NothingCosts(asks, FEE_RATE, |asks|);
    NothingCosts(bids, PRICE, |bids|);
    NothingCosts(bids, FEE_RATE, |bids|);
    UptoGrows(asks, 0, |asks|);
    UptoGrows(bids, 0, |bids|);
  }

  lemma {:induction false} SameDepth(bids: seq<Level>, rate: real, k: nat)
    requires k <= |bids|
    ensures Upto(Converted(bids, rate), k) == Upto(bids, k)
  {
    if k > 0 { SameDepth(bids, rate, k - 1); }
  }

  lemma SameFill(bids: seq<Level>, rate: real, v: real)
    ensures Fill(Converted(bids, rate), v) == Fill(bids, v)
  {
    forall i | 0 <= i < |bids| ensures Amount(Converted(bids, rate), v, i) == Amount(bids, v, i) {
      SameDepth(bids, rate, i);
    }
  }

  lemma MulChain(a: real, b: real, c: real)
    ensures Mul(Mul(a, b), c) == Mul(a, Mul(b, c)) && Mul(Mul(b, a), c) == Mul(a, Mul(b, c))
  {
    assert a * b * c == a * (b * c);
    assert b * a * c == a * (b * c);
  }

  lemma {:induction false} DotScales(ls: seq<Level>, ms: seq<Level>, xs: seq<real>, w: Level -> real, rate: real, k: nat)
    requires k <= |ls| == |ms| == |xs|
    requires forall i :: 0 <= i < |ls| ==> w(ms[i]) == Mul(rate, w(ls[i]))
    ensures Dot(ms, xs, w, k) == Mul(rate, Dot(ls, xs, w, k))
  {
    if k == 0 {
      MulSplits(rate, 0.0, 0.0);
    } else {
      DotScales(ls, ms, xs, w, rate, k - 1);
      MulChain(rate, w(ls[k - 1]), xs[k - 1]);
      MulSplits(rate, Dot(ls, xs, w, k - 1), Mul(w(ls[k - 1]), xs[k - 1]));
      hide Mul;
    }
  }

  lemma RateConverts(b: Level, rate: real)
    ensures var c := b.(price := Mul(b.price, rate));
      PRICE(c) == Mul(rate, PRICE(b)) && FEE_RATE(c) == Mul(rate, FEE_RATE(b))
  {
    assert b.price * rate * b.fee == rate * (b.price * b.fee);
  }

  /** Converting the prices converts what a volume brings in. */
  lemma AlongConverts(bids: seq<Level>, rate: real, v: real)
    ensures Along(Converted(bids, rate), v, PRICE) == Mul(rate, Along(bids, v, PRICE))
    ensures Along(Converted(bids, rate), v, FEE_RATE) == Mul(rate, Along(bids, v, FEE_RATE))
    ensures Total(Converted(bids, rate)) == Total(bids)
  {
    SameFill(bids, rate, v);
    SameDepth(bids, rate, |bids|);
    var cb := Converted(bids, rate);
    forall i | 0 <= i < |bids| ensures PRICE(cb[i]) == Mul(rate, PRICE(bids[i])) { RateConverts(bids[i], rate); }
    forall i | 0 <= i < |bids| ensures FEE_RATE(cb[i]) == Mul(rate, FEE_RATE(bids[i])) { RateConverts(bids[i], rate); }
    hide Mul;
    hide PRICE;
    hide FEE_RATE;
    DotScales(bids, cb, Fill(bids, v), PRICE, rate, |bids|);
    DotScales(bids, cb, Fill(bids, v), FEE_RATE, rate, |bids|);
  }

  lemma ConvertedSorted(asks: seq<Level>, bids: seq<Level>, rate: real)
    requires SortedBooks(asks, bids) && rate >= 0.0
    ensures SortedBooks(asks, Converted(bids, rate))
  {
    var cb := Converted(bids, rate);
    forall i, j | 0 <= i < j < |cb| ensures cb[i].price >= cb[j].price {
      assert Mul(bids[i].price, rate) == Mul(rate, bids[i].price);
      assert Mul(bids[j].price, rate) == Mul(rate, bids[j].price);
      MulOrder(rate, bids[j].price, bids[i].price);
    }
  }

  /** The totals at the end of the walk, in the prices of the two books. */
  lemma WalkTotals(asks: seq<Level>, bids: seq<Level>, rate: real, limit: nat)
    requires SortedBooks(asks, bids) && rate >= 0.0
    ensures var end := Run(asks, Converted(bids, rate), limit, START).end;
            var v := end.volume;
      && 0.0 <= v <= Total(asks) && v <= Total(bids)
      && end.revenue == Mul(rate, Along(bids, v, PRICE)) - Along(asks, v, PRICE)
      && end.fees == Mul(rate, Along(bids, v, FEE_RATE)) + Along(asks, v, FEE_RATE)
  {
    hide Mul;
    var cb := Converted(bids, rate);
    ConvertedSorted(asks, bids, rate);
    StartAccounts(asks, cb);
    RunFinds(asks, cb, limit, START);
    AlongConverts(bids, rate, Run(asks, cb, limit, START).end.volume);
  }

  lemma DetectionIs(asks: seq<Level>, bids: seq<Level>, rate: real, limit: nat, ignoreUnprofitable: bool)
    requires SortedBooks(asks, bids) && rate >= 0.0
    ensures asks != [] && bids != [] ==>
      Answers(Verdict(Run(asks, Converted(bids, rate), limit, START), ignoreUnprofitable),
              asks, bids, rate, limit, ignoreUnprofitable)
    ensures asks == [] || bids == [] ==> Answers(NoneFound, asks, bids, rate, limit, ignoreUnprofitable)
  {
    WalkTotals(asks, bids, rate, limit);
    hide Run;
    hide Along;
    hide Mul;
  }

  /** No volume trades if and only if the best prices do not cross, or the sell book has no asks. */
  lemma NothingTradesIff(asks: seq<Level>, bids: seq<Level>, limit: nat)
    requires SortedBooks(asks, bids) && Traded(asks) && Traded(bids) && asks != [] && bids != []
    ensures Run(asks, bids, limit, START).end.volume == 0.0 <==> limit == 0 || bids[0].price <= asks[0].price
  {
    StartAccounts(asks, bids);
    if limit > 0 && bids[0].price > asks[0].price {
      var s1 := Load(asks, bids, START);
      LoadPlaces(asks, bids, START);
      TradeAccounts(asks, bids, s1);
      VolumeGrows(asks, bids, limit, Trade(asks, bids, s1));
    }
  }

  lemma {:induction false} VolumeGrows(asks: seq<Level>, bids: seq<Level>, limit: nat, s: State)
    requires NonNegative(asks) && NonNegative(bids) && Placed(asks, bids, s) && Accounts(asks, bids, s)
    ensures Run(asks, bids, limit, s).end.volume >= s.volume
    decreases |asks| - s.ask + |bids| - s.bid
  {
    hide Accounts;
    if s.ask < |asks| - 1 && s.bid < limit - 1 && (s.bidLeft == 0.0 ==> s.bid + 1 < |bids|) {
      var s1 := Load(asks, bids, s);
      LoadPlaces(asks, bids, s);
      SameAccounts(asks, bids, s, s1);
      if bids[s1.bid].price > asks[s1.ask].price {
        TradeAccounts(asks, bids, s1);
        VolumeGrows(asks, bids, limit, Trade(asks, bids, s1));
      }
    }
  }

  /** What was found: the first `volume` of each side, every traded ask below every traded bid, and
      no other way of trading that volume earns more. If the loop broke off for lack of a cross, no
      way of trading any volume earns more. */
  lemma CrossIsBest(asks: seq<Level>, bids: seq<Level>, limit: nat, xs: seq<real>, ys: seq<real>)
    requires SortedBooks(asks, bids)
    requires IsPlan(asks, xs) && IsPlan(bids, ys) && Taken(xs, |xs|) == Taken(ys, |ys|)
    ensures var w := Run(asks, bids, limit, START);
      && (limit <= |bids| ==> w.exit != IndexError)
      && Accounts(asks, bids, w.end) && Crossing(asks, bids, w.end.volume)
      && (Taken(xs, |xs|) == w.end.volume || w.exit == NoCross ==> Gross(asks, bids, xs, ys) <= w.end.revenue)
  {
    hide Mul;
    var w := Run(asks, bids, limit, START);
    StartAccounts(asks, bids);
    RunFinds(asks, bids, limit, START);
    if Taken(xs, |xs|) == w.end.volume {
      CheapestBuy(asks, xs);
      DearestSale(bids, ys);
    }
    if w.exit == NoCross {
      var v := w.end.volume;
      var mark :| BuysBelow(asks, v, mark) && SellsAbove(bids, v, mark);
      BuysBest(asks, xs, v, mark);
      SellsBest(bids, ys, v, mark);
    }
  }

  // ---- the loop condition: when it stops too early, when it runs off the bids ----

  predicate Traded(ls: seq<Level>) { forall i :: 0 <= i < |ls| ==> ls[i].volume > 0.0 }

  /** Some of an ask and some of a dearer bid are left. */
  predicate CrossRemains(asks: seq<Level>, bids: seq<Level>, v: real) {
    exists i, j :: 0 <= i < |asks| && 0 <= j < |bids| && Amount(asks, v, i) < asks[i].volume
      && Amount(bids, v, j) < bids[j].volume && asks[i].price < bids[j].price
  }

  ghost predicate Unbeaten(asks: seq<Level>, bids: seq<Level>, revenue: real) {
    forall xs, ys :: IsPlan(asks, xs) && IsPlan(bids, ys) && Taken(xs, |xs|) == Taken(ys, |ys|) ==>
      Gross(asks, bids, xs, ys) <= revenue
  }

  lemma {:induction false} TakeMore(xs: seq<real>, i: nat, d: real, k: nat)
    requires i < |xs| && k <= |xs|
    ensures Taken(xs[i := xs[i] + d], k) == Taken(xs, k) + if i < k then d else 0.0
  {
    if k > 0 { TakeMore(xs, i, d, k - 1); }
  }

  lemma {:induction false} DotMore(ls: seq<Level>, xs: seq<real>, i: nat, d: real, k: nat)
    requires i < |xs| == |ls| && k <= |xs|
    ensures Dot(ls, xs[i := xs[i] + d], PRICE, k)
         == Dot(ls, xs, PRICE, k) + if i < k then Mul(ls[i].price, d) else 0.0
  {
    if k > 0 {
      hide Mul;
      DotMore(ls, xs, i, d, k - 1);
      MulSplits(ls[i].price, xs[i], d);
    }
  }

  /** Taking `d` more of order `i` than the front of the book does. */
  function Extra(ls: seq<Level>, v: real, i: nat, d: real): seq<real>
    requires i < |ls|
  {
    Fill(ls, v)[i := Fill(ls, v)[i] + d]
  }

  lemma ExtraIsPlan(ls: seq<Level>, v: real, i: nat, d: real)
    requires NonNegative(ls) && i < |ls| && 0.0 <= v <= Total(ls)
    requires 0.0 <= d <= ls[i].volume - Amount(ls, v, i)
    ensures var xs := Extra(ls, v, i, d);
            && IsPlan(ls, xs)
            && Taken(xs, |xs|) == v + d
            && Dot(ls, xs, PRICE, |ls|) == Along(ls, v, PRICE) + Mul(ls[i].price, d)
  {
    hide Mul;
    hide Amount;
    hide Dot;
    hide Taken;
    FillIsPlan(ls, v);
    assert Fill(ls, v)[i] == Amount(ls, v, i);
    FillTakes(ls, v, |ls|);
    TakeMore(Fill(ls, v), i, d, |ls|);
    DotMore(ls, Fill(ls, v), i, d, |ls|);
  }

  /** A cross that remains can still be traded at a profit. */
  lemma RemainsBeats(asks: seq<Level>, bids: seq<Level>, s: State)
    requires NonNegative(asks) && NonNegative(bids) && Accounts(asks, bids, s)
    requires CrossRemains(asks, bids, s.volume)
    ensures !Unbeaten(asks, bids, s.revenue)
  {
    hide Mul;
    hide Amount;
    hide Extra;
    hide Total;
    var v := s.volume;
    var i, j :| 0 <= i < |asks| && 0 <= j < |bids| && Amount(asks, v, i) < asks[i].volume
      && Amount(bids, v, j) < bids[j].volume && asks[i].price < bids[j].price;
    var slackA, slackB := asks[i].volume - Amount(asks, v, i), bids[j].volume - Amount(bids, v, j);
    var d := if slackA < slackB then slackA else slackB;
    ExtraIsPlan(asks, v, i, d);
    ExtraIsPlan(bids, v, j, d);
    MulOrder(d, asks[i].price, bids[j].price);
    MulSwap(d, asks[i].price);
    MulSwap(d, bids[j].price);
    assert Gross(asks, bids, Extra(asks, v, i, d), Extra(bids, v, j, d)) > s.revenue;
  }

  lemma MulSwap(a: real, b: real)
    ensures Mul(a, b) == Mul(b, a)
  {
  }

  lemma SeparatedIsUnbeaten(asks: seq<Level>, bids: seq<Level>, s: State)
    requires NonNegative(asks) && NonNegative(bids) && Accounts(asks, bids, s)
    requires Separated(asks, bids, s.volume)
    ensures Unbeaten(asks, bids, s.revenue)
  {
    hide Mul;
    var v := s.volume;
    var mark :| BuysBelow(asks, v, mark) && SellsAbove(bids, v, mark);
    forall xs, ys | IsPlan(asks, xs) && IsPlan(bids, ys) && Taken(xs, |xs|) == Taken(ys, |ys|)
      ensures Gross(asks, bids, xs, ys) <= s.revenue
    {
      BuysBest(asks, xs, v, mark);
      SellsBest(bids, ys, v, mark);
    }
  }

  /** The front of a side uses the orders up to the last one and leaves those from `first` on. */
  ghost predicate Uses(ls: seq<Level>, v: real, last: int, first: nat) {
    forall i | 0 <= i < |ls| ::
      (Amount(ls, v, i) > 0.0 ==> i <= last) && (Amount(ls, v, i) < ls[i].volume <==> first <= i)
  }

  lemma EndUses(ls: seq<Level>, v: real, last: int, left: real)
    requires NonNegative(ls) && Traded(ls) && -1 <= last < |ls|
    requires v == Upto(ls, last + 1) - left
    requires if last >= 0 then 0.0 <= left <= ls[last].volume else left == 0.0
    ensures Uses(ls, v, last, if left > 0.0 then last else last + 1)
  {
    forall i | 0 <= i < |ls|
      ensures Amount(ls, v, i) > 0.0 ==> i <= last
      ensures Amount(ls, v, i) < ls[i].volume <==> (if left > 0.0 then last else last + 1) <= i
    {
      assert ls[i].volume > 0.0;
      if last >= 0 { FillAround(ls, v, last, i); } else { UptoGrows(ls, 0, i); }
    }
  }

  lemma NoneRemains(asks: seq<Level>, bids: seq<Level>, v: real, i: nat, j: nat)
    requires i < |asks| && j < |bids| && !CrossRemains(asks, bids, v)
    requires Amount(asks, v, i) < asks[i].volume && Amount(bids, v, j) < bids[j].volume
    ensures bids[j].price <= asks[i].price
  {
  }

  /** Where nothing remains to be crossed, one price separates the two sides. */
  lemma NothingRemains(asks: seq<Level>, bids: seq<Level>, s: State)
    requires SortedBooks(asks, bids) && Traded(asks) && Traded(bids)
    requires Placed(asks, bids, s) && !CrossRemains(asks, bids, s.volume)
    ensures Separated(asks, bids, s.volume)
  {
    hide CrossRemains;
    var v := s.volume;
    var a := if s.askLeft > 0.0 then s.ask else s.ask + 1;
    var b := if s.bidLeft > 0.0 then s.bid else s.bid + 1;
    EndUses(asks, v, s.ask, s.askLeft);
    EndUses(bids, v, s.bid, s.bidLeft);
    hide Upto;
    hide Amount;
    if a < |asks| && b < |bids| { NoneRemains(asks, bids, v, a, b); }
    var hasAsk, hasBid := s.ask >= 0, b < |bids|;
    var mark := if hasAsk && (!hasBid || asks[s.ask].price > bids[b].price) then asks[s.ask].price
                else if hasBid then bids[b].price
                else if asks != [] then asks[0].price else 0.0;
    hide Uses;
    AsksUpTo(asks, v, s.ask, a, mark);
    BidsDownTo(bids, v, s.bid, b, mark);
  }

  lemma AsksUpTo(asks: seq<Level>, v: real, last: int, first: nat, mark: real)
    requires Ascending(asks) && Uses(asks, v, last, first) && -1 <= last < |asks| && last <= first
    requires (last >= 0 ==> asks[last].price <= mark) && (first < |asks| ==> mark <= asks[first].price)
    ensures BuysBelow(asks, v, mark)
  {
    hide Amount;
  }

  lemma BidsDownTo(bids: seq<Level>, v: real, last: int, first: nat, mark: real)
    requires Descending(bids) && Uses(bids, v, last, first) && -1 <= last < |bids| && last <= first
    requires (last >= 0 ==> bids[last].price >= mark) && (first < |bids| ==> mark >= bids[first].price)
    ensures SellsAbove(bids, v, mark)
  {
    hide Amount;
  }

  /** When the loop condition ends the loop, what was found is the best that can be done exactly if
      no cross remains: the loop condition may leave one behind. */
  lemma ListEndIsBestIff(asks: seq<Level>, bids: seq<Level>, limit: nat)
    requires SortedBooks(asks, bids) && Traded(asks) && Traded(bids)
    requires Run(asks, bids, limit, START).exit == ListEnd
    ensures var end := Run(asks, bids, limit, START).end;
      Unbeaten(asks, bids, end.revenue) <==> !CrossRemains(asks, bids, end.volume)
  {
    hide Unbeaten;
    hide CrossRemains;
    var end := Run(asks, bids, limit, START).end;
    StartAccounts(asks, bids);
    RunFinds(asks, bids, limit, START);
    if CrossRemains(asks, bids, end.volume) {
      RemainsBeats(asks, bids, end);
    } else {
      NothingRemains(asks, bids, end);
      SeparatedIsUnbeaten(asks, bids, end);
    }
  }

  // ---- where the walk stops, read off the books ----

  /** The first prefix volume of a side above `p`, from the first `k` orders on; the whole side if there is none. */
  function FirstAbove(ls: seq<Level>, p: real, k: nat): real
    requires k <= |ls|
    decreases |ls| - k
  {
    if k == |ls| || Upto(ls, k) > p then Upto(ls, k) else FirstAbove(ls, p, k + 1)
  }

  lemma {:induction false} FirstAboveIs(ls: seq<Level>, p: real, k: nat, i: nat)
    requires NonNegative(ls) && k <= i < |ls| && Upto(ls, i) <= p < Upto(ls, i + 1)
    ensures FirstAbove(ls, p, k) == Upto(ls, i + 1)
    decreases i - k
  {
    UptoGrows(ls, k, i);
    if k < i { FirstAboveIs(ls, p, k + 1, i); }
  }

  /** The volume at which the last order of a bounding list is loaded: the last ask, or bid `limit - 1`. */
  function LastLoad(asks: seq<Level>, bids: seq<Level>, limit: nat): real
    requires asks != [] && limit >= 1
  {
    var a := Upto(asks, |asks| - 1);
    if limit <= |bids| && Upto(bids, limit - 1) < a then Upto(bids, limit - 1) else a
  }

  /** Where the loop condition stops the walk if there is a cross up to there: at the end of the first order, on
      either side, that is left over at that load. */
  function Stop(asks: seq<Level>, bids: seq<Level>, limit: nat): real
    requires asks != []
  {
    if limit == 0 then 0.0 else
      var p := LastLoad(asks, bids, limit);
      var a, b := FirstAbove(asks, p, 0), FirstAbove(bids, p, 0);
      if b <= p || a < b then a else b
  }

  predicate Goes(asks: seq<Level>, limit: nat, s: State) { s.ask < |asks| - 1 && s.bid < limit - 1 }

  lemma BeforeLastLoad(asks: seq<Level>, bids: seq<Level>, limit: nat, s: State)
    requires NonNegative(asks) && NonNegative(bids) && asks != [] && limit >= 1
    requires Placed(asks, bids, s) && Goes(asks, limit, s)
    ensures s.volume <= LastLoad(asks, bids, limit)
  {
    UptoGrows(asks, s.ask + 1, |asks| - 1);
    if limit <= |bids| { UptoGrows(bids, s.bid + 1, limit - 1); }
  }

  /** A turn that loads the last order of a bounding list ends at `Stop`. */
  lemma LastTurn(asks: seq<Level>, bids: seq<Level>, limit: nat, s: State, t: State)
    requires SortedBooks(asks, bids) && Traded(asks) && Traded(bids) && asks != [] && limit >= 1
    requires s.volume <= LastLoad(asks, bids, limit) && 0 <= t.ask < |asks| && 0 <= t.bid < |bids|
    requires Upto(asks, t.ask) <= s.volume && Upto(bids, t.bid) <= s.volume
    requires Placed(asks, bids, t) && Begun(asks, bids, t)
    requires t.ask == |asks| - 1 || t.bid == limit - 1
    ensures t.volume == Stop(asks, bids, limit)
  {
    var p := LastLoad(asks, bids, limit);
    assert Upto(asks, t.ask + 1) == Upto(asks, t.ask) + asks[t.ask].volume;
    assert Upto(bids, t.bid + 1) == Upto(bids, t.bid) + bids[t.bid].volume;
    assert t.volume > p;
    FirstAboveIs(asks, p, 0, t.ask);
    FirstAboveIs(bids, p, 0, t.bid);
  }

  lemma {:induction false} StopsAt(asks: seq<Level>, bids: seq<Level>, limit: nat, s: State)
    requires SortedBooks(asks, bids) && Traded(asks) && Traded(bids) && asks != [] && limit >= 1
    requires Placed(asks, bids, s) && Begun(asks, bids, s)
    requires !Goes(asks, limit, s) ==> s.volume == Stop(asks, bids, limit)
    ensures var w := Run(asks, bids, limit, s);
      && (w.exit == ListEnd ==> w.end.volume == Stop(asks, bids, limit))
      && (w.exit == NoCross ==> w.end.volume <= LastLoad(asks, bids, limit))
    decreases |asks| - s.ask + |bids| - s.bid
  {
    if Goes(asks, limit, s) && (s.bidLeft == 0.0 ==> s.bid + 1 < |bids|) {
      BeforeLastLoad(asks, bids, limit, s);
      var s1 := Load(asks, bids, s);
      LoadPlaces(asks, bids, s);
      if bids[s1.bid].price > asks[s1.ask].price {
        var t := Trade(asks, bids, s1);
        TradePlaces(asks, bids, s1);
        if !Goes(asks, limit, t) { LastTurn(asks, bids, limit, s, t); }
        StopsAt(asks, bids, limit, t);
      }
    }
  }

  lemma LoadBeforeStop(asks: seq<Level>, bids: seq<Level>, limit: nat)
    requires Traded(asks) && asks != [] && limit >= 1
    ensures LastLoad(asks, bids, limit) < Stop(asks, bids, limit)
  {
    AboveIfAny(asks, LastLoad(asks, bids, limit), 0);
  }

  lemma {:induction false} AboveIfAny(ls: seq<Level>, p: real, k: nat)
    requires k <= |ls| && p < Total(ls)
    ensures FirstAbove(ls, p, k) > p
    decreases |ls| - k
  {
    if k < |ls| && Upto(ls, k) <= p { AboveIfAny(ls, p, k + 1); }
  }

  /** A price that separates the sides after some volume leaves no cross after any larger volume. */
  lemma SeparatedStays(asks: seq<Level>, bids: seq<Level>, v: real, w: real)
    requires NonNegative(asks) && NonNegative(bids) && Separated(asks, bids, v) && v <= w
    ensures !CrossRemains(asks, bids, w)
  {
    var mark :| BuysBelow(asks, v, mark) && SellsAbove(bids, v, mark);
    forall i, j | 0 <= i < |asks| && 0 <= j < |bids| && Amount(asks, w, i) < asks[i].volume
      && Amount(bids, w, j) < bids[j].volume
      ensures bids[j].price <= asks[i].price
    {
      assert Amount(asks, v, i) <= Amount(asks, w, i) && Amount(bids, v, j) <= Amount(bids, w, j);
    }
  }

  /** Whenever the walk does not run off the bids, which IndexErrorIff decides, what it finds is the best that can
      be done if and only if no cross remains at the volume where the loop condition stops it. All of this is read
      off the two books before the call. */
  lemma BestIff(asks: seq<Level>, bids: seq<Level>, limit: nat)
    requires SortedBooks(asks, bids) && Traded(asks) && Traded(bids) && asks != [] && bids != []
    requires !(limit > |bids| && exists i: nat :: BidsRunOutIn(asks, bids, i))
    ensures Unbeaten(asks, bids, Run(asks, bids, limit, START).end.revenue)
       <==> !CrossRemains(asks, bids, Stop(asks, bids, limit))
  {
    IndexErrorIff(asks, bids, limit);
    StartAccounts(asks, bids);
    RunFinds(asks, bids, limit, START);
    if limit > 0 {
      StopsAt(asks, bids, limit, START);
      LoadBeforeStop(asks, bids, limit);
    }
    hide Unbeaten;
    hide CrossRemains;
    hide Stop;
    var w := Run(asks, bids, limit, START);
    if w.exit == ListEnd {
      ListEndIsBestIff(asks, bids, limit);
    } else {
      SeparatedIsUnbeaten(asks, bids, w.end);
      SeparatedStays(asks, bids, w.end.volume, Stop(asks, bids, limit));
    }
  }

  /** Such a case: one large ask, two bids above it. The loop stops after the first bid. */
  lemma StopsEarly()
    ensures var asks := [Level(1.0, 10.0, 0.0)];
            var bids := [Level(3.0, 4.0, 0.0), Level(2.0, 4.0, 0.0)];
            var w := Run(asks, bids, 2, START);
      && w.exit == ListEnd && w.end.volume == 4.0 && w.end.revenue == 8.0
      && !Unbeaten(asks, bids, w.end.revenue)
  {
    var asks := [Level(1.0, 10.0, 0.0)];
    var bids := [Level(3.0, 4.0, 0.0), Level(2.0, 4.0, 0.0)];
    OneTurn();
    assert Upto(asks, 0) == 0.0 && Upto(bids, 1) == Upto(bids, 0) + 4.0;
    assert Amount(asks, 4.0, 0) < asks[0].volume && Amount(bids, 4.0, 1) < bids[1].volume;
    ListEndIsBestIff(asks, bids, 2);
  }

  lemma OneTurn()
    ensures Run([Level(1.0, 10.0, 0.0)], [Level(3.0, 4.0, 0.0), Level(2.0, 4.0, 0.0)], 2, START)
         == Walk(ListEnd, State(0, 6.0, 0, 0.0, 4.0, 8.0, 0.0))
  {
    var asks := [Level(1.0, 10.0, 0.0)];
    var bids := [Level(3.0, 4.0, 0.0), Level(2.0, 4.0, 0.0)];
    var s1 := Load(asks, bids, START);
    assert s1 == State(0, 10.0, 0, 4.0, 0.0, 0.0, 0.0);
    assert Trade(asks, bids, s1) == State(0, 6.0, 0, 0.0, 4.0, 8.0, 0.0);
    assert Run(asks, bids, 2, START) == Run(asks, bids, 2, Trade(asks, bids, s1));
  }

  lemma UptoStrict(ls: seq<Level>, i: nat, j: nat)
    requires Traded(ls) && i < j <= |ls|
    ensures Upto(ls, i) < Upto(ls, j)
  {
    UptoGrows(ls, i, j - 1);
  }

  /** Something of each order at hand has been traded. */
  predicate Begun(asks: seq<Level>, bids: seq<Level>, s: State)
    requires InRange(asks, bids, s)
  {
    s.ask >= 0 && s.bid >= 0 ==> s.askLeft < asks[s.ask].volume && s.bidLeft < bids[s.bid].volume
  }

  /** The bids run out inside ask `i`, which is not the last one and still crosses the last bid. */
  predicate BidsRunOutIn(asks: seq<Level>, bids: seq<Level>, i: nat) {
    && bids != [] && i + 1 < |asks|
    && Upto(asks, i) < Total(bids) <= Upto(asks, i + 1) && asks[i].price < bids[|bids| - 1].price
  }

  lemma {:induction false} RunsOut(asks: seq<Level>, bids: seq<Level>, limit: nat, i: nat, s: State)
    requires SortedBooks(asks, bids) && Traded(asks) && Traded(bids)
    requires Placed(asks, bids, s) && Begun(asks, bids, s)
    requires limit > |bids| && BidsRunOutIn(asks, bids, i)
    ensures Run(asks, bids, limit, s).exit == IndexError
    decreases |asks| - s.ask + |bids| - s.bid
  {
    if s.bid + 1 <= |bids| { UptoGrows(bids, s.bid + 1, |bids|); }
    if s.ask > i { UptoGrows(asks, i + 1, s.ask); }
    assert s.ask <= i;
    if s.bidLeft > 0.0 || s.bid + 1 < |bids| {
      if s.bidLeft == 0.0 { UptoStrict(bids, s.bid + 1, |bids|); }
      assert s.volume < Total(bids);
      if s.ask == i { assert s.volume == Upto(asks, i + 1) - s.askLeft; }
      var t := Load(asks, bids, s);
      LoadPlaces(asks, bids, s);
      assert t.ask <= i && asks[t.ask].price <= asks[i].price;
      assert bids[t.bid].price >= bids[|bids| - 1].price;
      TradePlaces(asks, bids, t);
      RunsOut(asks, bids, limit, i, Trade(asks, bids, t));
    }
  }

  lemma TradePlaces(asks: seq<Level>, bids: seq<Level>, t: State)
    requires Loaded(asks, bids, t) && asks[t.ask].price < bids[t.bid].price
    requires t.askLeft > 0.0 && t.bidLeft > 0.0
    ensures Placed(asks, bids, Trade(asks, bids, t)) && Begun(asks, bids, Trade(asks, bids, t))
  {
    hide Mul;
  }

  lemma {:induction false} RanOut(asks: seq<Level>, bids: seq<Level>, limit: nat, s: State) returns (i: nat)
    requires SortedBooks(asks, bids) && Traded(asks) && Traded(bids) && bids != []
    requires Placed(asks, bids, s) && Begun(asks, bids, s)
    requires Run(asks, bids, limit, s).exit == IndexError
    ensures limit > |bids| && BidsRunOutIn(asks, bids, i)
    decreases |asks| - s.ask + |bids| - s.bid
  {
    if s.bidLeft == 0.0 && s.bid + 1 >= |bids| {
      i := s.ask;
    } else {
      var t := Load(asks, bids, s);
      LoadPlaces(asks, bids, s);
      TradePlaces(asks, bids, t);
      i := RanOut(asks, bids, limit, Trade(asks, bids, t));
    }
  }

  /** The walk indexes past the end of the bids exactly when the sell book has more asks than bids
      and the bids run out, still crossing, before the last ask of the buy book is loaded. */
  lemma IndexErrorIff(asks: seq<Level>, bids: seq<Level>, limit: nat)
    requires SortedBooks(asks, bids) && Traded(asks) && Traded(bids) && bids != []
    ensures Run(asks, bids, limit, START).exit == IndexError
       <==> limit > |bids| && exists i: nat :: BidsRunOutIn(asks, bids, i)
  {
    StartAccounts(asks, bids);
    if Run(asks, bids, limit, START).exit == IndexError {
      var i := RanOut(asks, bids, limit, START);
    }
    if limit > |bids| && exists i: nat :: BidsRunOutIn(asks, bids, i) {
      var i: nat :| BidsRunOutIn(asks, bids, i);
      RunsOut(asks, bids, limit, i, START);
    }
  }

  /** Such a case: one bid, used up inside the first of two cheaper asks, against a sell book with two asks. */
  lemma RunsOffBids()
    ensures var asks := [Level(1.0, 2.0, 0.0), Level(1.5, 2.0, 0.0)];
            var bids := [Level(3.0, 1.0, 0.0)];
      && SortedBooks(asks, bids)
      && Verdict(Run(asks, bids, 2, START), true) == RaisesIndexError
  {
    var asks := [Level(1.0, 2.0, 0.0), Level(1.5, 2.0, 0.0)];
    var bids := [Level(3.0, 1.0, 0.0)];
    assert Upto(asks, 0) == 0.0 && Upto(asks, 1) == Upto(asks, 0) + 2.0;
    assert Total(bids) == Upto(bids, 0) + 1.0;
    assert BidsRunOutIn(asks, bids, 0);
    IndexErrorIff(asks, bids, 2);
  }
}
