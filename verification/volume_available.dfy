/** The volume that can be bought or sold up to a price, at one price and at many
    (gryphon/lib/metrics/volume_available.py:10-102), and the strength of a book built on it
    (gryphon/lib/metrics/orderbook_strength.py:13-80). */
module VolumeAvailable {
  import opened Wrappers
  import opened Books
  import Sorting

  datatype Result<+T> = Ok(value: T) | NoOrders | IndexError

  /** An order at a price is within reach of a limit. The mode is the intention: a bid buys from the asks, an ask
      sells to the bids. */
  predicate Reaches(mode: Side, price: real, limit: real) { if mode == Bid then price <= limit else price >= limit }

  /** The volume of the orders at the top of a side that are within reach. */
  function Available(mode: Side, limit: real, orders: seq<Level>): real {
    if orders == [] || !Reaches(mode, orders[0].price, limit) then 0.0
    else orders[0].volume + Available(mode, limit, orders[1..])
  }

  function VolumeAt(mode: Side, limit: real, book: Orderbook): Result<real> {
    if book.On(mode.Opposite()) == [] then NoOrders else Ok(Available(mode, limit, book.On(mode.Opposite())))
  }

  method VolumeAvailableAtPrice(mode: Side, limit: real, book: Orderbook) returns (r: Result<real>)
    ensures r == VolumeAt(mode, limit, book)
  {
    var orders := book.On(mode.Opposite());
    if orders == [] { return NoOrders; }
    var volume := 0.0;
    for i := 0 to |orders|
      invariant volume + Available(mode, limit, orders[i..]) == Available(mode, limit, orders)
    {
      assert orders[i..][1..] == orders[i + 1..];
      if !Reaches(mode, orders[i].price, limit) { return Ok(volume); }
      volume := volume + orders[i].volume;
    }
    r := Ok(volume);
  }

  /** All the volume within reach, wherever it stands on the side. */
  function Reachable(mode: Side, limit: real, orders: seq<Level>): real {
    if orders == [] then 0.0
    else (if Reaches(mode, orders[0].price, limit) then orders[0].volume else 0.0)
         + Reachable(mode, limit, orders[1..])
  }

  predicate Sorted(mode: Side, orders: seq<Level>) {
    if mode == Bid then Ascending(orders) else Descending(orders)
  }

  /** On a sorted side nothing within reach is missed. */
  lemma {:induction false} SortedReachesAll(mode: Side, limit: real, orders: seq<Level>)
    requires Sorted(mode, orders)
    ensures Available(mode, limit, orders) == Reachable(mode, limit, orders)
  {
    if orders != [] {
      SortedReachesAll(mode, limit, orders[1..]);
      if !Reaches(mode, orders[0].price, limit) {
        if |orders| > 1 {
          assert orders[1..][0] == orders[1];
        }
      }
    }
  }

  // ---- many prices ----

  function Outward(mode: Side): (real, real) -> bool { (p: real, q: real) => Reaches(mode, p, q) }

  /** Rising for a bid, falling for an ask. */
  function SortPrices(mode: Side, prices: seq<real>): (s: seq<real>)
    ensures |s| == |prices|
  {
    Sorting.Sort(Outward(mode), prices)
  }

  predicate InOrder(mode: Side, s: seq<real>) { forall i, j :: 0 <= i < j < |s| ==> Reaches(mode, s[i], s[j]) }

  lemma SortSorts(mode: Side, prices: seq<real>)
    ensures InOrder(mode, SortPrices(mode, prices))
    ensures forall p :: p in SortPrices(mode, prices) <==> p in prices
  {
    Sorting.SortSorts(Outward(mode), prices);
    Sorting.SortHas(Outward(mode), prices);
  }

  /** The level at each price. */
  function Levels(mode: Side, prices: seq<real>, orders: seq<Level>): map<real, real> {
    map p | p in prices :: Available(mode, p, orders)
  }

  function VolumesAt(mode: Side, prices: seq<real>, book: Orderbook): Result<map<real, real>> {
    if book.On(mode.Opposite()) == [] then NoOrders
    else if prices == [] then IndexError
    else Ok(Levels(mode, prices, book.On(mode.Opposite())))
  }

  /** What is available at a limit is what was taken on the way to an easier one, and the rest. */
  predicate TakenSoFar(mode: Side, limit: real, orders: seq<Level>, i: nat, volume: real)
    requires i <= |orders|
  {
    Available(mode, limit, orders) == volume + Available(mode, limit, orders[i..])
  }

  /** One pass over the side and the sorted prices together; the side need not be sorted. */
  method VolumeAvailableAtPrices(mode: Side, prices: seq<real>, book: Orderbook) returns (r: Result<map<real, real>>)
    ensures r == VolumesAt(mode, prices, book)
  {
    hide Available;
    hide TakenSoFar;
    assert map[] == Levels(mode, [], book.On(mode.Opposite()));
    hide Levels;
    hide SortPrices;
    var orders := book.On(mode.Opposite());
    if orders == [] { return NoOrders; }
    assert forall p :: TakenSoFar(mode, p, orders, 0, 0.0) by { StartTaking(mode, orders); }
    var volume := 0.0;
    var levels: map<real, real> := map[];
    var i, j := 0, 0;
    var sorted := SortPrices(mode, prices);
    SortSorts(mode, prices);
    // The first comparison reads past the end of an empty price list.
    if sorted == [] { return IndexError; }
    assert sorted[..0] == [];
    while true
      invariant i < |orders| && j < |sorted|
      invariant forall k :: j <= k < |sorted| ==> TakenSoFar(mode, sorted[k], orders, i, volume)
      invariant levels == Levels(mode, sorted[..j], orders)
      decreases |orders| - i + |sorted| - j
    {
      if Reaches(mode, orders[i].price, sorted[j]) {
        forall k | j <= k < |sorted| ensures TakenSoFar(mode, sorted[k], orders, i + 1, volume + orders[i].volume) {
          assert Reaches(mode, sorted[j], sorted[k]) || k == j;
          TakeOrder(mode, sorted[k], orders, i, volume);
        }
        volume := volume + orders[i].volume;
        i := i + 1;
      } else {
        assert TakenSoFar(mode, sorted[j], orders, i, volume);
        OutOfReach(mode, sorted[j], orders, i, volume);
        LevelAdded(mode, sorted, j, orders);
        levels := levels[sorted[j] := volume];
        j := j + 1;
      }
      if i == |orders| || j == |sorted| { break; }
    }
    while j < |sorted|
      invariant j <= |sorted| && i <= |orders| && (j < |sorted| ==> i == |orders|)
      invariant forall k :: j <= k < |sorted| ==> TakenSoFar(mode, sorted[k], orders, i, volume)
      invariant levels == Levels(mode, sorted[..j], orders)
    {
      assert TakenSoFar(mode, sorted[j], orders, i, volume);
      OutOfReach(mode, sorted[j], orders, i, volume);
      LevelAdded(mode, sorted, j, orders);
      levels := levels[sorted[j] := volume];
      j := j + 1;
    }
    assert sorted[..j] == sorted;
    SortedLevels(mode, prices, orders);
    r := Ok(levels);
  }

  lemma StartTaking(mode: Side, orders: seq<Level>)
    ensures forall p :: TakenSoFar(mode, p, orders, 0, 0.0)
  {
    assert orders[0..] == orders;
  }

  lemma TakeOrder(mode: Side, limit: real, orders: seq<Level>, i: nat, volume: real)
    requires i < |orders| && Reaches(mode, orders[i].price, limit) && TakenSoFar(mode, limit, orders, i, volume)
    ensures TakenSoFar(mode, limit, orders, i + 1, volume + orders[i].volume)
  {
    assert orders[i..][1..] == orders[i + 1..];
  }

  lemma OutOfReach(mode: Side, limit: real, orders: seq<Level>, i: nat, volume: real)
    requires i <= |orders| && TakenSoFar(mode, limit, orders, i, volume)
    requires i == |orders| || !Reaches(mode, orders[i].price, limit)
    ensures Available(mode, limit, orders) == volume
  {
  }

  lemma SortedLevels(mode: Side, prices: seq<real>, orders: seq<Level>)
    ensures Levels(mode, SortPrices(mode, prices), orders) == Levels(mode, prices, orders)
  {
    SortSorts(mode, prices);
  }

  lemma LevelAdded(mode: Side, prices: seq<real>, j: nat, orders: seq<Level>)
    requires j < |prices|
    ensures Levels(mode, prices[..j + 1], orders)
         == Levels(mode, prices[..j], orders)[prices[j] := Available(mode, prices[j], orders)]
  {
    assert prices[..j + 1] == prices[..j] + [prices[j]];
  }

  // ---- strength ----

  /** The limit a slippage away from the top of a side; bids are sold into, asks bought from. */
  function Limit(side: Side, top: real, slippage: real): real { if side == Bid then top - slippage else top + slippage }

  function StrengthAtSlippage(book: Orderbook, side: Side, slippage: real): Result<real> {
    var orders := book.On(side);
    if orders == [] then IndexError
    else VolumeAt(side.Opposite(), Limit(side, orders[0].price, slippage), book)
  }

  function Limits(side: Side, top: real, slippages: seq<real>): (limits: seq<real>)
    ensures |limits| == |slippages| && forall i :: 0 <= i < |limits| ==> limits[i] == Limit(side, top, slippages[i])
  {
    seq(|slippages|, i requires 0 <= i < |slippages| => Limit(side, top, slippages[i]))
  }

  /** Which slippage a limit stands for. */
  function SlippageLookup(side: Side, top: real, slippages: seq<real>): map<real, real> {
    map s | s in slippages :: Limit(side, top, s) := s
  }

  /** The levels keyed by slippage instead of limit. */
  function Renamed(levels: map<real, real>, lookup: map<real, real>): map<real, real>
    requires forall p, q :: p in lookup && q in lookup && lookup[p] == lookup[q] ==> p == q
  {
    map p | p in levels && p in lookup :: lookup[p] := levels[p]
  }

  function StrengthAtSlippages(book: Orderbook, side: Side, slippages: seq<real>): Result<map<real, real>> {
    var orders := book.On(side);
    if orders == [] then IndexError else
      var top := orders[0].price;
      var lookup := SlippageLookup(side, top, slippages);
      match VolumesAt(side.Opposite(), Limits(side, top, slippages), book)
      case Ok(levels) => Ok(Renamed(levels, lookup))
      case NoOrders => NoOrders
      case IndexError => IndexError
  }

  /** Many slippages at once give, for each, the strength that one at a time gives. */
  lemma StrengthsAgree(book: Orderbook, side: Side, slippages: seq<real>, s: real)
    requires s in slippages
    ensures StrengthAtSlippages(book, side, slippages).Ok? <==> StrengthAtSlippage(book, side, s).Ok?
    ensures StrengthAtSlippages(book, side, slippages).Ok? ==>
      var all := StrengthAtSlippages(book, side, slippages).value;
      s in all && all[s] == StrengthAtSlippage(book, side, s).value
  {
    hide Available;
    var orders := book.On(side);
    if orders != [] {
      var top := orders[0].price;
      var p := Limit(side, top, s);
      var i :| 0 <= i < |slippages| && slippages[i] == s;
      assert Limits(side, top, slippages)[i] == p;
      var lookup := SlippageLookup(side, top, slippages);
      assert p in lookup && lookup[p] == s;
      var levels := Levels(side.Opposite(), Limits(side, top, slippages), orders);
      assert p in levels && lookup[p] in Renamed(levels, lookup);
    }
  }

  /** Exactly the slippages asked for are answered. */
  lemma StrengthKeys(book: Orderbook, side: Side, slippages: seq<real>, s: real)
    requires StrengthAtSlippages(book, side, slippages).Ok?
    ensures s in StrengthAtSlippages(book, side, slippages).value <==> s in slippages
  {
    if s in slippages {
      StrengthsAgree(book, side, slippages, s);
    } else {
      var lookup := SlippageLookup(side, book.On(side)[0].price, slippages);
      assert forall p :: p in lookup ==> lookup[p] in slippages;
    }
  }

  /** The volume of the orders of a side whose prices are at most so far from a price. */
  function VolumeNear(orders: seq<Level>, price: real, distance: real): real {
    if orders == [] then 0.0
    else (if Abs(orders[0].price - price) <= distance then orders[0].volume else 0.0)
         + VolumeNear(orders[1..], price, distance)
  }

  /** On a sorted side the strength at a slippage is all the volume at most so far from the top of that side. */
  lemma StrengthIs(book: Orderbook, side: Side, slippage: real)
    requires book.On(side) != [] && Sorted(side.Opposite(), book.On(side)) && slippage >= 0.0
    ensures StrengthAtSlippage(book, side, slippage)
         == Ok(VolumeNear(book.On(side), book.On(side)[0].price, slippage))
  {
    var orders := book.On(side);
    SortedReachesAll(side.Opposite(), Limit(side, orders[0].price, slippage), orders);
    forall i | 0 <= i < |orders|
      ensures if side == Bid then orders[i].price <= orders[0].price else orders[i].price >= orders[0].price {}
    ReachableIsNear(side, orders, orders[0].price, slippage);
  }

  lemma {:induction false} ReachableIsNear(side: Side, orders: seq<Level>, top: real, slippage: real)
    requires slippage >= 0.0
    requires forall i :: 0 <= i < |orders| ==> if side == Bid then orders[i].price <= top else orders[i].price >= top
    ensures Reachable(side.Opposite(), Limit(side, top, slippage), orders) == VolumeNear(orders, top, slippage)
  {
    if orders != [] { ReachableIsNear(side, orders[1..], top, slippage); }
  }

  /** A wider slippage never finds less. */
  lemma StrengthGrows(book: Orderbook, side: Side, s: real, t: real)
    requires s <= t && NonNegative(book.On(side)) && book.On(side) != []
    ensures StrengthAtSlippage(book, side, s).value <= StrengthAtSlippage(book, side, t).value
  {
    var orders := book.On(side);
    var top := orders[0].price;
    AvailableGrows(side.Opposite(), Limit(side, top, s), Limit(side, top, t), orders);
  }

  lemma {:induction false} AvailableGrows(mode: Side, limit: real, easier: real, orders: seq<Level>)
    requires Reaches(mode, limit, easier) && NonNegative(orders)
    ensures 0.0 <= Available(mode, limit, orders) <= Available(mode, easier, orders)
    decreases |orders|
  {
    if orders != [] {
      assert orders[0].volume >= 0.0;
      AvailableGrows(mode, limit, easier, orders[1..]);
      AvailableGrows(mode, easier, easier, orders[1..]);
    }
  }
}
