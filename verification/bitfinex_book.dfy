/** The order book kept from Bitfinex's change events
    (gryphon/data_service/pollers/orderbook/websocket/bitfinex_orderbook_websocket.py:64-66, 106-145). */
module BitfinexBook {
  import opened Wrappers
  import Sorting

  /** Volume is positive for a bid, negative for an ask, zero when a price is emptied on an unknown side. */
  datatype Change = Change(price: real, numOrders: int, volume: real)

  datatype Order = Order(price: real, volume: real)

  function VolumeOf(side: Side, c: Change): real {
    if side == Bid then c.volume else -c.volume
  }

  /** Whether an event says anything about a price on a side. */
  predicate Touches(side: Side, price: real, c: Change) { c.price == price && VolumeOf(side, c) >= 0.0 }

  /** Replay: the volume of the last event that touched the price on that side. */
  function Replayed(events: seq<Change>, side: Side, price: real): real {
    if events == [] then 0.0
    else if Touches(side, price, events[|events| - 1]) then VolumeOf(side, events[|events| - 1])
    else Replayed(events[..|events| - 1], side, price)
  }

  function Held(book: map<real, real>, price: real): real { if price in book then book[price] else 0.0 }

  /** The book's side is what replaying the events gives. */
  ghost predicate Follows(book: map<real, real>, events: seq<Change>, side: Side) {
    forall p :: Held(book, p) == Replayed(events, side, p)
  }

  /** a may stand before b in a published side. */
  predicate Before(side: Side, a: real, b: real) { if side == Bid then a > b else a < b }

  predicate Sorted(side: Side, s: seq<real>) { forall i, j :: 0 <= i < j < |s| ==> Before(side, s[i], s[j]) }

  function Outward(side: Side): (real, real) -> bool { (a: real, b: real) => a == b || Before(side, a, b) }

  /** The prices of a dictionary, sorted for a side. */
  method SortedPrices(side: Side, book: map<real, real>) returns (s: seq<real>)
    ensures Sorted(side, s) && forall p :: p in s <==> p in book
  {
    s := [];
    var items := book.Items;
    while items != {}
      invariant Distinct(s) && items <= book.Items
      invariant forall p :: p in s <==> p in book && (p, book[p]) !in items
    {
      var item :| item in items;
      s := s + [item.0];
      items := items - {item};
    }
    Sorting.SortSorts(Outward(side), s);
    Sorting.SortHas(Outward(side), s);
    s := Sorting.Sort(Outward(side), s);
  }

  function Prices(orders: seq<Order>): (s: seq<real>)
    ensures |s| == |orders| && forall i :: 0 <= i < |s| ==> s[i] == orders[i].price
  {
    seq(|orders|, i requires 0 <= i < |orders| => orders[i].price)
  }

  /** A side as it is published: strictly sorted, positive volumes only, and exactly the levels of the replay. */
  ghost predicate Publishes(side: Side, orders: seq<Order>, events: seq<Change>) {
    && Sorted(side, Prices(orders))
    && (forall o :: o in orders ==> o.volume > 0.0)
    && (forall p, v :: v > 0.0 ==> (Order(p, v) in orders <==> Replayed(events, side, p) == v))
  }

  /** Read off the events: an event left this much at the price, and every later one at it was for the other side. */
  predicate BidLeft(events: seq<Change>, price: real, volume: real) {
    exists i :: 0 <= i < |events| && events[i].price == price && events[i].volume == volume
      && forall j :: i < j < |events| && events[j].price == price ==> events[j].volume < 0.0
  }

  predicate AskLeft(events: seq<Change>, price: real, volume: real) {
    exists i :: 0 <= i < |events| && events[i].price == price && events[i].volume == -volume
      && forall j :: i < j < |events| && events[j].price == price ==> events[j].volume > 0.0
  }

  lemma {:induction false} ReplayedBid(events: seq<Change>, price: real, volume: real)
    requires volume > 0.0
    ensures Replayed(events, Bid, price) == volume <==> BidLeft(events, price, volume)
  {
    if events != [] {
      var n := |events| - 1;
      ReplayedBid(events[..n], price, volume);
      var last := events[n];
      if BidLeft(events[..n], price, volume) && !(last.price == price && last.volume >= 0.0) {
        var i :| 0 <= i < n && events[..n][i].price == price && events[..n][i].volume == volume
          && forall j :: i < j < n && events[..n][j].price == price ==> events[..n][j].volume < 0.0;
        assert events[i].price == price && events[i].volume == volume;
        forall j | i < j < |events| && events[j].price == price ensures events[j].volume < 0.0 {
          if j < n { assert events[..n][j].price == price; }
        }
      }
      if BidLeft(events, price, volume) && !(last.price == price && last.volume >= 0.0) {
        var i :| 0 <= i < |events| && events[i].price == price && events[i].volume == volume
          && forall j :: i < j < |events| && events[j].price == price ==> events[j].volume < 0.0;
        assert i < n;
        assert events[..n][i].price == price && events[..n][i].volume == volume;
        assert forall j :: i < j < n && events[..n][j].price == price ==> events[j].volume < 0.0;
      }
    }
  }

  function Mirrored(events: seq<Change>): (m: seq<Change>)
    ensures |m| == |events|
    ensures forall i :: 0 <= i < |m| ==> m[i].price == events[i].price && m[i].volume == -events[i].volume
  {
    seq(|events|, i requires 0 <= i < |events| => events[i].(volume := -events[i].volume))
  }

  lemma {:induction false} ReplayedMirror(events: seq<Change>, price: real)
    ensures Replayed(Mirrored(events), Bid, price) == Replayed(events, Ask, price)
  {
    if events != [] {
      var n := |events| - 1;
      ReplayedMirror(events[..n], price);
      assert Mirrored(events)[..n] == Mirrored(events[..n]);
    }
  }

  lemma ReplayedAsk(events: seq<Change>, price: real, volume: real)
    requires volume > 0.0
    ensures Replayed(events, Ask, price) == volume <==> AskLeft(events, price, volume)
  {
    var m := Mirrored(events);
    ReplayedMirror(events, price);
    ReplayedBid(m, price, volume);
    if AskLeft(events, price, volume) {
      var i :| 0 <= i < |events| && events[i].price == price && events[i].volume == -volume
        && forall j :: i < j < |events| && events[j].price == price ==> events[j].volume > 0.0;
      assert m[i].price == price && m[i].volume == volume;
      assert forall j :: i < j < |m| && m[j].price == price ==> m[j].volume < 0.0;
    }
    if BidLeft(m, price, volume) {
      var i :| 0 <= i < |m| && m[i].price == price && m[i].volume == volume
        && forall j :: i < j < |m| && m[j].price == price ==> m[j].volume < 0.0;
      assert events[i].price == price && events[i].volume == -volume;
      forall j | i < j < |events| && events[j].price == price ensures events[j].volume > 0.0 {
        assert m[j].price == price;
      }
    }
  }

  /** After a zero at a price neither side has the price until it is set again. */
  lemma ZeroEmpties(events: seq<Change>, zero: Change, later: seq<Change>, volume: real)
    requires zero.volume == 0.0 && volume > 0.0
    requires forall k :: 0 <= k < |later| ==> later[k].price != zero.price
    ensures !BidLeft(events + [zero] + later, zero.price, volume)
    ensures !AskLeft(events + [zero] + later, zero.price, volume)
  {
    var all := events + [zero] + later;
    var k := |events|;
    assert all[k] == zero;
    forall i | k < i < |all| ensures all[i].price != zero.price { assert all[i] == later[i - k - 1]; }
  }

  class Book {
    var bids: map<real, real>
    var asks: map<real, real>
    // Every event since the socket was opened.
    ghost var events: seq<Change>

    ghost predicate Valid() reads this { Follows(bids, events, Bid) && Follows(asks, events, Ask) }

    /** Opening the socket resets everything. */
    constructor ()
      ensures Valid() && events == []
    {
      bids := map[];
      asks := map[];
      events := [];
    }

    method ApplyChange(c: Change)
      requires Valid()
      modifies this
      ensures Valid() && events == old(events) + [c]
    {
      if c.volume > 0.0 {
        bids := bids[c.price := c.volume];
      } else if c.volume < 0.0 {
        asks := asks[c.price := -c.volume];
      } else {
        bids := bids[c.price := 0.0];
        asks := asks[c.price := 0.0];
      }
      events := events + [c];
      assert events[..|events| - 1] == old(events);
    }

    method SetBaseOrderbook(base: seq<Change>)
      requires Valid()
      modifies this
      ensures Valid() && events == old(events) + base
    {
      for i := 0 to |base|
        invariant Valid() && events == old(events) + base[..i]
      {
        ApplyChange(base[i]);
      }
    }

    method GetOrderbookToPublish() returns (bidsToPublish: seq<Order>, asksToPublish: seq<Order>)
      requires Valid()
      ensures Publishes(Bid, bidsToPublish, events) && Publishes(Ask, asksToPublish, events)
      ensures forall i, j :: 0 <= i < j < |bidsToPublish| ==> bidsToPublish[i].price > bidsToPublish[j].price
      ensures forall i, j :: 0 <= i < j < |asksToPublish| ==> asksToPublish[i].price < asksToPublish[j].price
      ensures forall p, v :: Order(p, v) in bidsToPublish <==> v > 0.0 && BidLeft(events, p, v)
      ensures forall p, v :: Order(p, v) in asksToPublish <==> v > 0.0 && AskLeft(events, p, v)
    {
      hide BidLeft;
      hide AskLeft;
      forall p, v | v > 0.0 ensures Replayed(events, Bid, p) == v <==> BidLeft(events, p, v) {
        ReplayedBid(events, p, v);
      }
      forall p, v | v > 0.0 ensures Replayed(events, Ask, p) == v <==> AskLeft(events, p, v) {
        ReplayedAsk(events, p, v);
      }
      hide Replayed;
      bidsToPublish := PublishSide(Bid, bids, events);
      asksToPublish := PublishSide(Ask, asks, events);
      assert forall i :: 0 <= i < |bidsToPublish| ==> Prices(bidsToPublish)[i] == bidsToPublish[i].price;
      assert forall i :: 0 <= i < |asksToPublish| ==> Prices(asksToPublish)[i] == asksToPublish[i].price;
    }
  }

  method PublishSide(side: Side, book: map<real, real>, ghost events: seq<Change>) returns (orders: seq<Order>)
    requires Follows(book, events, side)
    ensures Publishes(side, orders, events)
  {
    var prices := SortedPrices(side, book);
    orders := [];
    for i := 0 to |prices|
      invariant Sorted(side, Prices(orders))
      invariant forall o :: o in orders ==> o.volume > 0.0 && o.price in prices[..i]
      invariant forall p, v :: v > 0.0 ==> (Order(p, v) in orders <==> p in prices[..i] && book[p] == v)
    {
      var p := prices[i];
      if book[p] > 0.0 { orders := orders + [Order(p, book[p])]; }
    }
  }

  lemma {:induction false} ReplayIsVolume(events: seq<Change>, side: Side, price: real)
    ensures Replayed(events, side, price) >= 0.0
  {
    if events != [] { ReplayIsVolume(events[..|events| - 1], side, price); }
  }

  /** The last order of a side is the deepest. */
  lemma LastIsDeepest(side: Side, a: seq<Order>, o: Order)
    requires Sorted(side, Prices(a)) && o in a
    ensures o == a[|a| - 1] || Before(side, o.price, a[|a| - 1].price)
  {
    var i :| 0 <= i < |a| && a[i] == o;
    assert Prices(a)[i] == o.price && Prices(a)[|a| - 1] == a[|a| - 1].price;
  }

  lemma {:induction false} SortedIsUnique(side: Side, a: seq<Order>, b: seq<Order>)
    requires Sorted(side, Prices(a)) && Sorted(side, Prices(b))
    requires forall o :: o in a <==> o in b
    ensures a == b
  {
    hide Sorted;
    hide Prices;
    assert b != [] ==> b[0] in a;
    if a != [] {
      var m, n := |a| - 1, |b| - 1;
      assert a[m] in b;
      LastIsDeepest(side, b, a[m]);
      LastIsDeepest(side, a, b[n]);
      LastIsApart(side, a);
      LastIsApart(side, b);
      assert a[m] == b[n];
      forall o ensures o in a[..m] <==> o in b[..n] {
        assert o in a[..m] <==> o in a && o != a[m];
        assert o in b[..n] <==> o in b && o != b[n];
      }
      SortedIsUnique(side, a[..m], b[..n]);
    }
  }

  lemma LastIsApart(side: Side, a: seq<Order>)
    requires a != [] && Sorted(side, Prices(a))
    ensures Sorted(side, Prices(a[..|a| - 1]))
    ensures forall o :: o in a[..|a| - 1] <==> o in a && o != a[|a| - 1]
  {
    var n := |a| - 1;
    forall i | 0 <= i < n ensures a[i] != a[n] { assert Before(side, Prices(a)[i], Prices(a)[n]); }
    assert a == a[..n] + [a[n]];
    assert forall i :: 0 <= i < n ==> Prices(a[..n])[i] == Prices(a)[i];
  }

  ghost predicate SameReplay(side: Side, e: seq<Change>, f: seq<Change>) {
    forall p :: Replayed(e, side, p) == Replayed(f, side, p)
  }

  /** Incremental update equals replay: books sent different events publish the same side exactly when the last
      events at each price agree. */
  lemma SamePublishedIff(side: Side, a: seq<Order>, b: seq<Order>, e: seq<Change>, f: seq<Change>)
    requires Publishes(side, a, e) && Publishes(side, b, f)
    ensures a == b <==> SameReplay(side, e, f)
  {
    if a == b {
      forall p: real ensures Replayed(e, side, p) == Replayed(f, side, p) { SameLevel(side, a, e, f, p); }
    } else if SameReplay(side, e, f) {
      forall o ensures o in a <==> o in b { assert o == Order(o.price, o.volume); }
      SortedIsUnique(side, a, b);
    }
  }

  lemma SameLevel(side: Side, a: seq<Order>, e: seq<Change>, f: seq<Change>, p: real)
    requires Publishes(side, a, e) && Publishes(side, a, f)
    ensures Replayed(e, side, p) == Replayed(f, side, p)
  {
    ReplayIsVolume(e, side, p);
    ReplayIsVolume(f, side, p);
    var v, w := Replayed(e, side, p), Replayed(f, side, p);
    if v > 0.0 { assert Order(p, v) in a; }
    if w > 0.0 { assert Order(p, w) in a; }
  }
}
