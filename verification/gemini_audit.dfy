/** Grouping a page of trades into orders to audit (gryphon/lib/exchange/gemini_btc_usd.py:361-406). */
module GeminiAudit {
  import opened Wrappers
  import Sorting

  datatype Trade = Trade(orderId: int, timestamp: int, amount: real)

  // ---- the page, newest order first ----

  /** t may stand before u in (order id, timestamp) order, reversed. */
  predicate Before(t: Trade, u: Trade) {
    t.orderId > u.orderId || (t.orderId == u.orderId && t.timestamp >= u.timestamp)
  }

  const NEWEST_FIRST: (Trade, Trade) -> bool := (t: Trade, u: Trade) => Before(t, u)

  function SortPage(page: seq<Trade>): (s: seq<Trade>)
    ensures |s| == |page|
  {
    Sorting.Sort(NEWEST_FIRST, page)
  }

  predicate NewestFirst(s: seq<Trade>) { forall i, j :: 0 <= i < j < |s| ==> s[i].orderId >= s[j].orderId }

  /** The sum of the absolute amounts of an order's trades. */
  function Filled(s: seq<Trade>, id: int): real {
    if s == [] then 0.0 else Filled(s[..|s| - 1], id) + if s[|s| - 1].orderId == id then Abs(s[|s| - 1].amount) else 0.0
  }

  predicate Traded(s: seq<Trade>, id: int) { exists t :: t in s && t.orderId == id }

  lemma {:induction false} FilledFront(s: seq<Trade>, id: int)
    requires s != []
    ensures Filled(s, id) == (if s[0].orderId == id then Abs(s[0].amount) else 0.0) + Filled(s[1..], id)
  {
    if |s| > 1 {
      FilledFront(s[..|s| - 1], id);
      assert s[1..][..|s| - 2] == s[..|s| - 1][1..];
    }
  }

  lemma {:induction false} InsertFills(s: seq<Trade>, t: Trade, id: int)
    ensures Filled(Sorting.Insert(NEWEST_FIRST, s, t), id) == Filled(s, id) + if t.orderId == id then Abs(t.amount) else 0.0
  {
    if s != [] && !Before(s[|s| - 1], t) {
      var front, last := s[..|s| - 1], s[|s| - 1];
      InsertFills(front, t, id);
      var r := Sorting.Insert(NEWEST_FIRST, front, t);
      assert (r + [last])[..|r|] == r;
    } else {
      assert (s + [t])[..|s|] == s;
    }
  }

  lemma {:induction false} SortFills(page: seq<Trade>, id: int)
    ensures Filled(SortPage(page), id) == Filled(page, id)
  {
    if page != [] {
      var front, last := page[..|page| - 1], page[|page| - 1];
      SortFills(front, id);
      InsertFills(SortPage(front), last, id);
    }
  }

  /** Sorting puts the orders together, newest first, and loses nothing of any. */
  lemma SortGroups(page: seq<Trade>, id: int)
    ensures NewestFirst(SortPage(page))
    ensures Filled(SortPage(page), id) == Filled(page, id)
  {
    Sorting.SortSorts(NEWEST_FIRST, page);
    SortFills(page, id);
  }

  lemma SortTrades(page: seq<Trade>, id: int)
    ensures Traded(SortPage(page), id) <==> Traded(page, id)
  {
    Sorting.SortHas(NEWEST_FIRST, page);
  }

  /** The sum of the signed amounts of an order's trades. */
  function Net(s: seq<Trade>, id: int): real {
    if s == [] then 0.0 else Net(s[..|s| - 1], id) + if s[|s| - 1].orderId == id then s[|s| - 1].amount else 0.0
  }

  /** An order whose trades are on one side is filled by the size of their sum. */
  lemma {:induction false} FilledIsNet(s: seq<Trade>, id: int, sells: bool)
    requires forall t :: t in s && t.orderId == id ==> if sells then t.amount <= 0.0 else t.amount >= 0.0
    ensures Filled(s, id) == Abs(Net(s, id)) && if sells then Net(s, id) <= 0.0 else Net(s, id) >= 0.0
  {
    if s != [] {
      assert s == s[..|s| - 1] + [s[|s| - 1]];
      FilledIsNet(s[..|s| - 1], id, sells);
    }
  }

  // ---- distinct orders ----

  /** The order ids of a sorted page, one for each block of trades. */
  function OrderIds(s: seq<Trade>): seq<int> {
    if s == [] then []
    else if |s| > 1 && s[0].orderId == s[1].orderId then OrderIds(s[1..])
    else [s[0].orderId] + OrderIds(s[1..])
  }

  predicate Descending(ids: seq<int>) { forall i, j :: 0 <= i < j < |ids| ==> ids[i] > ids[j] }

  lemma {:induction false} OrderIdsDescend(s: seq<Trade>)
    requires NewestFirst(s)
    ensures Descending(OrderIds(s))
    ensures s != [] ==> OrderIds(s) != [] && OrderIds(s)[0] == s[0].orderId
  {
    if |s| > 1 {
      OrderIdsDescend(s[1..]);
      assert OrderIds(s[1..])[0] == s[1].orderId <= s[0].orderId;
    } else if s != [] {
      assert s[1..] == [];
    }
  }

  lemma TradedFirst(s: seq<Trade>, id: int)
    requires s != []
    ensures Traded(s, id) <==> s[0].orderId == id || Traded(s[1..], id)
  {
    assert s == [s[0]] + s[1..];
    assert s[0] in s;
    assert forall t :: t in s[1..] ==> t in s;
  }

  lemma {:induction false} OrderIdsHave(s: seq<Trade>, id: int)
    ensures id in OrderIds(s) <==> Traded(s, id)
  {
    if s != [] {
      OrderIdsHave(s[1..], id);
      TradedFirst(s, id);
      hide Traded;
      if |s| > 1 { TradedFirst(s[1..], id); }
    }
  }

  /** They are the distinct ids, descending. */
  lemma OrderIdsAre(s: seq<Trade>, id: int)
    requires NewestFirst(s)
    ensures Descending(OrderIds(s)) && (id in OrderIds(s) <==> Traded(s, id))
  {
    OrderIdsDescend(s);
    OrderIdsHave(s, id);
  }

  // ---- skipping recent orders ----

  /** Popping trades until so many order boundaries have passed; running off the end leaves nothing. */
  function Skipped(s: seq<Trade>, orders: int): seq<Trade>
    decreases |s|
  {
    if orders <= 0 then s
    else if |s| <= 1 then []
    else Skipped(s[1..], if s[0].orderId != s[1].orderId then orders - 1 else orders)
  }

  function Least(n: int, k: int): nat { if k < 0 then 0 else if n < 0 then 0 else if n < k then n else k }

  /** Whole orders are skipped: the ids left are the others. */
  lemma {:induction false} SkipsOrders(s: seq<Trade>, orders: int)
    ensures OrderIds(Skipped(s, orders)) == OrderIds(s)[Least(|OrderIds(s)|, orders)..]
    decreases |s|
  {
    if orders > 0 && |s| > 1 {
      SkipsOrders(s[1..], if s[0].orderId != s[1].orderId then orders - 1 else orders);
    } else if orders > 0 && |s| == 1 {
      assert s[1..] == [];
    }
  }

  lemma {:induction false} SkippedIsOlder(s: seq<Trade>, orders: int)
    requires NewestFirst(s)
    ensures NewestFirst(Skipped(s, orders))
    ensures orders > 0 && s != [] ==> forall t :: t in Skipped(s, orders) ==> t.orderId < s[0].orderId
    ensures forall t :: t in Skipped(s, orders) ==> t in s
    decreases |s|
  {
    if orders > 0 && |s| > 1 {
      SkippedIsOlder(s[1..], if s[0].orderId != s[1].orderId then orders - 1 else orders);
      assert forall t :: t in s[1..] ==> t in s && t.orderId <= s[1].orderId;
    }
  }

  /** None of the trades of an order that is left is missing. */
  lemma {:induction false} SkipsWholeOrders(s: seq<Trade>, orders: int, id: int)
    requires NewestFirst(s) && Traded(Skipped(s, orders), id)
    ensures Filled(Skipped(s, orders), id) == Filled(s, id)
    decreases |s|
  {
    if orders > 0 && |s| > 1 {
      SkippedIsOlder(s, orders);
      SkipsWholeOrders(s[1..], if s[0].orderId != s[1].orderId then orders - 1 else orders, id);
      FilledFront(s, id);
    }
  }

  // ---- grouping ----

  /** An entry of the ordered dictionary: an order and its filled volume. */
  datatype Order = Order(id: int, filled: real)

  function AmountsOf(ids: seq<int>, s: seq<Trade>): (orders: seq<Order>)
    ensures |orders| == |ids| && forall i :: 0 <= i < |ids| ==> orders[i] == Order(ids[i], Filled(s, ids[i]))
  {
    seq(|ids|, i requires 0 <= i < |ids| => Order(ids[i], Filled(s, ids[i])))
  }

  /** Adds to an order's entry, or appends one. */
  function AddTo(orders: seq<Order>, id: int, amount: real): seq<Order> {
    if orders == [] then [Order(id, amount)]
    else if orders[0].id == id then [Order(id, orders[0].filled + amount)] + orders[1..]
    else [orders[0]] + AddTo(orders[1..], id, amount)
  }

  lemma {:induction false} AddToLast(orders: seq<Order>, id: int, amount: real)
    requires forall i :: 0 <= i < |orders| - 1 ==> orders[i].id != id
    ensures var n := |orders| - 1;
            AddTo(orders, id, amount)
            == if orders != [] && orders[n].id == id then orders[..n] + [Order(id, orders[n].filled + amount)]
               else orders + [Order(id, amount)]
  {
    if orders != [] && orders[0].id != id { AddToLast(orders[1..], id, amount); }
  }

  lemma {:induction false} OrderIdsGrow(s: seq<Trade>, t: Trade)
    ensures OrderIds(s + [t])
         == if s != [] && s[|s| - 1].orderId == t.orderId then OrderIds(s) else OrderIds(s) + [t.orderId]
  {
    if s == [] {
      assert (s + [t])[1..] == [];
    } else {
      OrderIdsGrow(s[1..], t);
      assert (s + [t])[1..] == s[1..] + [t];
    }
  }

  lemma {:induction false} LastOrderId(s: seq<Trade>)
    requires s != []
    ensures OrderIds(s) != [] && OrderIds(s)[|OrderIds(s)| - 1] == s[|s| - 1].orderId
  {
    if |s| > 1 {
      LastOrderId(s[1..]);
    } else {
      assert s[1..] == [];
    }
  }

  lemma {:induction false} NothingFilled(s: seq<Trade>, id: int)
    requires !Traded(s, id)
    ensures Filled(s, id) == 0.0
  {
    if s != [] {
      assert s[|s| - 1] in s;
      assert forall t :: t in s[..|s| - 1] ==> t in s;
      NothingFilled(s[..|s| - 1], id);
    }
  }

  lemma FilledMore(s: seq<Trade>, t: Trade)
    ensures forall id :: Filled(s + [t], id) == Filled(s, id) + if t.orderId == id then Abs(t.amount) else 0.0
  {
    assert (s + [t])[..|s|] == s;
  }

  lemma SameOrder(ids: seq<int>, s: seq<Trade>, t: Trade)
    requires Descending(ids) && ids != [] && ids[|ids| - 1] == t.orderId
    ensures AmountsOf(ids, s + [t]) == AddTo(AmountsOf(ids, s), t.orderId, Abs(t.amount))
  {
    hide Filled;
    hide Abs;
    FilledMore(s, t);
    AddToLast(AmountsOf(ids, s), t.orderId, Abs(t.amount));
  }

  lemma NewOrder(ids: seq<int>, s: seq<Trade>, t: Trade)
    requires t.orderId !in ids && !Traded(s, t.orderId)
    ensures AmountsOf(ids + [t.orderId], s + [t]) == AddTo(AmountsOf(ids, s), t.orderId, Abs(t.amount))
  {
    hide Filled;
    hide Abs;
    FilledMore(s, t);
    NothingFilled(s, t.orderId);
    AddToLast(AmountsOf(ids, s), t.orderId, Abs(t.amount));
  }

  lemma GroupingStep(s: seq<Trade>, t: Trade)
    requires NewestFirst(s + [t])
    ensures AmountsOf(OrderIds(s + [t]), s + [t]) == AddTo(AmountsOf(OrderIds(s), s), t.orderId, Abs(t.amount))
  {
    hide AmountsOf;
    hide AddTo;
    assert NewestFirst(s) by { assert s == (s + [t])[..|s|]; }
    OrderIdsGrow(s, t);
    OrderIdsAre(s, t.orderId);
    if s == [] {
      NewOrder([], s, t);
    } else {
      LastOrderId(s);
      assert (s + [t])[|s| - 1].orderId >= (s + [t])[|s|].orderId;
      if s[|s| - 1].orderId == t.orderId { SameOrder(OrderIds(s), s, t); } else { NewOrder(OrderIds(s), s, t); }
    }
  }

  /** The ids that are audited: without the newest so many and without the oldest two. */
  function Kept(ids: seq<int>, skipRecent: int): seq<int> {
    var k := Least(|ids|, skipRecent);
    if |ids| - k <= 2 then [] else ids[k..|ids| - 2]
  }

  /** Whole orders only: each audited order comes with everything the page holds of it. */
  method GetOrderAuditData(page: seq<Trade>, skipRecent: int) returns (orders: seq<Order>)
    ensures orders == AmountsOf(Kept(OrderIds(SortPage(page)), skipRecent), page)
  {
    var trades := SortPage(page);
    ghost var sorted := trades;
    var ordersToSkip := skipRecent;
    while ordersToSkip > 0
      invariant Skipped(trades, ordersToSkip) == Skipped(sorted, skipRecent)
      decreases |trades|, ordersToSkip
    {
      // Popping from an empty list, or looking past its end, is an index error.
      if |trades| <= 1 {
        trades := [];
        ordersToSkip := 0;
      } else {
        var trade := trades[0];
        trades := trades[1..];
        if trade.orderId != trades[0].orderId { ordersToSkip := ordersToSkip - 1; }
      }
    }
    SkippedIsSorted(page, skipRecent);
    orders := [];
    for i := 0 to |trades|
      invariant orders == AmountsOf(OrderIds(trades[..i]), trades[..i])
    {
      assert trades[..i + 1] == trades[..i] + [trades[i]];
      GroupingStep(trades[..i], trades[i]);
      orders := AddTo(orders, trades[i].orderId, Abs(trades[i].amount));
    }
    assert trades[..|trades|] == trades;
    // Popping from an empty dictionary is a key error, which ends the popping.
    if orders != [] {
      orders := orders[..|orders| - 1];
      if orders != [] { orders := orders[..|orders| - 1]; }
    }
    KeptAmounts(page, skipRecent);
  }

  lemma SkippedIsSorted(page: seq<Trade>, skipRecent: int)
    ensures NewestFirst(Skipped(SortPage(page), skipRecent))
  {
    SortGroups(page, 0);
    SkippedIsOlder(SortPage(page), skipRecent);
  }

  lemma KeptAmounts(page: seq<Trade>, skipRecent: int)
    ensures var left := Skipped(SortPage(page), skipRecent);
            var ids := OrderIds(left);
            AmountsOf(Kept(OrderIds(SortPage(page)), skipRecent), page)
            == if |ids| <= 2 then [] else AmountsOf(ids, left)[..|ids| - 2]
  {
    hide OrderIds;
    hide Filled;
    hide Skipped;
    hide SortPage;
    hide Traded;
    hide NewestFirst;
    var sorted := SortPage(page);
    var left := Skipped(sorted, skipRecent);
    SkippedIsSorted(page, skipRecent);
    forall id | id in OrderIds(left) ensures Filled(left, id) == Filled(page, id) {
      SortGroups(page, id);
      OrderIdsAre(left, id);
      SkipsWholeOrders(sorted, skipRecent, id);
    }
    SkipsOrders(sorted, skipRecent);
  }

  /** What is audited: the page's distinct ids, descending, that neither the newest so many nor the oldest two
      are. */
  lemma AuditedOrders(page: seq<Trade>, skipRecent: int, id: int)
    ensures var ids := OrderIds(SortPage(page));
            && Descending(ids) && (id in ids <==> Traded(page, id))
            && (id in Kept(ids, skipRecent)
                <==> exists i :: 0 <= i < |ids| && ids[i] == id && skipRecent <= i && i < |ids| - 2)
  {
    SortGroups(page, id);
    SortTrades(page, id);
    OrderIdsAre(SortPage(page), id);
    KeptAre(OrderIds(SortPage(page)), skipRecent, id);
  }

  lemma KeptAre(ids: seq<int>, skipRecent: int, id: int)
    ensures id in Kept(ids, skipRecent)
            <==> exists i :: 0 <= i < |ids| && ids[i] == id && skipRecent <= i && i < |ids| - 2
  {
    var kept := Kept(ids, skipRecent);
    var k := Least(|ids|, skipRecent);
    forall i | 0 <= i < |ids| && skipRecent <= i && i < |ids| - 2 ensures ids[i] in kept {
      assert kept[i - k] == ids[i];
    }
  }
}
