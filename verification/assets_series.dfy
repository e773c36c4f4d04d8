/** The daily series of assets (gryphon/dashboards/util/assets.py:26-67). */
module AssetsSeries {
  import opened Wrappers
  import opened LedgerRows

  const DAY := 86400

  /** Every account but the burn account; deposits count as soon as they are created. */
  function AssetsQuery(keys: set<string>, start: Option<int>, end: int): Query {
    Query(start, Some(end), true, keys - {"BURN"})
  }

  /** The balance at a time, computed from scratch. */
  function AssetsAt(trades: seq<TradeRow>, txs: seq<TxRow>, keys: set<string>, t: int): Position {
    Balance(trades, txs, AssetsQuery(keys, None, t))
  }

  /** What one transaction adds to the assets at a time: what it is worth from its creation on, completed or still in
      transit, unless it was canceled. It must be on one of the keys other than the burn account; without any such key
      every account counts. */
  lemma AssetsCount(trades: seq<TradeRow>, txs: seq<TxRow>, r: TxRow, keys: set<string>, t: int, c: string)
    ensures Held(AssetsAt(trades, txs + [r], keys, t), c) - Held(AssetsAt(trades, txs, keys, t), c)
         == if && r.status != Canceled && r.created <= t
               && (keys <= {"BURN"} || (r.account in keys && r.account != "BURN"))
            then Swing(r, c) else 0.0
  {
    hide Balance;
    hide Held;
    hide Swing;
    var q := AssetsQuery(keys, None, t);
    TransactionAdds(trades, txs, r, q, c);
    if !(keys <= {"BURN"}) {
      var k :| k in keys && k !in {"BURN"};
      assert k in keys - {"BURN"};
    } else {
      assert keys - {"BURN"} == {};
    }
    assert Asked(q, r.account) <==> keys <= {"BURN"} || (r.account in keys && r.account != "BURN");
    assert Inside(q, r.created) <==> r.created <= t;
    hide Asked;
    hide Inside;
  }

  function Day(start: int, k: nat): int { start + k * DAY }

  ghost predicate IsPoint(trades: seq<TradeRow>, txs: seq<TxRow>, keys: set<string>, t: int,
                          point: (int, Position))
  {
    point.0 == t && forall c :: Held(point.1, c) == Held(AssetsAt(trades, txs, keys, t), c)
  }

  /** One point a day from `start`, each the balance computed from scratch at that time. */
  method GetAssetsSeries(trades: seq<TradeRow>, txs: seq<TxRow>, keys: set<string>, start: int, end: int)
    returns (r: Result<seq<(int, Position)>>)
    ensures start < EARLIEST_CORRECT_LEDGER_DATE ==> r == ValueError
    ensures start >= EARLIEST_CORRECT_LEDGER_DATE ==>
      && r.Ok? && |r.value| >= 1
      && (|r.value| > 1 ==> Day(start, |r.value| - 1) <= end) && Day(start, |r.value|) > end
      && forall k :: 0 <= k < |r.value| ==> IsPoint(trades, txs, keys, start + 86400 * k, r.value[k])
  {
    hide Balance;
    hide Held;
    hide Plus;
    hide IsPoint;
    var first := LedgerBalance(trades, txs, AssetsQuery(keys, None, start));
    if first.ValueError? { return ValueError; }
    var current, balance := start, first.value;
    var series := [(current, balance)];
    StartPoint(trades, txs, keys, start);
    var last := current;
    current := current + DAY;
    while current <= end
      invariant |series| >= 1 && last == Day(start, |series| - 1) && current == last + DAY
      invariant |series| > 1 ==> last <= end
      invariant IsPoint(trades, txs, keys, last, (last, balance))
      invariant forall k :: 0 <= k < |series| ==> IsPoint(trades, txs, keys, Day(start, k), series[k])
      decreases end - current
    {
      var diff := LedgerBalance(trades, txs, AssetsQuery(keys, Some(last), current));
      if diff.ValueError? { return ValueError; }
      NextPoint(trades, txs, keys, last, current, balance, diff.value);
      balance := Plus(balance, diff.value);
      ghost var before := series;
      series := series + [(current, balance)];
      assert forall k :: 0 <= k < |before| ==> series[k] == before[k];
      last := current;
      current := current + DAY;
    }
    r := Ok(series);
  }

  lemma StartPoint(trades: seq<TradeRow>, txs: seq<TxRow>, keys: set<string>, start: int)
    ensures IsPoint(trades, txs, keys, start, (start, AssetsAt(trades, txs, keys, start)))
  {
  }

  lemma NextPoint(trades: seq<TradeRow>, txs: seq<TxRow>, keys: set<string>, last: int, current: int,
                  balance: Position, diff: Position)
    requires last <= current && IsPoint(trades, txs, keys, last, (last, balance))
    requires diff == Balance(trades, txs, AssetsQuery(keys, Some(last), current))
    ensures IsPoint(trades, txs, keys, current, (current, Plus(balance, diff)))
  {
    hide Balance;
    forall c ensures Held(Plus(balance, diff), c) == Held(AssetsAt(trades, txs, keys, current), c) {
      WindowsAdd(trades, txs, AssetsQuery(keys, None, current), None, last, current, c);
    }
  }
}
