/** The ledger tables and the balances queried from them (gryphon/lib/assets.py:150-408). */
module LedgerRows {
  import opened Wrappers

  datatype Money = Money(amount: real, currency: string) {
    function In(c: string): real { if currency == c then amount else 0.0 }
  }

  // ---- multi-currency positions ----

  /** A position maps currencies to amounts; a missing currency counts as zero. */
  type Position = map<string, real>

  function Held(p: Position, c: string): real { if c in p then p[c] else 0.0 }

  function Plus(p: Position, q: Position): Position {
    map c | c in p.Keys + q.Keys :: Held(p, c) + Held(q, c)
  }

  function Negate(p: Position): Position { map c | c in p.Keys :: -p[c] }

  function Minus(p: Position, q: Position): Position { Plus(p, Negate(q)) }

  // ---- rows ----

  datatype Kind = Deposit | Withdrawal
  datatype Status = InTransit | Completed | Canceled

  datatype TradeRow = TradeRow(side: Side, price: Money, volume: Money, fee: Money, account: string, time: int)
  {
    /** What the trade does to a balance, currency by currency (calc_position). */
    function Effect(c: string): real {
      (if side == Bid then volume.In(c) - price.In(c) else price.In(c) - volume.In(c)) - fee.In(c)
    }
  }

  datatype TxRow = TxRow(kind: Kind, status: Status, amount: Money, fee: Option<Money>,
                         account: string, created: int, completed: Option<int>)
  {
    function FeeIn(c: string): real { if fee.Some? then fee.value.In(c) else 0.0 }

    /** What the transaction does to a balance once it is completed. */
    function Effect(c: string): real {
      (if kind == Deposit then amount.In(c) else -amount.In(c)) - FeeIn(c)
    }

    /** When the transaction counts: its completion if recorded, else its creation. */
    function Time(): int { if completed.Some? then completed.value else created }
  }

  /** The parameters of ledger_balance; no accounts means all of them. */
  datatype Query = Query(start: Option<int>, end: Option<int>, pending: bool, accounts: set<string>) {
    predicate InWindow(t: int) {
      (start.Some? ==> start.value < t) && (end.Some? ==> t <= end.value)
    }

    predicate Selects(account: string) { accounts == {} || account in accounts }

    predicate TakesTrade(t: TradeRow) { InWindow(t.time) && Selects(t.account) }

    predicate TakesTx(x: TxRow) {
      && (x.status == Completed || (pending && x.status == InTransit))
      && InWindow(if pending then x.created else x.Time())
      && Selects(x.account)
    }
  }

  // ---- grouped queries ----

  /** Sums by currency, as the database groups them. */
  function GroupSum(ms: seq<Money>): Position {
    if ms == [] then map[] else
      var rest := GroupSum(ms[..|ms| - 1]);
      var m := ms[|ms| - 1];
      rest[m.currency := Held(rest, m.currency) + m.amount]
  }

  /** query_result_to_position: currencies whose sum is zero are left out. */
  function NonZero(p: Position): Position { map c | c in p && p[c] != 0.0 :: p[c] }

  function Picked<T>(rows: seq<T>, p: T -> bool, field: T -> Money): seq<Money> {
    if rows == [] then [] else
      Picked(rows[..|rows| - 1], p, field) + if p(rows[|rows| - 1]) then [field(rows[|rows| - 1])] else []
  }

  function QuerySum<T>(rows: seq<T>, p: T -> bool, field: T -> Money): Position {
    NonZero(GroupSum(Picked(rows, p, field)))
  }

  // The eight selections and the fields they sum.
  function Trades(q: Query): TradeRow -> bool { (t: TradeRow) => q.TakesTrade(t) }
  function Bids(q: Query): TradeRow -> bool { (t: TradeRow) => q.TakesTrade(t) && t.side == Bid }
  function Asks(q: Query): TradeRow -> bool { (t: TradeRow) => q.TakesTrade(t) && t.side == Ask }
  function Deposits(q: Query): TxRow -> bool { (x: TxRow) => q.TakesTx(x) && x.kind == Deposit }
  function Withdrawals(q: Query): TxRow -> bool { (x: TxRow) => q.TakesTx(x) && x.kind == Withdrawal }
  function Charged(q: Query): TxRow -> bool { (x: TxRow) => q.TakesTx(x) && x.fee.Some? }

  const VOLUME_OF: TradeRow -> Money := (t: TradeRow) => t.volume
  const PRICE_OF: TradeRow -> Money := (t: TradeRow) => t.price
  const TRADE_FEE_OF: TradeRow -> Money := (t: TradeRow) => t.fee
  const AMOUNT_OF: TxRow -> Money := (x: TxRow) => x.amount
  const FEE_OF: TxRow -> Money := (x: TxRow) => if x.fee.Some? then x.fee.value else Money(0.0, "USD")

  /** ledger_balance: what eight grouped queries add up to. */
  function Balance(trades: seq<TradeRow>, txs: seq<TxRow>, q: Query): Position {
    var positive := Plus(Plus(QuerySum(trades, Bids(q), VOLUME_OF), QuerySum(trades, Asks(q), PRICE_OF)),
                         QuerySum(txs, Deposits(q), AMOUNT_OF));
    var negative := Plus(Plus(Plus(Plus(QuerySum(trades, Bids(q), PRICE_OF),
                                        QuerySum(trades, Asks(q), VOLUME_OF)),
                                   QuerySum(trades, Trades(q), TRADE_FEE_OF)),
                              QuerySum(txs, Withdrawals(q), AMOUNT_OF)),
                         QuerySum(txs, Charged(q), FEE_OF));
    Minus(positive, negative)
  }

  datatype Result<+T> = Ok(value: T) | ValueError

  // The start of 2015, in seconds.
  const EARLIEST_CORRECT_LEDGER_DATE := 1420070400

  predicate TooEarly(t: Option<int>) { t.Some? && t.value < EARLIEST_CORRECT_LEDGER_DATE }

  function LedgerBalance(trades: seq<TradeRow>, txs: seq<TxRow>, q: Query): Result<Position> {
    if TooEarly(q.start) || TooEarly(q.end) then ValueError else Ok(Balance(trades, txs, q))
  }

  /** A sum over rows. */
  function Sum<T>(rows: seq<T>, w: T -> real): real {
    if rows == [] then 0.0 else Sum(rows[..|rows| - 1], w) + w(rows[|rows| - 1])
  }

  function TradePosting(q: Query, c: string): TradeRow -> real {
    (t: TradeRow) => if q.TakesTrade(t) then t.Effect(c) else 0.0
  }

  function TxPosting(q: Query, c: string): TxRow -> real {
    (x: TxRow) => if q.TakesTx(x) then x.Effect(c) else 0.0
  }

  function Picking<T>(p: T -> bool, field: T -> Money, c: string): T -> real {
    r => if p(r) then field(r).In(c) else 0.0
  }

  /** A grouped query holds, for each currency, the sum of the picked amounts in it. */
  lemma {:induction false} QuerySumIs<T>(rows: seq<T>, p: T -> bool, field: T -> Money, c: string)
    ensures Held(GroupSum(Picked(rows, p, field)), c) == Sum(rows, Picking(p, field, c))
    ensures Held(QuerySum(rows, p, field), c) == Sum(rows, Picking(p, field, c))
  {
    if rows != [] {
      var front, last := rows[..|rows| - 1], rows[|rows| - 1];
      QuerySumIs(front, p, field, c);
      var ms := Picked(front, p, field);
      if p(last) {
        assert (ms + [field(last)])[..|ms|] == ms;
      } else {
        assert ms + [] == ms;
      }
    }
  }

  lemma {:induction false} TradesCombine(rows: seq<TradeRow>, q: Query, c: string)
    ensures Sum(rows, TradePosting(q, c))
         == Sum(rows, Picking(Bids(q), VOLUME_OF, c)) + Sum(rows, Picking(Asks(q), PRICE_OF, c))
            - Sum(rows, Picking(Bids(q), PRICE_OF, c)) - Sum(rows, Picking(Asks(q), VOLUME_OF, c))
            - Sum(rows, Picking(Trades(q), TRADE_FEE_OF, c))
  {
    if rows != [] { TradesCombine(rows[..|rows| - 1], q, c); }
  }

  lemma {:induction false} TxsCombine(rows: seq<TxRow>, q: Query, c: string)
    ensures Sum(rows, TxPosting(q, c))
         == Sum(rows, Picking(Deposits(q), AMOUNT_OF, c)) - Sum(rows, Picking(Withdrawals(q), AMOUNT_OF, c))
            - Sum(rows, Picking(Charged(q), FEE_OF, c))
  {
    if rows != [] { TxsCombine(rows[..|rows| - 1], q, c); }
  }

  /** ledger_balance is one signed sum: every trade and transaction it selects, with its effect. */
  lemma BalanceIsSum(trades: seq<TradeRow>, txs: seq<TxRow>, q: Query, c: string)
    ensures Held(Balance(trades, txs, q), c) == Sum(trades, TradePosting(q, c)) + Sum(txs, TxPosting(q, c))
  {
    hide QuerySum;
    hide Held;
    QuerySumIs(trades, Bids(q), VOLUME_OF, c);
    QuerySumIs(trades, Asks(q), PRICE_OF, c);
    QuerySumIs(txs, Deposits(q), AMOUNT_OF, c);
    QuerySumIs(trades, Bids(q), PRICE_OF, c);
    QuerySumIs(trades, Asks(q), VOLUME_OF, c);
    QuerySumIs(trades, Trades(q), TRADE_FEE_OF, c);
    QuerySumIs(txs, Withdrawals(q), AMOUNT_OF, c);
    QuerySumIs(txs, Charged(q), FEE_OF, c);
    TradesCombine(trades, q, c);
    TxsCombine(txs, q, c);
    AllSums(c);
  }

  lemma AllSums(c: string)
    ensures forall p, q :: Held(Plus(p, q), c) == Held(p, c) + Held(q, c)
    ensures forall p, q :: Held(Minus(p, q), c) == Held(p, c) - Held(q, c)
  {
  }

  // ---- what one row adds ----

  /** A new row counts once, if the query takes it. */
  lemma RowAdded(trades: seq<TradeRow>, rows: seq<TxRow>, r: TxRow, q: Query, c: string)
    ensures Held(Balance(trades, rows + [r], q), c) == Held(Balance(trades, rows, q), c) + TxPosting(q, c)(r)
  {
    hide Balance;
    BalanceIsSum(trades, rows, q, c);
    BalanceIsSum(trades, rows + [r], q, c);
    assert (rows + [r])[..|rows|] == rows;
  }

  /** A replaced row counts instead of the one it replaces. */
  lemma RowReplaced(trades: seq<TradeRow>, rows: seq<TxRow>, i: nat, r: TxRow, q: Query, c: string)
    requires i < |rows|
    ensures Held(Balance(trades, rows[i := r], q), c)
         == Held(Balance(trades, rows, q), c) + TxPosting(q, c)(r) - TxPosting(q, c)(rows[i])
  {
    hide Balance;
    BalanceIsSum(trades, rows, q, c);
    BalanceIsSum(trades, rows[i := r], q, c);
    SumReplaced(rows, i, r, TxPosting(q, c));
  }

  lemma {:induction false} SumReplaced(rows: seq<TxRow>, i: nat, r: TxRow, w: TxRow -> real)
    requires i < |rows|
    ensures Sum(rows[i := r], w) == Sum(rows, w) + w(r) - w(rows[i])
  {
    var n := |rows| - 1;
    if i == n {
      assert rows[i := r][..n] == rows[..n];
    } else {
      SumReplaced(rows[..n], i, r, w);
      assert rows[i := r][..n] == rows[..n][i := r];
    }
  }

  /** A new trade counts once. */
  lemma TradeAdded(trades: seq<TradeRow>, t: TradeRow, rows: seq<TxRow>, q: Query, c: string)
    ensures Held(Balance(trades + [t], rows, q), c) == Held(Balance(trades, rows, q), c) + TradePosting(q, c)(t)
  {
    hide Balance;
    BalanceIsSum(trades, rows, q, c);
    BalanceIsSum(trades + [t], rows, q, c);
    assert (trades + [t])[..|trades|] == trades;
  }

  lemma EmptyLedger(q: Query)
    ensures forall c :: Held(Balance([], [], q), c) == 0.0
  {
    forall c ensures Held(Balance([], [], q), c) == 0.0 { BalanceIsSum([], [], q, c); }
  }

  /** start < t <= end, where they are given. */
  predicate Inside(q: Query, t: int) {
    (q.start == None || q.start.value < t) && (q.end == None || t <= q.end.value)
  }

  predicate Asked(q: Query, account: string) { q.accounts == {} || account in q.accounts }

  /** What one trade adds to a balance: a purchase its volume less its price, a sale its price less its volume, both
      less the fee, if it happened after the start and not after the end, on an account asked for. */
  lemma TradeAdds(trades: seq<TradeRow>, t: TradeRow, rows: seq<TxRow>, q: Query, c: string)
    ensures Held(Balance(trades + [t], rows, q), c) - Held(Balance(trades, rows, q), c)
         == if !Inside(q, t.time) || !Asked(q, t.account) then 0.0
            else if t.side == Bid then t.volume.In(c) - t.price.In(c) - t.fee.In(c)
            else t.price.In(c) - t.volume.In(c) - t.fee.In(c)
  {
    TradeAdded(trades, t, rows, q, c);
    hide Balance;
    hide Held;
  }

  /** What a deposit adds to a balance it counts in, and a withdrawal takes: its amount, and the fee off. */
  function Swing(r: TxRow, c: string): real {
    (if r.kind == Deposit then r.amount.In(c) else -r.amount.In(c))
    - if r.fee == None then 0.0 else r.fee.value.In(c)
  }

  /** What one transaction adds to a balance. A canceled one adds nothing. One in transit counts in pending mode only,
      from its creation. A completed one counts from its creation in pending mode, and otherwise from its completion,
      or from its creation where no completion was recorded. */
  lemma TransactionAdds(trades: seq<TradeRow>, rows: seq<TxRow>, r: TxRow, q: Query, c: string)
    ensures var added := Held(Balance(trades, rows + [r], q), c) - Held(Balance(trades, rows, q), c);
      && (r.status == Canceled || !Asked(q, r.account) ==> added == 0.0)
      && (r.status == InTransit && !q.pending ==> added == 0.0)
      && ((r.status == InTransit || r.status == Completed) && q.pending && Asked(q, r.account) ==>
            added == if Inside(q, r.created) then Swing(r, c) else 0.0)
      && (r.status == Completed && !q.pending && Asked(q, r.account) && r.completed.Some? ==>
            added == if Inside(q, r.completed.value) then Swing(r, c) else 0.0)
      && (r.status == Completed && !q.pending && Asked(q, r.account) && r.completed.None? ==>
            added == if Inside(q, r.created) then Swing(r, c) else 0.0)
  {
    RowAdded(trades, rows, r, q, c);
    hide Balance;
    hide Held;
  }

  lemma PostingCompleted(r: TxRow, now: int, q: Query, c: string)
    requires r.status == InTransit
    ensures TxPosting(q, c)(r.(status := Completed, completed := Some(now))) - TxPosting(q, c)(r)
         == if !q.pending && Inside(q, now) && Asked(q, r.account) then Swing(r, c) else 0.0
  {
  }

  /** Completing a transaction in transit changes no balance in pending mode, and no other balance unless it started
      before and did not end before; such a one it changes by what the transaction is worth. */
  lemma CompletingMoves(trades: seq<TradeRow>, rows: seq<TxRow>, i: nat, now: int, q: Query, c: string)
    requires i < |rows| && rows[i].status == InTransit
    ensures var completed := rows[i := rows[i].(status := Completed, completed := Some(now))];
      Held(Balance(trades, completed, q), c) - Held(Balance(trades, rows, q), c)
      == if !q.pending && Inside(q, now) && Asked(q, rows[i].account) then Swing(rows[i], c) else 0.0
  {
    hide Balance;
    hide Held;
    hide TxPosting;
    hide Swing;
    RowReplaced(trades, rows, i, rows[i].(status := Completed, completed := Some(now)), q, c);
    PostingCompleted(rows[i], now, q, c);
  }

  // ---- adjacent windows ----

  function Between(q: Query, start: Option<int>, end: Option<int>): Query { q.(start := start, end := end) }

  lemma {:induction false} SumAdds<T>(rows: seq<T>, a: T -> real, b: T -> real, whole: T -> real)
    requires forall i :: 0 <= i < |rows| ==> whole(rows[i]) == a(rows[i]) + b(rows[i])
    ensures Sum(rows, whole) == Sum(rows, a) + Sum(rows, b)
  {
    if rows != [] { SumAdds(rows[..|rows| - 1], a, b, whole); }
  }

  /** In both pending modes, the balance change over adjacent half-open windows is additive; without a
      start the first part is a full balance. */
  lemma WindowsAdd(trades: seq<TradeRow>, txs: seq<TxRow>, q: Query, start: Option<int>, mid: int, end: int,
                   c: string)
    requires mid <= end && (start.Some? ==> start.value <= mid)
    ensures Held(Balance(trades, txs, Between(q, start, Some(end))), c)
         == Held(Balance(trades, txs, Between(q, start, Some(mid))), c)
            + Held(Balance(trades, txs, Between(q, Some(mid), Some(end))), c)
  {
    hide Balance;
    var whole, early, late :=
      Between(q, start, Some(end)), Between(q, start, Some(mid)), Between(q, Some(mid), Some(end));
    BalanceIsSum(trades, txs, whole, c);
    BalanceIsSum(trades, txs, early, c);
    BalanceIsSum(trades, txs, late, c);
    SumAdds(trades, TradePosting(early, c), TradePosting(late, c), TradePosting(whole, c));
    SumAdds(txs, TxPosting(early, c), TxPosting(late, c), TxPosting(whole, c));
  }

  // ---- balance equality ----

  /** balance_equality: a missing key equals zero. */
  predicate BalanceEquality(a: Position, b: Position) {
    forall c :: c in a.Keys + b.Keys ==>
      if c in a && c in b then a[c] == b[c] else if c !in a then b[c] == 0.0 else a[c] == 0.0
  }

  lemma EqualityIsPointwise(a: Position, b: Position)
    ensures BalanceEquality(a, b) <==> forall c :: Held(a, c) == Held(b, c)
  {
    if BalanceEquality(a, b) {
      forall c ensures Held(a, c) == Held(b, c) { assert c in a || c in b ==> c in a.Keys + b.Keys; }
    } else {
      var c :| c in a.Keys + b.Keys
        && !(if c in a && c in b then a[c] == b[c] else if c !in a then b[c] == 0.0 else a[c] == 0.0);
      assert Held(a, c) != Held(b, c);
    }
  }
}
