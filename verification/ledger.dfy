/** Transactions, the balance cache they move, and the ledger they form
    (gryphon/lib/models/transaction.py:64-222, gryphon/lib/models/exchange.pyx:154-183). */
module Ledgers {
  import opened Wrappers
  import opened LedgerRows

  function Add(p: Position, m: Money): Position { p[m.currency := Held(p, m.currency) + m.amount] }

  function Subtract(p: Position, m: Money): Position { p[m.currency := Held(p, m.currency) - m.amount] }

  /** An exchange account: its balance is a cache of what the ledger says. */
  class Account {
    const name: string
    var balance: Position

    constructor (name: string)
      ensures this.name == name && balance == map[]
    {
      this.name := name;
      balance := map[];
    }

    method AddPosition(change: Position)
      modifies this`balance
      ensures forall c :: Held(balance, c) == old(Held(balance, c)) + Held(change, c)
    {
      var codes := change.Keys;
      while codes != {}
        invariant codes <= change.Keys
        invariant forall c ::
          Held(balance, c) == old(Held(balance, c)) + if c in codes then 0.0 else Held(change, c)
      {
        var c :| c in codes;
        balance := Add(balance, Money(change[c], c));
        codes := codes - {c};
      }
    }
  }

  class Transaction {
    const kind: Kind
    const amount: Money
    const fee: Option<Money>
    const exchange: Account
    const timeCreated: int
    var status: Status
    var timeCompleted: Option<int>

    /** A fee of zero is not recorded. */
    constructor (kind: Kind, amount: Money, exchange: Account, fee: Option<Money>, now: int)
      ensures this.kind == kind && this.amount == amount && this.exchange == exchange && timeCreated == now
      ensures this.fee == if fee.Some? && fee.value.amount == 0.0 then None else fee
      ensures status == InTransit && timeCompleted == None
    {
      this.kind := kind;
      this.amount := amount;
      this.fee := if fee.Some? && fee.value.amount == 0.0 then None else fee;
      this.exchange := exchange;
      timeCreated := now;
      status := InTransit;
      timeCompleted := None;
    }

    function Row(): TxRow reads this {
      TxRow(kind, status, amount, fee, exchange.name, timeCreated, timeCompleted)
    }

    /** Completing moves the cache by the transaction's effect; it raises unless in transit. */
    method Complete(now: int) returns (ok: bool)
      modifies this`status, this`timeCompleted, exchange`balance
      ensures ok <==> old(status) == InTransit
      ensures !ok ==> unchanged(this) && unchanged(exchange)
      ensures ok ==> status == Completed && timeCompleted == Some(now)
      ensures ok ==> forall c ::
        Held(exchange.balance, c) == old(Held(exchange.balance, c)) + Row().Effect(c)
    {
      if status != InTransit { return false; }
      status := Completed;
      timeCompleted := Some(now);
      if kind == Deposit {
        exchange.balance := Add(exchange.balance, amount);
      } else {
        exchange.balance := Subtract(exchange.balance, amount);
      }
      if fee.Some? { exchange.balance := Subtract(exchange.balance, fee.value); }
      ok := true;
    }

    /** Cancelling a completed transaction takes its effect back; it raises when already cancelled. */
    method Cancel() returns (ok: bool)
      modifies this`status, exchange`balance
      ensures ok <==> old(status) != Canceled
      ensures !ok ==> unchanged(this) && unchanged(exchange)
      ensures ok ==> status == Canceled
      ensures ok ==>
        forall c :: Held(exchange.balance, c)
          == old(Held(exchange.balance, c)) - if old(status) == Completed then Row().Effect(c) else 0.0
    {
      if status == InTransit {
        status := Canceled;
        ok := true;
      } else if status == Completed {
        status := Canceled;
        if kind == Deposit {
          exchange.balance := Subtract(exchange.balance, amount);
        } else {
          exchange.balance := Add(exchange.balance, amount);
        }
        if fee.Some? { exchange.balance := Add(exchange.balance, fee.value); }
        ok := true;
      } else {
        ok := false;
      }
    }

    /** The position property: the effect as a multi-currency position. */
    function PositionOf(): Position {
      var p: Position := if kind == Deposit then Add(map[], amount) else Subtract(map[], amount);
      if fee.Some? then Subtract(p, fee.value) else p
    }
  }

  /** The position property is the effect that completing has. */
  lemma PositionIsEffect(t: Transaction, c: string)
    ensures Held(t.PositionOf(), c) == t.Row().Effect(c)
  {
  }

  function TradePosition(t: TradeRow): Position {
    var p := if t.side == Bid then Add(Subtract(map[], t.price), t.volume)
             else Subtract(Add(map[], t.price), t.volume);
    Subtract(p, t.fee)
  }

  function RowsOf(ts: seq<Transaction>): (rows: seq<TxRow>)
    reads ts
    ensures |rows| == |ts| && forall i :: 0 <= i < |ts| ==> rows[i] == ts[i].Row()
  {
    if ts == [] then [] else RowsOf(ts[..|ts| - 1]) + [ts[|ts| - 1].Row()]
  }

  const SECOND_PAIR := "GEMINI_ETH_USD"

  /** all_pair_names: the names an account's ledger is read under. */
  function AllPairNames(name: string): set<string> {
    if name == "GEMINI" then {name, SECOND_PAIR} else {name}
  }

  /** Everything completed under some names, ever. */
  function Ever(names: set<string>): Query { Query(None, None, false, names) }

  function SecondPair(name: string, trades: seq<TradeRow>, rows: seq<TxRow>, c: string): real {
    if name == "GEMINI" then Held(Balance(trades, rows, Ever({SECOND_PAIR})), c) else 0.0
  }

  /** The tables of the trading database. */
  class Ledger {
    const accounts: seq<Account>
    var transactions: seq<Transaction>
    var trades: seq<TradeRow>

    ghost predicate Valid()
      reads this
    {
      && (forall i, j :: 0 <= i < j < |accounts| ==> accounts[i].name != accounts[j].name)
      && (forall i, j :: 0 <= i < j < |transactions| ==> transactions[i] != transactions[j])
      && (forall i :: 0 <= i < |transactions| ==> transactions[i].exchange in accounts)
    }

    /** Exchange.ledger_balance. */
    function LedgerBalance(a: Account): Position
      reads this, transactions
    {
      Balance(trades, RowsOf(transactions), Ever(AllPairNames(a.name)))
    }

    /** The ledger under the account's own name. */
    function OwnBalance(a: Account): Position
      reads this, transactions
    {
      Balance(trades, RowsOf(transactions), Ever({a.name}))
    }

    /** How far the cache is from the account's own ledger. */
    ghost function Gap(a: Account, c: string): real
      reads this, transactions, a
    {
      Held(a.balance, c) - Held(OwnBalance(a), c)
    }

    /** What the account's ledger counts although it moved another account's cache. */
    ghost function CountedTwice(a: Account, c: string): real
      reads this, transactions
    {
      SecondPair(a.name, trades, RowsOf(transactions), c)
    }

    /** The ledger is the account's own, and for GEMINI the second pair's on top. */
    lemma LedgerIs(a: Account, c: string)
      ensures Held(LedgerBalance(a), c) == Held(OwnBalance(a), c) + CountedTwice(a, c)
    {
      hide Balance;
      hide Held;
      var rows := RowsOf(transactions);
      if a.name == "GEMINI" {
        var own, second := Ever({a.name}), Ever({SECOND_PAIR});
        BalanceIsSum(trades, rows, Ever(AllPairNames(a.name)), c);
        BalanceIsSum(trades, rows, own, c);
        BalanceIsSum(trades, rows, second, c);
        SumOfTwo(trades, TradePosting(Ever(AllPairNames(a.name)), c), TradePosting(own, c), TradePosting(second, c));
        SumOfTwo(rows, TxPosting(Ever(AllPairNames(a.name)), c), TxPosting(own, c), TxPosting(second, c));
      }
    }

    constructor (accounts: seq<Account>)
      requires forall i, j :: 0 <= i < j < |accounts| ==> accounts[i].name != accounts[j].name
      ensures Valid() && this.accounts == accounts && transactions == [] && trades == []
    {
      this.accounts := accounts;
      transactions := [];
      trades := [];
    }

    method Create(kind: Kind, amount: Money, a: Account, fee: Option<Money>, now: int) returns (t: Transaction)
      requires Valid() && a in accounts
      modifies this`transactions
      ensures Valid() && fresh(t) && transactions == old(transactions) + [t]
      ensures t.kind == kind && t.amount == amount && t.exchange == a && t.status == InTransit
      ensures t.fee == if fee.Some? && fee.value.amount == 0.0 then None else fee
      ensures forall b, c :: b in accounts ==> Gap(b, c) == old(Gap(b, c))
    {
      hide Balance;
      hide Held;
      hide TxRow.Effect;
      hide RowsOf;
      t := new Transaction(kind, amount, a, fee, now);
      transactions := transactions + [t];
      assert RowsOf(transactions) == old(RowsOf(transactions)) + [t.Row()];
      forall b, c | b in accounts ensures Gap(b, c) == old(Gap(b, c)) {
        RowAdded(trades, old(RowsOf(transactions)), t.Row(), Ever({b.name}), c);
      }
    }

    method Complete(t: Transaction, now: int) returns (ok: bool)
      requires Valid() && t in transactions
      modifies t`status, t`timeCompleted, t.exchange`balance
      ensures ok <==> old(t.status) == InTransit
      ensures !ok ==> unchanged(t) && unchanged(t.exchange)
      ensures ok ==> t.status == Completed && t.timeCompleted == Some(now)
      ensures ok ==> Moved(t.exchange, t.Row(), 1.0)
      ensures forall b, c :: b in accounts ==> Gap(b, c) == old(Gap(b, c))
    {
      ok := t.Complete(now);
      if ok { Kept(t); }
    }

    method Cancel(t: Transaction) returns (ok: bool)
      requires Valid() && t in transactions
      modifies t`status, t.exchange`balance
      ensures ok <==> old(t.status) != Canceled
      ensures !ok ==> unchanged(t) && unchanged(t.exchange)
      ensures ok ==> t.status == Canceled
      ensures ok ==> Moved(t.exchange, t.Row(), if old(t.status) == Completed then -1.0 else 0.0)
      ensures forall b, c :: b in accounts ==> Gap(b, c) == old(Gap(b, c))
    {
      hide Balance;
      hide Held;
      ok := t.Cancel();
      if ok { Kept(t); }
    }

    /** When one transaction changes and its account's cache moves by the change in what it counts for,
        no gap moves. */
    twostate lemma Kept(t: Transaction)
      requires old(Valid()) && unchanged(this) && t in transactions
      requires OthersKept(transactions, t)
      requires forall b :: b in accounts && b != t.exchange ==> b.balance == old(b.balance)
      requires forall c :: CacheFollows(t, c)
      ensures forall b, c :: b in accounts ==> Gap(b, c) == old(Gap(b, c))
    {
      hide Balance;
      hide Held;
      hide Counted;
      hide RowsOf;
      hide TxPosting;
      var i :| 0 <= i < |transactions| && transactions[i] == t;
      var was := old(RowsOf(transactions));
      assert RowsOf(transactions) == was[i := t.Row()];
      forall b, c | b in accounts ensures Gap(b, c) == old(Gap(b, c)) {
        RowReplaced(trades, was, i, t.Row(), Ever({b.name}), c);
        Counts(b.name, t.Row(), c);
        Counts(b.name, was[i], c);
        assert CacheFollows(t, c);
      }
    }

    /** update_position: a fill enters the ledger and the cache. */
    method UpdatePosition(t: TradeRow, a: Account)
      requires Valid() && a in accounts && t.account == a.name
      modifies this`trades, a`balance
      ensures Valid() && trades == old(trades) + [t]
      ensures forall c :: Held(a.balance, c) == old(Held(a.balance, c)) + t.Effect(c)
      ensures forall b, c :: b in accounts ==> Gap(b, c) == old(Gap(b, c))
    {
      hide Balance;
      hide Held;
      hide TradePosition;
      hide TradeRow.Effect;
      trades := trades + [t];
      a.AddPosition(TradePosition(t));
      forall c ensures Held(a.balance, c) == old(Held(a.balance, c)) + t.Effect(c) {
        TradePositionIsEffect(t, c);
      }
      forall b, c | b in accounts ensures Gap(b, c) == old(Gap(b, c)) {
        TradeAdded(old(trades), t, RowsOf(transactions), Ever({b.name}), c);
        assert TradePosting(Ever({b.name}), c)(t) == if a == b then t.Effect(c) else 0.0;
      }
    }

    /** Any run of fills and of creations, completions and cancellations (rejected ones change nothing)
        keeps every cache exactly as far from its ledger as it was. */
    method Replay(ops: seq<Op>)
      requires Valid()
      modifies this, accounts, transactions
      ensures Valid()
      ensures forall b, c :: b in accounts ==> Gap(b, c) == old(Gap(b, c))
    {
      for n := 0 to |ops|
        invariant Valid() && forall t :: t in transactions ==> t in old(transactions) || fresh(t)
        invariant forall b, c :: b in accounts ==> Gap(b, c) == old(Gap(b, c))
      {
        match ops[n] {
          case Create(kind, amount, i, fee, now) =>
            if i < |accounts| { var _ := Create(kind, amount, accounts[i], fee, now); }
          case Complete(i, now) =>
            if i < |transactions| {
              var t := transactions[i];
              assert t.exchange in accounts && (t in old(transactions) || fresh(t));
              var _ := Complete(t, now);
            }
          case Cancel(i) =>
            if i < |transactions| {
              var t := transactions[i];
              assert t.exchange in accounts && (t in old(transactions) || fresh(t));
              var _ := Cancel(t);
            }
          case Fill(t, i) =>
            if i < |accounts| { UpdatePosition(t.(account := accounts[i].name), accounts[i]); }
        }
      }
    }

    /** What the gap says: a cache is its opening balance (the gap) plus its account's trades plus the
        effects of exactly its completed transactions; and it agrees with the account's ledger where the gap is
        what the ledger counts twice. */
    lemma CacheIsSum(a: Account, c: string)
      requires Valid() && a in accounts
      ensures Held(a.balance, c)
           == Gap(a, c) + Sum(trades, FilledOn(a.name, c)) + Sum(RowsOf(transactions), CompletedOn(a.name, c))
      ensures Held(a.balance, c) == Held(LedgerBalance(a), c) <==> Gap(a, c) == CountedTwice(a, c)
    {
      hide Balance;
      hide TxRow.Effect;
      hide TradeRow.Effect;
      var rows := RowsOf(transactions);
      LedgerIs(a, c);
      BalanceIsSum(trades, rows, Ever({a.name}), c);
      SumSame(trades, TradePosting(Ever({a.name}), c), FilledOn(a.name, c));
      SumSame(rows, TxPosting(Ever({a.name}), c), CompletedOn(a.name, c));
    }
  }

  /** One step of a run; accounts and transactions by their places in the tables. */
  datatype Op =
    | Create(kind: Kind, amount: Money, account: nat, fee: Option<Money>, now: int)
    | Complete(transaction: nat, now: int)
    | Cancel(transaction: nat)
    | Fill(trade: TradeRow, account: nat)

  function CompletedOn(name: string, c: string): TxRow -> real {
    (r: TxRow) => if r.account == name && r.status == Completed then r.Effect(c) else 0.0
  }

  function FilledOn(name: string, c: string): TradeRow -> real {
    (t: TradeRow) => if t.account == name then t.Effect(c) else 0.0
  }

  lemma {:induction false} SumOfTwo<T>(rows: seq<T>, u: T -> real, v: T -> real, w: T -> real)
    requires forall r :: r in rows ==> u(r) == v(r) + w(r)
    ensures Sum(rows, u) == Sum(rows, v) + Sum(rows, w)
  {
    if rows != [] { SumOfTwo(rows[..|rows| - 1], u, v, w); }
  }

  lemma {:induction false} SumSame<T>(rows: seq<T>, v: T -> real, w: T -> real)
    requires forall r :: r in rows ==> v(r) == w(r)
    ensures Sum(rows, v) == Sum(rows, w)
  {
    if rows != [] { SumSame(rows[..|rows| - 1], v, w); }
  }

  lemma TradePositionIsEffect(t: TradeRow, c: string)
    ensures Held(TradePosition(t), c) == t.Effect(c)
  {
  }

  /** The account's cache moved by a multiple of the row's effect. */
  twostate predicate Moved(a: Account, r: TxRow, times: real)
    reads a
  {
    forall c :: Held(a.balance, c) == old(Held(a.balance, c)) + times * r.Effect(c)
  }

  twostate predicate OthersKept(ts: seq<Transaction>, t: Transaction)
    reads ts
  {
    forall u :: u in ts && u != t ==> u.Row() == old(u.Row())
  }

  twostate predicate CacheFollows(t: Transaction, c: string)
    reads t, t.exchange
  {
    Held(t.exchange.balance, c)
      == old(Held(t.exchange.balance, c)) + Counted(t.Row(), c) - Counted(old(t.Row()), c)
  }

  /** What a row counts for on its own account. */
  function Counted(r: TxRow, c: string): real { if r.status == Completed then r.Effect(c) else 0.0 }

  lemma Counts(name: string, r: TxRow, c: string)
    ensures TxPosting(Ever({name}), c)(r) == if r.account == name then Counted(r, c) else 0.0
  {
  }
}
