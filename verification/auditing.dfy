/** Audits of the cached balance against the exchange and the ledger
    (gryphon/execution/lib/auditing.py:129-321), and the reset script
    (gryphon/execution/scripts/reset_balance.py:36-127). */
module Auditing {
  import opened Wrappers
  import opened LedgerRows
  import opened Ledgers
  import opened Deposits
  import opened Rounding

  // ---- balance audit ----

  /** Posts a transaction that completes at once and takes an excess out of an account. */
  method PostCorrection(l: Ledger, a: Account, excess: Money, fee: Option<Money>, now: int)
    requires l.Valid() && a in l.accounts && (fee.Some? ==> fee.value.amount == 0.0)
    modifies l`transactions, a`balance
    ensures l.Valid() && Posted(l, Abs(excess.amount))
    ensures Deposited(a, excess.currency, -excess.amount)
    ensures forall b, d :: b in l.accounts ==> l.Gap(b, d) == old(l.Gap(b, d))
    ensures forall d :: l.CountedTwice(a, d) == old(l.CountedTwice(a, d))
  {
    hide Ledger.Gap;
    hide SecondPair;
    hide RowsOf;
    ghost var rows := RowsOf(l.transactions);
    var kind := if excess.amount > 0.0 then Withdrawal else Deposit;
    var t := l.Create(kind, excess.(amount := Abs(excess.amount)), a, fee, now);
    assert t in l.transactions;
    var _ := l.Complete(t, now);
    assert RowsOf(l.transactions) == rows + [t.Row()];
    NotCountedTwice(a.name, l.trades, rows, t.Row());
  }

  /** A new row of an account is not counted twice in its own ledger. */
  lemma NotCountedTwice(name: string, trades: seq<TradeRow>, rows: seq<TxRow>, r: TxRow)
    requires r.account == name
    ensures forall c :: SecondPair(name, trades, rows + [r], c) == SecondPair(name, trades, rows, c)
  {
    hide Balance;
    hide Held;
    forall c ensures SecondPair(name, trades, rows + [r], c) == SecondPair(name, trades, rows, c) {
      RowAdded(trades, rows, r, Ever({SECOND_PAIR}), c);
    }
  }

  /** One new completed transaction of an amount. */
  twostate predicate Posted(l: Ledger, amount: real)
    reads l, l.transactions
  {
    && |l.transactions| == |old(l.transactions)| + 1
    && l.transactions[..|old(l.transactions)|] == old(l.transactions)
    && var t := l.transactions[|old(l.transactions)|];
       fresh(t) && t.status == Completed && t.amount.amount == amount
  }

  datatype Outcome = Passed | AuditFailed | MoneyMismatch

  /** The verdict of balance_audit and the cached amount it compares in the end: the processed amount when
      that is close enough, else the raw amount after deposits landed. */
  function Verdict(held: real, shown: real, actual: real, landing: Landing, tolerance: real): (Outcome, real) {
    if CloseEnough(shown, actual, tolerance) then (Passed, shown)
    else match landing
      case CurrencyMismatch => (MoneyMismatch, shown)
      case NoMatch => (AuditFailed, shown)
      case Landed(c) =>
        (if CloseEnough(held + Total(c), actual, tolerance) then Passed else AuditFailed, held + Total(c))
  }

  /** The audit passes when what is shown is within the tolerance, or when deposits landed and what is then held is; it
      raises a mismatch only when neither is tried to the end because of a foreign fee. */
  lemma VerdictIs(held: real, shown: real, actual: real, landing: Landing, tolerance: real)
    ensures var (outcome, compared) := Verdict(held, shown, actual, landing, tolerance);
            var close := Abs(shown - actual) <= tolerance;
      && (outcome == Passed <==>
            close || (landing.Landed? && Abs(held + Total(landing.deposits) - actual) <= tolerance))
      && (outcome == MoneyMismatch <==> !close && landing.CurrencyMismatch?)
      && compared == (if close || !landing.Landed? then shown else held + Total(landing.deposits))
  {
    hide Total;
  }

  function Shown(a: Account, v: Venue, currency: string): real
    reads a
  {
    ProcessDbBalance(v, Money(Held(a.balance, currency), currency)).amount
  }

  /** The deposits that the audit finds to explain a difference. */
  function Explanation(l: Ledger, a: Account, v: Venue, actual: Money, tolerance: real): Landing
    reads l, l.transactions, a
  {
    DepositSearch(PendingDeposits(l.transactions, a, actual.currency),
                  actual.amount - Shown(a, v, actual.currency), tolerance)
  }

  method BalanceAudit(l: Ledger, a: Account, v: Venue, actual: Money, tolerance: real, execute: bool, now: int)
    returns (r: Outcome)
    requires l.Valid() && a in l.accounts
    modifies l`transactions, l.transactions, a`balance
    ensures l.Valid()
    ensures forall b, d :: b in l.accounts ==> l.Gap(b, d) == old(l.Gap(b, d))
    ensures var held, shown := old(Held(a.balance, actual.currency)), old(Shown(a, v, actual.currency));
            var (verdict, compared) :=
              Verdict(held, shown, actual.amount, old(Explanation(l, a, v, actual, tolerance)), tolerance);
            var drift := compared - actual.amount;
            && r == verdict
            && (r == Passed ==> CloseEnough(drift, 0.0, tolerance))
            && (if r == Passed && execute && drift != 0.0 then Posted(l, Abs(drift))
                else l.transactions == old(l.transactions))
            && Deposited(a, actual.currency,
                         (if CloseEnough(shown, actual.amount, tolerance) then 0.0
                          else if old(Explanation(l, a, v, actual, tolerance)).Landed? then compared - held
                          else 0.0)
                         - if r == Passed && execute then drift else 0.0)
    ensures r == Passed && execute ==>
      var s := Slack(v, actual.currency);
      -s.1 <= Held(a.balance, actual.currency) - actual.amount <= s.0
  {
    hide Ledger.Gap;
    hide Held;
    hide ProcessDbBalance;
    hide DepositSearch;
    hide Ledger.CountedTwice;
    hide Abs;
    hide PendingDeposits;
    hide Total;
    assert Slack(v, actual.currency).0 >= 0.0 && Slack(v, actual.currency).1 >= 0.0;
    hide Slack;
    ProcessingMoves(v, Money(Held(a.balance, actual.currency), actual.currency));
    var dbAmount := Shown(a, v, actual.currency);
    if !CloseEnough(dbAmount, actual.amount, tolerance) {
      var landing := DepositLanded(l, a, actual.(amount := actual.amount - dbAmount), tolerance, now);
      match landing {
        case CurrencyMismatch => return MoneyMismatch;
        case NoMatch => return AuditFailed;
        case Landed(c) => dbAmount := Held(a.balance, actual.currency);
      }
    }
    if !CloseEnough(dbAmount, actual.amount, tolerance) { return AuditFailed; }
    if execute && dbAmount != actual.amount {
      PostCorrection(l, a, actual.(amount := dbAmount - actual.amount), None, now);
    }
    r := Passed;
  }

  /** After deposits land to explain the difference, the audit passes unless the part of the cache that the
      venue does not show pushes it out again; with no tolerance, it passes if and only if the cache held a
      whole number of the venue's buckets. */
  lemma LandedPassesIff(v: Venue, held: Money, actual: real, c: seq<Transaction>, tolerance: real)
    requires var shown := ProcessDbBalance(v, held).amount;
      !CloseEnough(shown, actual, tolerance) && CloseEnough(Total(c), actual - shown, tolerance)
    ensures var shown := ProcessDbBalance(v, held).amount;
            var verdict := Verdict(held.amount, shown, actual, Landed(c), tolerance).0;
      && (verdict == Passed <==> CloseEnough(held.amount - shown, actual - shown - Total(c), tolerance))
      && (tolerance == 0.0 ==> (verdict == Passed <==> Reportable(v, held)))
  {
    ShownInFullIff(v, held);
  }

  /** What the cache becomes when an audit passes and corrects it: as far above the exchange as what the venue does
      not show, or exactly the exchange's amount when deposits landed. */
  function Corrected(v: Venue, held: Money, actual: real, tolerance: real): Money {
    if CloseEnough(ProcessDbBalance(v, held).amount, actual, tolerance) then Shifted(v, held, actual)
    else held.(amount := actual)
  }

  /** The corrected cache is shown as exactly the reported amount, unless OkCoin bitcoin was halfway between two
      amounts and the reported one is odd: then it is shown a whole bucket off. */
  lemma CorrectedIsShownIff(v: Venue, held: Money, actual: real, tolerance: real)
    requires Reportable(v, held.(amount := actual))
    ensures var close := CloseEnough(ProcessDbBalance(v, held).amount, actual, tolerance);
            var shown := ProcessDbBalance(v, Corrected(v, held, actual, tolerance)).amount;
            var stuck := close && Halfway(v, held) && OddReport(v, held.(amount := actual));
      && (shown == actual <==> !stuck)
      && (stuck ==> Abs(shown - actual) == Bucket(6))
  {
    hide ProcessDbBalance;
    hide Halfway;
    hide OddReport;
    hide Reportable;
    hide Bucket;
    ShownAfterShiftIff(v, held, actual);
    ShownInFullIff(v, held.(amount := actual));
  }

  /** Two audits against the same reported amount: when the first passes, the second passes, posts nothing and moves
      nothing, if and only if the first did not find OkCoin bitcoin halfway, close to an odd report; with a tolerance
      below a bucket it never does. */
  method AuditTwice(l: Ledger, a: Account, v: Venue, actual: Money, tolerance: real, now: int)
    returns (first: Outcome, second: Outcome, posted: nat, held: real)
    requires l.Valid() && a in l.accounts && Reportable(v, actual)
    modifies l`transactions, l.transactions, a`balance
    ensures var was := Money(old(Held(a.balance, actual.currency)), actual.currency);
            var close := CloseEnough(ProcessDbBalance(v, was).amount, actual.amount, tolerance);
      first == Passed ==>
        (second == Passed && |l.transactions| == posted && Held(a.balance, actual.currency) == held
         <==> !(close && Halfway(v, was) && OddReport(v, actual)))
    ensures var was := Money(old(Held(a.balance, actual.currency)), actual.currency);
            var close := CloseEnough(ProcessDbBalance(v, was).amount, actual.amount, tolerance);
      tolerance < Bucket(6) ==> !(close && Halfway(v, was) && OddReport(v, actual))
  {
    hide Ledger.Gap;
    hide ProcessDbBalance;
    hide DepositSearch;
    hide Held;
    hide OddReport;
    hide Reportable;
    hide Bucket;
    hide Slack;
    ghost var was := Money(Held(a.balance, actual.currency), actual.currency);
    CorrectedIsShownIff(v, was, actual.amount, tolerance);
    if Halfway(v, was) && OddReport(v, actual) { OddIsFar(v, was, actual.amount); }
    first := BalanceAudit(l, a, v, actual, tolerance, true, now);
    second, posted, held := first, |l.transactions|, Held(a.balance, actual.currency);
    if first == Passed {
      assert Money(held, actual.currency) == Corrected(v, was, actual.amount, tolerance);
      second := BalanceAudit(l, a, v, actual, tolerance, true, now);
    }
  }

  /** OkCoin shows half a bucket as none and reports one. The correction leaves one and a half, shown as two. */
  lemma OkCoinMissesAgain()
    ensures var held, actual := Money(0.0000005, "BTC"), 0.000001;
      && Reportable(OkCoin, held.(amount := actual)) && Halfway(OkCoin, held)
      && OddReport(OkCoin, held.(amount := actual))
      && ProcessDbBalance(OkCoin, held).amount == 0.0
      && ProcessDbBalance(OkCoin, Corrected(OkCoin, held, actual, actual)).amount == 0.000002
  {
    assert Bucket(6) == 0.000001;
    assert 0.000001 == Many(1, Bucket(6));
    var held, after := Money(0.0000005, "BTC"), Money(0.0000015, "BTC");
    assert Buckets(held.amount, Bucket(6)) == 0.5;
    assert Buckets(after.amount, Bucket(6)) == 1.5;
    assert Buckets(0.000001, Bucket(6)) == 1.0;
  }

  lemma OneDepositLands(t: Transaction, tolerance: real)
    requires t.fee == None && tolerance >= 0.0
    ensures DepositSearch([t], t.amount.amount, tolerance) == Landed([t]) && Total([t]) == t.amount.amount
  {
    assert Total([t]) == Total([]) + Worth(t);
    assert [t][1..] == [] && [t] + [] == [t];
    assert Combinations<Transaction>([], 0) == [[]] && Combinations<Transaction>([], 1) == [];
    assert Starting(t, [[]]) == [[t] + []] + Starting(t, []);
    assert Combinations([t], 1) == [[t]];
    assert UpTo([t], 1) == UpTo([t], 0) + [[t]] == [[t]];
  }

  lemma OnePending(done: Transaction, t: Transaction, a: Account, currency: string)
    requires !Pending(done, a, currency) && Pending(t, a, currency)
    ensures PendingDeposits([done, t], a, currency) == [t]
  {
    assert [done, t][..1] == [done] && [done][..0] == [];
    assert PendingDeposits([done], a, currency) == [];
  }

  lemma HalfCent()
    ensures ProcessDbBalance(Gemini("BTC", "USD"), Money(100.005, "USD")).amount == 100.0
  {
    assert Bucket(2) == 0.01;
    assert Buckets(100.005, Bucket(2)) == 10000.5;
  }

  /** An account with one completed deposit and one in transit. */
  method TwoDeposits(name: string, done: Money, open: Money) returns (l: Ledger, a: Account, t: Transaction)
    requires done.currency == open.currency
    ensures fresh(l) && fresh(a) && fresh(t) && l.Valid() && a in l.accounts
    ensures fresh(l.transactions)
    ensures Held(a.balance, done.currency) == done.amount
    ensures PendingDeposits(l.transactions, a, done.currency) == [t] && t.amount == open && t.fee == None
  {
    hide Ledger.Gap;
    hide PendingDeposits;
    a := new Account(name);
    l := new Ledger([a]);
    var first := l.Create(Deposit, done, a, None, 0);
    assert first in l.transactions;
    var _ := l.Complete(first, 1);
    t := l.Create(Deposit, open, a, None, 2);
    assert l.transactions == [first, t];
    OnePending(first, t, a, done.currency);
  }

  /** A Gemini account that holds half a cent more than Gemini shows, audited with the tolerance of its wrapper: a
      deposit explains the difference exactly and enters the cache, and still the audit fails. */
  method HalfCentFails() returns (before: real, r: Outcome, after: real)
    ensures before == 100.005 && r == AuditFailed && after == 150.005
  {
    hide DepositSearch;
    hide Ledger.Gap;
    hide Ledger.Valid;
    hide Held;
    hide ProcessDbBalance;
    hide PendingDeposits;
    hide Total;
    hide Slack;
    var l, a, t := TwoDeposits("GEMINI_BTC_USD", Money(100.005, "USD"), Money(50.0, "USD"));
    before := Held(a.balance, "USD");
    HalfCent();
    OneDepositLands(t, 0.0001);
    r := BalanceAudit(l, a, Gemini("BTC", "USD"), Money(150.0, "USD"), 0.0001, true, 3);
    after := Held(a.balance, "USD");
  }

  // ---- ledger audit ----

  /** Passes exactly when the cache agrees with the ledger in every currency: the gap is what the ledger counts
      twice, which for every account but GEMINI is nothing. */
  method LedgerAudit(l: Ledger, a: Account) returns (ok: bool)
    requires l.Valid() && a in l.accounts
    ensures ok <==> forall c :: l.Gap(a, c) == l.CountedTwice(a, c)
  {
    ok := BalanceEquality(a.balance, l.LedgerBalance(a));
    EqualityIsPointwise(a.balance, l.LedgerBalance(a));
    hide Balance;
    hide Held;
    forall c ensures Held(a.balance, c) == Held(l.LedgerBalance(a), c) <==> l.Gap(a, c) == l.CountedTwice(a, c) {
      l.CacheIsSum(a, c);
    }
  }

  /** One fill of the second pair: the audit of the pair's own account passes, that of GEMINI, whose cache and
      trades did not change, fails. */
  method SecondPairFails() returns (pair: bool, gemini: bool)
    ensures pair && !gemini
  {
    hide Balance;
    hide Held;
    var g := new Account("GEMINI");
    var e := new Account(SECOND_PAIR);
    var l := new Ledger([g, e]);
    assert l.accounts[0] == g && l.accounts[1] == e;
    EmptyLedger(Ever({"GEMINI"}));
    EmptyLedger(Ever({SECOND_PAIR}));
    NothingHeld();
    var fill := TradeRow(Bid, Money(100.0, "USD"), Money(1.0, "ETH"), Money(0.0, "USD"), SECOND_PAIR, 0);
    TradeAdded([], fill, [], Ever({SECOND_PAIR}), "ETH");
    assert forall c :: l.Gap(g, c) == l.Gap(e, c) == 0.0;
    l.UpdatePosition(fill, e);
    assert l.Gap(g, "ETH") == 0.0;
    assert l.CountedTwice(g, "ETH") == fill.Effect("ETH") == 1.0;
    assert forall c :: l.Gap(e, c) == l.CountedTwice(e, c);
    hide Ledger.Gap;
    hide Ledger.CountedTwice;
    pair := LedgerAudit(l, e);
    gemini := LedgerAudit(l, g);
    assert l.Gap(g, "ETH") != l.CountedTwice(g, "ETH");
  }

  lemma NothingHeld()
    ensures forall c :: Held(map[], c) == 0.0
  {
  }

  // ---- reset ----

  method AlignLedgerAndBalanceCache(l: Ledger, a: Account, currency: string)
    requires l.Valid() && a in l.accounts
    modifies a`balance
    ensures Held(a.balance, currency) == Held(l.LedgerBalance(a), currency)
    ensures Held(l.LedgerBalance(a), currency) == old(Held(l.LedgerBalance(a), currency))
    ensures forall d :: d != currency ==> Held(a.balance, d) == old(Held(a.balance, d))
    ensures forall b, d :: b in l.accounts && (b != a || d != currency) ==> l.Gap(b, d) == old(l.Gap(b, d))
  {
    hide Balance;
    var ledgerBalance := l.LedgerBalance(a);
    if Held(a.balance, currency) != Held(ledgerBalance, currency) {
      a.balance := a.balance[currency := Held(ledgerBalance, currency)];
    }
    assert l.LedgerBalance(a) == ledgerBalance;
  }

  lemma GapIs(l: Ledger, a: Account, currency: string)
    ensures l.Gap(a, currency)
         == Held(a.balance, currency) - Held(l.LedgerBalance(a), currency) + l.CountedTwice(a, currency)
  {
    hide Ledger.LedgerBalance;
    hide Ledger.OwnBalance;
    hide Ledger.CountedTwice;
    hide Held;
    l.LedgerIs(a, currency);
  }

  method AlignLedgerAndExchangeBalance(l: Ledger, a: Account, actual: Money, now: int)
    requires l.Valid() && a in l.accounts
    modifies l`transactions, a`balance
    ensures l.Valid()
    ensures var mismatch := old(Held(l.LedgerBalance(a), actual.currency)) - actual.amount;
            && Held(l.LedgerBalance(a), actual.currency) == actual.amount
            && Deposited(a, actual.currency, -mismatch)
            && (if mismatch == 0.0 then l.transactions == old(l.transactions) else Posted(l, Abs(mismatch)))
    ensures forall b, d :: b in l.accounts ==> l.Gap(b, d) == old(l.Gap(b, d))
  {
    hide Ledger.Gap;
    hide Ledger.LedgerBalance;
    hide Ledger.CountedTwice;
    var mismatch := Held(l.LedgerBalance(a), actual.currency) - actual.amount;
    if mismatch == 0.0 { return; }
    GapIs(l, a, actual.currency);
    PostCorrection(l, a, actual.(amount := mismatch), Some(Money(0.0, actual.currency)), now);
    GapIs(l, a, actual.currency);
  }

  /** A reset makes cache, ledger and exchange agree in one currency and touches nothing else; when they
      already agree it posts nothing. */
  method ResetBalance(l: Ledger, a: Account, actual: Money, now: int)
    requires l.Valid() && a in l.accounts
    modifies l`transactions, a`balance
    ensures l.transactions == old(l.transactions) <==> old(Held(l.LedgerBalance(a), actual.currency)) == actual.amount
    ensures Held(a.balance, actual.currency) == actual.amount == Held(l.LedgerBalance(a), actual.currency)
    ensures l.Valid()
    ensures forall d :: d != actual.currency ==> Held(a.balance, d) == old(Held(a.balance, d))
    ensures forall b, d :: b in l.accounts && (b != a || d != actual.currency) ==> l.Gap(b, d) == old(l.Gap(b, d))
  {
    hide Ledger.Gap;
    hide Ledger.LedgerBalance;
    hide Held;
    AlignLedgerAndBalanceCache(l, a, actual.currency);
    AlignLedgerAndExchangeBalance(l, a, actual, now);
  }
}
