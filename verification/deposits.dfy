/** Matching a change in the exchange's balance to deposits in transit
    (gryphon/lib/models/exchange.pyx:260-292). */
module Deposits {
  import opened Wrappers
  import opened LedgerRows
  import opened Ledgers

  // ---- combinations ----

  /** The combinations of k items, in the order itertools yields them. */
  function Combinations<T>(items: seq<T>, k: nat): seq<seq<T>> {
    if k == 0 then [[]]
    else if items == [] then []
    else Starting(items[0], Combinations(items[1..], k - 1)) + Combinations(items[1..], k)
  }

  function Starting<T>(x: T, rest: seq<seq<T>>): seq<seq<T>> {
    if rest == [] then [] else [[x] + rest[0]] + Starting(x, rest[1..])
  }

  /** combinations_of_all_lengths: every non-empty length from the first up to n. */
  function UpTo<T>(items: seq<T>, n: nat): seq<seq<T>> {
    if n == 0 then [] else UpTo(items, n - 1) + Combinations(items, n)
  }

  /** c keeps some of the items, in their order. */
  predicate Chosen<T(==)>(c: seq<T>, items: seq<T>) {
    if c == [] then true
    else if items == [] then false
    else (c[0] == items[0] && Chosen(c[1..], items[1..])) || Chosen(c, items[1..])
  }

  lemma {:induction false} StartingHas<T>(x: T, rest: seq<seq<T>>, c: seq<T>)
    ensures c in Starting(x, rest) <==> c != [] && c[0] == x && c[1..] in rest
  {
    if rest != [] {
      StartingHas(x, rest[1..], c);
      assert c != [] ==> c == [c[0]] + c[1..];
      assert rest == [rest[0]] + rest[1..];
      assert ([x] + rest[0])[1..] == rest[0];
    }
  }

  /** Exactly the choices of that size. */
  lemma {:induction false} CombinationsAre<T>(items: seq<T>, k: nat, c: seq<T>)
    ensures c in Combinations(items, k) <==> |c| == k && Chosen(c, items)
    decreases |items|
  {
    if k > 0 && items != [] {
      StartingHas(items[0], Combinations(items[1..], k - 1), c);
      CombinationsAre(items[1..], k, c);
      if c != [] { CombinationsAre(items[1..], k - 1, c[1..]); }
    }
  }

  lemma {:induction false} ChosenIsShorter<T>(c: seq<T>, items: seq<T>)
    requires Chosen(c, items)
    ensures |c| <= |items|
    ensures forall x :: x in c ==> x in items
  {
    if c != [] {
      if c[0] == items[0] && Chosen(c[1..], items[1..]) {
        ChosenIsShorter(c[1..], items[1..]);
        assert c == [c[0]] + c[1..];
      } else {
        ChosenIsShorter(c, items[1..]);
      }
    }
  }

  lemma {:induction false} UpToAre<T>(items: seq<T>, n: nat, c: seq<T>)
    ensures c in UpTo(items, n) <==> 1 <= |c| <= n && Chosen(c, items)
  {
    hide Combinations;
    hide Chosen;
    if n > 0 {
      UpToAre(items, n - 1, c);
      CombinationsAre(items, n, c);
    }
  }

  /** The combinations of all lengths are all the non-empty choices. */
  lemma AllChoices<T>(items: seq<T>, c: seq<T>)
    ensures c in UpTo(items, |items|) <==> c != [] && Chosen(c, items)
  {
    UpToAre(items, |items|, c);
    if Chosen(c, items) { ChosenIsShorter(c, items); }
  }

  lemma {:induction false} ChosenKeepsDistinct<T>(c: seq<T>, items: seq<T>)
    requires Chosen(c, items) && Distinct(items)
    ensures Distinct(c)
  {
    if c != [] {
      if c[0] == items[0] && Chosen(c[1..], items[1..]) {
        ChosenKeepsDistinct(c[1..], items[1..]);
        ChosenIsShorter(c[1..], items[1..]);
        forall i, j | 0 <= i < j < |c| ensures c[i] != c[j] {
          assert c[j] == c[1..][j - 1] && c[j] in c[1..];
          if i > 0 { assert c[i] == c[1..][i - 1]; }
        }
      } else {
        ChosenKeepsDistinct(c, items[1..]);
      }
    }
  }

  // ---- pending deposits ----

  predicate Pending(t: Transaction, a: Account, currency: string)
    reads t
  {
    t.exchange == a && t.kind == Deposit && t.status == InTransit && t.amount.currency == currency
  }

  /** pending_deposits: the account's deposits in transit in a currency, in table order. */
  function PendingDeposits(ts: seq<Transaction>, a: Account, currency: string): (p: seq<Transaction>)
    reads ts
    ensures forall t :: t in p ==> t in ts && Pending(t, a, currency)
    ensures forall t :: t in ts && Pending(t, a, currency) ==> t in p
    ensures Distinct(ts) ==> Distinct(p)
  {
    if ts == [] then [] else
      var n := |ts| - 1;
      var front := PendingDeposits(ts[..n], a, currency);
      assert ts == ts[..n] + [ts[n]];
      if Pending(ts[n], a, currency) then front + [ts[n]] else front
  }

  /** A fee in another currency cannot be subtracted from the total. */
  predicate ForeignFee(t: Transaction) { t.fee.Some? && t.fee.value.currency != t.amount.currency }

  function Worth(t: Transaction): real { t.amount.amount - if t.fee.Some? then t.fee.value.amount else 0.0 }

  function Total(c: seq<Transaction>): real {
    if c == [] then 0.0 else Total(c[..|c| - 1]) + Worth(c[|c| - 1])
  }

  predicate CloseEnough(x: real, y: real, tolerance: real) { -tolerance <= x - y <= tolerance }

  lemma CloseEnoughIs(x: real, y: real, tolerance: real)
    ensures CloseEnough(x, y, tolerance) <==> Abs(x - y) <= tolerance
  {
  }

  // ---- deposit_landed ----

  datatype Landing = Landed(deposits: seq<Transaction>) | NoMatch | CurrencyMismatch

  predicate Mixed(c: seq<Transaction>) { exists t :: t in c && ForeignFee(t) }

  /** The first combination that cannot be added up or that matches the change. */
  function Search(cs: seq<seq<Transaction>>, change: real, tolerance: real): Landing {
    if cs == [] then NoMatch
    else if Mixed(cs[0]) then CurrencyMismatch
    else if CloseEnough(Total(cs[0]), change, tolerance) then Landed(cs[0])
    else Search(cs[1..], change, tolerance)
  }

  function DepositSearch(pending: seq<Transaction>, change: real, tolerance: real): Landing {
    Search(UpTo(pending, |pending|), change, tolerance)
  }

  lemma {:induction false} SearchFinds(cs: seq<seq<Transaction>>, change: real, tolerance: real)
    ensures Search(cs, change, tolerance).Landed? ==>
              var c := Search(cs, change, tolerance).deposits;
              c in cs && !Mixed(c) && CloseEnough(Total(c), change, tolerance)
    ensures Search(cs, change, tolerance).NoMatch? ==>
              forall c :: c in cs ==> !Mixed(c) && !CloseEnough(Total(c), change, tolerance)
    ensures Search(cs, change, tolerance).CurrencyMismatch? ==> exists c :: c in cs && Mixed(c)
  {
    if cs != [] {
      SearchFinds(cs[1..], change, tolerance);
      assert cs == [cs[0]] + cs[1..];
    }
  }

  // ---- single deposits come first ----

  function Singles<T>(items: seq<T>): seq<seq<T>> {
    if items == [] then [] else [[items[0]]] + Singles(items[1..])
  }

  lemma {:induction false} SinglesAre<T>(items: seq<T>)
    ensures Combinations(items, 1) == Singles(items)
  {
    if items != [] {
      SinglesAre(items[1..]);
      assert Combinations(items[1..], 0) == [[]];
      assert [items[0]] + [] == [items[0]];
      var none: seq<seq<T>> := [[]];
      assert none[1..] == [];
      assert Starting(items[0], none) == [[items[0]]];
    }
  }

  lemma {:induction false} SinglesFirst<T>(items: seq<T>, n: nat)
    requires n >= 1
    ensures Singles(items) <= UpTo(items, n)
  {
    SinglesAre(items);
    if n > 1 { SinglesFirst(items, n - 1); } else { assert UpTo(items, 0) == []; }
  }

  lemma {:induction false} SearchInTwo(a: seq<seq<Transaction>>, b: seq<seq<Transaction>>, change: real, tolerance: real)
    ensures Search(a + b, change, tolerance)
         == if Search(a, change, tolerance).NoMatch? then Search(b, change, tolerance) else Search(a, change, tolerance)
  {
    if a == [] {
      assert a + b == b;
    } else {
      assert (a + b)[1..] == a[1..] + b;
      SearchInTwo(a[1..], b, change, tolerance);
    }
  }

  /** A deposit that lands by itself: worth the change, with no fee in another currency up to it. */
  predicate LandsAlone(pending: seq<Transaction>, i: nat, change: real, tolerance: real)
    requires i < |pending|
  {
    CloseEnough(Worth(pending[i]), change, tolerance) && !Mixed(pending[..i + 1])
  }

  lemma OneDeposit(t: Transaction)
    ensures Total([t]) == Worth(t) && (Mixed([t]) <==> ForeignFee(t))
  {
    assert [t][..0] == [];
    assert t in [t];
  }

  lemma MixedFirst(t: Transaction, rest: seq<Transaction>)
    ensures Mixed([t] + rest) <==> ForeignFee(t) || Mixed(rest)
  {
    assert t in [t] + rest;
    forall u | u in rest ensures u in [t] + rest {}
  }

  lemma LandsAloneLater(t: Transaction, rest: seq<Transaction>, i: nat, change: real, tolerance: real)
    requires i < |rest|
    ensures LandsAlone([t] + rest, i + 1, change, tolerance)
       <==> !ForeignFee(t) && LandsAlone(rest, i, change, tolerance)
  {
    assert ([t] + rest)[..i + 2] == [t] + rest[..i + 1];
    MixedFirst(t, rest[..i + 1]);
  }

  lemma {:induction false} SearchSingles(pending: seq<Transaction>, change: real, tolerance: real)
    ensures var found := Search(Singles(pending), change, tolerance);
      && (found.Landed? <==> exists i: nat :: i < |pending| && LandsAlone(pending, i, change, tolerance))
      && (Mixed(pending) ==> !found.NoMatch?)
  {
    if pending != [] {
      var t, rest := pending[0], pending[1..];
      assert pending == [t] + rest;
      OneDeposit(t);
      SearchSingles(rest, change, tolerance);
      assert pending[..1] == [t];
      forall i: nat | i < |rest|
        ensures LandsAlone(pending, i + 1, change, tolerance)
           <==> !ForeignFee(t) && LandsAlone(rest, i, change, tolerance)
      {
        LandsAloneLater(t, rest, i, change, tolerance);
      }
      assert LandsAlone(pending, 0, change, tolerance)
        <==> CloseEnough(Worth(t), change, tolerance) && !ForeignFee(t);
      if ForeignFee(t) {
        forall i: nat | i < |pending| ensures !LandsAlone(pending, i, change, tolerance) {
          assert pending[..i + 1][0] == t;
        }
      } else if exists i: nat :: i < |pending| && LandsAlone(pending, i, change, tolerance) {
        var i: nat :| i < |pending| && LandsAlone(pending, i, change, tolerance);
        if i > 0 { assert LandsAlone(rest, i - 1, change, tolerance); }
      } else {
        forall i: nat | i < |rest| ensures !LandsAlone(rest, i, change, tolerance) {
          assert !LandsAlone(pending, i + 1, change, tolerance);
        }
      }
    }
  }

  lemma SearchMixed(pending: seq<Transaction>, change: real, tolerance: real)
    requires pending != []
    ensures var found := DepositSearch(pending, change, tolerance);
      Mixed(pending) ==>
        && !found.NoMatch?
        && (found.Landed? <==> exists i: nat :: i < |pending| && LandsAlone(pending, i, change, tolerance))
  {
    hide UpTo;
    hide Singles;
    hide Search;
    hide LandsAlone;
    SinglesFirst(pending, |pending|);
    SearchSingles(pending, change, tolerance);
    var singles, all := Singles(pending), UpTo(pending, |pending|);
    assert all == singles + all[|singles|..];
    SearchInTwo(singles, all[|singles|..], change, tolerance);
  }

  predicate Matches(c: seq<Transaction>, pending: seq<Transaction>, change: real, tolerance: real) {
    c != [] && Chosen(c, pending) && CloseEnough(Total(c), change, tolerance)
  }

  /** Unless a fee is in another currency, deposits land exactly when some non-empty choice of the pending
      ones is worth the change; a match is always such a choice. Otherwise one deposit lands exactly when it is
      by itself worth the change and precedes every such fee, and nothing else is tried. */
  lemma DepositsLandIff(pending: seq<Transaction>, change: real, tolerance: real)
    ensures var found := DepositSearch(pending, change, tolerance);
            found.Landed? ==> Matches(found.deposits, pending, change, tolerance) && !Mixed(found.deposits)
    ensures !Mixed(pending) ==>
              (DepositSearch(pending, change, tolerance).Landed?
               <==> exists c :: Matches(c, pending, change, tolerance))
    ensures !Mixed(pending) ==> !DepositSearch(pending, change, tolerance).CurrencyMismatch?
    ensures Mixed(pending) ==>
              (DepositSearch(pending, change, tolerance).Landed?
               <==> exists i: nat :: i < |pending| && LandsAlone(pending, i, change, tolerance))
    ensures Mixed(pending) ==> !DepositSearch(pending, change, tolerance).NoMatch?
  {
    if pending != [] { SearchMixed(pending, change, tolerance); }
    hide UpTo;
    hide CloseEnough;
    var cs := UpTo(pending, |pending|);
    SearchFinds(cs, change, tolerance);
    var found := DepositSearch(pending, change, tolerance);
    if found.Landed? {
      AllChoices(pending, found.deposits);
    } else if !Mixed(pending) && found.CurrencyMismatch? {
      var c :| c in cs && Mixed(c);
      AllChoices(pending, c);
      ChosenIsShorter(c, pending);
      assert false;
    } else if found.NoMatch? {
      forall c | Matches(c, pending, change, tolerance) ensures false { AllChoices(pending, c); }
    }
  }

  /** Adding up one combination; false when a fee is in another currency. */
  method AddUp(c: seq<Transaction>) returns (ok: bool, total: real)
    ensures ok <==> !Mixed(c)
    ensures ok ==> total == Total(c)
  {
    total := 0.0;
    for k := 0 to |c|
      invariant !Mixed(c[..k]) && total == Total(c[..k])
    {
      assert c[..k + 1][..k] == c[..k];
      if ForeignFee(c[k]) { return false, total; }
      total := total + c[k].amount.amount;
      if c[k].fee.Some? { total := total - c[k].fee.value.amount; }
    }
    assert c[..|c|] == c;
    ok := true;
  }

  method CompleteAll(l: Ledger, a: Account, currency: string, c: seq<Transaction>, now: int)
    requires l.Valid() && a in l.accounts && Distinct(c) && !Mixed(c)
    requires forall t :: t in c ==> t in l.transactions && Pending(t, a, currency)
    modifies c, a`balance
    ensures forall t :: t in c ==> t.status == Completed && t.timeCompleted == Some(now)
    ensures Deposited(a, currency, Total(c))
    ensures forall b, d :: b in l.accounts ==> l.Gap(b, d) == old(l.Gap(b, d))
  {
    hide Held;
    hide Ledger.Gap;
    assert Total(c[..0]) == 0.0;
    for k := 0 to |c|
      invariant l.Valid()
      invariant forall i :: 0 <= i < k ==> c[i].status == Completed && c[i].timeCompleted == Some(now)
      invariant forall i :: k <= i < |c| ==> unchanged(c[i])
      invariant forall d ::
        Held(a.balance, d) == old(Held(a.balance, d)) + if d == currency then Total(c[..k]) else 0.0
      invariant forall b, d :: b in l.accounts ==> l.Gap(b, d) == old(l.Gap(b, d))
    {
      assert c[..k + 1][..k] == c[..k];
      assert c[k] in c;
      var _ := l.Complete(c[k], now);
    }
    assert c[..|c|] == c;
  }

  method FindCombination(cs: seq<seq<Transaction>>, change: real, tolerance: real) returns (r: Landing)
    ensures r == Search(cs, change, tolerance)
  {
    for i := 0 to |cs|
      invariant Search(cs, change, tolerance) == Search(cs[i..], change, tolerance)
    {
      assert cs[i..][1..] == cs[i + 1..];
      var ok, total := AddUp(cs[i]);
      if !ok { return CurrencyMismatch; }
      if CloseEnough(total, change, tolerance) { return Landed(cs[i]); }
    }
    r := NoMatch;
  }

  /** deposit_landed: completes the first combination worth the change, if there is one. */
  method DepositLanded(l: Ledger, a: Account, change: Money, tolerance: real, now: int) returns (r: Landing)
    requires l.Valid() && a in l.accounts
    modifies l.transactions, a`balance
    ensures r == old(DepositSearch(PendingDeposits(l.transactions, a, change.currency), change.amount, tolerance))
    ensures r.Landed? ==> forall t :: t in r.deposits ==> t.status == Completed && t.timeCompleted == Some(now)
    ensures forall t :: t in l.transactions && !(r.Landed? && t in r.deposits) ==> unchanged(t)
    ensures !r.Landed? ==> unchanged(a)
    ensures r.Landed? ==> Deposited(a, change.currency, Total(r.deposits))
    ensures forall b, d :: b in l.accounts ==> l.Gap(b, d) == old(l.Gap(b, d))
  {
    hide Ledger.Gap;
    hide Held;
    hide Search;
    hide UpTo;
    hide Chosen;
    hide Total;
    hide CloseEnough;
    var pending := PendingDeposits(l.transactions, a, change.currency);
    r := FindCombination(UpTo(pending, |pending|), change.amount, tolerance);
    if r.Landed? {
      DepositsLandIff(pending, change.amount, tolerance);
      ChosenIsShorter(r.deposits, pending);
      ChosenKeepsDistinct(r.deposits, pending);
      assert forall i :: 0 <= i < |r.deposits| ==> r.deposits[i] in l.transactions;
      CompleteAll(l, a, change.currency, r.deposits, now);
    }
  }

  /** The account gained an amount of one currency and nothing else. */
  twostate predicate Deposited(a: Account, currency: string, amount: real)
    reads a
  {
    forall d :: Held(a.balance, d) == old(Held(a.balance, d)) + if d == currency then amount else 0.0
  }
}
