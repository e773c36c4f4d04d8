/** split_trades on copies edited in place (gryphon/lib/gryphonfury/revenue.py:364-495). */
module SplitInPlace {
  import opened Wrappers
  import opened Trades
  import opened Fifo
  import opened Splitting

  /** A modifiable copy of a trade (copy_trade). */
  class TradeCopy {
    const row: Trade
    var volume: real
    var price: real
    var fee: real

    function Value(): Trade reads this {
      row.(volume := volume, price := price, fee := fee)
    }

    constructor (t: Trade)
      ensures Value() == t
    {
      row := t;
      volume, price, fee := t.volume, t.price, t.fee;
    }
  }

  /** The copies hold these trades, in this order. */
  predicate Holds(cs: seq<TradeCopy>, ts: seq<Trade>) reads cs {
    |cs| == |ts| && forall i :: 0 <= i < |cs| ==> cs[i].Value() == ts[i]
  }

  function Contents(cs: seq<TradeCopy>): seq<Trade> reads cs {
    if cs == [] then [] else [cs[0].Value()] + Contents(cs[1..])
  }

  lemma {:induction false} HoldsContents(cs: seq<TradeCopy>, ts: seq<Trade>)
    requires Holds(cs, ts)
    ensures Contents(cs) == ts
  {
    if cs != [] { HoldsContents(cs[1..], ts[1..]); }
  }

  predicate Apart(cs: seq<TradeCopy>, ds: seq<TradeCopy>) {
    forall i, j :: 0 <= i < |cs| && 0 <= j < |ds| ==> cs[i] != ds[j]
  }

  /** The measure of a list of copies, as the built-in sum computes it. */
  function Total(cs: seq<TradeCopy>, w: Trade -> real): real
    reads cs
  {
    if cs == [] then 0.0 else w(cs[0].Value()) + Total(cs[1..], w)
  }

  lemma {:induction false} TotalIsSum(cs: seq<TradeCopy>, ts: seq<Trade>, w: Trade -> real)
    requires Holds(cs, ts)
    ensures Total(cs, w) == Sum(ts, w)
  {
    if cs != [] { TotalIsSum(cs[1..], ts[1..], w); }
  }

  /** Copies a sorted list and deals the copies out by side. */
  method CopyBySide(ts: seq<Trade>) returns (bids: seq<TradeCopy>, asks: seq<TradeCopy>)
    ensures fresh(bids) && fresh(asks) && Distinct(bids) && Distinct(asks)
    ensures Holds(bids, OfSide(ts, Bid)) && Holds(asks, OfSide(ts, Ask))
  {
    hide OfSide;
    hide Distinct;
    hide Holds;
    NoCopies();
    OfSideId([], Bid);
    bids, asks := [], [];
    ghost var b: seq<Trade>, a: seq<Trade> := [], [];
    for i := 0 to |ts|
      invariant b == OfSide(ts[..i], Bid) && a == OfSide(ts[..i], Ask)
      invariant fresh(bids) && fresh(asks) && Distinct(bids) && Distinct(asks)
      invariant Holds(bids, b) && Holds(asks, a)
    {
      OfSideSnoc(ts[..i], ts[i]);
      assert ts[..i + 1] == ts[..i] + [ts[i]];
      var c := new TradeCopy(ts[i]);
      if ts[i].side == Bid {
        OneMore(bids, b, c, ts[i]);
        bids, b := bids + [c], b + [ts[i]];
      } else {
        OneMore(asks, a, c, ts[i]);
        asks, a := asks + [c], a + [ts[i]];
      }
    }
    assert ts[..|ts|] == ts;
  }

  lemma NoCopies()
    ensures Distinct<TradeCopy>([]) && Holds([], [])
  {
  }

  lemma OneMore(cs: seq<TradeCopy>, ts: seq<Trade>, c: TradeCopy, t: Trade)
    requires Distinct(cs) && c !in cs && Holds(cs, ts) && c.Value() == t
    ensures Distinct(cs + [c]) && Holds(cs + [c], ts + [t])
  {
  }

  lemma OfSideSnoc(ts: seq<Trade>, t: Trade)
    ensures OfSide(ts + [t], t.side) == OfSide(ts, t.side) + [t]
    ensures OfSide(ts + [t], t.side.Opposite()) == OfSide(ts, t.side.Opposite())
  {
    OfSideAppend(ts, [t], t.side);
    OfSideAppend(ts, [t], t.side.Opposite());
    OfSideId([t], t.side);
  }

  /** Splits `other` in place: it keeps what is left, the returned copy holds `v`. */
  method SplitOff(other: TradeCopy, v: real, ghost l: Lot) returns (part: TradeCopy)
    requires other.Value() == l.Value() && Fair(l) && 0.0 < v < l.volume
    modifies other
    ensures fresh(part)
    ensures part.Value() == l.Cut(v).Value()
    ensures other.Value() == l.Cut(l.volume - v).Value()
    ensures part.price + other.price == old(other.price) && part.volume + other.volume == old(other.volume)
  {
    hide Lot.Value;
    hide Trade.Trim;
    hide Share;
    CutValue(l, v);
    CutValue(l, l.volume - v);
    ghost var t := other.Value();
    var fraction := v / other.volume;
    part := new TradeCopy(other.Value());
    part.price := Share(other.price, fraction);
    part.fee := Share(other.fee, fraction);
    part.volume := v;
    var oldFraction := (other.volume - v) / other.volume;
    other.price := Share(other.price, oldFraction);
    other.fee := Share(other.fee, oldFraction);
    other.volume := other.volume - v;
    TrimIs(t, v, fraction);
    TrimIs(t, t.volume - v, oldFraction);
    SharesAddUp(t.price, t.volume, v);
  }

  /** The opposite list after volume `v` of its first lot is closed. */
  function After(v: real, ls: seq<Lot>): seq<Lot>
    requires ls != []
  {
    if v == ls[0].volume then ls[1..] else [ls[0].Cut(ls[0].volume - v)] + ls[1..]
  }

  lemma AfterValues(v: real, ls: seq<Lot>)
    requires ls != []
    ensures Values(After(v, ls)) == if v == ls[0].volume then Values(ls)[1..]
                                    else [ls[0].Cut(ls[0].volume - v).Value()] + Values(ls)[1..]
  {
    hide Lot.Value;
    var left := ls[0].Cut(ls[0].volume - v);
    assert ([left] + ls[1..])[1..] == ls[1..];
  }

  /** The inner loop: volume `v` of the oldest opposite copies is matched. Since the first of
      them is at least as large, it is never read past its end. */
  method Close(v: real, toMatch: seq<TradeCopy>, ghost ls: seq<Lot>)
    returns (rest: seq<TradeCopy>, pieces: seq<TradeCopy>)
    requires Holds(toMatch, Values(ls)) && AllFair(ls) && Distinct(toMatch)
    requires ls != [] && 0.0 < v <= ls[0].volume
    modifies toMatch[0]
    ensures Holds(pieces, [ls[0].Cut(v).Value()])
    ensures Holds(rest, Values(After(v, ls)))
    ensures v == ls[0].volume ==> rest == toMatch[1..] && pieces == [toMatch[0]]
    ensures v < ls[0].volume ==> rest == toMatch && fresh(pieces[0])
  {
    hide Lot.Value;
    hide After;
    AfterValues(v, ls);
    rest, pieces := toMatch, [];
    var volumeToMatch := v;
    ValuesAt(ls, 0);
    assert toMatch[0].volume == ls[0].volume;
    assert ls[0].Cut(ls[0].volume) == ls[0];
    while volumeToMatch > 0.0
      invariant volumeToMatch == v || volumeToMatch == 0.0
      invariant volumeToMatch == v ==>
        rest == toMatch && pieces == [] && toMatch[0].Value() == ls[0].Value()
      invariant volumeToMatch == 0.0 ==>
        && Holds(pieces, [ls[0].Cut(v).Value()])
        && (v == ls[0].volume ==> rest == toMatch[1..] && pieces == [toMatch[0]])
        && (v < ls[0].volume ==>
              && rest == toMatch && fresh(pieces[0])
              && rest[0].Value() == ls[0].Cut(ls[0].volume - v).Value())
      decreases if volumeToMatch > 0.0 then 1 else 0
    {
      var other := rest[0];
      if other.volume <= volumeToMatch {
        volumeToMatch := volumeToMatch - other.volume;
        rest := rest[1..];
        if other.volume > 0.0 { pieces := pieces + [other]; }
      } else {
        var part := SplitOff(other, volumeToMatch, ls[0]);
        if part.volume > 0.0 { pieces := pieces + [part]; }
        volumeToMatch := 0.0;
      }
    }
  }

  function Then(s: Split, matched: seq<Lot>, dropped: seq<Lot>): Split {
    Split(matched + s.matched, s.position, dropped + s.dropped)
  }

  /** One turn of the outer loop, on lots. */
  datatype Turned = Turned(bids: seq<Lot>, asks: seq<Lot>, matched: seq<Lot>, dropped: seq<Lot>)

  function Turn(bids: seq<Lot>, asks: seq<Lot>): Turned
    requires bids != [] && asks != []
  {
    var b, a := bids[0], asks[0];
    if b.volume < a.volume then
      if b.volume <= 0.0 then Turned(bids[1..], asks, [], [b])
      else Turned(bids[1..], [a.Cut(a.volume - b.volume)] + asks[1..], [b, a.Cut(b.volume)], [])
    else if a.volume <= 0.0 then Turned(bids, asks[1..], [], [a])
    else if b.volume == a.volume then Turned(bids[1..], asks[1..], [a, b], [])
    else Turned([b.Cut(b.volume - a.volume)] + bids[1..], asks[1..], [a, b.Cut(a.volume)], [])
  }

  lemma TurnMatches(bids: seq<Lot>, asks: seq<Lot>)
    requires bids != [] && asks != []
    ensures var t := Turn(bids, asks);
      Match(bids, asks) == Then(Match(t.bids, t.asks), t.matched, t.dropped)
  {
    var t := Turn(bids, asks);
    var s := Match(t.bids, t.asks);
    assert [] + s.matched == s.matched && [] + s.dropped == s.dropped;
  }

  lemma TurnKeeps(bids: seq<Lot>, asks: seq<Lot>)
    requires bids != [] && asks != [] && AllFair(bids) && AllFair(asks)
    ensures var t := Turn(bids, asks);
      AllFair(t.bids) && AllFair(t.asks) && |t.bids| + |t.asks| < |bids| + |asks|
  {
  }

  lemma MatchEnds(bids: seq<Lot>, asks: seq<Lot>)
    requires bids == [] || asks == []
    ensures Match(bids, asks) == Split([], bids + asks, [])
  {
  }

  lemma ThenNothing(s: Split)
    ensures Then(s, [], []) == s
  {
  }

  lemma ThenAgain(s: Split, m: seq<Lot>, d: seq<Lot>, m': seq<Lot>, d': seq<Lot>)
    ensures Then(Then(s, m, d), m', d') == Then(s, m' + m, d' + d)
  {
    assert m' + (m + s.matched) == (m' + m) + s.matched;
    assert d' + (d + s.dropped) == (d' + d) + s.dropped;
  }

  lemma TurnIs(bl: seq<Lot>, al: seq<Lot>)
    requires bl != [] && al != []
    ensures var t, b, a := Turn(bl, al), bl[0], al[0];
      && (b.volume < a.volume && b.volume <= 0.0 ==>
            t.bids == bl[1..] && t.asks == al && t.matched == [])
      && (0.0 < b.volume < a.volume ==>
            t.bids == bl[1..] && t.asks == After(b.volume, al) && t.matched == [b, a.Cut(b.volume)])
      && (b.volume >= a.volume && a.volume <= 0.0 ==>
            t.bids == bl && t.asks == al[1..] && t.matched == [])
      && (b.volume >= a.volume > 0.0 ==>
            t.bids == After(a.volume, bl) && t.asks == al[1..] && t.matched == [a, b.Cut(a.volume)])
  {
    assert bl[0].Cut(bl[0].volume) == bl[0];
  }

  lemma TwoValues(a: Lot, b: Lot)
    ensures Values([a, b]) == [a.Value(), b.Value()]
  {
    hide Lot.Value;
    assert [a, b][1..] == [b] && [b][1..] == [];
  }
  /** The copies in play: no copy is in two places, and the values are those of the lots. */
  predicate InPlay(bids: seq<TradeCopy>, asks: seq<TradeCopy>, matched: seq<TradeCopy>,
                   bl: seq<Lot>, al: seq<Lot>, ml: seq<Lot>)
    reads bids, asks, matched
  {
    && Distinct(bids) && Distinct(asks)
    && Apart(bids, asks) && Apart(bids, matched) && Apart(asks, matched)
    && Holds(bids, Values(bl)) && Holds(asks, Values(al)) && Holds(matched, Values(ml))
  }

  /** Before the first turn. */
  lemma SidesApart(bids: seq<TradeCopy>, asks: seq<TradeCopy>, bl: seq<Lot>, al: seq<Lot>)
    requires Holds(bids, Values(bl)) && Holds(asks, Values(al))
    requires OnSide(bl, Bid) && OnSide(al, Ask) && Distinct(bids) && Distinct(asks)
    ensures InPlay(bids, asks, [], bl, al, [])
  {
    hide Lot.Value;
    forall i, j | 0 <= i < |bids| && 0 <= j < |asks| ensures bids[i] != asks[j] {
      ValuesAt(bl, i);
      ValuesAt(al, j);
      assert bids[i].Value().side == Bid && asks[j].Value().side == Ask;
    }
  }

  lemma SwapSides(bids: seq<TradeCopy>, asks: seq<TradeCopy>, matched: seq<TradeCopy>,
                  bl: seq<Lot>, al: seq<Lot>, ml: seq<Lot>)
    requires InPlay(bids, asks, matched, bl, al, ml)
    ensures InPlay(asks, bids, matched, al, bl, ml)
  {
  }

  /** The oldest copies have the volumes of the oldest lots, and either may be taken away. */
  lemma HeadsInPlay(bids: seq<TradeCopy>, asks: seq<TradeCopy>, matched: seq<TradeCopy>,
                    bl: seq<Lot>, al: seq<Lot>, ml: seq<Lot>)
    requires InPlay(bids, asks, matched, bl, al, ml) && bids != [] && asks != []
    ensures bl != [] && bids[0].volume == bl[0].Value().volume
    ensures al != [] && asks[0].volume == al[0].Value().volume
    ensures InPlay(bids[1..], asks, matched, bl[1..], al, ml)
    ensures InPlay(bids, asks[1..], matched, bl, al[1..], ml)
    ensures InPlay(asks, bids, matched, al, bl, ml)
  {
    hide Lot.Value;
  }

  lemma LeftInPlay(bids: seq<TradeCopy>, asks: seq<TradeCopy>, matched: seq<TradeCopy>,
                   bl: seq<Lot>, al: seq<Lot>, ml: seq<Lot>)
    requires InPlay(bids, asks, matched, bl, al, ml) && (bids == [] || asks == [])
    ensures Holds(matched, Values(ml)) && Holds(bids + asks, Values(bl + al)) && (bl == [] || al == [])
  {
    hide Lot.Value;
    ValuesAppend(bl, al);
  }

  /** The oldest of `xs` and the copy `c` it was closed against become matched. */
  lemma Joined(xs: seq<TradeCopy>, ys: seq<TradeCopy>, matched: seq<TradeCopy>, c: TradeCopy,
               xl: seq<Lot>, yl: seq<Lot>, ml: seq<Lot>, l: Lot)
    requires InPlay(xs, ys, matched, xl, yl, ml) && xs != []
    requires c !in xs && c !in ys && c.Value() == l.Value()
    ensures InPlay(xs[1..], ys, matched + [xs[0], c], xl[1..], yl, ml + [xl[0], l])
  {
    hide Lot.Value;
    ValuesAppend(ml, [xl[0], l]);
    TwoValues(xl[0], l);
  }

  /** The oldest copy of `xs` is closed against the oldest of `ys`, which is at least as large. */
  method CloseHead(xs: seq<TradeCopy>, ys: seq<TradeCopy>, matched: seq<TradeCopy>,
                   ghost xl: seq<Lot>, ghost yl: seq<Lot>, ghost ml: seq<Lot>)
    returns (ys': seq<TradeCopy>, matched': seq<TradeCopy>)
    requires InPlay(xs, ys, matched, xl, yl, ml) && AllFair(xl) && AllFair(yl)
    requires xs != [] && ys != [] && 0.0 < xl[0].volume <= yl[0].volume
    modifies ys[0]
    ensures InPlay(xs[1..], ys', matched', xl[1..], After(xl[0].volume, yl),
                   ml + [xl[0], yl[0].Cut(xl[0].volume)])
    ensures ys' == ys || ys' == ys[1..]
    ensures |matched'| == |matched| + 2 && matched'[..|matched|] == matched
    ensures matched'[|matched|] == xs[0]
    ensures matched'[|matched| + 1] == ys[0] || fresh(matched'[|matched| + 1])
  {
    hide Lot.Value;
    hide After;
    hide Values;
    HeadsInPlay(xs, ys, matched, xl, yl, ml);
    var active, pieces := xs[0], [];
    ys', pieces := Close(active.volume, ys, yl);
    var c := pieces[0];
    matched' := matched + [active, c];
    Joined(xs, ys', matched, c, xl, After(xl[0].volume, yl), ml, yl[0].Cut(xl[0].volume));
  }

  /** Every copy comes from the two lists or is new. */
  twostate predicate From(new cs: seq<TradeCopy>, bids: seq<TradeCopy>, asks: seq<TradeCopy>) {
    forall i :: 0 <= i < |cs| ==> cs[i] in bids || cs[i] in asks || fresh(cs[i])
  }

  /** One turn of the outer loop: the smaller of the two oldest copies is closed. */
  method TakeTurn(bids: seq<TradeCopy>, asks: seq<TradeCopy>, matched: seq<TradeCopy>,
                  ghost bl: seq<Lot>, ghost al: seq<Lot>, ghost ml: seq<Lot>)
    returns (bids': seq<TradeCopy>, asks': seq<TradeCopy>, matched': seq<TradeCopy>)
    requires InPlay(bids, asks, matched, bl, al, ml) && AllFair(bl) && AllFair(al)
    requires bids != [] && asks != []
    modifies bids[0], asks[0]
    ensures var turn := Turn(bl, al);
      InPlay(bids', asks', matched', turn.bids, turn.asks, ml + turn.matched)
    ensures (bids' == bids || bids' == bids[1..]) && (asks' == asks || asks' == asks[1..])
    ensures matched <= matched' && From(matched'[|matched|..], bids, asks)
  {
    hide Lot.Value;
    hide Turn;
    hide After;
    hide Values;
    TurnIs(bl, al);
    HeadsInPlay(bids, asks, matched, bl, al, ml);
    assert ml + [] == ml;
    hide InPlay;
    bids', asks', matched' := bids, asks, matched;
    if bids[0].volume < asks[0].volume {
      if bids[0].volume > 0.0 {
        asks', matched' := CloseHead(bids, asks, matched, bl, al, ml);
      }
      bids' := bids[1..];
    } else {
      if asks[0].volume > 0.0 {
        bids', matched' := CloseHead(asks, bids, matched, al, bl, ml);
        SwapSides(asks[1..], bids', matched', al[1..], After(al[0].volume, bl), ml + [al[0], bl[0].Cut(al[0].volume)]);
      }
      asks' := asks[1..];
    }
  }

  /** The outer loop. */
  method MatchCopies(bids0: seq<TradeCopy>, asks0: seq<TradeCopy>, ghost bl0: seq<Lot>, ghost al0: seq<Lot>)
    returns (matched: seq<TradeCopy>, position: seq<TradeCopy>)
    requires InPlay(bids0, asks0, [], bl0, al0, []) && AllFair(bl0) && AllFair(al0)
    modifies bids0, asks0
    ensures Holds(matched, Values(Match(bl0, al0).matched))
    ensures Holds(position, Values(Match(bl0, al0).position))
    ensures From(matched, bids0, asks0) && From(position, bids0, asks0)
  {
    hide Lot.Value;
    hide Match;
    hide Turn;
    hide AllFair;
    hide InPlay;
    var bids, asks := bids0, asks0;
    ghost var bl, al := bl0, al0;
    ghost var ml: seq<Lot>, dl: seq<Lot> := [], [];
    matched := [];
    ThenNothing(Match(bl0, al0));
    while |bids| > 0 && |asks| > 0
      invariant InPlay(bids, asks, matched, bl, al, ml) && AllFair(bl) && AllFair(al)
      invariant forall i :: 0 <= i < |bids| ==> bids[i] in bids0
      invariant forall i :: 0 <= i < |asks| ==> asks[i] in asks0
      invariant From(matched, bids0, asks0)
      invariant Match(bl0, al0) == Then(Match(bl, al), ml, dl)
      decreases |bl| + |al|
    {
      HeadsInPlay(bids, asks, matched, bl, al, ml);
      ghost var turn := Turn(bl, al);
      TurnMatches(bl, al);
      TurnKeeps(bl, al);
      ThenAgain(Match(turn.bids, turn.asks), turn.matched, turn.dropped, ml, dl);
      bids, asks, matched := TakeTurn(bids, asks, matched, bl, al, ml);
      bl, al, ml, dl := turn.bids, turn.asks, ml + turn.matched, dl + turn.dropped;
    }
    position := bids + asks;
    LeftInPlay(bids, asks, matched, bl, al, ml);
    MatchEnds(bl, al);
    assert ml + [] == ml;
  }

  const TOLERANCE := 0.0000000001

  const AMOUNT: Trade -> real := (t: Trade) => t.volume

  function Price(cur: string): Trade -> real { (t: Trade) => t.PriceIn(cur) }

  /** Whether the closing assertions of split_trades hold: the trades thrown away for having no
      volume must not carry volume or price. */
  ghost predicate NothingLost(ts: seq<Trade>, cur: string) {
    var dropped := Values(SplitOf(ts).dropped);
    Abs(Sum(dropped, AMOUNT)) < TOLERANCE && Abs(Sum(dropped, Price(cur))) < TOLERANCE
  }

  /** The trades that the matching will throw away are free. */
  predicate ThrowsAwayFree(ts: seq<Trade>, cur: string) { Abs(Sum(ThrownAway(ts), Price(cur))) < 0.0000000001 }

  lemma {:induction false} VolumelessSum(ts: seq<Trade>)
    requires forall t :: t in ts ==> t.volume == 0.0
    ensures Sum(ts, AMOUNT) == 0.0
  {
    if ts != [] { VolumelessSum(ts[1..]); }
  }

  /** Read off the input: the closing assertions hold if and only if the trades without volume that come before the
      other side is used up are free, all together. */
  lemma AssertionsHoldIff(ts: seq<Trade>, cur: string)
    requires NonNegative(ts)
    ensures NothingLost(ts, cur) <==> ThrowsAwayFree(ts, cur)
  {
    hide SplitOf;
    hide ThrownAway;
    DroppedIs(ts);
    ThrownAwayAre(ts);
    VolumelessSum(ThrownAway(ts));
    SumPermuted(Values(SplitOf(ts).dropped), ThrownAway(ts), AMOUNT);
    SumPermuted(Values(SplitOf(ts).dropped), ThrownAway(ts), Price(cur));
  }

  /** When every trade has volume, the assertions hold. */
  lemma AssertionsHold(ts: seq<Trade>, cur: string)
    requires Positive(ts)
    ensures NothingLost(ts, cur)
  {
    PositiveLosesNothing(ts);
  }

  /** A purchase of nothing for five dollars is thrown away when a sale comes with it, and the assertions fail. */
  lemma VolumelessIsLost()
    ensures var ts := [Trade(Bid, 0, 0, "Multi", "BITSTAMP", "USD", 1.0, "USD", 1.0, 0.0, 5.0, 0.0),
                       Trade(Ask, 1, 1, "Multi", "BITSTAMP", "USD", 1.0, "USD", 1.0, 1.0, 1.0, 0.0)];
      AllConvert(ts, "USD") && !NothingLost(ts, "USD")
  {
    var b := Trade(Bid, 0, 0, "Multi", "BITSTAMP", "USD", 1.0, "USD", 1.0, 0.0, 5.0, 0.0);
    var a := Trade(Ask, 1, 1, "Multi", "BITSTAMP", "USD", 1.0, "USD", 1.0, 1.0, 1.0, 0.0);
    var ts := [b, a];
    SortId(ts);
    assert ts == [b] + [a];
    OfSideId([b], Bid);
    OfSideId([a], Ask);
    OfSideAppend([b], [a], Bid);
    OfSideAppend([b], [a], Ask);
    assert OfSide(ts, Bid) == [b] && OfSide(ts, Ask) == [a];
    assert Lots([b])[0] == Lot(b, 0.0) && Lots([a])[0] == Lot(a, 1.0);
    assert Match(Lots([b]), Lots([a])).dropped == [Lot(b, 0.0)];
    assert Values([Lot(b, 0.0)]) == [b];
    assert Sum([b], Price("USD")) == 5.0;
  }

  lemma ReportsAdditive(cur: string)
    ensures Additive(AMOUNT) && Additive(Price(cur))
  {
    MeasuresAdditive(cur);
    forall t: Trade, v: real | 0.0 < v < t.volume
      ensures t.Trim(v).PriceIn(cur) + t.Trim(t.volume - v).PriceIn(cur) == t.PriceIn(cur)
    {
      assert Cash(cur)(t.Trim(v)) + Cash(cur)(t.Trim(t.volume - v)) == Cash(cur)(t);
    }
  }

  /** The totals the assertions compare: what was dropped is the whole difference. */
  lemma Differences(ts: seq<Trade>, w: Trade -> real)
    requires Additive(w)
    ensures var s := SplitOf(ts);
      Sum(Values(s.matched) + Values(s.position), w) - Sum(SortByTime(ts), w) == -Sum(Values(s.dropped), w)
  {
    var s := SplitOf(ts);
    SplitConserves(ts, w);
    SortSum(ts, w);
    SumAppend(Values(s.matched), Values(s.position), w);
  }

  /** The closing assertions. */
  method CheckTotals(ts: seq<Trade>, cur: string, matched: seq<TradeCopy>, position: seq<TradeCopy>)
    returns (ok: bool)
    requires Holds(matched, Values(SplitOf(ts).matched))
    requires Holds(position, Values(SplitOf(ts).position))
    ensures ok <==> NothingLost(ts, cur)
    ensures NonNegative(ts) ==> (ok <==> ThrowsAwayFree(ts, cur))
  {
    hide Lot.Value;
    hide SplitOf;
    hide ThrowsAwayFree;
    if NonNegative(ts) { AssertionsHoldIff(ts, cur); }
    ghost var s := SplitOf(ts);
    SplitNet(ts);
    ReportsAdditive(cur);
    Differences(ts, AMOUNT);
    Differences(ts, Price(cur));
    TotalIsSum(matched, Values(s.matched), NET);
    TotalIsSum(matched + position, Values(s.matched) + Values(s.position), AMOUNT);
    TotalIsSum(matched + position, Values(s.matched) + Values(s.position), Price(cur));
    var sorted := SortByTime(ts);
    ok := && Total(matched, NET) == 0.0
          && Abs(Total(matched + position, AMOUNT) - Sum(sorted, AMOUNT)) < TOLERANCE
          && Abs(Total(matched + position, Price(cur)) - Sum(sorted, Price(cur))) < TOLERANCE;
  }

  /** What split_trades returns. */
  datatype Copies = Copies(matched: seq<TradeCopy>, position: seq<TradeCopy>)

  /** Raises a ValueError when a price does not convert, and an AssertionError when something was lost. */
  method SplitTrades(ts: seq<Trade>, cur: string) returns (r: Result<Copies>)
    ensures r == ValueError <==> !AllConvert(ts, cur)
    ensures r == AssertionError <==> AllConvert(ts, cur) && !NothingLost(ts, cur)
    ensures NonNegative(ts) ==> (r == AssertionError <==> AllConvert(ts, cur) && !ThrowsAwayFree(ts, cur))
    ensures r.Ok? ==>
      && fresh(r.value.matched) && fresh(r.value.position)
      && Holds(r.value.matched, Values(SplitOf(ts).matched))
      && Holds(r.value.position, Values(SplitOf(ts).position))
    ensures Positive(ts) && AllConvert(ts, cur) ==> r.Ok?
  {
    hide Lot.Value;
    hide Match;
    hide SortByTime;
    hide OfSide;
    hide NothingLost;
    hide ThrowsAwayFree;
    hide Lots;
    hide Values;
    hide InPlay;
    hide AllFair;
    hide Positive;
    hide AllConvert;
    if !AllConvert(ts, cur) { return ValueError; }
    var sorted := SortByTime(ts);
    ghost var b, a := OfSide(sorted, Bid), OfSide(sorted, Ask);
    var bids, asks := CopyBySide(sorted);
    Sides(ts);
    LotsValues(b);
    LotsValues(a);
    SidesApart(bids, asks, Lots(b), Lots(a));
    var matched, position := MatchCopies(bids, asks, Lots(b), Lots(a));
    var ok := CheckTotals(ts, cur, matched, position);
    if Positive(ts) { AssertionsHold(ts, cur); }
    r := if ok then Ok(Copies(matched, position)) else AssertionError;
  }
}
