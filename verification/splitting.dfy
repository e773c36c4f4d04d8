/** The split of a list of trades into matched pairs and the open position
    (gryphon/lib/gryphonfury/revenue.py:389-495). */
module Splitting {
  import opened Wrappers
  import opened Trades
  import opened Fifo
  import Sorting

  // ---- the sort by time ----

  const BY_TIME: (Trade, Trade) -> bool := (t: Trade, u: Trade) => t.time <= u.time

  /** Trades created at the same time keep their order. */
  function SortByTime(ts: seq<Trade>): seq<Trade> { Sorting.Sort(BY_TIME, ts) }

  lemma SortSorts(ts: seq<Trade>)
    ensures SortedByTime(SortByTime(ts)) && multiset(SortByTime(ts)) == multiset(ts)
  {
    Sorting.SortSorts(BY_TIME, ts);
  }

  lemma SortId(ts: seq<Trade>)
    requires SortedByTime(ts)
    ensures SortByTime(ts) == ts
  {
    Sorting.SortId(BY_TIME, ts);
  }

  lemma SortSum(ts: seq<Trade>, w: Trade -> real)
    ensures Sum(SortByTime(ts), w) == Sum(ts, w)
  {
    SortSorts(ts);
    SumPermuted(SortByTime(ts), ts, w);
  }

  // ---- the split of a list of trades ----

  function SplitSorted(ts: seq<Trade>): Split {
    Match(Lots(OfSide(ts, Bid)), Lots(OfSide(ts, Ask)))
  }

  function SplitOf(ts: seq<Trade>): Split { SplitSorted(SortByTime(ts)) }

  /** A lot that still has its trade's volume, or a proper piece of it. */
  predicate Fair(l: Lot) { l.volume == l.of.volume || l.Sound() }

  predicate AllFair(ls: seq<Lot>) { forall i :: 0 <= i < |ls| ==> Fair(ls[i]) }

  lemma CutValue(l: Lot, v: real)
    requires Fair(l) && 0.0 < v < l.volume
    ensures l.Value().volume == l.volume && l.Cut(v).Sound()
    ensures l.Value().Trim(v) == l.Cut(v).Value()
  {
    if l.volume != l.of.volume { TrimAgain(l.of, l.volume, v); }
  }

  lemma {:induction false} SumValues(ls: seq<Lot>, w: Trade -> real)
    ensures Sum(Values(ls), w) == SumLots(ls, (l: Lot) => w(l.Value()))
  {
    if ls != [] {
      SumValues(ls[1..], w);
    }
  }

  lemma {:induction false} LotsValues(ts: seq<Trade>)
    ensures Values(Lots(ts)) == ts && AllFair(Lots(ts)) && Bounded(Lots(ts))
    ensures Positive(ts) ==> Sound(Lots(ts))
  {
    if ts != [] {
      assert Lots(ts)[1..] == Lots(ts[1..]);
      LotsValues(ts[1..]);
    }
  }

  lemma LiftAdditive(w: Trade -> real)
    requires Additive(w)
    ensures AdditiveOnLots((l: Lot) => w(l.Value()))
  {
    forall l: Lot, v: real | 0.0 < v < l.volume <= l.of.volume
      ensures w(l.Cut(v).Value()) + w(l.Cut(l.volume - v).Value()) == w(l.Value())
    {
      CutValue(l, v);
      CutValue(l, l.volume - v);
      assert w(l.Value().Trim(v)) + w(l.Value().Trim(l.Value().volume - v)) == w(l.Value());
    }
  }

  /** Matched, leftover and dropped pieces add up to the input, for every additive measure: net
      position, cash, fees, and each of these restricted to a side, a row or an exchange. */
  lemma SplitConserves(ts: seq<Trade>, w: Trade -> real)
    requires Additive(w)
    ensures var s := SplitOf(ts);
      Sum(Values(s.matched), w) + Sum(Values(s.position), w) + Sum(Values(s.dropped), w) == Sum(ts, w)
  {
    var sorted := SortByTime(ts);
    var bids, asks := OfSide(sorted, Bid), OfSide(sorted, Ask);
    var s, wl := SplitOf(ts), (l: Lot) => w(l.Value());
    LiftAdditive(w);
    LotsValues(bids);
    LotsValues(asks);
    MatchConserves(Lots(bids), Lots(asks), wl);
    SumValues(s.matched, w);
    SumValues(s.position, w);
    SumValues(s.dropped, w);
    SumValues(Lots(bids), w);
    SumValues(Lots(asks), w);
    SumBySide(sorted, w);
    SortSum(ts, w);
  }

  predicate SameRow(t: Trade, u: Trade) {
    t == u.(volume := t.volume, price := t.price, fee := t.fee)
  }

  lemma {:induction false} PairsCancel(m: seq<Lot>, w: Lot -> real)
    requires Paired(m)
    requires forall a, b :: Opposed(a, b) ==> w(a) + w(b) == 0.0
    ensures SumLots(m, w) == 0.0
  {
    if m != [] {
      assert Opposed(m[0], m[1]);
      var rest := m[2..];
      forall k | 0 <= k < |rest| - 1 && k % 2 == 0 ensures Opposed(rest[k], rest[k + 1]) {
        assert Opposed(m[k + 2], m[k + 3]);
      }
      PairsCancel(rest, w);
      assert m == [m[0]] + ([m[1]] + rest);
      SumHead(m[0], [m[1]] + rest, w);
      SumHead(m[1], rest, w);
    }
  }

  lemma MatchedFair(b: seq<Lot>, a: seq<Lot>)
    requires AllFair(b) && AllFair(a)
    ensures AllFair(Match(b, a).matched)
  {
    var m := Match(b, a).matched;
    MatchCuts(b, a);
    forall k | 0 <= k < |m| ensures Fair(m[k]) { assert m[k] in m && CutFrom(m[k], b + a); }
  }

  lemma MatchedNet(bids: seq<Lot>, asks: seq<Lot>)
    requires OnSide(bids, Bid) && OnSide(asks, Ask) && AllFair(bids) && AllFair(asks)
    ensures Sum(Values(Match(bids, asks).matched), NET) == 0.0
  {
    hide Lot.Value;
    var m := Match(bids, asks).matched;
    MatchPairs(bids, asks);
    MatchedFair(bids, asks);
    var w := (l: Lot) => if l.of.side == Ask then -l.volume else l.volume;
    PairsCancel(m, w);
    SumValues(m, NET);
    forall l | l in m ensures w(l) == NET(l.Value()) { assert Fair(l); }
    SameSums(m, w, (l: Lot) => NET(l.Value()));
  }

  lemma {:induction false} SameSums(ls: seq<Lot>, w: Lot -> real, w': Lot -> real)
    requires forall l :: l in ls ==> w(l) == w'(l)
    ensures SumLots(ls, w) == SumLots(ls, w')
  {
    if ls != [] { SameSums(ls[1..], w, w'); }
  }

  /** Whatever goes in, everything matched has volume. */
  lemma MatchedPositive(ts: seq<Trade>)
    ensures Positive(Values(SplitOf(ts).matched))
  {
    hide Lot.Value;
    Sides(ts);
    var b, a := Lots(OfSide(SortByTime(ts), Bid)), Lots(OfSide(SortByTime(ts), Ask));
    MatchPairs(b, a);
    MatchedFair(b, a);
    var m := SplitOf(ts).matched;
    forall i | 0 <= i < |m| ensures Values(m)[i].volume > 0.0 {
      var k := if i % 2 == 0 then i else i - 1;
      assert Opposed(m[k], m[k + 1]) && Fair(m[i]);
      ValuesAt(m, i);
    }
  }

  lemma SortKeepsPositive(ts: seq<Trade>)
    requires Positive(ts)
    ensures Positive(SortByTime(ts))
  {
    SortSorts(ts);
    forall i | 0 <= i < |SortByTime(ts)| ensures SortByTime(ts)[i].volume > 0.0 {
      assert SortByTime(ts)[i] in multiset(ts);
    }
  }

  /** The sides split_trades works on. */
  lemma Sides(ts: seq<Trade>)
    ensures var b, a := Lots(OfSide(SortByTime(ts), Bid)), Lots(OfSide(SortByTime(ts), Ask));
      && SplitOf(ts) == Match(b, a) && AllFair(b) && AllFair(a) && OnSide(b, Bid) && OnSide(a, Ask)
      && (Positive(ts) ==> Sound(b) && Sound(a))
  {
    var sorted := SortByTime(ts);
    if Positive(ts) { SortKeepsPositive(ts); }
    OfSideKeeps(sorted, Bid);
    OfSideKeeps(sorted, Ask);
    LotsValues(OfSide(sorted, Bid));
    LotsValues(OfSide(sorted, Ask));
  }

  lemma PositiveLosesNothing(ts: seq<Trade>)
    requires Positive(ts)
    ensures SplitOf(ts).dropped == []
  {
    Sides(ts);
    MatchLeaves(Lots(OfSide(SortByTime(ts), Bid)), Lots(OfSide(SortByTime(ts), Ask)));
  }

  /** The matched list closes: its net position is zero. */
  lemma SplitNet(ts: seq<Trade>)
    ensures Sum(Values(SplitOf(ts).matched), NET) == 0.0
  {
    Sides(ts);
    MatchedNet(Lots(OfSide(SortByTime(ts), Bid)), Lots(OfSide(SortByTime(ts), Ask)));
  }

  /** A property of trades that does not depend on their amounts. */
  ghost predicate AmountBlind(p: Trade -> bool) {
    forall t, u :: SameRow(t, u) ==> p(t) == p(u)
  }

  ghost predicate All(ts: seq<Trade>, p: Trade -> bool) { forall i :: 0 <= i < |ts| ==> p(ts[i]) }

  lemma {:induction false} PiecesKeep(ls: seq<Lot>, p: Trade -> bool)
    requires AmountBlind(p) && forall i :: 0 <= i < |ls| ==> p(ls[i].of)
    ensures All(Values(ls), p)
  {
    if ls != [] {
      assert SameRow(ls[0].Value(), ls[0].of);
      PiecesKeep(ls[1..], p);
    }
  }

  /** The pieces share every such property of the trades they are cut from. */
  lemma SplitKeeps(ts: seq<Trade>, p: Trade -> bool)
    requires AmountBlind(p) && All(ts, p)
    ensures All(Values(SplitOf(ts).matched), p) && All(Values(SplitOf(ts).position), p)
  {
    hide Lot.Value;
    hide Match;
    var sorted := SortByTime(ts);
    var b, a := Lots(OfSide(sorted, Bid)), Lots(OfSide(sorted, Ask));
    MatchCuts(b, a);
    forall l: Lot | l in b + a ensures p(l.of) { InputKeeps(ts, l, p); }
    forall l: Lot | CutFrom(l, b + a) ensures p(l.of) {
      var m: Lot :| m in b + a && l.of == m.of;
    }
    var s := SplitOf(ts);
    assert forall i :: 0 <= i < |s.matched| ==> s.matched[i] in s.matched;
    assert forall i :: 0 <= i < |s.position| ==> s.position[i] in s.position;
    PiecesKeep(s.matched, p);
    PiecesKeep(s.position, p);
  }

  lemma InputKeeps(ts: seq<Trade>, l: Lot, p: Trade -> bool)
    requires All(ts, p)
    requires l in Lots(OfSide(SortByTime(ts), Bid)) + Lots(OfSide(SortByTime(ts), Ask))
    ensures p(l.of)
  {
    var sorted := SortByTime(ts);
    SortSorts(ts);
    OfSideIn(sorted, Bid, l.of);
    OfSideIn(sorted, Ask, l.of);
    assert l.of in multiset(sorted);
  }

  lemma PieceOf(l: Lot, m: Lot)
    requires l.of == m.of && (l == m || 0.0 < l.volume <= m.volume) && m.volume == m.of.volume
    ensures l.Value().volume > 0.0 ==> Fragment(l.Value(), m.of)
    ensures l.Value().volume <= 0.0 ==> l.Value() == m.of
    ensures UnitsSame(l.Value(), m.of)
  {
    if m.of.volume > 0.0 { TrimWhole(m.of); }
    if l.Value().volume > 0.0 { UnitsKept(l.Value(), m.of); }
  }

  /** Everything that comes out of a split is a piece of one of the trades that went in, at that trade's unit
      price and unit fee, or, without volume, such a trade itself. */
  lemma SplitFragments(ts: seq<Trade>, f: Trade) returns (t: Trade)
    requires f in Values(SplitOf(ts).matched) || f in Values(SplitOf(ts).position)
    ensures t in ts && (if f.volume > 0.0 then Fragment(f, t) else f == t)
    ensures UnitsSame(f, t)
  {
    hide Lot.Value;
    hide Match;
    hide Fragment;
    hide UnitsSame;
    hide Lots;
    hide Values;
    hide OfSide;
    hide SortByTime;
    var sorted := SortByTime(ts);
    var b, a := Lots(OfSide(sorted, Bid)), Lots(OfSide(sorted, Ask));
    MatchCuts(b, a);
    var s := SplitOf(ts);
    PieceIn(s.matched, f);
    PieceIn(s.position, f);
    var l: Lot :| (l in s.matched || l in s.position) && l.Value() == f;
    assert CutFrom(l, b + a);
    var m: Lot :| m in b + a && l.of == m.of && (l == m || 0.0 < l.volume <= m.volume);
    t := m.of;
    InputIn(ts, m);
    PieceOf(l, m);
  }

  lemma PieceIn(ls: seq<Lot>, f: Trade)
    ensures f in Values(ls) ==> exists l :: l in ls && l.Value() == f
  {
    if f in Values(ls) {
      var i :| 0 <= i < |Values(ls)| && Values(ls)[i] == f;
      ValuesAt(ls, i);
      assert ls[i] in ls;
    }
  }

  lemma InputIn(ts: seq<Trade>, m: Lot)
    requires m in Lots(OfSide(SortByTime(ts), Bid)) + Lots(OfSide(SortByTime(ts), Ask))
    ensures m.of in ts && m.volume == m.of.volume
  {
    var sorted := SortByTime(ts);
    SortSorts(ts);
    OfSideIn(sorted, Bid, m.of);
    OfSideIn(sorted, Ask, m.of);
    assert m.of in multiset(sorted);
    assert m.of in ts;
  }

  /** The volume of one side. */
  function SideVolume(side: Side): Trade -> real { (t: Trade) => if t.side == side then t.volume else 0.0 }

  lemma {:induction false} SideVolumes(ls: seq<Lot>, side: Side)
    requires AllFair(ls)
    ensures Sum(Values(ls), SideVolume(side)) == SumLots(ls, On(side))
  {
    hide Lot.Value;
    if ls != [] { SideVolumes(ls[1..], side); }
  }

  lemma {:induction false} SizeOfSide(ls: seq<Lot>, side: Side)
    requires OnSide(ls, side)
    ensures SumLots(ls, On(side)) == Size(ls) && SumLots(ls, On(side.Opposite())) == 0.0
  {
    if ls != [] { SizeOfSide(ls[1..], side); }
  }

  lemma SideTotal(ts: seq<Trade>, side: Side)
    ensures Sum(ts, SideVolume(side)) == Size(Lots(OfSide(SortByTime(ts), side)))
  {
    hide Lot.Value;
    Sides(ts);
    var sorted := SortByTime(ts);
    SortSum(ts, SideVolume(side));
    SumBySide(sorted, SideVolume(side));
    LotsValues(OfSide(sorted, Bid));
    LotsValues(OfSide(sorted, Ask));
    SideVolumes(Lots(OfSide(sorted, Bid)), side);
    SideVolumes(Lots(OfSide(sorted, Ask)), side);
    SizeOfSide(Lots(OfSide(sorted, Bid)), Bid);
    SizeOfSide(Lots(OfSide(sorted, Ask)), Ask);
  }

  lemma SortKeepsNonNegative(ts: seq<Trade>)
    requires NonNegative(ts)
    ensures NonNegative(SortByTime(ts))
  {
    SortSorts(ts);
    forall i | 0 <= i < |SortByTime(ts)| ensures SortByTime(ts)[i].volume >= 0.0 {
      assert SortByTime(ts)[i] in multiset(ts);
    }
  }

  /** On each side the matched volume is the smaller of the two total volumes, and what stays open
      is on one side only. */
  lemma MatchedVolume(ts: seq<Trade>, side: Side)
    requires NonNegative(ts)
    ensures Sum(Values(SplitOf(ts).matched), SideVolume(side))
         == Min(Sum(ts, SideVolume(Bid)), Sum(ts, SideVolume(Ask)))
    ensures var p := Values(SplitOf(ts).position); OneSided(p, Bid) || OneSided(p, Ask)
  {
    hide Lot.Value;
    hide Match;
    hide Sum;
    hide Size;
    hide SumLots;
    hide SortByTime;
    hide OfSide;
    hide Values;
    var sorted := SortByTime(ts);
    var b, a := Lots(OfSide(sorted, Bid)), Lots(OfSide(sorted, Ask));
    Sides(ts);
    SidesNonNegative(ts);
    hide AllNonNegative;
    hide Lots;
    MatchedSize(b, a, side);
    MatchedFair(b, a);
    SideVolumes(SplitOf(ts).matched, side);
    SideTotal(ts, Bid);
    SideTotal(ts, Ask);
    PositionOneSided(b, a);
    if OnSide(SplitOf(ts).position, Bid) {
      ValuesOnSide(SplitOf(ts).position, Bid);
    } else {
      ValuesOnSide(SplitOf(ts).position, Ask);
    }
  }

  lemma SidesNonNegative(ts: seq<Trade>)
    requires NonNegative(ts)
    ensures AllNonNegative(Lots(OfSide(SortByTime(ts), Bid))) && AllNonNegative(Lots(OfSide(SortByTime(ts), Ask)))
  {
    SortKeepsNonNegative(ts);
    OfSideKeeps(SortByTime(ts), Bid);
    OfSideKeeps(SortByTime(ts), Ask);
  }

  lemma ValuesOnSide(ls: seq<Lot>, side: Side)
    requires OnSide(ls, side)
    ensures OneSided(Values(ls), side)
  {
    forall i | 0 <= i < |ls| ensures Values(ls)[i].side == ls[i].of.side { ValuesAt(ls, i); }
  }

  // ---- what is thrown away ----

  /** The trades without volume that are reached before `limit` of the volume in front of them is used up, or, when
      asked for, just as it is. */
  function Unused(ts: seq<Trade>, limit: real, through: bool): seq<Trade> {
    if ts == [] then [] else
      (if ts[0].volume == 0.0 && (0.0 < limit || (through && limit == 0.0)) then [ts[0]] else [])
      + Unused(ts[1..], limit - ts[0].volume, through)
  }

  /** The trades without volume that a split throws away: those that come before the other side's volume is used
      up, and asks that come just then, if the bids end without volume. */
  function ThrownAway(ts: seq<Trade>): seq<Trade> {
    var b, a := OfSide(SortByTime(ts), Bid), OfSide(SortByTime(ts), Ask);
    Unused(b, Volume(a), false) + Unused(a, Volume(b), b != [] && b[|b| - 1].volume == 0.0)
  }

  lemma {:induction false} UnusedLots(ts: seq<Trade>, limit: real, through: bool)
    ensures Idle(Lots(ts), limit, through) == Lots(Unused(ts, limit, through))
  {
    if ts != [] {
      var first := if ts[0].volume == 0.0 && (0.0 < limit || (through && limit == 0.0)) then [ts[0]] else [];
      assert Lots(ts)[1..] == Lots(ts[1..]);
      UnusedLots(ts[1..], limit - ts[0].volume, through);
      LotsAppend(first, Unused(ts[1..], limit - ts[0].volume, through));
    }
  }

  lemma {:induction false} UnusedAre(ts: seq<Trade>, limit: real, through: bool)
    ensures forall t :: t in Unused(ts, limit, through) ==> t in ts && t.volume == 0.0
  {
    if ts != [] {
      UnusedAre(ts[1..], limit - ts[0].volume, through);
      assert ts == [ts[0]] + ts[1..];
    }
  }

  /** The matching throws away exactly those trades. */
  lemma DroppedIs(ts: seq<Trade>)
    requires NonNegative(ts)
    ensures multiset(Values(SplitOf(ts).dropped)) == multiset(ThrownAway(ts))
  {
    hide Lot.Value;
    hide Match;
    hide Idle;
    hide Unused;
    hide SortByTime;
    hide OfSide;
    var b, a := OfSide(SortByTime(ts), Bid), OfSide(SortByTime(ts), Ask);
    var through := b != [] && b[|b| - 1].volume == 0.0;
    SidesNonNegative(ts);
    Sides(ts);
    MatchThrows(Lots(b), Lots(a));
    SizeOfLots(b);
    SizeOfLots(a);
    UnusedLots(b, Volume(a), false);
    UnusedLots(a, Volume(b), through);
    LotsAppend(Unused(b, Volume(a), false), Unused(a, Volume(b), through));
    ValuesPermuted(SplitOf(ts).dropped, Lots(ThrownAway(ts)));
    LotsValues(ThrownAway(ts));
  }

  lemma ThrownAwayAre(ts: seq<Trade>)
    ensures forall t :: t in ThrownAway(ts) ==> t in ts && t.volume == 0.0
    ensures Positive(ts) ==> ThrownAway(ts) == []
  {
    hide Unused;
    var sorted := SortByTime(ts);
    var b, a := OfSide(sorted, Bid), OfSide(sorted, Ask);
    UnusedAre(b, Volume(a), false);
    UnusedAre(a, Volume(b), b != [] && b[|b| - 1].volume == 0.0);
    SortSorts(ts);
    forall t | t in ThrownAway(ts) ensures t in ts && t.volume == 0.0 {
      OfSideIn(sorted, Bid, t);
      OfSideIn(sorted, Ask, t);
      assert t in sorted ==> t in multiset(sorted);
    }
    if ThrownAway(ts) != [] { assert ThrownAway(ts)[0] in ThrownAway(ts); }
  }

  /** Whatever is measured: what comes out is what went in without the trades thrown away. */
  lemma SplitAccounts(ts: seq<Trade>, w: Trade -> real)
    requires NonNegative(ts) && Additive(w)
    ensures var s := SplitOf(ts);
      Sum(Values(s.matched), w) + Sum(Values(s.position), w) == Sum(ts, w) - Sum(ThrownAway(ts), w)
  {
    hide SplitOf;
    hide ThrownAway;
    SplitConserves(ts, w);
    DroppedIs(ts);
    SumPermuted(Values(SplitOf(ts).dropped), ThrownAway(ts), w);
  }

  /** The open position is in order of time, for every input, trades created together included. */
  lemma PositionSorted(ts: seq<Trade>)
    ensures SortedByTime(Values(SplitOf(ts).position))
  {
    hide Lot.Value;
    hide Match;
    hide OfSide;
    var sorted := SortByTime(ts);
    SortSorts(ts);
    OfSideOrder(sorted, Bid);
    OfSideOrder(sorted, Ask);
    Sides(ts);
    hide SortByTime;
    PositionSequential(Lots(OfSide(sorted, Bid)), Lots(OfSide(sorted, Ask)));
    var p := SplitOf(ts).position;
    hide SplitOf;
    forall i | 0 <= i < |p| ensures Values(p)[i].time == p[i].of.time { ValuesAt(p, i); }
  }

  /** Row by row: the pieces of row `id` add up to it, whatever is measured, unless it is thrown away. */
  lemma SplitConservesRow(ts: seq<Trade>, id: nat, w: Trade -> real)
    requires NonNegative(ts) && Additive(w)
    ensures var q := (t: Trade) => if t.id == id then w(t) else 0.0;
      Sum(Values(SplitOf(ts).matched), q) + Sum(Values(SplitOf(ts).position), q)
      == Sum(ts, q) - Sum(ThrownAway(ts), q)
  {
    hide SplitOf;
    hide ThrownAway;
    var q := (t: Trade) => if t.id == id then w(t) else 0.0;
    forall t: Trade, v: real | 0.0 < v < t.volume
      ensures q(t.Trim(v)) + q(t.Trim(t.volume - v)) == q(t)
    {
      assert w(t.Trim(v)) + w(t.Trim(t.volume - v)) == w(t);
    }
    SplitAccounts(ts, q);
  }
}
