/** The open position: rebuilt by scanning history backwards, or left over by the forward matching
    (gryphon/lib/gryphonfury/revenue.py:565-625, 389-495). */
module OpenPosition {
  import opened Wrappers
  import opened Trades
  import opened Fifo
  import opened Splitting

  /** The trades that opened a position of size `offset`, given the trades that preceded it. */
  function OpenTrades(offset: real, ts: seq<Trade>): seq<Trade> {
    if offset == 0.0 then []
    else Values(KeepNewest(Lots(OfSide(ts, if offset > 0.0 then Bid else Ask)), Abs(offset)))
  }

  // ---- forward leftover and backward scan agree ----

  predicate Clean(ts: seq<Trade>) { SortedByTime(ts) && Positive(ts) }

  /** The two sides of a clean history, as lots. */
  lemma CleanSides(ts: seq<Trade>)
    requires Clean(ts)
    ensures var b, a := Lots(OfSide(ts, Bid)), Lots(OfSide(ts, Ask));
      && Sound(b) && Sound(a) && SplitOf(ts) == Match(b, a) && Size(b) - Size(a) == Sum(ts, NET)
  {
    SortId(ts);
    Sides(ts);
    NetBySide(ts);
    SizeOfLots(OfSide(ts, Bid));
    SizeOfLots(OfSide(ts, Ask));
  }

  /** Matching takes the same volume away from both sides, so one of them is used up. */
  lemma Leftover(ts: seq<Trade>)
    requires Clean(ts)
    ensures var b, a := Lots(OfSide(ts, Bid)), Lots(OfSide(ts, Ask));
            var m := Min(Size(b), Size(a));
            var p := SplitOf(ts).position;
      && p == DropVolume(b, m) + DropVolume(a, m) && SplitOf(ts).dropped == []
      && (Size(b) <= Size(a) ==> DropVolume(b, m) == [] && p == DropVolume(a, m))
      && (Size(b) >= Size(a) ==> DropVolume(a, m) == [] && p == DropVolume(b, m))
  {
    hide DropVolume;
    CleanSides(ts);
    var b, a := Lots(OfSide(ts, Bid)), Lots(OfSide(ts, Ask));
    MatchLeaves(b, a);
    DropAll(b);
    DropAll(a);
  }

  lemma NoValues()
    ensures Values([]) == []
  {
  }

  /** The leftover of the forward matching is, trade for trade, what the backward scan for the
      net position finds. */
  lemma LeftoverIsOpen(ts: seq<Trade>)
    requires Clean(ts)
    ensures Values(SplitOf(ts).position) == OpenTrades(Sum(ts, NET), ts)
  {
    hide Lot.Value;
    hide SplitOf;
    hide DropVolume;
    hide KeepNewest;
    hide Values;
    hide Lots;
    hide OfSide;
    hide Size;
    hide Sum;
    hide Clean;
    NoValues();
    CleanSides(ts);
    Leftover(ts);
    var b, a := Lots(OfSide(ts, Bid)), Lots(OfSide(ts, Ask));
    if Size(b) > Size(a) {
      DropIsKeep(b, Size(b) - Size(a));
    } else if Size(b) < Size(a) {
      DropIsKeep(a, Size(a) - Size(b));
    } else {
      assert SplitOf(ts).position == [];
    }
  }

  // ---- carrying a position into the next period ----

  /** `x` is the lot `y` of an older trade, taken again as a lot of one of its fragments. */
  predicate Rebased(x: Lot, y: Lot) {
    && 0.0 < x.volume == y.volume <= x.of.volume <= y.of.volume
    && x.of == y.of.Trim(x.of.volume)
  }

  predicate AllRebased(xs: seq<Lot>, ys: seq<Lot>) {
    |xs| == |ys| && forall i :: 0 <= i < |xs| ==> Rebased(xs[i], ys[i])
  }

  lemma RebasedValue(x: Lot, y: Lot)
    requires Rebased(x, y)
    ensures x.Value() == y.Value()
  {
    TrimAgain(y.of, x.of.volume, x.volume);
    TrimWhole(y.of);
  }

  lemma {:induction false} RebasedValues(xs: seq<Lot>, ys: seq<Lot>)
    requires AllRebased(xs, ys)
    ensures Values(xs) == Values(ys)
  {
    hide Lot.Value;
    hide Rebased;
    if xs != [] {
      RebasedValue(xs[0], ys[0]);
      RebasedValues(xs[1..], ys[1..]);
    }
  }

  lemma RebasedCut(x: Lot, y: Lot, v: real)
    requires Rebased(x, y) && 0.0 < v <= x.volume
    ensures Rebased(x.Cut(v), y.Cut(v))
  {
  }

  lemma RebasedVolume(x: Lot, y: Lot)
    requires Rebased(x, y)
    ensures x.volume == y.volume > 0.0
  {
  }

  lemma {:induction false} RebasedDrop(xs: seq<Lot>, ys: seq<Lot>, c: real)
    requires AllRebased(xs, ys)
    ensures AllRebased(DropVolume(xs, c), DropVolume(ys, c))
    ensures Size(xs) == Size(ys)
  {
    hide Rebased;
    if xs != [] {
      var x, y := xs[0], ys[0];
      RebasedVolume(x, y);
      RebasedDrop(xs[1..], ys[1..], c - x.volume);
      if 0.0 < c < x.volume { RebasedCut(x, y, x.volume - c); }
    }
  }

  lemma RebaseOne(y: Lot)
    requires y.Sound()
    ensures Rebased(Lot(y.Value(), y.Value().volume), y)
  {
    TrimWhole(y.of);
  }

  lemma {:induction false} Rebase(ys: seq<Lot>)
    requires Sound(ys)
    ensures AllRebased(Lots(Values(ys)), ys)
  {
    hide Lot.Value;
    hide Rebased;
    if ys != [] {
      Rebase(ys[1..]);
      RebaseOne(ys[0]);
      assert Lots(Values(ys))[1..] == Lots(Values(ys)[1..]);
    }
  }

  /** One side of the carry: dropping `c`, taking the values, adding newer trades and dropping `d`
      leaves what dropping `c + d` of the whole side leaves. */
  lemma CarrySide(older: seq<Trade>, newer: seq<Trade>, c: real, d: real)
    requires Positive(older) && Positive(newer) && 0.0 <= c <= Size(Lots(older)) && 0.0 <= d
    ensures var left := Values(DropVolume(Lots(older), c));
      && Values(DropVolume(Lots(left + newer), d)) == Values(DropVolume(Lots(older + newer), c + d))
      && Size(Lots(left + newer)) == Size(Lots(older)) - c + Size(Lots(newer))
  {
    hide Lot.Value;
    var dropped := DropVolume(Lots(older), c);
    var left := Values(dropped);
    LotsValues(older);
    LotsValues(newer);
    DropSize(Lots(older), c);
    Rebase(dropped);
    Rebase(Lots(newer));
    LotsAppend(left, newer);
    LotsAppend(older, newer);
    assert AllRebased(Lots(left) + Lots(newer), dropped + Lots(newer));
    RebasedDrop(Lots(left) + Lots(newer), dropped + Lots(newer), d);
    RebasedValues(DropVolume(Lots(left + newer), d), DropVolume(dropped + Lots(newer), d));
    DropCarry(Lots(older), Lots(newer), c, d);
    SizeAppend(dropped, Lots(newer));
  }

  predicate AllBefore(ts: seq<Trade>, time: int) { forall i :: 0 <= i < |ts| ==> ts[i].time < time }

  lemma {:induction false} CleanValues(ls: seq<Lot>, side: Side, time: int)
    requires Sound(ls) && OnSide(ls, side) && Sequential(ls) && OlderThan(ls, time)
    ensures Clean(Values(ls)) && OneSided(Values(ls), side) && AllBefore(Values(ls), time)
  {
    hide Lot.Value;
    forall i | 0 <= i < |ls| ensures Values(ls)[i] == ls[i].Value() { ValuesAt(ls, i); }
  }

  lemma LeftOnSide(ts: seq<Trade>, side: Side, c: real, time: int)
    requires Clean(ts) && AllBefore(ts, time) && 0.0 <= c <= Size(Lots(OfSide(ts, side)))
    ensures var held := Values(DropVolume(Lots(OfSide(ts, side)), c));
      Clean(held) && AllBefore(held, time) && OfSide(held, side) == held && OfSide(held, side.Opposite()) == []
  {
    var s := OfSide(ts, side);
    OfSideKeeps(ts, side);
    OfSideOrder(ts, side);
    forall i | 0 <= i < |s| ensures s[i].time < time { OfSideIn(ts, side, s[i]); }
    LotsValues(s);
    DropSize(Lots(s), c);
    DropOnSide(Lots(s), c, side);
    DropOrder(Lots(s), c, time);
    CleanValues(DropVolume(Lots(s), c), side, time);
    OfSideId(Values(DropVolume(Lots(s), c)), side);
  }

  function SideSize(ts: seq<Trade>, side: Side): real { Size(Lots(OfSide(ts, side))) }

  /** What is left of one side after `c` is dropped. */
  function SideLeft(ts: seq<Trade>, side: Side, c: real): seq<Trade> {
    Values(DropVolume(Lots(OfSide(ts, side)), c))
  }

  /** The held trades are clean, precede anything newer, and divide by side as the history does. */
  lemma HeldSides(ts: seq<Trade>, time: int)
    requires Clean(ts) && AllBefore(ts, time)
    ensures var held := Values(SplitOf(ts).position);
            var m := Min(SideSize(ts, Bid), SideSize(ts, Ask));
      && Clean(held) && AllBefore(held, time)
      && OfSide(held, Bid) == SideLeft(ts, Bid, m) && OfSide(held, Ask) == SideLeft(ts, Ask, m)
  {
    hide Lot.Value;
    hide SplitOf;
    hide DropVolume;
    hide OfSide;
    CleanSides(ts);
    Leftover(ts);
    var m := Min(SideSize(ts, Bid), SideSize(ts, Ask));
    LeftOnSide(ts, Bid, m, time);
    LeftOnSide(ts, Ask, m, time);
  }

  lemma CarriedSide(older: seq<Trade>, newer: seq<Trade>, held: seq<Trade>, side: Side, c: real, d: real)
    requires Positive(older) && Positive(newer) && 0.0 <= c <= SideSize(older, side) && 0.0 <= d
    requires OfSide(held, side) == SideLeft(older, side, c)
    ensures SideLeft(held + newer, side, d) == SideLeft(older + newer, side, c + d)
    ensures SideSize(held + newer, side) == SideSize(older + newer, side) - c
    ensures SideSize(older + newer, side) >= c
  {
    hide Lot.Value;
    hide DropVolume;
    OfSideKeeps(older, side);
    OfSideKeeps(newer, side);
    OfSideAppend(held, newer, side);
    OfSideAppend(older, newer, side);
    LotsValues(OfSide(newer, side));
    LotsAppend(OfSide(older, side), OfSide(newer, side));
    SizeAppend(Lots(OfSide(older, side)), Lots(OfSide(newer, side)));
    CarrySide(OfSide(older, side), OfSide(newer, side), c, d);
  }

  lemma CarriedSides(older: seq<Trade>, newer: seq<Trade>, held: seq<Trade>, c: real)
    requires Positive(older) && Positive(newer)
    requires 0.0 <= c == Min(SideSize(older, Bid), SideSize(older, Ask))
    requires OfSide(held, Bid) == SideLeft(older, Bid, c) && OfSide(held, Ask) == SideLeft(older, Ask, c)
    ensures var m := Min(SideSize(older + newer, Bid), SideSize(older + newer, Ask));
            var d := Min(SideSize(held + newer, Bid), SideSize(held + newer, Ask));
      && SideLeft(held + newer, Bid, d) == SideLeft(older + newer, Bid, m)
      && SideLeft(held + newer, Ask, d) == SideLeft(older + newer, Ask, m)
  {
    hide SideSize;
    hide SideLeft;
    hide OfSide;
    CarriedSide(older, newer, held, Bid, c, 0.0);
    CarriedSide(older, newer, held, Ask, c, 0.0);
    var d := Min(SideSize(held + newer, Bid), SideSize(held + newer, Ask));
    CarriedSide(older, newer, held, Bid, c, d);
    CarriedSide(older, newer, held, Ask, c, d);
  }

  /** The leftover, by value. */
  lemma LeftoverValues(ts: seq<Trade>)
    requires Clean(ts)
    ensures var m := Min(SideSize(ts, Bid), SideSize(ts, Ask));
      && 0.0 <= m
      && Values(SplitOf(ts).position) == SideLeft(ts, Bid, m) + SideLeft(ts, Ask, m)
  {
    hide Lot.Value;
    hide DropVolume;
    CleanSides(ts);
    Leftover(ts);
    var m := Min(SideSize(ts, Bid), SideSize(ts, Ask));
    ValuesAppend(DropVolume(Lots(OfSide(ts, Bid)), m), DropVolume(Lots(OfSide(ts, Ask)), m));
  }

  /** Splitting a carried position together with newer trades leaves the same open position as
      splitting the whole history. */
  lemma CarryOn(older: seq<Trade>, newer: seq<Trade>, time: int)
    requires Clean(older) && Clean(newer) && AllBefore(older, time)
    requires forall i :: 0 <= i < |newer| ==> time <= newer[i].time
    ensures Clean(Values(SplitOf(older).position) + newer)
    ensures Values(SplitOf(Values(SplitOf(older).position) + newer).position)
         == Values(SplitOf(older + newer).position)
  {
    hide SplitOf;
    hide OfSide;
    hide SideSize;
    hide SideLeft;
    var held := Values(SplitOf(older).position);
    HeldSides(older, time);
    LeftoverValues(older);
    LeftoverValues(held + newer);
    LeftoverValues(older + newer);
    CarriedSides(older, newer, held, Min(SideSize(older, Bid), SideSize(older, Ask)));
  }

  /** A long position is held in bids, a short one in asks. */
  lemma HeldSign(ts: seq<Trade>)
    requires Clean(ts)
    ensures var held := Values(SplitOf(ts).position);
      if Sum(ts, NET) > 0.0 then OneSided(held, Bid) else OneSided(held, Ask)
  {
    hide Lot.Value;
    hide SplitOf;
    hide DropVolume;
    CleanSides(ts);
    Leftover(ts);
    var b, a := Lots(OfSide(ts, Bid)), Lots(OfSide(ts, Ask));
    var m := Min(Size(b), Size(a));
    LeftOneSided(ts, Bid, m);
    LeftOneSided(ts, Ask, m);
  }

  lemma LeftOneSided(ts: seq<Trade>, side: Side, c: real)
    ensures OneSided(Values(DropVolume(Lots(OfSide(ts, side)), c)), side)
  {
    hide Lot.Value;
    var ls := Lots(OfSide(ts, side));
    var left := DropVolume(ls, c);
    OfSideKeeps(ts, side);
    DropOnSide(ls, c, side);
    forall i | 0 <= i < |left| ensures Values(left)[i].side == side { ValuesAt(left, i); }
  }
}
