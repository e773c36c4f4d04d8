/** First-in first-out matching: what split_trades computes once its input is sorted and divided
    into bids and asks (gryphon/lib/gryphonfury/revenue.py:408-495), and what it means. */
module Fifo {
  import opened Wrappers
  import opened Trades
  import Sorting

  /** A piece of a trade. Matching looks at volumes only, so it is done on lots; the price and
      fee of a lot follow from the trade it is cut from. */
  datatype Lot = Lot(of: Trade, volume: real) {
    function Cut(v: real): Lot { this.(volume := v) }

    function Value(): (t: Trade)
      ensures t.side == of.side && t.time == of.time
      ensures volume == of.volume || Sound() ==> t.volume == volume
    {
      if volume == of.volume || of.volume == 0.0 then of else of.Trim(volume)
    }

    predicate Sound() { 0.0 < volume <= of.volume }
  }

  function Lots(ts: seq<Trade>): (r: seq<Lot>)
    ensures |r| == |ts|
    ensures forall i :: 0 <= i < |r| ==> r[i] == Lot(ts[i], ts[i].volume)
  {
    seq(|ts|, i requires 0 <= i < |ts| => Lot(ts[i], ts[i].volume))
  }

  function Values(ls: seq<Lot>): (r: seq<Trade>)
    ensures |r| == |ls|
  {
    if ls == [] then [] else [ls[0].Value()] + Values(ls[1..])
  }

  lemma {:induction false} ValuesAt(ls: seq<Lot>, i: nat)
    requires i < |ls|
    ensures Values(ls)[i] == ls[i].Value()
  {
    if i > 0 { ValuesAt(ls[1..], i - 1); }
  }

  lemma {:induction false} ValuesAppend(a: seq<Lot>, b: seq<Lot>)
    ensures Values(a + b) == Values(a) + Values(b)
  {
    if a == [] {
      assert a + b == b;
    } else {
      assert (a + b)[1..] == a[1..] + b;
      ValuesAppend(a[1..], b);
    }
  }

  lemma LotsAppend(a: seq<Trade>, b: seq<Trade>)
    ensures Lots(a + b) == Lots(a) + Lots(b)
  {
  }

  lemma {:induction false} ValuesPermuted(a: seq<Lot>, b: seq<Lot>)
    requires multiset(a) == multiset(b)
    ensures multiset(Values(a)) == multiset(Values(b))
  {
    hide Lot.Value;
    if a == [] {
      assert |b| == |multiset(b)| == 0;
    } else {
      assert a == [a[0]] + a[1..];
      var before, after := Sorting.TakeOut(a[0], a[1..], b);
      ValuesPermuted(a[1..], before + after);
      ValuesAppend(before, after);
      ValuesAppend(before, [a[0]] + after);
      assert ([a[0]] + after)[1..] == after;
    }
  }

  predicate Sound(ls: seq<Lot>) { forall i :: 0 <= i < |ls| ==> ls[i].Sound() }

  predicate OnSide(ls: seq<Lot>, side: Side) { forall i :: 0 <= i < |ls| ==> ls[i].of.side == side }

  /** In order of time. */
  predicate Sequential(ls: seq<Lot>) { forall i, j :: 0 <= i < j < |ls| ==> ls[i].of.time <= ls[j].of.time }

  function Size(ls: seq<Lot>): (v: real)
    ensures Sound(ls) ==> v >= 0.0
    ensures Sound(ls) && ls != [] ==> v > 0.0
  {
    if ls == [] then 0.0 else ls[0].volume + Size(ls[1..])
  }

  lemma {:induction false} SizeOfLots(ts: seq<Trade>)
    ensures Size(Lots(ts)) == Volume(ts)
  {
    if ts != [] {
      assert Lots(ts)[1..] == Lots(ts[1..]);
      SizeOfLots(ts[1..]);
    }
  }

  function SumLots(ls: seq<Lot>, w: Lot -> real): real {
    if ls == [] then 0.0 else w(ls[0]) + SumLots(ls[1..], w)
  }

  /** A measure of lots that cutting one in two does not change. */
  ghost predicate AdditiveOnLots(w: Lot -> real) {
    forall l: Lot, v: real :: 0.0 < v < l.volume <= l.of.volume ==>
      w(l.Cut(v)) + w(l.Cut(l.volume - v)) == w(l)
  }

  /** `dropped` collects the trades without volume that the matching loop throws away. */
  datatype Split = Split(matched: seq<Lot>, position: seq<Lot>, dropped: seq<Lot>) {
    function Pair(active: Lot, other: Lot): Split { this.(matched := [active, other] + matched) }
    function Drop(l: Lot): Split { this.(dropped := [l] + dropped) }
  }

  /** The smaller of the two oldest lots closes against the other one. */
  function Match(bids: seq<Lot>, asks: seq<Lot>): Split
    decreases |bids| + |asks|
  {
    if bids == [] || asks == [] then Split([], bids + asks, [])
    else if bids[0].volume < asks[0].volume then
      var active, other := bids[0], asks[0];
      if active.volume <= 0.0 then Match(bids[1..], asks).Drop(active)
      else
        Match(bids[1..], [other.Cut(other.volume - active.volume)] + asks[1..])
        .Pair(active, other.Cut(active.volume))
    else
      var active, other := asks[0], bids[0];
      if active.volume <= 0.0 then Match(bids, asks[1..]).Drop(active)
      else if other.volume == active.volume then Match(bids[1..], asks[1..]).Pair(active, other)
      else
        Match([other.Cut(other.volume - active.volume)] + bids[1..], asks[1..])
        .Pair(active, other.Cut(active.volume))
  }

  /** One turn of the matching loop. */
  lemma MatchStep(b: Lot, bids: seq<Lot>, a: Lot, asks: seq<Lot>)
    ensures Match([b] + bids, [a] + asks)
         == if b.volume < a.volume then
              if b.volume <= 0.0 then Match(bids, [a] + asks).Drop(b)
              else Match(bids, [a.Cut(a.volume - b.volume)] + asks).Pair(b, a.Cut(b.volume))
            else if a.volume <= 0.0 then Match([b] + bids, asks).Drop(a)
            else if b.volume == a.volume then Match(bids, asks).Pair(a, b)
            else Match([b.Cut(b.volume - a.volume)] + bids, asks).Pair(a, b.Cut(a.volume))
  {
    assert ([b] + bids)[1..] == bids && ([a] + asks)[1..] == asks;
  }

  function Min(a: real, b: real): real { if a <= b then a else b }

  // ---- the matched list is a list of pairs ----

  predicate Opposed(a: Lot, b: Lot) {
    a.volume == b.volume > 0.0 && a.of.side != b.of.side
  }

  predicate Paired(m: seq<Lot>) {
    |m| % 2 == 0 && forall k :: 0 <= k < |m| - 1 && k % 2 == 0 ==> Opposed(m[k], m[k + 1])
  }

  lemma PairFirst(s: Split, a: Lot, b: Lot)
    requires Paired(s.matched) && Opposed(a, b)
    ensures Paired(s.Pair(a, b).matched)
  {
    var m := s.Pair(a, b).matched;
    forall k | 0 <= k < |m| - 1 && k % 2 == 0 ensures Opposed(m[k], m[k + 1]) {
      if k > 0 { assert Opposed(s.matched[k - 2], s.matched[k - 1]); }
    }
  }

  lemma {:induction false} MatchPairs(bids: seq<Lot>, asks: seq<Lot>)
    requires OnSide(bids, Bid) && OnSide(asks, Ask)
    ensures Paired(Match(bids, asks).matched)
    decreases |bids| + |asks|
  {
    if bids != [] && asks != [] {
      hide Paired;
      var b, a := bids[0], asks[0];
      if b.volume < a.volume {
        if b.volume <= 0.0 {
          MatchPairs(bids[1..], asks);
        } else {
          var asks1 := [a.Cut(a.volume - b.volume)] + asks[1..];
          MatchPairs(bids[1..], asks1);
          PairFirst(Match(bids[1..], asks1), b, a.Cut(b.volume));
        }
      } else if a.volume <= 0.0 {
        MatchPairs(bids, asks[1..]);
      } else if b.volume == a.volume {
        MatchPairs(bids[1..], asks[1..]);
        PairFirst(Match(bids[1..], asks[1..]), a, b);
      } else {
        var bids1 := [b.Cut(b.volume - a.volume)] + bids[1..];
        MatchPairs(bids1, asks[1..]);
        PairFirst(Match(bids1, asks[1..]), a, b.Cut(a.volume));
      }
    } else {
      assert Match(bids, asks).matched == [];
    }
  }

  // ---- conservation ----

  lemma {:induction false} SumLotsAppend(a: seq<Lot>, b: seq<Lot>, w: Lot -> real)
    ensures SumLots(a + b, w) == SumLots(a, w) + SumLots(b, w)
  {
    if a == [] {
      assert a + b == b;
    } else {
      assert (a + b)[1..] == a[1..] + b;
      SumLotsAppend(a[1..], b, w);
    }
  }

  lemma SumHead(l: Lot, ls: seq<Lot>, w: Lot -> real)
    ensures SumLots([l] + ls, w) == w(l) + SumLots(ls, w)
  {
    assert ([l] + ls)[1..] == ls;
  }

  lemma SumPair(s: Split, a: Lot, b: Lot, w: Lot -> real)
    ensures SumLots(s.Pair(a, b).matched, w) == w(a) + w(b) + SumLots(s.matched, w)
  {
    assert [a, b] + s.matched == [a] + ([b] + s.matched);
    SumHead(a, [b] + s.matched, w);
    SumHead(b, s.matched, w);
  }

  function Kept(s: Split, w: Lot -> real): real {
    SumLots(s.matched, w) + SumLots(s.position, w) + SumLots(s.dropped, w)
  }

  predicate Bounded(ls: seq<Lot>) { forall i :: 0 <= i < |ls| ==> ls[i].volume <= ls[i].of.volume }

  /** Nothing is lost or made up, whatever is measured. */
  lemma {:induction false} MatchConserves(bids: seq<Lot>, asks: seq<Lot>, w: Lot -> real)
    requires AdditiveOnLots(w) && Bounded(bids) && Bounded(asks)
    ensures Kept(Match(bids, asks), w) == SumLots(bids, w) + SumLots(asks, w)
    decreases |bids| + |asks|
  {
    if bids == [] || asks == [] {
      SumLotsAppend(bids, asks, w);
    } else {
      var b, a := bids[0], asks[0];
      if b.volume < a.volume {
        if b.volume <= 0.0 {
          MatchConserves(bids[1..], asks, w);
          SumHead(b, Match(bids[1..], asks).dropped, w);
        } else {
          var left := a.Cut(a.volume - b.volume);
          MatchConserves(bids[1..], [left] + asks[1..], w);
          SumPair(Match(bids[1..], [left] + asks[1..]), b, a.Cut(b.volume), w);
          SumHead(left, asks[1..], w);
        }
      } else if a.volume <= 0.0 {
        MatchConserves(bids, asks[1..], w);
        SumHead(a, Match(bids, asks[1..]).dropped, w);
      } else if b.volume == a.volume {
        MatchConserves(bids[1..], asks[1..], w);
        SumPair(Match(bids[1..], asks[1..]), a, b, w);
      } else {
        var left := b.Cut(b.volume - a.volume);
        MatchConserves([left] + bids[1..], asks[1..], w);
        SumPair(Match([left] + bids[1..], asks[1..]), a, b.Cut(a.volume), w);
        SumHead(left, bids[1..], w);
      }
    }
  }

  predicate CutFrom(l: Lot, ls: seq<Lot>) {
    exists m :: m in ls && l.of == m.of && (l == m || 0.0 < l.volume <= m.volume)
  }

  predicate AllCutFrom(fs: seq<Lot>, ls: seq<Lot>) { forall f :: f in fs ==> CutFrom(f, ls) }

  lemma CutFromLarger(fs: seq<Lot>, ls: seq<Lot>, ms: seq<Lot>)
    requires AllCutFrom(fs, ls) && AllCutFrom(ls, ms)
    ensures AllCutFrom(fs, ms)
  {
    forall f | f in fs ensures CutFrom(f, ms) {
      var l :| l in ls && f.of == l.of && (f == l || 0.0 < f.volume <= l.volume);
      assert CutFrom(l, ms);
    }
  }

  lemma CutsCarry(s1: Split, ls1: seq<Lot>, ls: seq<Lot>)
    requires AllCutFrom(s1.matched, ls1) && AllCutFrom(s1.position, ls1) && AllCutFrom(ls1, ls)
    ensures AllCutFrom(s1.matched, ls) && AllCutFrom(s1.position, ls)
  {
    CutFromLarger(s1.matched, ls1, ls);
    CutFromLarger(s1.position, ls1, ls);
  }

  lemma CutHead(l: Lot, v: real, w: real, ls: seq<Lot>, ls1: seq<Lot>)
    requires l in ls && 0.0 < v <= l.volume && 0.0 < w <= l.volume
    requires forall m :: m in ls1 ==> m == l.Cut(v) || m in ls
    ensures AllCutFrom(ls1, ls) && CutFrom(l, ls) && CutFrom(l.Cut(w), ls)
  {
  }

  lemma PairCuts(s: Split, a: Lot, b: Lot, ls: seq<Lot>)
    requires AllCutFrom(s.matched, ls) && CutFrom(a, ls) && CutFrom(b, ls)
    ensures AllCutFrom(s.Pair(a, b).matched, ls)
  {
  }

  lemma CutClosing(s: Split, x: Lot, y: Lot, ls: seq<Lot>, ls1: seq<Lot>)
    requires x in ls && y in ls && 0.0 < x.volume < y.volume
    requires forall m :: m in ls1 ==> m == y.Cut(y.volume - x.volume) || m in ls
    requires AllCutFrom(s.matched, ls1) && AllCutFrom(s.position, ls1)
    ensures AllCutFrom(s.Pair(x, y.Cut(x.volume)).matched, ls) && AllCutFrom(s.position, ls)
  {
    CutHead(y, y.volume - x.volume, x.volume, ls, ls1);
    assert CutFrom(x, ls);
    hide CutFrom;
    CutsCarry(s, ls1, ls);
    PairCuts(s, x, y.Cut(x.volume), ls);
  }

  lemma WholeClosing(s: Split, x: Lot, y: Lot, ls: seq<Lot>, ls1: seq<Lot>)
    requires x in ls && y in ls && forall m :: m in ls1 ==> m in ls
    requires AllCutFrom(s.matched, ls1) && AllCutFrom(s.position, ls1)
    ensures AllCutFrom(s.matched, ls) && AllCutFrom(s.position, ls)
    ensures AllCutFrom(s.Pair(x, y).matched, ls)
  {
    assert CutFrom(x, ls) && CutFrom(y, ls);
    SubCuts(ls1, ls);
    hide CutFrom;
    CutsCarry(s, ls1, ls);
    PairCuts(s, x, y, ls);
  }

  lemma NothingCut(ls: seq<Lot>)
    ensures AllCutFrom([], ls) && AllCutFrom(ls, ls)
  {
    SubCuts(ls, ls);
  }

  /** Every piece is cut from one input trade. */
  lemma {:induction false} MatchCuts(bids: seq<Lot>, asks: seq<Lot>)
    ensures AllCutFrom(Match(bids, asks).matched, bids + asks)
    ensures AllCutFrom(Match(bids, asks).position, bids + asks)
    decreases |bids| + |asks|
  {
    hide CutFrom;
    hide AllCutFrom;
    NothingCut(bids + asks);
    if bids != [] && asks != [] {
      var b, a, ls := bids[0], asks[0], bids + asks;
      var bids1, asks1 := bids[1..], asks[1..];
      assert b in ls && a in ls && bids == [b] + bids1 && asks == [a] + asks1;
      MatchStep(b, bids1, a, asks1);
      hide Match;
      if 0.0 < b.volume < a.volume {
        var rest := [a.Cut(a.volume - b.volume)] + asks1;
        MatchCuts(bids1, rest);
        CutClosing(Match(bids1, rest), b, a, ls, bids1 + rest);
      } else if 0.0 < a.volume < b.volume {
        var rest := [b.Cut(b.volume - a.volume)] + bids1;
        MatchCuts(rest, asks1);
        CutClosing(Match(rest, asks1), a, b, ls, rest + asks1);
      } else if b.volume < a.volume {
        MatchCuts(bids1, asks);
        WholeClosing(Match(bids1, asks), a, b, ls, bids1 + asks);
      } else if a.volume <= 0.0 {
        MatchCuts(bids, asks1);
        WholeClosing(Match(bids, asks1), a, b, ls, bids + asks1);
      } else {
        MatchCuts(bids1, asks1);
        WholeClosing(Match(bids1, asks1), a, b, ls, bids1 + asks1);
      }
    }
  }

  lemma SubCuts(ls1: seq<Lot>, ls: seq<Lot>)
    requires forall l :: l in ls1 ==> l in ls
    ensures AllCutFrom(ls1, ls)
  {
    forall l | l in ls1 ensures CutFrom(l, ls) { assert l in ls; }
  }

  /** Only trades without volume are dropped. */
  lemma {:induction false} MatchDrops(bids: seq<Lot>, asks: seq<Lot>)
    ensures forall l :: l in Match(bids, asks).dropped ==> l.volume <= 0.0
    decreases |bids| + |asks|
  {
    if bids != [] && asks != [] {
      var b, a := bids[0], asks[0];
      if b.volume < a.volume {
        if b.volume <= 0.0 { MatchDrops(bids[1..], asks); }
        else { MatchDrops(bids[1..], [a.Cut(a.volume - b.volume)] + asks[1..]); }
      } else if a.volume <= 0.0 { MatchDrops(bids, asks[1..]); }
      else if b.volume == a.volume { MatchDrops(bids[1..], asks[1..]); }
      else { MatchDrops([b.Cut(b.volume - a.volume)] + bids[1..], asks[1..]); }
    }
  }

  predicate AllNonNegative(ls: seq<Lot>) { forall i :: 0 <= i < |ls| ==> ls[i].volume >= 0.0 }

  /** The volume of one side. */
  function On(side: Side): Lot -> real { (l: Lot) => if l.of.side == side then l.volume else 0.0 }

  lemma {:induction false} SizeNonNegative(ls: seq<Lot>)
    requires AllNonNegative(ls)
    ensures Size(ls) >= 0.0
  {
    if ls != [] { SizeNonNegative(ls[1..]); }
  }

  lemma SizeHead(l: Lot, ls: seq<Lot>)
    ensures Size([l] + ls) == l.volume + Size(ls)
  {
    assert ([l] + ls)[1..] == ls;
  }

  /** A pair takes its volume once from each side. */
  lemma PairOn(s: Split, x: Lot, y: Lot, side: Side)
    requires x.volume == y.volume && x.of.side != y.of.side
    ensures SumLots(s.Pair(x, y).matched, On(side)) == x.volume + SumLots(s.matched, On(side))
  {
    SumPair(s, x, y, On(side));
  }

  lemma RestKeeps(l: Lot, ls: seq<Lot>, side: Side)
    requires AllNonNegative([l] + ls) && OnSide([l] + ls, side)
    ensures l.volume >= 0.0 && l.of.side == side && AllNonNegative(ls) && OnSide(ls, side)
    ensures Size([l] + ls) == l.volume + Size(ls) && Size(ls) >= 0.0
  {
    SizeHead(l, ls);
    assert ([l] + ls)[0] == l;
    assert forall i :: 0 <= i < |ls| ==> ls[i] == ([l] + ls)[i + 1];
    SizeNonNegative(ls);
  }

  lemma CutKeeps(l: Lot, ls: seq<Lot>, v: real, side: Side)
    requires AllNonNegative([l] + ls) && OnSide([l] + ls, side) && 0.0 <= v <= l.volume
    ensures var rest := [l.Cut(l.volume - v)] + ls;
      AllNonNegative(rest) && OnSide(rest, side) && Size(rest) == Size([l] + ls) - v
  {
    SizeHead(l, ls);
    SizeHead(l.Cut(l.volume - v), ls);
    forall i | 0 < i < |ls| + 1 ensures ([l.Cut(l.volume - v)] + ls)[i] == ([l] + ls)[i] {}
  }

  predicate AsMuch(bids: seq<Lot>, asks: seq<Lot>, side: Side) {
    SumLots(Match(bids, asks).matched, On(side)) == Min(Size(bids), Size(asks))
  }

  lemma BidCloses(b: Lot, bids: seq<Lot>, a: Lot, asks: seq<Lot>, side: Side)
    requires b.of.side == Bid && a.of.side == Ask && 0.0 < b.volume < a.volume
    requires AsMuch(bids, [a.Cut(a.volume - b.volume)] + asks, side)
    ensures AsMuch([b] + bids, [a] + asks, side)
  {
    hide Match;
    hide SumLots;
    hide On;
    MatchStep(b, bids, a, asks);
    SizeHead(b, bids);
    SizeHead(a, asks);
    SizeHead(a.Cut(a.volume - b.volume), asks);
    PairOn(Match(bids, [a.Cut(a.volume - b.volume)] + asks), b, a.Cut(b.volume), side);
  }

  lemma AskCloses(b: Lot, bids: seq<Lot>, a: Lot, asks: seq<Lot>, side: Side)
    requires b.of.side == Bid && a.of.side == Ask && 0.0 < a.volume < b.volume
    requires AsMuch([b.Cut(b.volume - a.volume)] + bids, asks, side)
    ensures AsMuch([b] + bids, [a] + asks, side)
  {
    hide Match;
    hide SumLots;
    hide On;
    MatchStep(b, bids, a, asks);
    SizeHead(b, bids);
    SizeHead(a, asks);
    SizeHead(b.Cut(b.volume - a.volume), bids);
    PairOn(Match([b.Cut(b.volume - a.volume)] + bids, asks), a, b.Cut(a.volume), side);
  }

  lemma NoneClose(bids: seq<Lot>, asks: seq<Lot>, side: Side)
    requires AllNonNegative(bids) && AllNonNegative(asks) && (bids == [] || asks == [])
    ensures AsMuch(bids, asks, side)
  {
    SizeNonNegative(bids);
    SizeNonNegative(asks);
  }

  lemma BothClose(b: Lot, bids: seq<Lot>, a: Lot, asks: seq<Lot>, side: Side)
    requires b.of.side == Bid && a.of.side == Ask && a.volume == b.volume > 0.0
    requires AsMuch(bids, asks, side)
    ensures AsMuch([b] + bids, [a] + asks, side)
  {
    hide Match;
    hide SumLots;
    hide On;
    MatchStep(b, bids, a, asks);
    SizeHead(b, bids);
    SizeHead(a, asks);
    PairOn(Match(bids, asks), a, b, side);
  }

  /** A lot without volume changes nothing. */
  lemma OneDrops(b: Lot, bids: seq<Lot>, a: Lot, asks: seq<Lot>, side: Side)
    requires AllNonNegative([b] + bids) && AllNonNegative([a] + asks)
    requires (0.0 == b.volume < a.volume && AsMuch(bids, [a] + asks, side))
          || (0.0 == a.volume <= b.volume && AsMuch([b] + bids, asks, side))
    ensures AsMuch([b] + bids, [a] + asks, side)
  {
    hide Match;
    hide SumLots;
    hide On;
    MatchStep(b, bids, a, asks);
    SizeHead(b, bids);
    SizeHead(a, asks);
  }

  /** As much is matched on each side as the smaller side holds. */
  lemma {:induction false} MatchedSize(bids: seq<Lot>, asks: seq<Lot>, side: Side)
    requires AllNonNegative(bids) && AllNonNegative(asks) && OnSide(bids, Bid) && OnSide(asks, Ask)
    ensures AsMuch(bids, asks, side)
    decreases |bids| + |asks|
  {
    hide AsMuch;
    if bids == [] || asks == [] {
      NoneClose(bids, asks, side);
    } else {
      var b, a := bids[0], asks[0];
      assert bids == [b] + bids[1..] && asks == [a] + asks[1..];
      RestKeeps(b, bids[1..], Bid);
      RestKeeps(a, asks[1..], Ask);
      hide AllNonNegative;
      hide OnSide;
      if 0.0 < b.volume < a.volume {
        CutKeeps(a, asks[1..], b.volume, Ask);
        MatchedSize(bids[1..], [a.Cut(a.volume - b.volume)] + asks[1..], side);
        BidCloses(b, bids[1..], a, asks[1..], side);
      } else if 0.0 < a.volume < b.volume {
        CutKeeps(b, bids[1..], a.volume, Bid);
        MatchedSize([b.Cut(b.volume - a.volume)] + bids[1..], asks[1..], side);
        AskCloses(b, bids[1..], a, asks[1..], side);
      } else if 0.0 < a.volume == b.volume {
        MatchedSize(bids[1..], asks[1..], side);
        BothClose(b, bids[1..], a, asks[1..], side);
      } else {
        if b.volume < a.volume { MatchedSize(bids[1..], asks, side); } else { MatchedSize(bids, asks[1..], side); }
        OneDrops(b, bids[1..], a, asks[1..], side);
      }
    }
  }

  // ---- what is thrown away ----

  /** The lots without volume that are reached before `limit` of the volume in front of them is used up, or, when
      asked for, just as it is. */
  function Idle(ls: seq<Lot>, limit: real, through: bool): seq<Lot> {
    if ls == [] then [] else
      (if ls[0].volume == 0.0 && (0.0 < limit || (through && limit == 0.0)) then [ls[0]] else [])
      + Idle(ls[1..], limit - ls[0].volume, through)
  }

  predicate EndsIdle(ls: seq<Lot>) { ls != [] && ls[|ls| - 1].volume == 0.0 }

  lemma IdleHead(l: Lot, ls: seq<Lot>, limit: real, through: bool)
    ensures Idle([l] + ls, limit, through)
         == (if l.volume == 0.0 && (0.0 < limit || (through && limit == 0.0)) then [l] else [])
            + Idle(ls, limit - l.volume, through)
  {
    assert ([l] + ls)[1..] == ls;
  }

  lemma {:induction false} NoneIdle(ls: seq<Lot>, limit: real, through: bool)
    requires AllNonNegative(ls) && (limit < 0.0 || (limit == 0.0 && !through))
    ensures Idle(ls, limit, through) == []
  {
    if ls != [] { NoneIdle(ls[1..], limit - ls[0].volume, through); }
  }

  lemma EndsIdleHead(l: Lot, ls: seq<Lot>)
    ensures EndsIdle([l] + ls) == if ls == [] then l.volume == 0.0 else EndsIdle(ls)
  {
  }

  lemma {:induction false} AllIdle(ls: seq<Lot>)
    requires AllNonNegative(ls) && ls != [] && Size(ls) == 0.0
    ensures EndsIdle(ls)
  {
    SizeNonNegative(ls[1..]);
    if |ls| > 1 { AllIdle(ls[1..]); }
  }

  /** Exactly the idle bids that come before the asks' volume is used up, and the idle asks that come before the
      bids' volume is, or then, if the bids end in an idle one. */
  predicate Throws(bids: seq<Lot>, asks: seq<Lot>) {
    multiset(Match(bids, asks).dropped)
    == multiset(Idle(bids, Size(asks), false)) + multiset(Idle(asks, Size(bids), EndsIdle(bids)))
  }

  lemma NoneThrown(bids: seq<Lot>, asks: seq<Lot>)
    requires AllNonNegative(bids) && AllNonNegative(asks) && (bids == [] || asks == [])
    ensures Throws(bids, asks)
  {
    NoneIdle(bids, 0.0, false);
    NoneIdle(asks, 0.0, false);
  }

  /** In front of a lot with volume nothing changes with the end of the other side. */
  lemma ThroughNothing(a: Lot, asks: seq<Lot>, through: bool)
    requires 0.0 < a.volume && AllNonNegative(asks)
    ensures Idle([a] + asks, 0.0, through) == []
  {
    IdleHead(a, asks, 0.0, through);
    NoneIdle(asks, -a.volume, through);
  }

  lemma BidIsThrown(b: Lot, bids: seq<Lot>, a: Lot, asks: seq<Lot>)
    requires b.volume == 0.0 < a.volume && AllNonNegative(asks)
    requires Throws(bids, [a] + asks)
    ensures Throws([b] + bids, [a] + asks)
  {
    hide Match;
    hide Idle;
    hide EndsIdle;
    MatchStep(b, bids, a, asks);
    SizeNonNegative(asks);
    SizeHead(a, asks);
    SizeHead(b, bids);
    IdleHead(b, bids, Size([a] + asks), false);
    EndsIdleHead(b, bids);
    if bids == [] {
      ThroughNothing(a, asks, true);
      ThroughNothing(a, asks, false);
    }
    hide Size;
    hide AllNonNegative;
  }

  lemma NoneEndIdle()
    ensures !EndsIdle([])
  {
  }

  lemma AskIsThrown(b: Lot, bids: seq<Lot>, a: Lot, asks: seq<Lot>)
    requires a.volume == 0.0 <= b.volume && AllNonNegative([b] + bids)
    requires Throws([b] + bids, asks)
    ensures Throws([b] + bids, [a] + asks)
  {
    hide Match;
    hide Idle;
    hide EndsIdle;
    hide AllNonNegative;
    MatchStep(b, bids, a, asks);
    SizeHead(a, asks);
    SizeNonNegative([b] + bids);
    IdleHead(a, asks, Size([b] + bids), EndsIdle([b] + bids));
    if Size([b] + bids) == 0.0 { AllIdle([b] + bids); }
    hide Size;
  }

  lemma BidClosesThrown(b: Lot, bids: seq<Lot>, a: Lot, asks: seq<Lot>)
    requires 0.0 < b.volume < a.volume
    requires Throws(bids, [a.Cut(a.volume - b.volume)] + asks)
    ensures Throws([b] + bids, [a] + asks)
  {
    hide Match;
    hide Idle;
    hide EndsIdle;
    var a1 := a.Cut(a.volume - b.volume);
    MatchStep(b, bids, a, asks);
    SizeHead(a, asks);
    SizeHead(a1, asks);
    SizeHead(b, bids);
    IdleHead(b, bids, Size([a] + asks), false);
    EndsIdleHead(b, bids);
    if bids == [] { NoneEndIdle(); }
    IdleHead(a, asks, Size([b] + bids), EndsIdle(bids));
    IdleHead(a1, asks, Size(bids), EndsIdle(bids));
    hide Size;
  }

  lemma AskClosesThrown(b: Lot, bids: seq<Lot>, a: Lot, asks: seq<Lot>)
    requires 0.0 < a.volume < b.volume
    requires Throws([b.Cut(b.volume - a.volume)] + bids, asks)
    ensures Throws([b] + bids, [a] + asks)
  {
    hide Match;
    hide Idle;
    hide EndsIdle;
    var b1 := b.Cut(b.volume - a.volume);
    MatchStep(b, bids, a, asks);
    SizeHead(a, asks);
    SizeHead(b1, bids);
    SizeHead(b, bids);
    EndsIdleHead(b, bids);
    EndsIdleHead(b1, bids);
    IdleHead(b, bids, Size([a] + asks), false);
    IdleHead(b1, bids, Size(asks), false);
    IdleHead(a, asks, Size([b] + bids), EndsIdle([b] + bids));
    hide Size;
  }

  lemma BothCloseThrown(b: Lot, bids: seq<Lot>, a: Lot, asks: seq<Lot>)
    requires 0.0 < a.volume == b.volume
    requires Throws(bids, asks)
    ensures Throws([b] + bids, [a] + asks)
  {
    hide Match;
    hide Idle;
    hide EndsIdle;
    MatchStep(b, bids, a, asks);
    SizeHead(a, asks);
    SizeHead(b, bids);
    EndsIdleHead(b, bids);
    if bids == [] { NoneEndIdle(); }
    IdleHead(b, bids, Size([a] + asks), false);
    IdleHead(a, asks, Size([b] + bids), EndsIdle(bids));
    hide Size;
  }

  /** What the matching loop throws away, read off its input. */
  lemma {:induction false} MatchThrows(bids: seq<Lot>, asks: seq<Lot>)
    requires AllNonNegative(bids) && AllNonNegative(asks)
    ensures Throws(bids, asks)
    decreases |bids| + |asks|
  {
    hide Throws;
    if bids == [] || asks == [] {
      NoneThrown(bids, asks);
    } else {
      var b, a := bids[0], asks[0];
      assert bids == [b] + bids[1..] && asks == [a] + asks[1..];
      if 0.0 < b.volume < a.volume {
        MatchThrows(bids[1..], [a.Cut(a.volume - b.volume)] + asks[1..]);
        BidClosesThrown(b, bids[1..], a, asks[1..]);
      } else if 0.0 < a.volume < b.volume {
        MatchThrows([b.Cut(b.volume - a.volume)] + bids[1..], asks[1..]);
        AskClosesThrown(b, bids[1..], a, asks[1..]);
      } else if 0.0 < a.volume == b.volume {
        MatchThrows(bids[1..], asks[1..]);
        BothCloseThrown(b, bids[1..], a, asks[1..]);
      } else if b.volume < a.volume {
        MatchThrows(bids[1..], asks);
        BidIsThrown(b, bids[1..], a, asks[1..]);
      } else {
        MatchThrows(bids, asks[1..]);
        AskIsThrown(b, bids[1..], a, asks[1..]);
      }
    }
  }

  /** When the loop stops, one of the two sides is empty. */
  lemma {:induction false} PositionOneSided(bids: seq<Lot>, asks: seq<Lot>)
    requires OnSide(bids, Bid) && OnSide(asks, Ask)
    ensures var p := Match(bids, asks).position; OnSide(p, Bid) || OnSide(p, Ask)
    decreases |bids| + |asks|
  {
    if bids != [] && asks != [] {
      var b, a := bids[0], asks[0];
      if b.volume < a.volume {
        if b.volume <= 0.0 { PositionOneSided(bids[1..], asks); }
        else { PositionOneSided(bids[1..], [a.Cut(a.volume - b.volume)] + asks[1..]); }
      } else if a.volume <= 0.0 { PositionOneSided(bids, asks[1..]); }
      else if b.volume == a.volume { PositionOneSided(bids[1..], asks[1..]); }
      else { PositionOneSided([b.Cut(b.volume - a.volume)] + bids[1..], asks[1..]); }
    }
  }

  lemma SequentialCut(l: Lot, ls: seq<Lot>, v: real)
    requires Sequential([l] + ls)
    ensures Sequential([l.Cut(v)] + ls) && Sequential(ls)
  {
    var was, now := [l] + ls, [l.Cut(v)] + ls;
    forall i | 0 <= i < |now| ensures now[i].of == was[i].of {}
    assert forall i :: 0 <= i < |ls| ==> ls[i] == was[i + 1];
  }

  /** What is left stays in order of time. */
  lemma {:induction false} PositionSequential(bids: seq<Lot>, asks: seq<Lot>)
    requires Sequential(bids) && Sequential(asks)
    ensures Sequential(Match(bids, asks).position)
    decreases |bids| + |asks|
  {
    if bids != [] && asks != [] {
      var b, a := bids[0], asks[0];
      assert bids == [b] + bids[1..] && asks == [a] + asks[1..];
      MatchStep(b, bids[1..], a, asks[1..]);
      SequentialCut(b, bids[1..], b.volume - a.volume);
      SequentialCut(a, asks[1..], a.volume - b.volume);
      hide Match;
      hide Sequential;
      if 0.0 < b.volume < a.volume {
        PositionSequential(bids[1..], [a.Cut(a.volume - b.volume)] + asks[1..]);
      } else if b.volume < a.volume {
        PositionSequential(bids[1..], asks);
      } else if a.volume <= 0.0 {
        PositionSequential(bids, asks[1..]);
      } else if b.volume == a.volume {
        PositionSequential(bids[1..], asks[1..]);
      } else {
        PositionSequential([b.Cut(b.volume - a.volume)] + bids[1..], asks[1..]);
      }
    }
  }

  // ---- what is left ----

  /** The list after the oldest `c` of its volume is taken away. */
  function DropVolume(s: seq<Lot>, c: real): seq<Lot> {
    if s == [] || c <= 0.0 then s
    else if s[0].volume <= c then DropVolume(s[1..], c - s[0].volume)
    else [s[0].Cut(s[0].volume - c)] + s[1..]
  }

  lemma DropWhole(l: Lot, s: seq<Lot>, c: real)
    requires 0.0 < l.volume <= c
    ensures DropVolume([l] + s, c) == DropVolume(s, c - l.volume)
  {
    assert ([l] + s)[1..] == s;
  }

  /** Taking volume away in two steps. */
  lemma DropCut(l: Lot, s: seq<Lot>, v: real, c: real)
    requires 0.0 < v < l.volume && v <= c
    ensures DropVolume([l] + s, c) == DropVolume([l.Cut(l.volume - v)] + s, c - v)
  {
    var left := l.Cut(l.volume - v);
    assert ([l] + s)[1..] == s == ([left] + s)[1..];
  }

  lemma {:induction false} DropAll(s: seq<Lot>)
    requires Sound(s)
    ensures DropVolume(s, Size(s)) == []
  {
    if s != [] { DropAll(s[1..]); }
  }

  ghost predicate Leaves(bids: seq<Lot>, asks: seq<Lot>) {
    var m := Min(Size(bids), Size(asks));
    Match(bids, asks).position == DropVolume(bids, m) + DropVolume(asks, m) && Match(bids, asks).dropped == []
  }

  lemma ShortenHead(l: Lot, s: seq<Lot>, v: real)
    requires l.Sound() && Sound(s) && 0.0 < v < l.volume
    ensures var s1 := [l.Cut(l.volume - v)] + s; Sound(s1) && Size(s1) == Size([l] + s) - v
  {
    assert ([l] + s)[1..] == s == ([l.Cut(l.volume - v)] + s)[1..];
  }

  /** One whole lot of `xs` closes against part of the first of `ys`. */
  lemma LeavesAfter(xs: seq<Lot>, ys: seq<Lot>, m: real)
    requires Sound(xs) && Sound(ys) && xs != [] && ys != []
    requires xs[0].volume < ys[0].volume && xs[0].volume <= m
    ensures var ys1 := [ys[0].Cut(ys[0].volume - xs[0].volume)] + ys[1..];
      && Sound(ys1) && Size(ys1) == Size(ys) - xs[0].volume && Size(xs[1..]) == Size(xs) - xs[0].volume
      && DropVolume(xs, m) == DropVolume(xs[1..], m - xs[0].volume)
      && DropVolume(ys, m) == DropVolume(ys1, m - xs[0].volume)
  {
    assert xs == [xs[0]] + xs[1..] && ys == [ys[0]] + ys[1..];
    DropWhole(xs[0], xs[1..], m);
    DropCut(ys[0], ys[1..], xs[0].volume, m);
    ShortenHead(ys[0], ys[1..], xs[0].volume);
  }

  lemma BidLeaves(bids: seq<Lot>, asks: seq<Lot>)
    requires Sound(bids) && Sound(asks) && bids != [] && asks != [] && bids[0].volume < asks[0].volume
    requires Leaves(bids[1..], [asks[0].Cut(asks[0].volume - bids[0].volume)] + asks[1..])
    ensures Leaves(bids, asks)
  {
    var m := Min(Size(bids), Size(asks));
    assert bids == [bids[0]] + bids[1..] && asks == [asks[0]] + asks[1..];
    MatchStep(bids[0], bids[1..], asks[0], asks[1..]);
    LeavesAfter(bids, asks, m);
    hide Match;
    hide DropVolume;
    hide Size;
    hide Sound;
  }

  lemma AskLeaves(bids: seq<Lot>, asks: seq<Lot>)
    requires Sound(bids) && Sound(asks) && bids != [] && asks != [] && asks[0].volume < bids[0].volume
    requires Leaves([bids[0].Cut(bids[0].volume - asks[0].volume)] + bids[1..], asks[1..])
    ensures Leaves(bids, asks)
  {
    var m := Min(Size(bids), Size(asks));
    assert bids == [bids[0]] + bids[1..] && asks == [asks[0]] + asks[1..];
    MatchStep(bids[0], bids[1..], asks[0], asks[1..]);
    LeavesAfter(asks, bids, m);
    hide Match;
    hide DropVolume;
    hide Size;
    hide Sound;
  }

  lemma BothLeave(bids: seq<Lot>, asks: seq<Lot>)
    requires Sound(bids) && Sound(asks) && bids != [] && asks != [] && asks[0].volume == bids[0].volume
    requires Leaves(bids[1..], asks[1..])
    ensures Leaves(bids, asks)
  {
    var m := Min(Size(bids), Size(asks));
    assert bids == [bids[0]] + bids[1..] && asks == [asks[0]] + asks[1..];
    MatchStep(bids[0], bids[1..], asks[0], asks[1..]);
    DropWhole(bids[0], bids[1..], m);
    DropWhole(asks[0], asks[1..], m);
    hide Match;
    hide DropVolume;
  }

  /** The matching loop leaves each side without its oldest min(bids, asks) of volume. */
  lemma {:induction false} MatchLeaves(bids: seq<Lot>, asks: seq<Lot>)
    requires Sound(bids) && Sound(asks)
    ensures Leaves(bids, asks)
    decreases |bids| + |asks|
  {
    if bids == [] || asks == [] {
      NoMatch(bids, asks);
    } else {
      hide Leaves;
      var b, a := bids[0], asks[0];
      if b.volume < a.volume {
        MatchLeaves(bids[1..], [a.Cut(a.volume - b.volume)] + asks[1..]);
        BidLeaves(bids, asks);
      } else if b.volume == a.volume {
        MatchLeaves(bids[1..], asks[1..]);
        BothLeave(bids, asks);
      } else {
        MatchLeaves([b.Cut(b.volume - a.volume)] + bids[1..], asks[1..]);
        AskLeaves(bids, asks);
      }
    }
  }

  lemma NoMatch(bids: seq<Lot>, asks: seq<Lot>)
    requires Sound(bids) && Sound(asks) && (bids == [] || asks == [])
    ensures Leaves(bids, asks)
  {
  }

  /** The leftover list is sound and short of exactly `c`. */
  lemma {:induction false} DropSize(s: seq<Lot>, c: real)
    requires Sound(s) && 0.0 <= c <= Size(s)
    ensures Sound(DropVolume(s, c)) && Size(DropVolume(s, c)) == Size(s) - c
  {
    if s != [] && c > 0.0 {
      if s[0].volume <= c {
        DropSize(s[1..], c - s[0].volume);
      } else {
        assert ([s[0].Cut(s[0].volume - c)] + s[1..])[1..] == s[1..];
      }
    }
  }

  lemma {:induction false} DropOnSide(s: seq<Lot>, c: real, side: Side)
    requires OnSide(s, side)
    ensures OnSide(DropVolume(s, c), side)
  {
    if s != [] && c > 0.0 && s[0].volume <= c { DropOnSide(s[1..], c - s[0].volume, side); }
  }

  predicate OlderThan(ls: seq<Lot>, time: int) { forall i :: 0 <= i < |ls| ==> ls[i].of.time < time }

  /** The leftover list stays in order of time, within the same period. */
  lemma {:induction false} DropOrder(s: seq<Lot>, c: real, time: int)
    requires Sequential(s) && OlderThan(s, time)
    ensures Sequential(DropVolume(s, c)) && OlderThan(DropVolume(s, c), time)
  {
    if s != [] && c > 0.0 && s[0].volume <= c { DropOrder(s[1..], c - s[0].volume, time); }
  }

  lemma DropNone(s: seq<Lot>)
    ensures DropVolume(s, 0.0) == s
  {
  }

  lemma DropPart(l: Lot, s: seq<Lot>, c: real)
    requires 0.0 < c < l.volume
    ensures DropVolume([l] + s, c) == [l.Cut(l.volume - c)] + s
  {
    assert ([l] + s)[1..] == s;
  }

  /** Taking volume from a leftover with newer trades behind it is taking more from the whole. */
  lemma {:induction false} DropCarry(s: seq<Lot>, newer: seq<Lot>, c: real, d: real)
    requires Sound(s) && 0.0 <= c <= Size(s) && 0.0 <= d
    ensures DropVolume(DropVolume(s, c) + newer, d) == DropVolume(s + newer, c + d)
  {
    hide DropVolume;
    if s == [] || c == 0.0 {
      DropNone(s);
    } else {
      var h, r := s[0], s[1..];
      assert s == [h] + r;
      assert s + newer == [h] + (r + newer);
      if h.volume <= c {
        DropWhole(h, r, c);
        DropWhole(h, r + newer, c + d);
        DropCarry(r, newer, c - h.volume, d);
      } else {
        var left := h.Cut(h.volume - c);
        DropPart(h, r, c);
        assert [left] + r + newer == [left] + (r + newer);
        DropCut(h, r + newer, c, c + d);
      }
    }
  }

  // ---- scanning backwards ----

  /** The newest `need` of volume, the oldest trade of it trimmed to fit. */
  function KeepNewest(s: seq<Lot>, need: real): seq<Lot> {
    if s == [] || need <= 0.0 then []
    else
      var last := s[|s| - 1];
      if last.volume < need then KeepNewest(s[..|s| - 1], need - last.volume) + [last]
      else [last.Cut(need)]
  }

  lemma {:induction false} SizeAppend(a: seq<Lot>, b: seq<Lot>)
    ensures Size(a + b) == Size(a) + Size(b)
  {
    if a == [] {
      assert a + b == b;
    } else {
      assert (a + b)[1..] == a[1..] + b;
      SizeAppend(a[1..], b);
    }
  }

  lemma KeepLast(s: seq<Lot>, last: Lot, need: real)
    requires need > 0.0
    ensures KeepNewest(s + [last], need)
         == if last.volume < need then KeepNewest(s, need - last.volume) + [last] else [last.Cut(need)]
  {
    assert (s + [last])[..|s|] == s;
  }

  lemma {:induction false} KeepFromFront(h: Lot, r: seq<Lot>, need: real)
    requires h.Sound() && Sound(r) && 0.0 < need <= h.volume + Size(r)
    ensures KeepNewest([h] + r, need)
         == if need <= Size(r) then KeepNewest(r, need) else [h.Cut(need - Size(r))] + r
  {
    hide KeepNewest;
    hide Lot.Sound;
    if r == [] {
      assert [h] + r == [] + [h];
      KeepLast([], h, need);
    } else {
      var last, r' := r[|r| - 1], r[..|r| - 1];
      assert r == r' + [last] && [h] + r == ([h] + r') + [last];
      SizeAppend(r', [last]);
      assert Size([last]) == last.volume;
      hide Size;
      KeepLast([h] + r', last, need);
      KeepLast(r', last, need);
      if last.volume < need {
        hide Sound;
        KeepFromFront(h, r', need - last.volume);
        assert [h.Cut(need - Size(r))] + r' + [last] == [h.Cut(need - Size(r))] + r;
      }
    }
  }

  /** The forward leftover and the backward scan are the same list. */
  lemma {:induction false} DropIsKeep(s: seq<Lot>, need: real)
    requires Sound(s) && 0.0 < need <= Size(s)
    ensures DropVolume(s, Size(s) - need) == KeepNewest(s, need)
  {
    var h, r := s[0], s[1..];
    assert s == [h] + r;
    KeepFromFront(h, r, need);
    if need <= Size(r) { DropIsKeep(r, need); }
  }
}
