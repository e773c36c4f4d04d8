/** open_position_trades: the batched backward scan (gryphon/lib/gryphonfury/revenue.py:565-625). */
module PositionScan {
  import opened Wrappers
  import opened Trades
  import opened History
  import opened Fifo
  import opened Splitting
  import opened OpenPosition
  import opened SplitInPlace

  function Candidates(db: seq<Trade>, actor: string, side: Side, startTime: int): seq<Trade> {
    OfSide(Before(OfActor(db, actor), startTime), side)
  }

  function Ids(ts: seq<Trade>): set<nat> { set t | t in ts :: t.id }

  /** One query: the newest trades not seen yet, at most ten of them. */
  function Batch(db: seq<Trade>, actor: string, side: Side, startTime: int, seen: set<nat>): seq<Trade> {
    var unseen := Where(Reverse(Candidates(db, actor, side, startTime)), (t: Trade) => t.id !in seen);
    if |unseen| <= 10 then unseen else unseen[..10]
  }

  lemma UnseenIsRest(desc: seq<Trade>, k: nat)
    requires DistinctIds(desc) && k <= |desc|
    ensures Where(desc, (t: Trade) => t.id !in Ids(desc[..k])) == desc[k..]
  {
    var p := (t: Trade) => t.id !in Ids(desc[..k]);
    assert desc == desc[..k] + desc[k..];
    WhereAppend(desc[..k], desc[k..], p);
    WhereNone(desc[..k], p);
    WhereAll(desc[k..], p);
  }

  lemma {:induction false} VolumePrefix(ts: seq<Trade>, k: nat)
    requires NonNegative(ts) && k <= |ts|
    ensures Volume(ts[..k]) <= Volume(ts)
  {
    assert ts == ts[..k] + ts[k..];
    VolumeAppend(ts[..k], ts[k..]);
  }

  lemma {:induction false} VolumeReverse(ts: seq<Trade>)
    ensures Volume(Reverse(ts)) == Volume(ts)
  {
    if ts != [] {
      VolumeReverse(ts[1..]);
      VolumeAppend(Reverse(ts[1..]), [ts[0]]);
    }
  }

  /** Where the scan stops: `newer` falls short of the need, and `last` makes up for it. */
  lemma {:induction false} ScanStops(older: seq<Lot>, last: Lot, newer: seq<Lot>, need: real)
    requires Size(newer) < need <= last.volume + Size(newer)
    requires need > 0.0 && AllNonNegative(newer)
    ensures KeepNewest(older + [last] + newer, need) == [last.Cut(need - Size(newer))] + newer
  {
    hide KeepNewest;
    if newer == [] {
      assert older + [last] + newer == older + [last];
      KeepLast(older, last, need);
    } else {
      var t, rest := newer[|newer| - 1], newer[..|newer| - 1];
      assert newer == rest + [t];
      SizeAppend(rest, [t]);
      assert Size([t]) == t.volume;
      SizeNonNegative(rest);
      assert older + [last] + newer == (older + [last] + rest) + [t];
      KeepLast(older + [last] + rest, t, need);
      ScanStops(older, last, rest, need - t.volume);
    }
  }

  /** The table as the scan needs it. */
  predicate Table(db: seq<Trade>) { NonNegative(db) && DistinctIds(db) }

  lemma CandidatesKeep(db: seq<Trade>, actor: string, side: Side, startTime: int)
    requires Table(db)
    ensures var c := Candidates(db, actor, side, startTime);
      NonNegative(c) && DistinctIds(c) && DistinctIds(Reverse(c))
  {
    var mine := OfActor(db, actor);
    var before := Before(mine, startTime);
    WhereIds(db, (t: Trade) => t.actor == actor);
    WhereIds(mine, (t: Trade) => t.time < startTime);
    WhereNonNegative(db, (t: Trade) => t.actor == actor);
    WhereNonNegative(mine, (t: Trade) => t.time < startTime);
    OfSideKeeps(before, side);
    OfSideIds(before, side);
    ReverseIds(OfSide(before, side));
  }

  lemma {:induction false} WhereNonNegative(ts: seq<Trade>, p: Trade -> bool)
    requires NonNegative(ts)
    ensures NonNegative(Where(ts, p))
  {
    if ts != [] { WhereNonNegative(ts[1..], p); }
  }

  lemma {:induction false} OfSideIds(ts: seq<Trade>, side: Side)
    requires DistinctIds(ts)
    ensures DistinctIds(OfSide(ts, side))
  {
    if ts != [] {
      var r := OfSide(ts[1..], side);
      OfSideIds(ts[1..], side);
      forall i | 0 <= i < |r| ensures ts[0].id != r[i].id { OfSideIn(ts[1..], side, r[i]); }
    }
  }

  /** The state of the scan: the first `k` trades, newest first, each taken while short. */
  predicate Scanned(got: seq<Trade>, desc: seq<Trade>, need: real) {
    && got <= desc
    && (got != [] ==> Volume(got[..|got| - 1]) < need)
  }

  method TakeBatch(got: seq<Trade>, batch: seq<Trade>, ghost desc: seq<Trade>, need: real)
    returns (got': seq<Trade>)
    requires Scanned(got, desc, need) && batch <= desc[|got|..] && Volume(got) < need && batch != []
    ensures Scanned(got', desc, need) && |got| < |got'|
  {
    got' := got;
    for k := 0 to |batch|
      invariant Scanned(got', desc, need) && |got| <= |got'| <= |got| + k
      invariant k > 0 ==> |got| < |got'|
      invariant k == 0 ==> got' == got
      invariant Volume(got') < need ==> |got'| == |got| + k
    {
      if Volume(got') < need {
        assert batch[k] == desc[|got| + k];
        assert (got' + [batch[k]])[..|got'|] == got';
        got' := got' + [batch[k]];
      }
    }
  }

  /** The loop over batches, until the need is met. */
  method Scan(need: real, db: seq<Trade>, startTime: int, actor: string, side: Side) returns (got: seq<Trade>)
    requires Table(db) && 0.0 < need <= Volume(Candidates(db, actor, side, startTime))
    ensures Scanned(got, Reverse(Candidates(db, actor, side, startTime)), need) && need <= Volume(got)
  {
    ghost var c := Candidates(db, actor, side, startTime);
    ghost var desc := Reverse(c);
    CandidatesKeep(db, actor, side, startTime);
    VolumeReverse(c);
    got := [];
    while Volume(got) < need
      invariant Scanned(got, desc, need)
      decreases |desc| - |got|
    {
      assert got == desc[..|got|] && (|got| == |desc| ==> got == desc);
      UnseenIsRest(desc, |got|);
      var batch := Batch(db, actor, side, startTime, Ids(got));
      got := TakeBatch(got, batch, desc, need);
    }
  }

  /** The trades behind an open position of size `offset` at `startTime`. Without enough volume on
      its side the loop would query for ever. */
  method OpenPositionTrades(offset: real, db: seq<Trade>, startTime: int, actor: string)
    returns (open: seq<Trade>)
    requires Table(db)
    requires Abs(offset) <= Volume(Candidates(db, actor, if offset > 0.0 then Bid else Ask, startTime))
    ensures open == OpenTrades(offset, Before(OfActor(db, actor), startTime))
  {
    CandidatesKeep(db, actor, if offset > 0.0 then Bid else Ask, startTime);
    hide Trade.Trim;
    hide Lot.Value;
    hide KeepNewest;
    hide Scanned;
    if offset == 0.0 { return []; }
    var side := if offset > 0.0 then Bid else Ask;
    var got := Scan(Abs(offset), db, startTime, actor, side);
    open := TrimOldest(got, Candidates(db, actor, side, startTime), Abs(offset));
  }

  /** Trims the oldest trade taken and turns the list around. */
  method TrimOldest(got: seq<Trade>, ghost c: seq<Trade>, need: real) returns (open: seq<Trade>)
    requires NonNegative(c) && Scanned(got, Reverse(c), need) && 0.0 < need <= Volume(got)
    ensures open == Values(KeepNewest(Lots(c), need))
  {
    hide Trade.Trim;
    hide Lot.Value;
    hide KeepNewest;
    hide Values;
    hide Lots;
    hide NonNegative;
    ghost var older, oldest, newer := ScanShape(c, got, need);
    ScanResult(older, oldest, newer, need);
    assert got[|got| - 1] == oldest && got[..|got| - 1] == Reverse(newer);
    var last := TrimCopy(got[|got| - 1], Volume(got) - need);
    open := Reverse(got[..|got| - 1] + [last.Value()]);
    ReverseAppend(Reverse(newer), [last.Value()]);
    ReverseTwice(newer);
    assert Reverse([last.Value()]) == [last.Value()];
  }

  /** A copy of the last trade, with volume `toTrim` taken off in place. */
  method TrimCopy(t: Trade, toTrim: real) returns (last: TradeCopy)
    requires t.volume > 0.0
    ensures fresh(last) && last.Value() == t.Trim(t.volume - toTrim)
  {
    last := new TradeCopy(t);
    var toKeep := last.volume - toTrim;
    var ratio := toKeep / last.volume;
    last.volume := last.volume * ratio;
    last.price := last.price * ratio;
    last.fee := last.fee * ratio;
  }

  /** Trimming the last trade taken gives the newest `need` of volume, oldest first. */
  lemma ScanResult(older: seq<Trade>, last: Trade, newer: seq<Trade>, need: real)
    requires NonNegative(newer) && Volume(newer) < need <= last.volume + Volume(newer)
    ensures 0.0 < last.volume
    ensures Values(KeepNewest(Lots(older + [last] + newer), need))
         == [last.Trim(need - Volume(newer))] + newer
  {
    hide KeepNewest;
    hide Lot.Value;
    hide Trade.Trim;
    VolumePrefix(newer, 0);
    SizeOfLots(newer);
    assert Lots(older + [last] + newer) == Lots(older) + [Lot(last, last.volume)] + Lots(newer);
    ScanStops(Lots(older), Lot(last, last.volume), Lots(newer), need);
    TrimmedValue(last, need - Volume(newer));
    LotsValues(newer);
    ValuesAppend([Lot(last, need - Volume(newer))], Lots(newer));
  }

  /** What was scanned, seen from the table: `last` and everything newer. */
  lemma ScanShape(c: seq<Trade>, got: seq<Trade>, need: real)
      returns (older: seq<Trade>, last: Trade, newer: seq<Trade>)
    requires NonNegative(c) && Scanned(got, Reverse(c), need) && got != []
    ensures c == older + [last] + newer && got == Reverse(newer) + [last]
    ensures NonNegative(newer) && Volume(newer) < need && Volume(got) == last.volume + Volume(newer)
  {
    var k := |c| - |got|;
    older, last, newer := c[..k], c[k], c[k + 1..];
    var tail := [last] + newer;
    assert c == older + tail == older + [last] + newer;
    ReverseAppend(older, tail);
    ReverseAppend([last], newer);
    assert Reverse([last]) == [last];
    assert got == Reverse(c)[..|got|] == Reverse(tail);
    VolumeReverse(tail);
    VolumeReverse(newer);
    assert got[..|got| - 1] == Reverse(newer);
  }

  lemma TrimmedValue(last: Trade, keep: real)
    requires last.volume > 0.0
    ensures Values([Lot(last, keep)]) == [last.Trim(keep)]
  {
    if keep == last.volume { TrimWhole(last); }
  }
}
