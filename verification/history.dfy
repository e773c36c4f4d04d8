/** Queries on the trade table. The table is listed in order of creation time, trades created together in one
    fixed order; a query keeps that order unless it asks for the newest first. */
module History {
  import opened Trades

  function Where(ts: seq<Trade>, p: Trade -> bool): seq<Trade> {
    if ts == [] then [] else (if p(ts[0]) then [ts[0]] else []) + Where(ts[1..], p)
  }

  function OfActor(ts: seq<Trade>, actor: string): seq<Trade> { Where(ts, (t: Trade) => t.actor == actor) }

  function Before(ts: seq<Trade>, end: int): seq<Trade> { Where(ts, (t: Trade) => t.time < end) }

  function Window(ts: seq<Trade>, start: int, end: int): seq<Trade> {
    Where(ts, (t: Trade) => start <= t.time < end)
  }

  /** Which rows a query takes: one actor's, those before a time, those from a time on and before another. */
  lemma QueriesTake(ts: seq<Trade>, actor: string, start: int, end: int, t: Trade)
    ensures t in OfActor(ts, actor) <==> t in ts && t.actor == actor
    ensures t in Others(ts, actor) <==> t in ts && t.actor != actor
    ensures t in Before(ts, end) <==> t in ts && t.time < end
    ensures t in Window(ts, start, end) <==> t in ts && start <= t.time && t.time < end
  {
    WhereIn(ts, (t: Trade) => t.actor == actor, t);
    WhereIn(ts, (t: Trade) => t.actor != actor, t);
    WhereIn(ts, (t: Trade) => t.time < end, t);
    WhereIn(ts, (t: Trade) => start <= t.time < end, t);
  }

  predicate DistinctIds(ts: seq<Trade>) {
    forall i, j :: 0 <= i < j < |ts| ==> ts[i].id != ts[j].id
  }

  function Reverse(ts: seq<Trade>): (r: seq<Trade>)
    ensures |r| == |ts|
  {
    if ts == [] then [] else Reverse(ts[1..]) + [ts[0]]
  }

  lemma {:induction false} ReverseAppend(a: seq<Trade>, b: seq<Trade>)
    ensures Reverse(a + b) == Reverse(b) + Reverse(a)
  {
    if a == [] {
      assert a + b == b;
    } else {
      assert (a + b)[1..] == a[1..] + b;
      ReverseAppend(a[1..], b);
    }
  }

  lemma {:induction false} ReverseTwice(ts: seq<Trade>)
    ensures Reverse(Reverse(ts)) == ts
  {
    if ts != [] {
      ReverseAppend(Reverse(ts[1..]), [ts[0]]);
      ReverseTwice(ts[1..]);
    }
  }

  lemma {:induction false} ReverseIds(ts: seq<Trade>)
    requires DistinctIds(ts)
    ensures DistinctIds(Reverse(ts))
    ensures forall t :: t in Reverse(ts) ==> t in ts
  {
    if ts != [] {
      var r := Reverse(ts[1..]);
      ReverseIds(ts[1..]);
      assert ts == [ts[0]] + ts[1..];
      forall i | 0 <= i < |r| ensures r[i].id != ts[0].id {
        assert r[i] in ts[1..];
      }
    }
  }

  lemma {:induction false} WhereIn(ts: seq<Trade>, p: Trade -> bool, t: Trade)
    ensures t in Where(ts, p) <==> t in ts && p(t)
  {
    if ts != [] {
      WhereIn(ts[1..], p, t);
      assert ts == [ts[0]] + ts[1..];
    }
  }

  lemma {:induction false} WhereSorted(ts: seq<Trade>, p: Trade -> bool)
    requires SortedByTime(ts)
    ensures SortedByTime(Where(ts, p))
  {
    if ts != [] {
      var r := Where(ts[1..], p);
      WhereSorted(ts[1..], p);
      forall i | 0 <= i < |r| ensures ts[0].time <= r[i].time { WhereIn(ts[1..], p, r[i]); }
    }
  }

  lemma {:induction false} WhereIds(ts: seq<Trade>, p: Trade -> bool)
    requires DistinctIds(ts)
    ensures DistinctIds(Where(ts, p))
  {
    if ts != [] {
      var r := Where(ts[1..], p);
      WhereIds(ts[1..], p);
      forall i | 0 <= i < |r| ensures ts[0].id != r[i].id { WhereIn(ts[1..], p, r[i]); }
    }
  }

  lemma {:induction false} WhereAppend(a: seq<Trade>, b: seq<Trade>, p: Trade -> bool)
    ensures Where(a + b, p) == Where(a, p) + Where(b, p)
  {
    if a == [] {
      assert a + b == b;
    } else {
      assert (a + b)[1..] == a[1..] + b;
      WhereAppend(a[1..], b, p);
      var first := if p(a[0]) then [a[0]] else [];
      assert first + Where(a[1..], p) + Where(b, p) == first + (Where(a[1..], p) + Where(b, p));
    }
  }

  lemma {:induction false} WhereAll(ts: seq<Trade>, p: Trade -> bool)
    requires forall i :: 0 <= i < |ts| ==> p(ts[i])
    ensures Where(ts, p) == ts
  {
    if ts != [] { WhereAll(ts[1..], p); }
  }

  lemma {:induction false} WhereNone(ts: seq<Trade>, p: Trade -> bool)
    requires forall i :: 0 <= i < |ts| ==> !p(ts[i])
    ensures Where(ts, p) == []
  {
    if ts != [] { WhereNone(ts[1..], p); }
  }

  /** What precedes the end of a period is what precedes its start, then the period itself. */
  lemma {:induction false} PeriodAppends(ts: seq<Trade>, start: int, end: int)
    requires SortedByTime(ts) && start <= end
    ensures Before(ts, end) == Before(ts, start) + Window(ts, start, end)
  {
    if ts != [] {
      PeriodAppends(ts[1..], start, end);
      if ts[0].time >= start {
        assert forall i :: 0 <= i < |ts[1..]| ==> ts[1..][i].time >= ts[0].time;
        WhereNone(ts[1..], (t: Trade) => t.time < start);
      }
    }
  }

  /** A sum over everyone's trades is the sum over one actor's and the sum over the others'. */
  lemma {:induction false} SumByActor(ts: seq<Trade>, p: Trade -> bool, actor: string, w: Trade -> real)
    ensures Sum(Where(ts, p), w)
         == Sum(Where(OfActor(ts, actor), p), w) + Sum(Where(Others(ts, actor), p), w)
  {
    if ts != [] {
      var t, rest := [ts[0]], ts[1..];
      SumByActor(rest, p, actor, w);
      assert ts == t + rest;
      SumWhereAppend(t, rest, p, w);
      WhereAppend(t, rest, (u: Trade) => u.actor == actor);
      WhereAppend(t, rest, (u: Trade) => u.actor != actor);
      SumWhereAppend(OfActor(t, actor), OfActor(rest, actor), p, w);
      SumWhereAppend(Others(t, actor), Others(rest, actor), p, w);
      assert OfActor(t, actor) == if ts[0].actor == actor then t else [];
      assert Others(t, actor) == if ts[0].actor == actor then [] else t;
    }
  }

  lemma SumWhereAppend(a: seq<Trade>, b: seq<Trade>, p: Trade -> bool, w: Trade -> real)
    ensures Sum(Where(a + b, p), w) == Sum(Where(a, p), w) + Sum(Where(b, p), w)
  {
    WhereAppend(a, b, p);
    SumAppend(Where(a, p), Where(b, p), w);
  }

  function Others(ts: seq<Trade>, actor: string): seq<Trade> { Where(ts, (t: Trade) => t.actor != actor) }
}
