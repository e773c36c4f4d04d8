/** Polling an exchange's public trades and publishing the new ones
    (gryphon/data_service/pollers/trades/trades_poller.py:24-65,
    gryphon/data_service/twisted_producer.py:216-248). */
module TradesPollers {
  import opened Wrappers
  import Sorting

  /** A trade as it is published; details is everything but its identity. */
  datatype Trade = Trade(exchange: string, id: int, details: string)

  // ---- pages ----

  predicate ById(s: seq<Trade>) { forall i, j :: 0 <= i < j < |s| ==> s[i].id <= s[j].id }

  const BY_ID: (Trade, Trade) -> bool := (t: Trade, u: Trade) => t.id <= u.id

  function SortById(s: seq<Trade>): (r: seq<Trade>)
    ensures |r| == |s|
  {
    Sorting.Sort(BY_ID, s)
  }

  lemma SortSorts(s: seq<Trade>)
    ensures ById(SortById(s)) && multiset(SortById(s)) == multiset(s)
  {
    Sorting.SortSorts(BY_ID, s);
  }

  /** The trades of a sorted page that pass a rising watermark. */
  function Fresh(s: seq<Trade>, watermark: int): seq<Trade> {
    if s == [] then []
    else if s[0].id > watermark then [s[0]] + Fresh(s[1..], s[0].id)
    else Fresh(s[1..], watermark)
  }

  function Highest(s: seq<Trade>, watermark: int): int {
    if s == [] then watermark else Highest(s[1..], if s[0].id > watermark then s[0].id else watermark)
  }

  lemma {:induction false} HighestIs(s: seq<Trade>, watermark: int)
    ensures Highest(s, watermark) >= watermark && forall t :: t in s ==> t.id <= Highest(s, watermark)
    ensures Highest(s, watermark) == watermark || exists t :: t in s && t.id == Highest(s, watermark)
  {
    if s != [] {
      HighestIs(s[1..], if s[0].id > watermark then s[0].id else watermark);
      assert s == [s[0]] + s[1..];
    }
  }

  predicate Rising(s: seq<Trade>) { forall i, j :: 0 <= i < j < |s| ==> s[i].id < s[j].id }

  /** What is published comes from the page and lies above the watermark. */
  lemma {:induction false} FreshWithin(s: seq<Trade>, watermark: int, t: Trade)
    requires t in Fresh(s, watermark)
    ensures t in s && watermark < t.id <= Highest(s, watermark)
  {
    var next := if s[0].id > watermark then s[0].id else watermark;
    HighestIs(s[1..], next);
    if t in Fresh(s[1..], next) { FreshWithin(s[1..], next, t); }
  }

  lemma {:induction false} FreshRises(s: seq<Trade>, watermark: int)
    ensures Rising(Fresh(s, watermark))
  {
    if s != [] {
      var next := if s[0].id > watermark then s[0].id else watermark;
      var rest := Fresh(s[1..], next);
      FreshRises(s[1..], next);
      forall i | 0 <= i < |rest| ensures rest[i].id > next { FreshWithin(s[1..], next, rest[i]); }
    }
  }

  /** On a sorted page every id above the watermark is published. */
  lemma {:induction false} FreshCovers(s: seq<Trade>, watermark: int, t: Trade)
    requires ById(s) && t in s && t.id > watermark
    ensures exists u :: u in Fresh(s, watermark) && u.id == t.id
  {
    var next := if s[0].id > watermark then s[0].id else watermark;
    if t.id > next {
      assert s == [s[0]] + s[1..];
      FreshCovers(s[1..], next, t);
      var u :| u in Fresh(s[1..], next) && u.id == t.id;
      assert u in Fresh(s, watermark);
    } else {
      assert s[0] in Fresh(s, watermark);
    }
  }

  // ---- the poller ----

  datatype Outcome = Done | IndexError | ProducerNotReady

  /** A page publishes exactly its ids above the watermark, each once and in rising order, whatever its order,
      and the watermark ends at the highest id seen. */
  lemma PublishedIs(page: seq<Trade>, watermark: int, id: int)
    ensures Rising(Published(page, watermark))
    ensures (exists t :: t in Published(page, watermark) && t.id == id)
            <==> id > watermark && exists t :: t in page && t.id == id
    ensures Watermark(page, watermark) >= watermark && forall t :: t in page ==> t.id <= Watermark(page, watermark)
    ensures Watermark(page, watermark) == watermark || exists t :: t in page && t.id == Watermark(page, watermark)
  {
    var s := SortById(page);
    SortSorts(page);
    FreshRises(s, watermark);
    HighestIs(s, watermark);
    forall t | t in Fresh(s, watermark) ensures t in s && watermark < t.id { FreshWithin(s, watermark, t); }
    assert forall t :: t in s <==> t in multiset(s);
    assert forall t :: t in page <==> t in multiset(page);
    if id > watermark && exists t :: t in page && t.id == id {
      var t :| t in page && t.id == id;
      FreshCovers(s, watermark, t);
    }
  }

  lemma PublishedFromPage(page: seq<Trade>, watermark: int)
    ensures forall t :: t in Published(page, watermark) ==> t in page && t.id > watermark
  {
    SortSorts(page);
    forall t | t in Published(page, watermark) ensures t in page && t.id > watermark {
      FreshWithin(SortById(page), watermark, t);
      assert t in multiset(SortById(page));
    }
  }

  /** What parse_response publishes (channel or not) and where the watermark ends. */
  function Published(page: seq<Trade>, watermark: int): seq<Trade> { Fresh(SortById(page), watermark) }

  function Watermark(page: seq<Trade>, watermark: int): int { Highest(SortById(page), watermark) }

  class Producer {
    var ready: bool
    var stopping: bool
    var channel: bool
    var enqueued: seq<Trade>

    /** False when it raises. A stopping producer or a closed channel drops the message silently. */
    method PublishMessage(t: Trade) returns (ok: bool)
      modifies this`enqueued
      ensures ok <==> ready
      ensures enqueued == if ready && !stopping && channel then old(enqueued) + [t] else old(enqueued)
    {
      if !ready { return false; }
      if stopping { return true; }
      if !channel { return true; }
      enqueued := enqueued + [t];
      ok := true;
    }
  }

  class TradesPoller {
    const producer: Producer
    var mostRecentTradeId: int
    var redis: Option<int>

    /** start: the watermark is what was saved, or zero. */
    constructor (producer: Producer, redis: Option<int>)
      ensures this.producer == producer && this.redis == redis
      ensures mostRecentTradeId == if redis.Some? then redis.value else 0
    {
      this.producer := producer;
      this.redis := redis;
      mostRecentTradeId := if redis.Some? then redis.value else 0;
    }

    /** Publishes the new trades of a page oldest first. The watermark advances past dropped messages too; a
        page with nothing on it fails before the watermark is saved, and so does one with something new while
        the producer is not ready. */
    method ParseResponse(page: seq<Trade>) returns (r: Outcome)
      modifies this`mostRecentTradeId, this`redis, producer`enqueued
      ensures r == if page == [] then IndexError
                   else if !producer.ready && Published(page, old(mostRecentTradeId)) != [] then ProducerNotReady
                   else Done
      ensures r == Done ==>
        && mostRecentTradeId == Watermark(page, old(mostRecentTradeId))
        && redis == Some(mostRecentTradeId)
      ensures r != Done ==> mostRecentTradeId == old(mostRecentTradeId) && redis == old(redis)
      ensures producer.enqueued
           == old(producer.enqueued) + if Open(producer) then Published(page, old(mostRecentTradeId)) else []
    {
      var trades := SortById(page);
      hide SortById;
      hide ById;
      hide Fresh;
      hide Highest;
      var k := 0;
      ghost var was, sent: seq<Trade> := mostRecentTradeId, [];
      while k < |trades|
        invariant k <= |trades| && redis == old(redis) && (k == 0 ==> mostRecentTradeId == was)
        invariant Highest(trades[k..], mostRecentTradeId) == Highest(trades, was)
        invariant Fresh(trades, was) == sent + Fresh(trades[k..], mostRecentTradeId)
        invariant producer.enqueued == old(producer.enqueued) + if Open(producer) then sent else []
        invariant !producer.ready ==> sent == [] && mostRecentTradeId == was
      {
        var trade := trades[k];
        Unfolded(trades, k, mostRecentTradeId);
        if trade.id > mostRecentTradeId {
          var ok := producer.PublishMessage(trade);
          if !ok { return ProducerNotReady; }
          mostRecentTradeId := trade.id;
          sent := sent + [trade];
        }
        k := k + 1;
      }
      Unfolded(trades, k, mostRecentTradeId);
      if |trades| == 0 { return IndexError; }
      redis := Some(mostRecentTradeId);
      r := Done;
    }
  }

  predicate Open(p: Producer) reads p { p.ready && !p.stopping && p.channel }

  lemma Unfolded(s: seq<Trade>, k: nat, watermark: int)
    requires k <= |s|
    ensures k == |s| ==> Fresh(s[k..], watermark) == [] && Highest(s[k..], watermark) == watermark
    ensures k < |s| && s[k].id > watermark ==>
      && Fresh(s[k..], watermark) == [s[k]] + Fresh(s[k + 1..], s[k].id)
      && Highest(s[k..], watermark) == Highest(s[k + 1..], s[k].id)
    ensures k < |s| && s[k].id <= watermark ==>
      && Fresh(s[k..], watermark) == Fresh(s[k + 1..], watermark)
      && Highest(s[k..], watermark) == Highest(s[k + 1..], watermark)
  {
    if k < |s| { assert s[k..][1..] == s[k + 1..]; }
  }
}
