/** The ingestion pipeline as a machine: one poller an exchange, one durable queue that redelivers what is not
    acked, one consumer, one store (gryphon/data_service). */
module Pipelines {
  import opened Wrappers
  import opened TradesPollers
  import opened TradesConsumers

  /** A poller process: its watermark, the watermark saved in redis, and the ids published since it started. */
  datatype Poller = Poller(watermark: int, saved: Option<int>, published: seq<int>)

  datatype State = State(
    pollers: map<string, Poller>,
    enqueued: seq<Trade>,       // every message the broker ever took
    ready: multiset<Trade>,     // in the queue
    unacked: multiset<Trade>,   // delivered, not yet committed by this consumer process
    done: multiset<Trade>,      // committed by it, not yet acked
    acked: seq<Trade>,
    store: seq<Trade>)

  datatype Step =
    | Start(exchange: string)                 // a poller starts, or restarts after a crash
    | Publish(trade: Trade, open: bool)       // one publish; a message for a closed channel is lost
    | Save(exchange: string)
    | Deliver(trade: Trade)
    | Commit(trade: Trade, fate: Fate)        // one call of the consumer function
    | Ack(trade: Trade, fate: Fate)           // a failed ack sends the message round again
    | Requeue                                 // the consumer or its channel dies

  predicate Enabled(s: State, step: Step) {
    match step
    case Start(_) => true
    case Publish(t, _) => t.exchange in s.pollers && t.id > s.pollers[t.exchange].watermark
    case Save(e) => e in s.pollers
    case Deliver(t) => t in s.ready
    case Commit(t, _) => t in s.unacked
    case Ack(t, _) => t in s.done
    case Requeue => true
  }

  function Started(saved: Option<int>): Poller { Poller(if saved.Some? then saved.value else 0, saved, []) }

  function Next(s: State, step: Step): State
    requires Enabled(s, step)
  {
    match step
    case Start(e) => s.(pollers := s.pollers[e := Started(if e in s.pollers then s.pollers[e].saved else None)])
    case Publish(t, open) =>
      var p := s.pollers[t.exchange];
      var published := s.(pollers := s.pollers[t.exchange := p.(watermark := t.id, published := p.published + [t.id])]);
      if open then published.(enqueued := s.enqueued + [t], ready := s.ready + multiset{t}) else published
    case Save(e) => s.(pollers := s.pollers[e := s.pollers[e].(saved := Some(s.pollers[e].watermark))])
    case Deliver(t) => s.(ready := s.ready - multiset{t}, unacked := s.unacked + multiset{t})
    case Commit(t, fate) =>
      if fate.CommitRaises? then (if fate.applied then s.(store := Committed(s.store, t)) else s)
      else s.(store := Committed(s.store, t), unacked := s.unacked - multiset{t}, done := s.done + multiset{t})
    case Ack(t, fate) =>
      if fate.AckRaises? then s.(done := s.done - multiset{t}, unacked := s.unacked + multiset{t})
      else s.(done := s.done - multiset{t}, acked := s.acked + [t])
    case Requeue => s.(ready := s.ready + s.unacked + s.done, unacked := multiset{}, done := multiset{})
  }

  const EMPTY := State(map[], [], multiset{}, multiset{}, multiset{}, [], [])

  predicate Possible(s: State, steps: seq<Step>)
    decreases |steps|
  {
    steps == [] || (Enabled(s, steps[0]) && Possible(Next(s, steps[0]), steps[1..]))
  }

  function Run(s: State, steps: seq<Step>): State
    requires Possible(s, steps)
    decreases |steps|
  {
    if steps == [] then s else Run(Next(s, steps[0]), steps[1..])
  }

  // ---- what every step keeps ----

  ghost predicate RowsAreGenuine(s: State) {
    Unique(s.store) && forall t :: t in s.store ==> t in s.enqueued
  }

  ghost predicate AckedAreStored(s: State) {
    forall t :: t in s.acked || t in s.done ==> Stored(s.store, t)
  }

  /** Every message the broker took is in exactly one place. */
  ghost predicate NothingLost(s: State) {
    multiset(s.enqueued) == s.ready + s.unacked + s.done + multiset(s.acked)
  }

  predicate Increasing(ids: seq<int>) { forall i, j :: 0 <= i < j < |ids| ==> ids[i] < ids[j] }

  ghost predicate PollersRise(s: State) {
    forall e :: e in s.pollers ==> Rises(s.pollers[e])
  }

  ghost predicate Invariant(s: State) {
    RowsAreGenuine(s) && AckedAreStored(s) && NothingLost(s) && PollersRise(s)
  }

  lemma NothingLostKept(s: State, step: Step)
    requires Enabled(s, step) && NothingLost(s)
    ensures NothingLost(Next(s, step))
  {
    if step.Commit? || step.Ack? { NothingLostByConsumer(s, step); }
  }

  lemma NothingLostByConsumer(s: State, step: Step)
    requires (step.Commit? || step.Ack?) && Enabled(s, step) && NothingLost(s)
    ensures NothingLost(Next(s, step))
  {
    hide Committed;
    var after, t := Next(s, step), step.trade;
    if step.fate.CommitRaises? && step.Commit? {
    } else if step.Commit? {
      Moved(s.unacked, s.done, t);
      assert after.unacked + after.done == s.unacked + s.done;
    } else if step.fate.AckRaises? {
      Moved(s.done, s.unacked, t);
      assert after.done + after.unacked == s.done + s.unacked;
    } else {
      Moved(s.done, multiset(s.acked), t);
      assert after.done + multiset(after.acked) == s.done + multiset(s.acked);
    }
  }

  lemma Moved(a: multiset<Trade>, b: multiset<Trade>, t: Trade)
    requires t in a
    ensures (a - multiset{t}) + (b + multiset{t}) == a + b
  {
  }

  lemma RowsAreGenuineKept(s: State, step: Step)
    requires Enabled(s, step) && RowsAreGenuine(s) && NothingLost(s)
    ensures RowsAreGenuine(Next(s, step))
  {
    hide Stored;
    hide Unique;
    if step.Commit? {
      assert step.trade in multiset(s.enqueued);
      CommitStores(s.store, step.trade, step.trade);
    }
  }

  lemma AckedAreStoredKept(s: State, step: Step)
    requires Enabled(s, step) && AckedAreStored(s)
    ensures AckedAreStored(Next(s, step))
  {
    hide Stored;
    hide Committed;
    if step.Commit? {
      forall u ensures Stored(Committed(s.store, step.trade), u) <==> Stored(s.store, u) || SameKey(step.trade, u) {
        CommitStores(s.store, step.trade, u);
      }
    }
  }

  predicate Rises(p: Poller) {
    && Increasing(p.published)
    && (forall i :: 0 <= i < |p.published| ==> p.published[i] <= p.watermark)
    && (p.saved.Some? ==> p.saved.value <= p.watermark)
  }

  lemma PublishRises(p: Poller, id: int)
    requires Rises(p) && id > p.watermark
    ensures Rises(p.(watermark := id, published := p.published + [id]))
  {
  }

  lemma PollersRiseKept(s: State, step: Step)
    requires Enabled(s, step) && PollersRise(s)
    ensures PollersRise(Next(s, step))
  {
    hide Committed;
    if step.Publish? {
      PublishRises(s.pollers[step.trade.exchange], step.trade.id);
      hide Rises;
    }
  }

  /** The invariant holds after every run, with any crashes, redeliveries and failures. */
  lemma {:induction false} InvariantHolds(s: State, steps: seq<Step>)
    requires Invariant(s) && Possible(s, steps)
    ensures Invariant(Run(s, steps))
    decreases |steps|
  {
    if steps != [] {
      NothingLostKept(s, steps[0]);
      RowsAreGenuineKept(s, steps[0]);
      AckedAreStoredKept(s, steps[0]);
      PollersRiseKept(s, steps[0]);
      InvariantHolds(Next(s, steps[0]), steps[1..]);
    }
  }

  /** From an empty start, whatever happens: one row a key, no row that was not published, a row for every acked
      message, and every message the broker took is stored or still with the queue. */
  lemma AtLeastOnceStoredOnce(steps: seq<Step>, t: Trade)
    requires Possible(EMPTY, steps)
    ensures var s := Run(EMPTY, steps);
            && Unique(s.store)
            && (t in s.store ==> t in s.enqueued)
            && (t in s.acked ==> Stored(s.store, t))
            && (t in s.enqueued ==> Stored(s.store, t) || t in s.ready || t in s.unacked)
  {
    assert Invariant(EMPTY);
    hide Unique;
    hide Stored;
    InvariantHolds(EMPTY, steps);
    var s := Run(EMPTY, steps);
    hide Run;
    if t in s.enqueued { assert t in multiset(s.enqueued); }
  }

  /** Once the queue has drained, the stored keys are exactly those of the messages the broker took. */
  lemma DrainedIsComplete(steps: seq<Step>, t: Trade)
    requires Possible(EMPTY, steps)
    requires var s := Run(EMPTY, steps); s.ready == s.unacked == s.done == multiset{}
    ensures var s := Run(EMPTY, steps);
            Stored(s.store, t) <==> exists u :: u in s.enqueued && SameKey(t, u)
  {
    var s := Run(EMPTY, steps);
    if Stored(s.store, t) {
      var u :| u in s.store && SameKey(t, u);
      AtLeastOnceStoredOnce(steps, u);
    }
    if exists u :: u in s.enqueued && SameKey(t, u) {
      var u :| u in s.enqueued && SameKey(t, u);
      AtLeastOnceStoredOnce(steps, u);
      var v :| v in s.store && SameKey(u, v);
      assert SameKey(t, v);
    }
  }

  // ---- what a closed channel loses ----

  /** The watermark saved for an exchange has reached the id. */
  predicate Passed(s: State, exchange: string, id: int) {
    && exchange in s.pollers
    && s.pollers[exchange].saved.Some?
    && s.pollers[exchange].saved.value >= id
  }

  /** Once a saved watermark has passed a trade, through whatever crashes and restarts, the trade is never
      published again: if the channel was closed the one time it was, it is lost to the store. */
  lemma {:induction false} PassedIsNeverPublished(s: State, steps: seq<Step>, t: Trade)
    requires Possible(s, steps) && PollersRise(s) && Passed(s, t.exchange, t.id)
    ensures Passed(Run(s, steps), t.exchange, t.id)
    ensures multiset(Run(s, steps).enqueued)[t] == multiset(s.enqueued)[t]
    decreases |steps|
  {
    if steps != [] {
      var after := Next(s, steps[0]);
      PollersRiseKept(s, steps[0]);
      OncePassed(s, steps[0], t);
      PassedIsNeverPublished(after, steps[1..], t);
    }
  }

  lemma OncePassed(s: State, step: Step, t: Trade)
    requires Enabled(s, step) && PollersRise(s) && Passed(s, t.exchange, t.id)
    ensures Passed(Next(s, step), t.exchange, t.id)
    ensures multiset(Next(s, step).enqueued)[t] == multiset(s.enqueued)[t]
  {
  }

  /** The state of a poller's exchange after it started, published a trade into a closed channel and saved. */
  function LossySteps(t: Trade): seq<Step> {
    [Start(t.exchange), Publish(t, false), Save(t.exchange)]
  }

  /** Such a run: whatever follows it, the trade is never in the store. */
  lemma ClosedChannelLoses(t: Trade, rest: seq<Step>)
    requires t.id > 0
    ensures Possible(EMPTY, LossySteps(t))
    ensures Possible(EMPTY, LossySteps(t) + rest) ==> !Stored(Run(EMPTY, LossySteps(t) + rest).store, t)
  {
    var steps := LossySteps(t) + rest;
    var s1 := Next(EMPTY, Start(t.exchange));
    var s2 := Next(s1, Publish(t, false));
    var s3 := Next(s2, Save(t.exchange));
    LossyRuns(t, rest);
    LossyRuns(t, []);
    assert LossySteps(t) + [] == LossySteps(t);
    if Possible(EMPTY, steps) {
      assert Invariant(EMPTY);
      PollersRiseKept(EMPTY, Start(t.exchange));
      PollersRiseKept(s1, Publish(t, false));
      PollersRiseKept(s2, Save(t.exchange));
      forall u | SameKey(t, u) ensures u !in Run(EMPTY, steps).enqueued {
        PassedIsNeverPublished(s3, rest, u);
        assert u !in multiset(Run(EMPTY, steps).enqueued);
      }
      forall u | SameKey(t, u) ensures u !in Run(EMPTY, steps).store { AtLeastOnceStoredOnce(steps, u); }
    }
  }

  lemma FirstStep(s: State, step: Step, rest: seq<Step>)
    requires Enabled(s, step)
    ensures Possible(s, [step] + rest) <==> Possible(Next(s, step), rest)
    ensures Possible(s, [step] + rest) ==> Run(s, [step] + rest) == Run(Next(s, step), rest)
  {
    assert ([step] + rest)[1..] == rest;
  }

  lemma LossyRuns(t: Trade, rest: seq<Step>)
    requires t.id > 0
    ensures var s1 := Next(EMPTY, Start(t.exchange));
            var s2 := Next(s1, Publish(t, false));
            var s3 := Next(s2, Save(t.exchange));
      && (Possible(EMPTY, LossySteps(t) + rest) <==> Possible(s3, rest))
      && (Possible(s3, rest) ==> Run(EMPTY, LossySteps(t) + rest) == Run(s3, rest))
      && s3.enqueued == [] && Passed(s3, t.exchange, t.id)
  {
    var steps := LossySteps(t) + rest;
    FirstStep(EMPTY, Start(t.exchange), [Publish(t, false), Save(t.exchange)] + rest);
    assert steps == [Start(t.exchange)] + ([Publish(t, false), Save(t.exchange)] + rest);
    var s1 := Next(EMPTY, Start(t.exchange));
    FirstStep(s1, Publish(t, false), [Save(t.exchange)] + rest);
    assert [Publish(t, false), Save(t.exchange)] + rest == [Publish(t, false)] + ([Save(t.exchange)] + rest);
    FirstStep(Next(s1, Publish(t, false)), Save(t.exchange), rest);
  }

  /** The broker takes exactly what is published while the channel is open. */
  lemma {:induction false} TakenIff(s: State, steps: seq<Step>, t: Trade)
    requires Possible(s, steps)
    ensures t in Run(s, steps).enqueued <==> t in s.enqueued || Publish(t, true) in steps
    decreases |steps|
  {
    if steps != [] {
      TakenIff(Next(s, steps[0]), steps[1..], t);
      TakenNext(s, steps[0], t);
      assert steps == [steps[0]] + steps[1..];
    }
  }

  lemma TakenNext(s: State, step: Step, t: Trade)
    requires Enabled(s, step)
    ensures t in Next(s, step).enqueued <==> t in s.enqueued || step == Publish(t, true)
  {
  }

  /** A trade is stored if and only if it was published, under its key, while the channel was open: for every run
      that drains the queue; and for every other run, only if. */
  lemma StoredIff(steps: seq<Step>, t: Trade)
    requires Possible(EMPTY, steps)
    ensures var s := Run(EMPTY, steps);
            var published := exists u: Trade :: u.exchange == t.exchange && u.id == t.id && Publish(u, true) in steps;
      && (Stored(s.store, t) ==> published)
      && (s.ready == s.unacked == s.done == multiset{} ==> (Stored(s.store, t) <==> published))
  {
    var s := Run(EMPTY, steps);
    forall u ensures u in s.enqueued <==> Publish(u, true) in steps { TakenIff(EMPTY, steps, u); }
    if Stored(s.store, t) {
      var u :| u in s.store && SameKey(t, u);
      AtLeastOnceStoredOnce(steps, u);
    }
    if s.ready == s.unacked == s.done == multiset{} { DrainedIsComplete(steps, t); }
  }

  // ---- a poll is a run of steps ----

  /** A poller process starts where the machine says. */
  method StartIsStep(s: State, exchange: string, producer: Producer) returns (poller: TradesPoller)
    ensures var p := Next(s, Start(exchange)).pollers[exchange];
      poller.mostRecentTradeId == p.watermark && poller.redis == p.saved
  {
    poller := new TradesPoller(producer, if exchange in s.pollers then s.pollers[exchange].saved else None);
  }

  function PageSteps(e: string, batch: seq<Trade>, open: bool): seq<Step> {
    if batch == [] then [Save(e)] else [Publish(batch[0], open)] + PageSteps(e, batch[1..], open)
  }

  /** Where the steps of a page lead. */
  ghost predicate PageDone(s: State, e: string, batch: seq<Trade>, open: bool, after: State)
    requires e in s.pollers
  {
    && after.enqueued == s.enqueued + (if open then batch else [])
    && e in after.pollers
    && after.pollers[e].watermark == (if batch == [] then s.pollers[e].watermark else batch[|batch| - 1].id)
    && after.pollers[e].saved == Some(after.pollers[e].watermark)
  }

  lemma PublishFirst(s: State, batch: seq<Trade>, open: bool, after: State)
    requires batch != [] && Rising(batch) && batch[0].exchange in s.pollers
    requires Enabled(s, Publish(batch[0], open))
    requires var next := Next(s, Publish(batch[0], open));
      batch[0].exchange in next.pollers && PageDone(next, batch[0].exchange, batch[1..], open, after)
    ensures PageDone(s, batch[0].exchange, batch, open, after)
  {
    assert batch == [batch[0]] + batch[1..];
  }

  lemma FirstOf(e: string, batch: seq<Trade>, open: bool)
    requires batch != []
    ensures PageSteps(e, batch, open) != [] && PageSteps(e, batch, open)[0] == Publish(batch[0], open)
    ensures PageSteps(e, batch, open)[1..] == PageSteps(e, batch[1..], open)
  {
  }

  lemma NextWatermark(s: State, t: Trade, open: bool)
    requires Enabled(s, Publish(t, open))
    ensures var next := Next(s, Publish(t, open));
      t.exchange in next.pollers && next.pollers[t.exchange].watermark == t.id
  {
  }

  lemma {:induction false} PublishingRuns(s: State, e: string, batch: seq<Trade>, open: bool)
    requires e in s.pollers && Rising(batch)
    requires forall t :: t in batch ==> t.exchange == e && t.id > s.pollers[e].watermark
    ensures Possible(s, PageSteps(e, batch, open))
    ensures PageDone(s, e, batch, open, Run(s, PageSteps(e, batch, open)))
    decreases |batch|
  {
    if batch == [] {
      assert Possible(Next(s, Save(e)), []);
    } else {
      var step := Publish(batch[0], open);
      FirstOf(e, batch, open);
      assert batch[0] in batch && Enabled(s, step);
      NextWatermark(s, batch[0], open);
      hide Next;
      hide PageSteps;
      hide PageDone;
      PublishingRuns(Next(s, step), e, batch[1..], open);
      PublishFirst(s, batch, open, Run(s, PageSteps(e, batch, open)));
    }
  }

  /** A page handled by parse_response is a possible run of the machine, with the same messages taken by the
      broker and the same watermark saved. */
  lemma PageIsRun(s: State, e: string, page: seq<Trade>, open: bool)
    requires e in s.pollers && forall t :: t in page ==> t.exchange == e
    ensures var watermark := s.pollers[e].watermark;
            var steps := PageSteps(e, Published(page, watermark), open);
            && Possible(s, steps)
            && Run(s, steps).enqueued == s.enqueued + (if open then Published(page, watermark) else [])
            && e in Run(s, steps).pollers
            && Run(s, steps).pollers[e].watermark == Watermark(page, watermark)
            && Run(s, steps).pollers[e].saved == Some(Watermark(page, watermark))
  {
    var watermark := s.pollers[e].watermark;
    var batch := Published(page, watermark);
    PublishedFromPage(page, watermark);
    PublishedIs(page, watermark, Watermark(page, watermark));
    PublishingRuns(s, e, batch, open);
    if batch != [] { PublishedIs(page, watermark, batch[|batch| - 1].id); }
  }

  // ---- a delivered message is a run of steps ----

  /** One attempt: the commit and, if it went through, the ack. */
  function AttemptSteps(t: Trade, fate: Fate): seq<Step> {
    if fate.CommitRaises? then [Commit(t, fate)] else [Commit(t, fate), Ack(t, fate)]
  }

  /** The attempts of on_message; when it gives up the consumer dies and the queue takes the message back. */
  function MessageSteps(t: Trade, fates: nat -> Fate, attempt: nat): seq<Step>
    decreases MAX_ATTEMPTS + 1 - attempt
  {
    AttemptSteps(t, fates(attempt)) +
    if fates(attempt) == Works then []
    else if attempt > MAX_ATTEMPTS then [Requeue]
    else MessageSteps(t, fates, attempt + 1)
  }

  function AfterAttempt(s: State, t: Trade, fate: Fate): State
    requires t in s.unacked
  {
    if fate.CommitRaises? then Next(s, Commit(t, fate)) else Next(Next(s, Commit(t, fate)), Ack(t, fate))
  }

  /** The steps are possible and lead to a state with this store and these acks. */
  predicate Leads(s: State, steps: seq<Step>, store: seq<Trade>, acked: seq<Trade>) {
    Possible(s, steps) && Run(s, steps).store == store && Run(s, steps).acked == acked
  }

  lemma AttemptLeads(s: State, t: Trade, fate: Fate, rest: seq<Step>, store: seq<Trade>, acked: seq<Trade>)
    requires t in s.unacked && Leads(AfterAttempt(s, t, fate), rest, store, acked)
    ensures Leads(s, AttemptSteps(t, fate) + rest, store, acked)
  {
    hide Committed;
    if fate.CommitRaises? {
      FirstStep(s, Commit(t, fate), rest);
    } else {
      FirstStep(s, Commit(t, fate), [Ack(t, fate)] + rest);
      FirstStep(Next(s, Commit(t, fate)), Ack(t, fate), rest);
      assert AttemptSteps(t, fate) + rest == [Commit(t, fate)] + ([Ack(t, fate)] + rest);
    }
  }

  lemma AttemptDoes(s: State, t: Trade, fate: Fate)
    requires t in s.unacked
    ensures var after := AfterAttempt(s, t, fate);
      && after.store == Attempted(s.store, t, fate)
      && after.acked == (if fate == Works then s.acked + [t] else s.acked)
      && (fate != Works ==> t in after.unacked)
  {
    hide Committed;
  }

  lemma EndLeads(s: State)
    ensures Leads(s, [], s.store, s.acked) && Leads(s, [Requeue], s.store, s.acked)
  {
    FirstStep(s, Requeue, []);
    assert [Requeue] + [] == [Requeue];
  }

  ghost predicate MessageLeads(s: State, t: Trade, fates: nat -> Fate, attempt: nat) {
    Leads(s, MessageSteps(t, fates, attempt), Handled(s.store, t, fates, attempt),
          if FirstWorking(fates, attempt).Some? then s.acked + [t] else s.acked)
  }

  lemma LastAttemptLeads(s: State, t: Trade, fates: nat -> Fate, attempt: nat)
    requires t in s.unacked && (fates(attempt) == Works || attempt > MAX_ATTEMPTS)
    ensures MessageLeads(s, t, fates, attempt)
  {
    var after := AfterAttempt(s, t, fates(attempt));
    AttemptDoes(s, t, fates(attempt));
    EndLeads(after);
    hide Leads;
    hide AfterAttempt;
    hide AttemptSteps;
    AttemptLeads(s, t, fates(attempt), if fates(attempt) == Works then [] else [Requeue], after.store, after.acked);
  }

  lemma RetryLeads(s: State, t: Trade, fates: nat -> Fate, attempt: nat)
    requires t in s.unacked && fates(attempt) != Works && attempt <= MAX_ATTEMPTS
    requires MessageLeads(AfterAttempt(s, t, fates(attempt)), t, fates, attempt + 1)
    ensures MessageLeads(s, t, fates, attempt)
  {
    var after := AfterAttempt(s, t, fates(attempt));
    AttemptDoes(s, t, fates(attempt));
    hide Leads;
    hide AfterAttempt;
    hide AttemptSteps;
    AttemptLeads(s, t, fates(attempt), MessageSteps(t, fates, attempt + 1),
                 Handled(after.store, t, fates, attempt + 1),
                 if FirstWorking(fates, attempt + 1).Some? then s.acked + [t] else s.acked);
  }

  lemma {:induction false} AttemptsLead(s: State, t: Trade, fates: nat -> Fate, attempt: nat)
    requires t in s.unacked
    ensures MessageLeads(s, t, fates, attempt)
    decreases MAX_ATTEMPTS + 1 - attempt
  {
    hide MessageLeads;
    if fates(attempt) == Works || attempt > MAX_ATTEMPTS {
      LastAttemptLeads(s, t, fates, attempt);
    } else {
      AttemptDoes(s, t, fates(attempt));
      AttemptsLead(AfterAttempt(s, t, fates(attempt)), t, fates, attempt + 1);
      RetryLeads(s, t, fates, attempt);
    }
  }

  /** A message handled by on_message is a possible run of the machine, with the same store and the same acks. */
  lemma MessageIsRun(s: State, t: Trade, fates: nat -> Fate, attempt: nat)
    requires t in s.unacked
    ensures Possible(s, MessageSteps(t, fates, attempt))
    ensures var after := Run(s, MessageSteps(t, fates, attempt));
      && after.store == Handled(s.store, t, fates, attempt)
      && after.acked == if FirstWorking(fates, attempt).Some? then s.acked + [t] else s.acked
  {
    hide MessageSteps;
    AttemptsLead(s, t, fates, attempt);
  }
}
