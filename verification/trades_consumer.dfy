/** Storing published trades (gryphon/data_service/trades_consumer.py:20-48) from a queue that redelivers
    (gryphon/data_service/queue_consumer.py:232-287). */
module TradesConsumers {
  import opened Wrappers
  import opened TradesPollers

  // ---- the store ----

  predicate SameKey(t: Trade, u: Trade) { t.exchange == u.exchange && t.id == u.id }

  /** A row for the trade's exchange and id is stored. */
  predicate Stored(store: seq<Trade>, t: Trade) { exists u :: u in store && SameKey(t, u) }

  /** The uniqueness constraint on (exchange, exchange_trade_id). */
  predicate Unique(store: seq<Trade>) { forall i, j :: 0 <= i < j < |store| ==> !SameKey(store[i], store[j]) }

  /** What a commit leaves: a row is added unless its key is taken. */
  function Committed(store: seq<Trade>, t: Trade): seq<Trade> {
    if Stored(store, t) then store else store + [t]
  }

  lemma CommitStores(store: seq<Trade>, t: Trade, u: Trade)
    ensures Stored(Committed(store, t), t)
    ensures Stored(Committed(store, t), u) <==> Stored(store, u) || SameKey(t, u)
    ensures Unique(store) ==> Unique(Committed(store, t))
  {
    var after := Committed(store, t);
    if !Stored(store, t) {
      assert t in after;
      assert forall v :: v in store ==> v in after;
      if Unique(store) {
        forall i, j | 0 <= i < j < |after| ensures !SameKey(after[i], after[j]) {
          assert store[i] in store;
        }
      }
    } else if SameKey(t, u) {
      var v :| v in store && SameKey(t, v);
      assert SameKey(u, v);
    }
  }

  // ---- the consumer ----

  /** How the environment treats one attempt: the commit and the ack work, the commit raises something other
      than a duplicate (with or without having taken effect), or the ack raises. */
  datatype Fate = Works | CommitRaises(applied: bool) | AckRaises

  const MAX_ATTEMPTS := 600

  /** The first attempt that gets through, if one does before the consumer gives up. */
  function FirstWorking(fates: nat -> Fate, attempt: nat): Option<nat>
    decreases MAX_ATTEMPTS + 1 - attempt
  {
    if fates(attempt) == Works then Some(attempt)
    else if attempt > MAX_ATTEMPTS then None
    else FirstWorking(fates, attempt + 1)
  }

  /** The store after one call of the consumer function. */
  function Attempted(store: seq<Trade>, t: Trade, fate: Fate): seq<Trade> {
    if fate.CommitRaises? && !fate.applied then store else Committed(store, t)
  }

  /** The store after the attempts from this one to the first that gets through, or to the last. */
  function Handled(store: seq<Trade>, t: Trade, fates: nat -> Fate, attempt: nat): seq<Trade>
    decreases MAX_ATTEMPTS + 1 - attempt
  {
    var after := Attempted(store, t, fates(attempt));
    if fates(attempt) == Works || attempt > MAX_ATTEMPTS then after else Handled(after, t, fates, attempt + 1)
  }

  class TradesConsumer {
    var store: seq<Trade>
    var acked: seq<Trade>

    /** False when the commit raises. A duplicate entry counts as success. */
    method ConsumerFunction(t: Trade, fate: Fate) returns (ok: bool)
      modifies this`store
      ensures ok <==> !fate.CommitRaises?
      ensures store == Attempted(old(store), t, fate)
    {
      var duplicate := Stored(store, t);
      if fate.CommitRaises? {
        if fate.applied && !duplicate { store := store + [t]; }
        return false;
      }
      if duplicate { return true; }
      store := store + [t];
      ok := true;
    }

    method AcknowledgeMessage(t: Trade, fate: Fate) returns (ok: bool)
      modifies this`acked
      ensures ok <==> !fate.AckRaises?
      ensures acked == if ok then old(acked) + [t] else old(acked)
    {
      if fate.AckRaises? { return false; }
      acked := acked + [t];
      ok := true;
    }

    /** Retries until the message is stored and acked or 601 attempts have failed, which raises. However often
        it retries, the store gains at most the one row. */
    method OnMessage(t: Trade, fates: nat -> Fate, attempt: nat) returns (ok: bool)
      modifies this
      ensures ok <==> FirstWorking(fates, attempt).Some?
      ensures acked == if ok then old(acked) + [t] else old(acked)
      ensures store == Handled(old(store), t, fates, attempt)
      ensures store == old(store) || store == Committed(old(store), t)
      ensures ok ==> Stored(store, t)
      decreases MAX_ATTEMPTS + 1 - attempt
    {
      ok := ConsumerFunction(t, fates(attempt));
      CommitStores(old(store), t, t);
      if ok {
        ok := AcknowledgeMessage(t, fates(attempt));
        if ok { return; }
      }
      if attempt > MAX_ATTEMPTS { return false; }
      ok := OnMessage(t, fates, attempt + 1);
    }
  }

  /** The consumer gives up exactly when every one of its attempts fails: 601 of them from the first. */
  lemma {:induction false} GivesUpIff(fates: nat -> Fate, attempt: nat)
    requires attempt <= MAX_ATTEMPTS + 1
    ensures FirstWorking(fates, attempt).None?
            <==> forall k: nat :: attempt <= k <= MAX_ATTEMPTS + 1 ==> fates(k) != Works
    ensures FirstWorking(fates, attempt).Some? ==>
              var k := FirstWorking(fates, attempt).value;
              attempt <= k <= MAX_ATTEMPTS + 1 && fates(k) == Works
              && forall j: nat :: attempt <= j < k ==> fates(j) != Works
    decreases MAX_ATTEMPTS + 1 - attempt
  {
    if attempt <= MAX_ATTEMPTS { GivesUpIff(fates, attempt + 1); }
  }

  /** From the first attempt there are 601. */
  lemma AttemptsAre(fates: nat -> Fate)
    ensures FirstWorking(fates, 1).None? <==> forall k: nat :: 1 <= k <= 601 ==> fates(k) != Works
  {
    GivesUpIff(fates, 1);
  }
}
