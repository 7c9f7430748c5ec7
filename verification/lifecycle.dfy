/**
 The two halves together: what a scheduler pass leaves for the workers, what
 handling every dispatched message does, and why a message delivered again is
 dropped. All on the store functions, one call after another (no interleaving).
 */
module Lifecycle {
  import opened TaskStore
  import opened Scheduler
  import opened ScheduledTask

  /** One delivery of a message to a worker: its clock reading and what run() does there. */
  datatype Delivery = Delivery(now: int, run: RunResult)

  datatype Drained = Drained(store: Store, outcomes: seq<HandleOutcome>)

  /** The messages handled one after another, each against the store the previous one left. */
  function HandleEach(store: Store, messages: seq<Id>, deliveries: seq<Delivery>): (r: Drained)
    requires |deliveries| == |messages|
    ensures |r.outcomes| == |messages|
    ensures r.store.Keys == store.Keys
    ensures forall id :: id in store && id !in messages ==> r.store[id] == store[id]
    decreases |messages|
  {
    if messages == [] then Drained(store, [])
    else
      var first := Handled(store, messages[0], deliveries[0].now, deliveries[0].run);
      var rest := HandleEach(first.store, messages[1..], deliveries[1..]);
      Drained(rest.store, [first.outcome] + rest.outcomes)
  }

  /** A record a worker is done with: SCHEDULED again or FAILED. */
  predicate Settled(r: TaskRecord)
  {
    r.status == Scheduled || r.status == Failed
  }

  /** A handle call that is not dropped leaves its record SCHEDULED or FAILED, never QUEUED or RUNNING. */
  lemma HandledSettles(store: Store, taskId: Id, now: int, run: RunResult)
    requires taskId in store && store[taskId].status == Queued
    ensures var r := Handled(store, taskId, now, run);
      !r.outcome.Discarded? && Settled(r.store[taskId])
  {
  }

  /**
   After a successful run the two time fields are equal, both now plus the
   interval: the aliased DateTime, not `lastExecutionTime = now`.
   */
  lemma RescheduledTimesCoincide(store: Store, taskId: Id, now: int)
    requires taskId in store && store[taskId].status == Queued
    ensures var r := Handled(store, taskId, now, Completed).store[taskId];
      && r.lastExecutionTime == Some(r.nextExecutionTime)
      && r.nextExecutionTime == now + store[taskId].runInterval
      && r.status == Scheduled
  {
  }

  /** Handling the same message twice: the second call is dropped and writes nothing. */
  lemma ReplayDiscarded(store: Store, taskId: Id, first: Delivery, second: Delivery)
    ensures var once := Handled(store, taskId, first.now, first.run);
      Handled(once.store, taskId, second.now, second.run) == HandleResult(Discarded, once.store)
  {
  }

  /**
   Distinct messages for QUEUED records, handled in turn: none is dropped and
   every one of those records ends SCHEDULED or FAILED.
   */
  lemma {:induction false} HandleEachSettles(store: Store, messages: seq<Id>, deliveries: seq<Delivery>)
    requires |deliveries| == |messages|
    requires NoDuplicates(messages)
    requires forall i :: 0 <= i < |messages| ==> messages[i] in store && store[messages[i]].status == Queued
    ensures var r := HandleEach(store, messages, deliveries);
      && (forall i :: 0 <= i < |messages| ==> !r.outcomes[i].Discarded?)
      && (forall i :: 0 <= i < |messages| ==> Settled(r.store[messages[i]]))
    decreases |messages|
  {
    if messages != [] {
      var first := Handled(store, messages[0], deliveries[0].now, deliveries[0].run);
      var tail := messages[1..];
      forall i | 0 <= i < |tail| ensures tail[i] in first.store && first.store[tail[i]].status == Queued {
        assert tail[i] == messages[i + 1] && messages[i + 1] != messages[0];
      }
      HandleEachSettles(first.store, tail, deliveries[1..]);
      var r := HandleEach(store, messages, deliveries);
      var rest := HandleEach(first.store, tail, deliveries[1..]);
      assert messages[0] !in tail by {
        forall i | 0 <= i < |tail| ensures tail[i] != messages[0] {
          assert tail[i] == messages[i + 1];
        }
      }
      forall i | 0 <= i < |messages| ensures Settled(r.store[messages[i]]) {
        if i > 0 { assert messages[i] == tail[i - 1]; }
      }
      forall i | 0 <= i < |messages| ensures !r.outcomes[i].Discarded? {
        if i > 0 { assert r.outcomes[i] == rest.outcomes[i - 1]; }
      }
    }
  }

  /**
   Messages delivered again once their records are settled (a redelivery, or a
   requeued dead message) are all dropped, and the store stays as it is.
   */
  lemma {:induction false} RedeliveryDiscarded(store: Store, messages: seq<Id>, deliveries: seq<Delivery>)
    requires |deliveries| == |messages|
    requires forall i :: 0 <= i < |messages| ==> messages[i] in store && Settled(store[messages[i]])
    ensures var r := HandleEach(store, messages, deliveries);
      && r.store == store
      && forall i :: 0 <= i < |messages| ==> r.outcomes[i] == Discarded
    decreases |messages|
  {
    if messages != [] {
      var tail := messages[1..];
      forall i | 0 <= i < |tail| ensures tail[i] in store && Settled(store[tail[i]]) {
        assert tail[i] == messages[i + 1];
      }
      RedeliveryDiscarded(store, tail, deliveries[1..]);
      var r := HandleEach(store, messages, deliveries);
      var rest := HandleEach(store, tail, deliveries[1..]);
      forall i | 0 <= i < |messages| ensures r.outcomes[i] == Discarded {
        if i > 0 { assert r.outcomes[i] == rest.outcomes[i - 1]; }
      }
    }
  }

  /**
   A record a pass marked QUEUED is not selected by a later pass, whatever its
   clock reading, as long as no message for it has been handled: the later
   pass may come after handle calls for any other records.
   */
  lemma QueuedNotSelectedAgain(store: Store, now: int, messages: seq<Id>, deliveries: seq<Delivery>, later: int)
    requires |deliveries| == |messages|
    ensures var queued := MarkStatus(store, DueTasks(store, now).Keys, Queued);
      var handled := HandleEach(queued, messages, deliveries).store;
      forall id :: id in DueTasks(store, now) && id !in messages ==> id !in DueTasks(handled, later)
  {
  }

  /**
   A completed pass followed by one handle call per dispatched message: no
   message is dropped, every selected record ends SCHEDULED or FAILED, every
   other record is as the pass found it, and delivering the messages again
   changes nothing.
   */
  lemma PassThenHandleEach(store: Store, now: int, sent: seq<Id>, deliveries: seq<Delivery>, again: seq<Delivery>)
    requires |deliveries| == |sent| && |again| == |sent|
    requires NoDuplicates(sent) && Elements(sent) == DueTasks(store, now).Keys
    ensures var queued := MarkStatus(store, DueTasks(store, now).Keys, Queued);
      var r := HandleEach(queued, sent, deliveries);
      && (forall i :: 0 <= i < |sent| ==> !r.outcomes[i].Discarded? && Settled(r.store[sent[i]]))
      && (forall id :: id in store && id !in DueTasks(store, now) ==> r.store[id] == store[id])
      && HandleEach(r.store, sent, again) == Drained(r.store, seq(|sent|, i => Discarded))
  {
    var due := DueTasks(store, now);
    var queued := MarkStatus(store, due.Keys, Queued);
    forall i | 0 <= i < |sent| ensures sent[i] in queued && queued[sent[i]].status == Queued {
      assert sent[i] in Elements(sent);
    }
    HandleEachSettles(queued, sent, deliveries);
    var r := HandleEach(queued, sent, deliveries);
    forall id | id in store && id !in due ensures r.store[id] == store[id] {
      assert id !in Elements(sent);
    }
    RedeliveryDiscarded(r.store, sent, again);
  }
}
