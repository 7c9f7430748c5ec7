/**
 The scheduler pass of TaskScheduler: select the due records, dispatch one
 message per record, then mark them all QUEUED in one batch write; and the two
 read-only minimum queries the poller uses to size its sleep.
 */
module Scheduler {
  import opened TaskStore
  import opened MessageQueue

  /** How a pass ends: normally, or with the RuntimeException for a class that is not a scheduled task. */
  datatype PassOutcome = PassCompleted | NotATask(taskClass: ClassName)

  /** The selection rule of buildCriteriaForAllScheduledTask: SCHEDULED and next run strictly before now. */
  predicate IsDue(r: TaskRecord, now: int)
  {
    r.status == Scheduled && r.nextExecutionTime < now
  }

  /** The entity collection the search returns: the due records, keyed by id. */
  function DueTasks(store: Store, now: int): (due: Store)
    ensures forall id :: id in due <==>
      id in store && store[id].status == Scheduled && store[id].nextExecutionTime < now
    ensures forall id :: id in due ==> due[id] == store[id]
  {
    map id | id in store && IsDue(store[id], now) :: store[id]
  }

  predicate NoDuplicates(s: seq<Id>)
  {
    forall i, j :: 0 <= i < j < |s| ==> s[i] != s[j]
  }

  /** `m` is the least element of `s`. */
  predicate IsLeast(m: int, s: set<int>)
  {
    m in s && forall x :: x in s ==> m <= x
  }

  /** A non-empty set has an element. */
  lemma ElementOf(s: set<int>) returns (x: int)
    requires s != {}
    ensures x in s
  {
    assert (forall y :: y !in s) ==> s == {};
    x :| x in s;
  }

  /** Every finite set of integers that holds `y` has a least element. */
  lemma {:induction false} LeastExists(s: set<int>, y: int) returns (m: int)
    requires y in s
    ensures IsLeast(m, s)
    decreases s
  {
    if s == {y} {
      m := y;
    } else {
      var rest := s - {y};
      var z := ElementOf(rest);
      var least := LeastExists(rest, z);
      m := if y < least then y else least;
      forall x | x in s ensures m <= x {
        if x != y { assert x in rest; }
      }
    }
  }

  /** The MIN aggregation over a non-empty set of values. */
  function SetMin(s: set<int>): (m: int)
    requires s != {}
    ensures m in s && forall x :: x in s ==> m <= x
  {
    assert exists least :: IsLeast(least, s) by {
      var y := ElementOf(s);
      var least := LeastExists(s, y);
    }
    var m :| IsLeast(m, s);
    m
  }

  /**
   The MIN aggregation of buildCriteriaForNextScheduledTask: the least next
   execution time among SCHEDULED records, or None when no record is SCHEDULED.
   */
  function NextExecutionTime(store: Store): (r: Option<int>)
    ensures r.None? <==> forall id :: id in store ==> store[id].status != Scheduled
    ensures r.Some? ==> exists id :: (id in store && store[id].status == Scheduled
      && store[id].nextExecutionTime == r.value)
    ensures r.Some? ==> forall id :: (id in store && store[id].status == Scheduled
      ==> r.value <= store[id].nextExecutionTime)
  {
    var times := set id | id in store && store[id].status == Scheduled :: store[id].nextExecutionTime;
    assert forall id :: (id in store && store[id].status == Scheduled ==> store[id].nextExecutionTime in times);
    if times == {} then None else Some(SetMin(times))
  }

  /**
   The MIN aggregation of buildCriteriaForMinRunInterval: the least run
   interval over all records, whatever their status, or None when the store is
   empty.
   */
  function MinRunInterval(store: Store): (r: Option<int>)
    ensures r.None? <==> store == map[]
    ensures r.Some? ==> exists id :: id in store && store[id].runInterval == r.value
    ensures r.Some? ==> forall id :: id in store ==> r.value <= store[id].runInterval
  {
    var intervals := set id | id in store :: store[id].runInterval;
    assert forall id :: id in store ==> store[id].runInterval in intervals;
    if intervals == {} then None else Some(SetMin(intervals))
  }

  class TaskScheduler {
    const repo: Repository
    const bus: MessageBus

    constructor (repo: Repository, bus: MessageBus)
      ensures this.repo == repo && this.bus == bus
    {
      this.repo := repo;
      this.bus := bus;
    }

    /**
     queueScheduledTasks. `now` is the clock reading the search compares
     against; `taskClasses` are the class names that implement the scheduled
     task interface. `sent` are the ids dispatched by this pass, in order.
     */
    method QueueScheduledTasks(now: int, taskClasses: set<ClassName>) returns (outcome: PassOutcome, ghost sent: seq<Id>)
      modifies repo, bus
      ensures bus.dispatched == old(bus.dispatched) + sent
      ensures NoDuplicates(sent)
      ensures forall i :: 0 <= i < |sent| ==>
        var due := DueTasks(old(repo.records), now);
        sent[i] in due && due[sent[i]].scheduledTaskClass in taskClasses
      // the pass completes iff every due record's class is a scheduled task
      ensures outcome.PassCompleted? <==>
        var due := DueTasks(old(repo.records), now);
        forall id :: id in due ==> due[id].scheduledTaskClass in taskClasses
      // completed: every due record dispatched once and marked QUEUED, nothing else changed
      ensures outcome.PassCompleted? ==>
        var due := DueTasks(old(repo.records), now);
        && Elements(sent) == due.Keys
        && repo.records == MarkStatus(old(repo.records), due.Keys, Queued)
      // at most one write, and only when something was due and nothing threw
      ensures outcome.PassCompleted? && DueTasks(old(repo.records), now) != map[] ==>
        && |repo.writes| == |old(repo.writes)| + 1
        && repo.writes[..|old(repo.writes)|] == old(repo.writes)
        && var payload := repo.writes[|old(repo.writes)|];
           |payload| == |sent| && forall i :: 0 <= i < |payload| ==> payload[i] == StatusRow(sent[i], Queued)
      ensures outcome.NotATask? || DueTasks(old(repo.records), now) == map[] ==>
        repo.writes == old(repo.writes) && repo.records == old(repo.records)
      // thrown: a due record with a bad class was met before being dispatched; earlier messages stay sent
      ensures outcome.NotATask? ==>
        var due := DueTasks(old(repo.records), now);
        && outcome.taskClass !in taskClasses
        && exists id :: id in due && id !in sent && due[id].scheduledTaskClass == outcome.taskClass
    {
      var tasks := DueTasks(repo.records, now);
      var updatePayload: seq<UpdateRow> := [];
      var remaining := tasks.Keys;
      sent := [];
      while remaining != {}
        invariant remaining <= tasks.Keys
        invariant repo.records == old(repo.records) && repo.writes == old(repo.writes)
        invariant bus.dispatched == old(bus.dispatched) + sent
        invariant NoDuplicates(sent)
        invariant forall id :: id in sent <==> id in tasks && id !in remaining
        invariant forall i :: 0 <= i < |sent| ==> tasks[sent[i]].scheduledTaskClass in taskClasses
        invariant |updatePayload| == |sent|
        invariant forall i :: 0 <= i < |updatePayload| ==> updatePayload[i] == StatusRow(sent[i], Queued)
        decreases remaining
      {
        var id :| id in remaining;
        var ok := QueueTask(id, tasks[id], taskClasses);
        if !ok {
          outcome := NotATask(tasks[id].scheduledTaskClass);
          return;
        }
        updatePayload := updatePayload + [StatusRow(id, Queued)];
        sent := sent + [id];
        remaining := remaining - {id};
      }
      assert Elements(sent) == tasks.Keys;
      StatusRowsMarkStatus(repo.records, sent, updatePayload, Queued);
      if |updatePayload| > 0 {
        repo.Update(updatePayload);
      } else {
        assert tasks.Keys == {};
        assert MarkStatus(repo.records, {}, Queued) == repo.records;
      }
      outcome := PassCompleted;
    }

    /** queueTask: the interface check, then one message carrying the record's id. */
    method QueueTask(taskId: Id, task: TaskRecord, taskClasses: set<ClassName>) returns (ok: bool)
      modifies bus
      ensures ok <==> task.scheduledTaskClass in taskClasses
      ensures bus.dispatched == if ok then old(bus.dispatched) + [taskId] else old(bus.dispatched)
    {
      if task.scheduledTaskClass !in taskClasses {
        return false;
      }
      bus.Dispatch(taskId);
      return true;
    }

    /** getNextExecutionTime: a read of the repository, nothing written. */
    function GetNextExecutionTime(): (r: Option<int>)
      reads repo
      ensures r == NextExecutionTime(repo.records)
    {
      NextExecutionTime(repo.records)
    }

    /** getMinRunInterval: a read of the repository, nothing written. */
    function GetMinRunInterval(): (r: Option<int>)
      reads repo
      ensures r == MinRunInterval(repo.records)
    {
      MinRunInterval(repo.records)
    }
  }
}
