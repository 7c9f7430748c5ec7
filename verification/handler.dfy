/**
 The executor side, ScheduledTaskHandler::handle: look the record up by the
 message's task id, drop the message unless the record is QUEUED, mark it
 RUNNING, run the task body, then reschedule it or mark it FAILED and re-throw.
 The task body is given as its outcome; the clock as the reading `now`.
 */
module ScheduledTask {
  import opened TaskStore

  /** What the abstract run() does: return normally, or throw an error. */
  datatype RunResult = Completed | Threw(error: string)

  /** How handle ends: the message dropped, the task rescheduled, or run()'s error re-thrown. */
  datatype HandleOutcome = Discarded | Rescheduled | Rethrown(error: string)

  datatype HandleResult = HandleResult(outcome: HandleOutcome, store: Store)

  /**
   The row rescheduleTask writes. `lastExecutionTime` and `nextExecutionTime`
   hold the same DateTime object, shifted by the interval before the write
   serialises it, so both fields carry `now + runInterval`.
   */
  function RescheduleRow(taskId: Id, runInterval: int, now: int): UpdateRow
  {
    var shifted := now + runInterval;
    UpdateRow(taskId, Scheduled, Some(shifted), Some(shifted))
  }

  /**
   The effect of one handle call on the store. Only the message's record is
   written; a message whose record is missing or not QUEUED changes nothing;
   otherwise the record ends SCHEDULED (with both times at now plus the
   interval read at the start) or FAILED (times untouched).
   */
  function Handled(store: Store, taskId: Id, now: int, run: RunResult): (r: HandleResult)
    ensures r.store.Keys == store.Keys
    ensures forall id :: id in store && id != taskId ==> r.store[id] == store[id]
    ensures r.outcome.Discarded? <==> taskId !in store || store[taskId].status != Queued
    ensures r.outcome.Discarded? ==> r.store == store
    ensures r.outcome.Rescheduled? <==> taskId in store && store[taskId].status == Queued && run.Completed?
    ensures r.outcome.Rescheduled? ==>
      var interval := store[taskId].runInterval;
      r.store[taskId] == store[taskId].(status := Scheduled,
                                        lastExecutionTime := Some(now + interval),
                                        nextExecutionTime := now + interval)
    ensures r.outcome.Rethrown? ==>
      && run == Threw(r.outcome.error)
      && r.store[taskId] == store[taskId].(status := Failed)
  {
    if taskId !in store || store[taskId].status != Queued then
      HandleResult(Discarded, store)
    else
      var taskEntity := store[taskId];
      var running := ApplyRow(store, StatusRow(taskId, Running));
      match run
      case Completed =>
        HandleResult(Rescheduled, ApplyRow(running, RescheduleRow(taskId, taskEntity.runInterval, now)))
      case Threw(e) =>
        HandleResult(Rethrown(e), ApplyRow(running, StatusRow(taskId, Failed)))
  }

  /** A mutable point in time, in seconds; `modify` shifts the object itself. */
  class DateTime {
    var timestamp: int

    constructor (timestamp: int)
      ensures this.timestamp == timestamp
    {
      this.timestamp := timestamp;
    }

    /** `modify('+N seconds')`: moves this object and returns it. */
    method Modify(seconds: int) returns (self: DateTime)
      modifies this
      ensures self == this && timestamp == old(timestamp) + seconds
    {
      timestamp := timestamp + seconds;
      self := this;
    }
  }

  class ScheduledTaskHandler {
    const repo: Repository
    /** The store as run() found it, once per invocation of run(). */
    ghost var runs: seq<Store>

    constructor (repo: Repository)
      ensures this.repo == repo && runs == []
    {
      this.repo := repo;
      runs := [];
    }

    /** The abstract task body; its outcome is not known to this class. */
    method Run(outcome: RunResult) returns (result: RunResult)
      modifies this
      ensures result == outcome
      ensures runs == old(runs) + [repo.records]
    {
      runs := runs + [repo.records];
      result := outcome;
    }

    /**
     handle, for the message carrying `taskId`; `now` is the clock reading
     rescheduleTask takes and `run` what the task body does.
     */
    method Handle(taskId: Id, now: int, run: RunResult) returns (outcome: HandleOutcome)
      modifies this, repo
      ensures var r := Handled(old(repo.records), taskId, now, run);
        outcome == r.outcome && repo.records == r.store
      // a dropped message writes nothing and does not run the task
      ensures outcome.Discarded? ==> repo.writes == old(repo.writes) && runs == old(runs)
      // otherwise run() is invoked once, with the record already RUNNING
      ensures !outcome.Discarded? ==>
        runs == old(runs) + [ApplyRow(old(repo.records), StatusRow(taskId, Running))]
      ensures outcome.Rescheduled? ==>
        repo.writes == old(repo.writes)
          + [[StatusRow(taskId, Running)], [RescheduleRow(taskId, old(repo.records)[taskId].runInterval, now)]]
      ensures outcome.Rethrown? ==>
        repo.writes == old(repo.writes) + [[StatusRow(taskId, Running)], [StatusRow(taskId, Failed)]]
    {
      var taskEntity := if taskId in repo.records then Some(repo.records[taskId]) else None;
      if taskEntity.None? || taskEntity.value.status != Queued {
        return Discarded;
      }
      MarkTaskRunning(taskId);
      var result := Run(run);
      if result.Threw? {
        MarkTaskFailed(taskId);
        return Rethrown(result.error);
      }
      RescheduleTask(taskId, taskEntity.value, now);
      return Rescheduled;
    }

    /** markTaskRunning: a status-only write. */
    method MarkTaskRunning(taskId: Id)
      modifies repo
      ensures repo.records == ApplyRow(old(repo.records), StatusRow(taskId, Running))
      ensures repo.writes == old(repo.writes) + [[StatusRow(taskId, Running)]]
    {
      repo.Update([StatusRow(taskId, Running)]);
    }

    /** markTaskFailed: a status-only write. */
    method MarkTaskFailed(taskId: Id)
      modifies repo
      ensures repo.records == ApplyRow(old(repo.records), StatusRow(taskId, Failed))
      ensures repo.writes == old(repo.writes) + [[StatusRow(taskId, Failed)]]
    {
      repo.Update([StatusRow(taskId, Failed)]);
    }

    /**
     rescheduleTask: the interval comes from `taskEntity`, the record read at
     the start of handle. The payload holds the DateTime object itself under
     both time keys; `modify` shifts it before the write reads it.
     */
    method RescheduleTask(taskId: Id, taskEntity: TaskRecord, clock: int)
      modifies repo
      ensures repo.records == ApplyRow(old(repo.records), RescheduleRow(taskId, taskEntity.runInterval, clock))
      ensures repo.writes == old(repo.writes) + [[RescheduleRow(taskId, taskEntity.runInterval, clock)]]
    {
      var now := new DateTime(clock);
      var lastExecutionTime := now;
      var nextExecutionTime := now.Modify(taskEntity.runInterval);
      repo.Update([UpdateRow(taskId, Scheduled, Some(lastExecutionTime.timestamp), Some(nextExecutionTime.timestamp))]);
    }
  }
}
