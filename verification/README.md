# Scheduled tasks: scheduler pass and task handler

A Dafny model of the lifecycle of Shopware's scheduled tasks. The model covers
the two classes that act on the `scheduled_task` records:

- `TaskScheduler` queues the due tasks. One pass searches for the records
  that are SCHEDULED and whose `nextExecutionTime` lies strictly before now.
  It dispatches one message per record, carrying that record's id. After the
  loop it marks all of them QUEUED in one batch update. Two read-only MIN
  queries give the earliest next execution time and the smallest run interval.
- `ScheduledTaskHandler::handle` consumes a message. It looks the record up by
  the message's task id and drops the message unless the record exists and is
  QUEUED. Otherwise it marks the record RUNNING and calls the abstract
  `run()`. When `run()` returns, the record is rescheduled `runInterval`
  seconds later. When `run()` throws, the record is marked FAILED and the
  error is re-thrown.

How each part is represented:

- The repository is a class holding a `map<Id, TaskRecord>`. A record's id is
  its key. Writes are batches of partial rows (`UpdateRow`): id and status,
  and optionally the two time fields. A ghost log keeps every payload written,
  so that contracts can count the writes.
- The message bus is a class holding the append-only sequence of dispatched
  task ids.
- Time is integer seconds. The clock reading is a parameter of each call.
- The interface check on the task class is a parameter: the set of class
  names that implement the scheduled-task interface.
- What `run()` does is a parameter: it returns, or it throws an error. A ghost
  log in the handler records the store as `run()` found it on each call.
- PHP's mutable `\DateTime` is a small `DateTime` class. `modify` shifts the
  object itself. The reschedule payload holds that one object under both time
  keys, so both fields are written as `now + runInterval`.

`TaskScheduler.GetNextExecutionTime` and `TaskScheduler.GetMinRunInterval`
are functions over the repository's records that return `NextExecutionTime`
and `MinRunInterval`. As functions, they cannot write the store or the bus.

Modules: `TaskStore` (store.dfy), `MessageQueue` (bus.dfy), `Scheduler`
(scheduler.dfy), `ScheduledTask` (handler.dfy), and `Lifecycle`
(lifecycle.dfy). `Lifecycle` holds lemmas about the two halves run one after
the other.

Four points about the code that the model keeps:

- On reschedule, the code writes `lastExecutionTime = now + runInterval`
  (the aliased `\DateTime`), not `now`.
- The interval used on reschedule is the one read at the start of `handle`,
  not one read again afterwards.
- The status check and the RUNNING write are two separate steps. There is no
  compare-and-set.
- A task class that fails the interface check throws. This ends the whole
  pass: later records get no message, and no status is written.

## Model

| member | source | states |
|---|---|---|
| `Scheduler.DueTasks` | src/Core/Framework/ScheduledTask/Scheduler/TaskScheduler.php:82-96 | a record is selected iff its status is SCHEDULED and its `nextExecutionTime` is strictly below now; selected records are returned as stored |
| `Scheduler.TaskScheduler.QueueScheduledTasks` | src/Core/Framework/ScheduledTask/Scheduler/TaskScheduler.php:37-56 | the pass completes iff every due record's class passes the interface check; on completion, exactly one message per due record (no duplicates, nothing else), the store becomes exactly "due records set QUEUED, all else unchanged", and there is one write whose rows are the sent ids with QUEUED; with nothing due there is no write and no message; on a throw the store and the write log are unchanged, the thrown class belongs to a due record that got no message, and the messages already sent stay sent |
| `Scheduler.TaskScheduler.QueueTask` | src/Core/Framework/ScheduledTask/Scheduler/TaskScheduler.php:98-114 | dispatches one message carrying the record's id iff its class implements the interface; otherwise dispatches nothing and reports the throw |
| `Scheduler.TaskScheduler.GetNextExecutionTime` | src/Core/Framework/ScheduledTask/Scheduler/TaskScheduler.php:58-68 | returns `NextExecutionTime` of the repository's records; a function, so neither the store nor the bus changes |
| `Scheduler.TaskScheduler.GetMinRunInterval` | src/Core/Framework/ScheduledTask/Scheduler/TaskScheduler.php:70-80 | returns `MinRunInterval` of the repository's records; a function, so neither the store nor the bus changes |
| `Scheduler.SetMin` | src/Core/Framework/ScheduledTask/Scheduler/TaskScheduler.php:116-133 | the MIN aggregation returns an element of the set that is below or equal to every element |
| `Scheduler.LeastExists` | src/Core/Framework/ScheduledTask/Scheduler/TaskScheduler.php:116-133 | every finite set of values that holds some value has a least element, so the MIN aggregation is defined on any non-empty set |
| `Scheduler.NextExecutionTime` | src/Core/Framework/ScheduledTask/Scheduler/TaskScheduler.php:58-68 | None iff no record is SCHEDULED; otherwise the `nextExecutionTime` of some SCHEDULED record, and no SCHEDULED record has an earlier one |
| `Scheduler.MinRunInterval` | src/Core/Framework/ScheduledTask/Scheduler/TaskScheduler.php:70-80 | None iff the store is empty; otherwise the `runInterval` of some record, whatever its status, and no record has a smaller one |
| `TaskStore.ApplyRows` | src/Core/Framework/ScheduledTask/Scheduler/TaskScheduler.php:53-55 | a batch update adds and removes no record, leaves every record no row names as it was, and never changes a record's class or interval |
| `TaskStore.StatusRowsMarkStatus` | src/Core/Framework/ScheduledTask/Scheduler/TaskScheduler.php:47-55 | the pass's payload of `(id, QUEUED)` rows sets exactly those records' status to QUEUED and changes no other field or record |
| `TaskStore.Repository.Update` | src/Core/Framework/ScheduledTask/Scheduler/TaskScheduler.php:54 | the store becomes the batch applied to the old store, and the payload is appended to the write log |
| `MessageQueue.MessageBus.Dispatch` | src/Core/Framework/ScheduledTask/Scheduler/TaskScheduler.php:113 | appends exactly one message with the given task id |
| `ScheduledTask.Handled` | src/Core/Framework/ScheduledTask/ScheduledTaskHandler.php:27-82 | the message is dropped iff its record is missing or not QUEUED, and then nothing changes; otherwise only the message's record changes; it is rescheduled iff `run()` returns, with status SCHEDULED and both times at `now + runInterval` (the interval read at the start); when `run()` throws, the same error is re-thrown and the record is its old self with status FAILED, times untouched |
| `ScheduledTask.ScheduledTaskHandler.Handle` | src/Core/Framework/ScheduledTask/ScheduledTaskHandler.php:27-49 | the new store and the outcome are those of `Handled`; a dropped message makes no write and does not call `run()`; otherwise `run()` is called once, on a store where the record is already RUNNING; the writes are exactly RUNNING then the reschedule row, or RUNNING then FAILED |
| `ScheduledTask.ScheduledTaskHandler.Run` | src/Core/Framework/ScheduledTask/ScheduledTaskHandler.php:22 | returns or throws as given, and logs the store it ran against |
| `ScheduledTask.ScheduledTaskHandler.MarkTaskRunning` | src/Core/Framework/ScheduledTask/ScheduledTaskHandler.php:51-59 | one status-only write of RUNNING for the message's id |
| `ScheduledTask.ScheduledTaskHandler.MarkTaskFailed` | src/Core/Framework/ScheduledTask/ScheduledTaskHandler.php:61-69 | one status-only write of FAILED for the message's id |
| `ScheduledTask.ScheduledTaskHandler.RescheduleTask` | src/Core/Framework/ScheduledTask/ScheduledTaskHandler.php:71-82 | one write of SCHEDULED with both time fields at clock plus the interval of the entity read at the start of `handle` |
| `ScheduledTask.DateTime.Modify` | src/Core/Framework/ScheduledTask/ScheduledTaskHandler.php:79 | shifts the object itself and returns that same object |
| `Lifecycle.HandleEach` | src/Core/Framework/ScheduledTask/ScheduledTaskHandler.php:27-49 | handling a sequence of messages one after another yields one outcome per message, and leaves every record that no message names as it was |
| `Lifecycle.HandledSettles` | src/Core/Framework/ScheduledTask/ScheduledTaskHandler.php:38-48 | a handle call on a QUEUED record is not dropped and ends with status SCHEDULED or FAILED, never QUEUED or RUNNING |
| `Lifecycle.RescheduledTimesCoincide` | src/Core/Framework/ScheduledTask/ScheduledTaskHandler.php:73-79 | after a successful run, `lastExecutionTime` equals `nextExecutionTime`, and both are `now + runInterval` |
| `Lifecycle.ReplayDiscarded` | src/Core/Framework/ScheduledTask/ScheduledTaskHandler.php:34-48 | the same message handled a second time is dropped and writes nothing, whatever the first call did |
| `Lifecycle.HandleEachSettles` | src/Core/Framework/ScheduledTask/ScheduledTaskHandler.php:27-49 | distinct messages for QUEUED records, handled in turn: none is dropped, and each of those records ends SCHEDULED or FAILED |
| `Lifecycle.RedeliveryDiscarded` | src/Core/Framework/ScheduledTask/ScheduledTaskHandler.php:34-36 | messages delivered again for records that are SCHEDULED or FAILED are all dropped, and the store is unchanged |
| `Lifecycle.QueuedNotSelectedAgain` | src/Core/Framework/ScheduledTask/Scheduler/TaskScheduler.php:44-96 | a record a pass marked QUEUED is not selected by a later pass, whatever its clock reading, even after handle calls for any other records, as long as no message for that record has been handled |
| `Lifecycle.PassThenHandleEach` | src/Core/Framework/ScheduledTask/Scheduler/TaskScheduler.php:37-56 | after a completed pass, handling each sent message drops none, settles every selected record, leaves every other record as the pass found it, and a second delivery of all the messages changes nothing |

## Left out

- Concurrency: the scheduler and the workers run one call after another. The
  source has no compare-and-set between the QUEUED check and the RUNNING
  write, and the model claims none. Races between workers are not modelled.
- Repository internals: `Criteria`, the filters, the MIN aggregation objects
  and search results. They are replaced by functions on the map. A write
  failure of the repository is not modelled. A row for an id with no record
  writes nothing; no caller in the model produces one.
- The message bus transport, delivery guarantees and retry or dead-letter
  policy. The bus is only the sequence of dispatched ids. The dead-message
  requeue service is not part of this model. Its effect on the handler is
  covered by `RedeliveryDiscarded`.
- The order in which the search returns records. The pass takes the due
  records in an unspecified order.
- `class_implements`, `new $taskClass()` and `setTaskId`. The interface check
  is a set of class names. The message is the task id.
- The body of `run()`, which is abstract. Its outcome is a parameter. Writes
  it might make to the store itself are not modelled. So, in this model,
  nothing changes a record's interval between the read at the start of
  `handle` and the reschedule. The model still takes the interval from that
  first read, as the code does.
- `Context::createDefaultContext()`, which has no behaviour here.
- `\DateTime` construction and `DATE_ATOM` formatting. Times are integer
  seconds, and the range filter is `<` on them.
- A failure of `dispatch` itself. Every dispatch in the model succeeds.
- The routing of a message to the handler of its task class. The handler
  receives the task id alone.
