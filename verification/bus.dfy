/**
 The message bus, seen from the scheduler: an append-only sequence of the task
 ids of the messages dispatched so far. Transport, delivery and retry are not
 part of this model.
 */
module MessageQueue {
  import opened TaskStore

  class MessageBus {
    var dispatched: seq<Id>

    constructor ()
      ensures dispatched == []
    {
      dispatched := [];
    }

    /** `dispatch($task)`: one message carrying the task id is appended. */
    method Dispatch(taskId: Id)
      modifies this
      ensures dispatched == old(dispatched) + [taskId]
    {
      dispatched := dispatched + [taskId];
    }
  }
}
