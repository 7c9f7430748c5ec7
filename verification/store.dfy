/**
 The scheduled_task store: the task records, the partial-update rows the
 scheduler and the handler write, and the in-memory repository that holds them.
 A record's id is its key in the store, as an entity collection is keyed by id.
 Times are integer seconds.
 */
module TaskStore {

  type Id = string
  type ClassName = string

  datatype Option<T> = None | Some(value: T)

  /** The statuses of ScheduledTaskDefinition. */
  datatype Status = Scheduled | Queued | Running | Failed | Inactive

  datatype TaskRecord = TaskRecord(
    scheduledTaskClass: ClassName,
    runInterval: int,
    status: Status,
    lastExecutionTime: Option<int>,
    nextExecutionTime: int)

  type Store = map<Id, TaskRecord>

  /**
   One row of an update payload: the id, the new status and, when present,
   the serialised execution times. `None` means the key is absent from the row
   and the stored field is left as it is.
   */
  datatype UpdateRow = UpdateRow(
    id: Id,
    status: Status,
    lastExecutionTime: Option<int>,
    nextExecutionTime: Option<int>)

  /** A row that writes the status alone. */
  function StatusRow(id: Id, status: Status): UpdateRow
  {
    UpdateRow(id, status, None, None)
  }

  /** True iff some row of `rows` targets `id`. */
  predicate Mentions(rows: seq<UpdateRow>, id: Id)
  {
    exists i :: 0 <= i < |rows| && rows[i].id == id
  }

  /** The fields a row carries, written over a record. */
  function Patch(r: TaskRecord, row: UpdateRow): TaskRecord
  {
    r.(status := row.status,
       lastExecutionTime := if row.lastExecutionTime.Some? then row.lastExecutionTime else r.lastExecutionTime,
       nextExecutionTime := if row.nextExecutionTime.Some? then row.nextExecutionTime.value else r.nextExecutionTime)
  }

  /** One row applied to the store; a row for an id that has no record writes nothing. */
  function ApplyRow(store: Store, row: UpdateRow): Store
  {
    if row.id in store then store[row.id := Patch(store[row.id], row)] else store
  }

  /**
   A batch update: the rows applied in order. No record is added or removed,
   no record that no row names changes, and the class and the run interval of
   every record stay as they were.
   */
  function ApplyRows(store: Store, rows: seq<UpdateRow>): (r: Store)
    ensures r.Keys == store.Keys
    ensures forall id :: id in store && !Mentions(rows, id) ==> r[id] == store[id]
    ensures forall id :: id in store ==>
      r[id].scheduledTaskClass == store[id].scheduledTaskClass && r[id].runInterval == store[id].runInterval
  {
    if rows == [] then store
    else
      var r := ApplyRows(ApplyRow(store, rows[0]), rows[1..]);
      assert forall id :: Mentions(rows[1..], id) ==> Mentions(rows, id) by {
        forall id | Mentions(rows[1..], id) ensures Mentions(rows, id) {
          var i :| 0 <= i < |rows[1..]| && rows[1..][i].id == id;
          assert rows[i + 1].id == id;
        }
      }
      r
  }

  /** The store with the records in `ids` given status `status` and every other field kept. */
  function MarkStatus(store: Store, ids: set<Id>, status: Status): (r: Store)
    ensures r.Keys == store.Keys
  {
    map id | id in store :: if id in ids then store[id].(status := status) else store[id]
  }

  /** The ids a sequence of ids names, as a set. */
  function Elements(ids: seq<Id>): set<Id>
  {
    set id | id in ids
  }

  lemma ElementsCons(ids: seq<Id>)
    requires ids != []
    ensures Elements(ids) == {ids[0]} + Elements(ids[1..])
  {
  }

  /** Writing one status row and then marking `rest` is marking `{id} + rest`. */
  lemma MarkStatusStep(store: Store, id: Id, rest: set<Id>, status: Status)
    ensures MarkStatus(ApplyRow(store, StatusRow(id, status)), rest, status) == MarkStatus(store, {id} + rest, status)
  {
  }

  /**
   A payload of status-only rows, one per id of `ids`, writes exactly the
   status of those records: it is MarkStatus on the set of ids it names.
   */
  lemma {:induction false} StatusRowsMarkStatus(store: Store, ids: seq<Id>, rows: seq<UpdateRow>, status: Status)
    requires |rows| == |ids|
    requires forall i :: 0 <= i < |rows| ==> rows[i] == StatusRow(ids[i], status)
    ensures ApplyRows(store, rows) == MarkStatus(store, Elements(ids), status)
  {
    if rows == [] {
      assert MarkStatus(store, {}, status) == store;
    } else {
      var first := ApplyRow(store, rows[0]);
      assert forall i :: 0 <= i < |rows[1..]| ==> rows[1..][i] == StatusRow(ids[1..][i], status) by {
        forall i | 0 <= i < |rows[1..]| ensures rows[1..][i] == StatusRow(ids[1..][i], status) {
          assert rows[i + 1] == StatusRow(ids[i + 1], status);
        }
      }
      StatusRowsMarkStatus(first, ids[1..], rows[1..], status);
      ElementsCons(ids);
      MarkStatusStep(store, ids[0], Elements(ids[1..]), status);
    }
  }

  /**
   The scheduled_task repository: the store, updated in place by batch
   writes. `writes` keeps every payload written so far, so that a caller can
   say how many writes it made and with which rows.
   */
  class Repository {
    var records: Store
    ghost var writes: seq<seq<UpdateRow>>

    constructor (records: Store)
      ensures this.records == records && writes == []
    {
      this.records := records;
      writes := [];
    }

    /** `update(payload)`: one batch write of partial rows. */
    method Update(rows: seq<UpdateRow>)
      modifies this
      ensures records == ApplyRows(old(records), rows)
      ensures writes == old(writes) + [rows]
    {
      records := ApplyRows(records, rows);
      writes := writes + [rows];
    }
  }
}
