/**
 * The `events` table as a map from `uid` (its primary key) to the rest of the row.
 * Each operation is a pure function from the table before to the table after.
 */
module Database {
  import opened Wrappers
  import opened Events

  /** `sync_status`: the three values the code writes. */
  datatype Status = Pending | Synced | Failed

  /** One row of `events`, less its `uid` key. */
  datatype Record = Record(
    title: string,
    courseNumber: string,
    dueDate: Timestamp,
    processedDate: Timestamp,
    taskId: Option<string>,
    status: Status)

  /** The table. Being a map, it holds at most one row per `uid`. */
  type Store = map<string, Record>

  /** The row `add_event` writes for `a` at time `now`. */
  function NewRecord(a: Assignment, now: Timestamp): Record {
    Record(a.title, a.courseNumber, a.dueDate, now, None, Pending)
  }

  /** `event_exists`: is there a row for `uid`, whatever its status. */
  predicate EventExists(store: Store, uid: string): (r: bool)
    ensures r <==> uid in GetPendingEvents(store)
                   || (uid in store && store[uid].status in {Synced, Failed})
  {
    uid in store
  }

  /** `add_event`: INSERT OR REPLACE. The row for `a.uid` is written afresh, pending and
      without a task id, with `processed_date` set to `now`; no other row changes. A
      missing due date makes `isoformat()` raise before the statement runs: `None`, and
      nothing is written. */
  function AddEvent(store: Store, a: Assignment, now: Timestamp): (r: Option<Store>)
    ensures r.None? <==> a.dueDate == ""
    ensures r.Some? ==> r.value.Keys == store.Keys + {a.uid}
    ensures r.Some? ==> r.value[a.uid].status == Pending && r.value[a.uid].taskId == None
    ensures r.Some? ==> r.value[a.uid].title == a.title && r.value[a.uid].courseNumber == a.courseNumber
    ensures r.Some? ==> r.value[a.uid].dueDate == a.dueDate && r.value[a.uid].processedDate == now
    ensures r.Some? ==> forall u :: u in store && u != a.uid ==> r.value[u] == store[u]
  {
    if a.dueDate == "" then None else Some(store[a.uid := NewRecord(a, now)])
  }

  /** `update_sync_status`: sets the status of the row for `uid`, and its task id only
      when the given id is truthy; a missing row is left missing. */
  function UpdateSyncStatus(store: Store, uid: string, status: Status, taskId: Option<string>): (r: Store)
    ensures r.Keys == store.Keys
    ensures forall u :: u in store && u != uid ==> r[u] == store[u]
    ensures uid in store ==> r[uid].status == status
    ensures uid in store ==> r[uid].taskId == (if Truthy(taskId) then taskId else store[uid].taskId)
    ensures uid in store ==>
              && r[uid].title == store[uid].title
              && r[uid].courseNumber == store[uid].courseNumber
              && r[uid].dueDate == store[uid].dueDate
              && r[uid].processedDate == store[uid].processedDate
  {
    if uid !in store then store
    else if Truthy(taskId) then store[uid := store[uid].(status := status, taskId := taskId)]
    else store[uid := store[uid].(status := status)]
  }

  /** `get_pending_events`: the rows whose status is pending, keyed by `uid`. */
  function GetPendingEvents(store: Store): (r: map<string, Record>)
    ensures forall u :: u in r <==> u in store && store[u].status == Pending
    ensures forall u :: u in r ==> r[u] == store[u]
  {
    map u | u in store && store[u].status == Pending :: store[u]
  }

  // ---------------------------------------------------------------------------
  // Properties relating the operations.
  // ---------------------------------------------------------------------------

  /** Replace, not merge: whatever row `a.uid` had before, `add_event` leaves the same table
      as if there had been none. */
  lemma AddEventReplaces(store: Store, a: Assignment, now: Timestamp, prior: Record)
    ensures AddEvent(store[a.uid := prior], a, now) == AddEvent(store - {a.uid}, a, now)
  {
    if a.dueDate != "" {
      var s1 := AddEvent(store[a.uid := prior], a, now).value;
      var s2 := AddEvent(store - {a.uid}, a, now).value;
      assert s1.Keys == s2.Keys;
      assert forall u :: u in s1 ==> s1[u] == s2[u];
      assert s1 == s2;
    }
  }

  /** A second `add_event` for the same uid, after a first that succeeded, wins outright. */
  lemma AddEventTwice(store: Store, a: Assignment, b: Assignment, t1: Timestamp, t2: Timestamp)
    requires a.uid == b.uid
    ensures AddEvent(store, a, t1).Some? ==>
              AddEvent(AddEvent(store, a, t1).value, b, t2) == AddEvent(store, b, t2)
  {
    if a.dueDate != "" && b.dueDate != "" {
      var s1 := AddEvent(AddEvent(store, a, t1).value, b, t2).value;
      var s2 := AddEvent(store, b, t2).value;
      assert s1.Keys == s2.Keys;
      assert forall u :: u in s1 ==> s1[u] == s2[u];
      assert s1 == s2;
    }
  }

  /** Existence does not depend on status: updating the status never changes which
      uids exist. */
  lemma ExistsIgnoresStatus(store: Store, uid: string, status: Status, taskId: Option<string>, v: string)
    ensures EventExists(UpdateSyncStatus(store, uid, status, taskId), v) == EventExists(store, v)
  {
  }

  /** A row leaves the pending set when its status is set to synced or failed; every other
      row keeps its membership. */
  lemma UpdateLeavesPending(store: Store, uid: string, status: Status, taskId: Option<string>)
    requires uid in store && status != Pending
    ensures GetPendingEvents(UpdateSyncStatus(store, uid, status, taskId)).Keys
            == GetPendingEvents(store).Keys - {uid}
  {
    var r := UpdateSyncStatus(store, uid, status, taskId);
    assert GetPendingEvents(r).Keys == GetPendingEvents(store).Keys - {uid} by {
      forall u ensures u in GetPendingEvents(r) <==> u in GetPendingEvents(store) && u != uid {
      }
    }
  }

  /** A freshly added row is pending. */
  lemma AddEventIsPending(store: Store, a: Assignment, now: Timestamp)
    ensures AddEvent(store, a, now).Some? ==>
              GetPendingEvents(AddEvent(store, a, now).value).Keys == GetPendingEvents(store).Keys + {a.uid}
  {
    if a.dueDate != "" {
      var r := AddEvent(store, a, now).value;
      assert GetPendingEvents(r).Keys == GetPendingEvents(store).Keys + {a.uid} by {
        forall u ensures u in GetPendingEvents(r) <==> u in GetPendingEvents(store) || u == a.uid {
        }
      }
    }
  }

  /** Setting a status twice with the same arguments is the same as setting it once. */
  lemma UpdateIdempotent(store: Store, uid: string, status: Status, taskId: Option<string>)
    ensures UpdateSyncStatus(UpdateSyncStatus(store, uid, status, taskId), uid, status, taskId)
            == UpdateSyncStatus(store, uid, status, taskId)
  {
  }
}
