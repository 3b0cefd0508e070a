/**
 * What `process_events` does to a whole batch, stated without the fold: which uids end
 * up stored, which assignments are reported, that non-assignment events are invisible,
 * and that running the same batch again does nothing.
 */
module Reconciliation {
  import opened Wrappers
  import opened Events
  import opened Database
  import opened EventProcessor

  /** An event that the loop would store if its uid were new: an assignment whose title
      yields data and whose date `add_event` can write. */
  predicate Qualifies(e: RawEvent) {
    IsAssignment(e) && ExtractAssignmentData(e).Some? && e.date != ""
  }

  /** The uids of the events of a batch that satisfy `q`. */
  ghost function UidsWhere(events: seq<RawEvent>, q: RawEvent -> bool): set<string> {
    set i | 0 <= i < |events| && q(events[i]) :: events[i].uid
  }

  /** The uids of the qualifying events of a batch. */
  ghost function QualifyingUids(events: seq<RawEvent>): set<string> {
    UidsWhere(events, Qualifies)
  }

  /** Event `i` qualifies, its uid was not stored before the batch, and no earlier event of
      the batch with the same uid qualified. */
  ghost predicate FirstSighting(keys: set<string>, events: seq<RawEvent>, i: int)
    requires 0 <= i < |events|
  {
    Qualifies(events[i]) && events[i].uid !in keys && events[i].uid !in QualifyingUids(events[..i])
  }

  /** The assignment data of the first sightings, in input order. */
  ghost function Selected(keys: set<string>, events: seq<RawEvent>): seq<Assignment>
    decreases |events|
  {
    if events == [] then []
    else
      var n := |events| - 1;
      Selected(keys, events[..n])
        + (if FirstSighting(keys, events, n) then [ExtractAssignmentData(events[n]).value] else [])
  }

  /** The events of a batch that are assignments, in input order. */
  function AssignmentsOnly(events: seq<RawEvent>): seq<RawEvent>
    decreases |events|
  {
    if events == [] then []
    else
      var n := |events| - 1;
      AssignmentsOnly(events[..n]) + (if IsAssignment(events[n]) then [events[n]] else [])
  }

  lemma UidsWhereSnoc(events: seq<RawEvent>, q: RawEvent -> bool)
    requires events != []
    ensures var n := |events| - 1;
            UidsWhere(events, q) == UidsWhere(events[..n], q) + (if q(events[n]) then {events[n].uid} else {})
  {
    var n := |events| - 1;
    var prefix := events[..n];
    assert forall i :: 0 <= i < n ==> prefix[i] == events[i];
  }

  lemma QualifyingUidsSnoc(events: seq<RawEvent>)
    requires events != []
    ensures var n := |events| - 1;
            QualifyingUids(events)
            == QualifyingUids(events[..n]) + (if Qualifies(events[n]) then {events[n].uid} else {})
  {
    UidsWhereSnoc(events, Qualifies);
  }

  /** One iteration adds the uid of a qualifying event, whether or not it was new. */
  lemma KeysStep(st: Store, e: RawEvent, now: Timestamp)
    ensures ProcessEvent(st, e, now).store.Keys == st.Keys + (if Qualifies(e) then {e.uid} else {})
  {
  }

  /** One iteration reports the event's assignment exactly when it is a first sighting
      against the uids stored before the batch (`keys`) and those of the earlier
      qualifying events (`prior`). */
  lemma SelectStep(keys: set<string>, prior: set<string>, st: Store, e: RawEvent, now: Timestamp)
    requires st.Keys == keys + prior
    ensures ProcessEvent(st, e, now).created
            == (if Qualifies(e) && e.uid !in keys && e.uid !in prior
                then [ExtractAssignmentData(e).value] else [])
  {
  }

  /** After a batch the stored uids are those stored before plus those of every qualifying
      event. */
  lemma {:induction false} ProcessEventsKeys(store: Store, events: seq<RawEvent>, now: Timestamp)
    ensures ProcessEvents(store, events, now).store.Keys == store.Keys + QualifyingUids(events)
    decreases |events|
  {
    if events != [] {
      var n := |events| - 1;
      ProcessEventsKeys(store, events[..n], now);
      QualifyingUidsSnoc(events);
      KeysFoldStep(store.Keys, ProcessEvents(store, events[..n], now).store, events[n], now,
                   QualifyingUids(events[..n]), QualifyingUids(events),
                   ProcessEvents(store, events, now).store);
    }
  }

  /** The inductive step of `ProcessEventsKeys`: a table holding `keys + q0` goes through
      one more iteration and holds `keys + q1`, `q1` adding the event's uid when it
      qualifies. */
  lemma KeysFoldStep(keys: set<string>, st: Store, e: RawEvent, now: Timestamp,
                     q0: set<string>, q1: set<string>, after: Store)
    requires st.Keys == keys + q0
    requires after == ProcessEvent(st, e, now).store
    requires q1 == q0 + (if Qualifies(e) then {e.uid} else {})
    ensures after.Keys == keys + q1
  {
    KeysStep(st, e, now);
  }

  /** The assignments a batch reports are exactly the first sightings, in input order. */
  lemma {:induction false} ProcessEventsSelects(store: Store, events: seq<RawEvent>, now: Timestamp)
    ensures ProcessEvents(store, events, now).created == Selected(store.Keys, events)
    decreases |events|
  {
    if events != [] {
      var n := |events| - 1;
      var b0 := ProcessEvents(store, events[..n], now);
      ProcessEventsSelects(store, events[..n], now);
      ProcessEventsKeys(store, events[..n], now);
      SelectStep(store.Keys, QualifyingUids(events[..n]), b0.store, events[n], now);
    }
  }

  /** A batch whose qualifying uids are all stored changes nothing and reports nothing,
      whatever the clock says. */
  lemma {:induction false} SettledBatch(store: Store, events: seq<RawEvent>, now: Timestamp)
    requires QualifyingUids(events) <= store.Keys
    ensures ProcessEvents(store, events, now) == Batch(store, [])
    decreases |events|
  {
    if events != [] {
      var n := |events| - 1;
      QualifyingUidsSnoc(events);
      SettledBatch(store, events[..n], now);
    }
  }

  /** Running the same batch a second time reports nothing and leaves the store as the
      first run left it. */
  lemma ProcessEventsIdempotent(store: Store, events: seq<RawEvent>, t1: Timestamp, t2: Timestamp)
    ensures var first := ProcessEvents(store, events, t1);
            ProcessEvents(first.store, events, t2) == Batch(first.store, [])
  {
    ProcessEventsKeys(store, events, t1);
    SettledBatch(ProcessEvents(store, events, t1).store, events, t2);
  }

  /** Appending one event to a batch runs one more iteration of the loop. */
  lemma ProcessEventsSnoc(store: Store, events: seq<RawEvent>, e: RawEvent, now: Timestamp)
    ensures var b0 := ProcessEvents(store, events, now);
            var step := ProcessEvent(b0.store, e, now);
            ProcessEvents(store, events + [e], now) == Batch(step.store, b0.created + step.created)
  {
    assert (events + [e])[..|events|] == events;
  }

  /** Events that are not assignments have no effect: the batch behaves as the batch of
      its assignment events alone. */
  lemma {:induction false} ProcessEventsIgnoresNonAssignments(store: Store, events: seq<RawEvent>, now: Timestamp)
    ensures ProcessEvents(store, events, now) == ProcessEvents(store, AssignmentsOnly(events), now)
    decreases |events|
  {
    if events != [] {
      var n := |events| - 1;
      ProcessEventsIgnoresNonAssignments(store, events[..n], now);
      IgnoreStep(store, events, now);
    }
  }

  /** The inductive step of `ProcessEventsIgnoresNonAssignments`, for the last event. */
  lemma IgnoreStep(store: Store, events: seq<RawEvent>, now: Timestamp)
    requires events != []
    requires ProcessEvents(store, events[..|events| - 1], now)
             == ProcessEvents(store, AssignmentsOnly(events[..|events| - 1]), now)
    ensures ProcessEvents(store, events, now) == ProcessEvents(store, AssignmentsOnly(events), now)
  {
    var n := |events| - 1;
    var prefix := events[..n];
    var last := events[n];
    var b0 := ProcessEvents(store, prefix, now);
    assert ProcessEvents(store, events, now)
           == Batch(ProcessEvent(b0.store, last, now).store, b0.created + ProcessEvent(b0.store, last, now).created);
    if IsAssignment(last) {
      assert AssignmentsOnly(events) == AssignmentsOnly(prefix) + [last];
      ProcessEventsSnoc(store, AssignmentsOnly(prefix), last, now);
    } else {
      assert AssignmentsOnly(events) == AssignmentsOnly(prefix) by {
        assert AssignmentsOnly(events) == AssignmentsOnly(prefix) + [];
      }
      SkipNonAssignment(b0, last, now);
    }
  }

  /** A non-assignment at the end of a batch changes neither the store nor the report. */
  lemma SkipNonAssignment(b0: Batch, last: RawEvent, now: Timestamp)
    requires !IsAssignment(last)
    ensures Batch(ProcessEvent(b0.store, last, now).store, b0.created + ProcessEvent(b0.store, last, now).created)
            == b0
  {
    assert b0.created + [] == b0.created;
  }

  /** A batch without assignment events has no assignment events to keep. */
  lemma {:induction false} NoAssignmentsKept(events: seq<RawEvent>)
    requires forall i :: 0 <= i < |events| ==> !IsAssignment(events[i])
    ensures AssignmentsOnly(events) == []
    decreases |events|
  {
    if events != [] {
      var n := |events| - 1;
      assert forall i :: 0 <= i < n ==> events[..n][i] == events[i];
      NoAssignmentsKept(events[..n]);
    }
  }

  /** In particular a batch without assignment events inserts nothing. */
  lemma NoAssignmentsNoChange(store: Store, events: seq<RawEvent>, now: Timestamp)
    requires forall i :: 0 <= i < |events| ==> !IsAssignment(events[i])
    ensures ProcessEvents(store, events, now) == Batch(store, [])
  {
    ProcessEventsIgnoresNonAssignments(store, events, now);
    NoAssignmentsKept(events);
  }

  /** Every assignment a batch reports is afterwards pending in the store. */
  lemma CreatedArePending(store: Store, events: seq<RawEvent>, now: Timestamp)
    ensures var b := ProcessEvents(store, events, now);
            forall a :: a in b.created ==> a.uid in GetPendingEvents(b.store)
  {
  }

  /** Marking an assignment synced with a task id and then failed keeps the task id: the
      failed row still carries the id of the task that was created. */
  lemma SyncedThenFailedKeepsTaskId(store: Store, uid: string, taskId: string)
    requires uid in store && taskId != ""
    ensures var r := MarkAssignmentFailed(MarkAssignmentSynced(store, uid, Some(taskId)), uid);
            r[uid].status == Failed && r[uid].taskId == Some(taskId)
  {
  }

  /** Marking synced with no id or an empty one records no id: a freshly added row is
      synced and still without a task id. */
  lemma SyncedWithoutIdKeepsNone(store: Store, a: Assignment, now: Timestamp, taskId: Option<string>)
    requires taskId == None || taskId == Some("")
    ensures AddEvent(store, a, now).Some? ==>
              var r := MarkAssignmentSynced(AddEvent(store, a, now).value, a.uid, taskId);
              r[a.uid].status == Synced && r[a.uid].taskId == None
  {
  }
}
