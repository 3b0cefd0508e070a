/**
 * `EventProcessor`: classify raw calendar events, extract assignment data, and fold a
 * batch of events into the event store, plus the two status markers.
 */
module EventProcessor {
  import opened Wrappers
  import opened Text
  import opened Events
  import opened CourseToken
  import opened Extraction
  import opened Titles
  import opened Database

  /** The substring that marks an assignment in an event uid. */
  const Marker: string := "assignment"

  /** `is_assignment`: the lower-cased uid contains "assignment". */
  function IsAssignment(e: RawEvent): (b: bool)
    ensures b <==> exists i :: OccursAt(ToLower(e.uid), Marker, i)
  {
    IndexOf(ToLower(e.uid), Marker, 0).Some?
  }

  /** `extract_assignment_data`: `None` when the title holds no course number; otherwise
      the uid and date of the event, the leftmost course number, and the title cleaned of
      that course number. */
  function ExtractAssignmentData(e: RawEvent): (r: Option<Assignment>)
    ensures r.None? <==> forall p, tok :: !MatchAt(e.title, p, tok)
    ensures r.Some? ==> r.value.uid == e.uid && r.value.dueDate == e.date
    ensures r.Some? ==> exists p :: MatchAt(e.title, p, r.value.courseNumber) && NoMatchIn(e.title, 0, p)
    ensures r.Some? ==> r.value.title == CleanTitle(e.title, r.value.courseNumber)
    ensures r.Some? ==> |r.value.title| <= |e.title|
    ensures r.Some? ==> r.value.title == [] || (!IsSpace(r.value.title[0]) && !IsSpace(r.value.title[|r.value.title| - 1]))
  {
    match ExtractCourseNumber(e.title)
    case None => None
    case Some(cn) => Some(Assignment(e.uid, CleanTitle(e.title, cn), cn, e.date))
  }

  /** The store after a batch, and the assignments the batch created, in input order. */
  datatype Batch = Batch(store: Store, created: seq<Assignment>)

  /** The uids of a sequence of assignments. */
  function UidsOf(xs: seq<Assignment>): set<string> {
    set i | 0 <= i < |xs| :: xs[i].uid
  }

  /** One iteration of the loop in `process_events`: an assignment event whose uid is not
      stored, whose title yields data and which has a due date is stored as pending and
      reported. Any other event leaves the store as it is and reports nothing; for one
      without a date, that is `add_event` raising and the `except` skipping the event. */
  function ProcessEvent(store: Store, e: RawEvent, now: Timestamp): (b: Batch)
    ensures b.created == [] <==> !IsAssignment(e) || e.uid in store || ExtractAssignmentData(e).None?
                                 || e.date == ""
    ensures b.created == [] ==> b.store == store
    ensures b.created != [] ==> b.created == [ExtractAssignmentData(e).value] && b.created[0].uid == e.uid
    ensures b.created != [] ==> b.store.Keys == store.Keys + {e.uid}
    ensures b.created != [] ==> b.store[e.uid] == NewRecord(b.created[0], now)
    ensures forall u :: u in store ==> u in b.store && b.store[u] == store[u]
  {
    if !IsAssignment(e) || EventExists(store, e.uid) then Batch(store, [])
    else
      match ExtractAssignmentData(e)
      case None => Batch(store, [])
      case Some(a) =>
        match AddEvent(store, a, now)
        case None => Batch(store, [])
        case Some(st) => Batch(st, [a])
  }

  /** `process_events`, a left fold of `ProcessEvent` over the batch. Rows already stored
      are never touched; every created assignment has a fresh uid, is stored as pending,
      and appears once. */
  function ProcessEvents(store: Store, events: seq<RawEvent>, now: Timestamp): (b: Batch)
    ensures b.store.Keys == store.Keys + UidsOf(b.created)
    ensures forall u :: u in store ==> b.store[u] == store[u]
    ensures forall i :: 0 <= i < |b.created| ==>
              b.created[i].uid !in store && b.store[b.created[i].uid] == NewRecord(b.created[i], now)
    ensures forall i, j :: 0 <= i < j < |b.created| ==> b.created[i].uid != b.created[j].uid
    ensures |b.created| <= |events|
    decreases |events|
  {
    if events == [] then Batch(store, [])
    else
      var b0 := ProcessEvents(store, events[..|events| - 1], now);
      var e := events[|events| - 1];
      var step := ProcessEvent(b0.store, e, now);
      StepExtends(store, b0, e.uid, step, now);
      Batch(step.store, b0.created + step.created)
  }

  lemma UidsOfAppend(xs: seq<Assignment>, ys: seq<Assignment>)
    ensures UidsOf(xs + ys) == UidsOf(xs) + UidsOf(ys)
  {
    var zs := xs + ys;
    assert forall i :: 0 <= i < |xs| ==> zs[i] == xs[i];
    assert forall i :: 0 <= i < |ys| ==> zs[|xs| + i] == ys[i];
  }

  /** The inductive step of `ProcessEvents`: a step that adds at most one fresh pending row
      keeps the batch's properties. */
  lemma StepExtends(store: Store, b0: Batch, uid: string, step: Batch, now: Timestamp)
    requires b0.store.Keys == store.Keys + UidsOf(b0.created)
    requires forall u :: u in store ==> b0.store[u] == store[u]
    requires forall i :: 0 <= i < |b0.created| ==>
               b0.created[i].uid !in store && b0.store[b0.created[i].uid] == NewRecord(b0.created[i], now)
    requires forall i, j :: 0 <= i < j < |b0.created| ==> b0.created[i].uid != b0.created[j].uid
    requires step.created == [] ==> step.store == b0.store
    requires step.created != [] ==> |step.created| == 1 && step.created[0].uid == uid && uid !in b0.store
    requires step.created != [] ==> step.store.Keys == b0.store.Keys + {uid}
    requires step.created != [] ==> step.store[uid] == NewRecord(step.created[0], now)
    requires forall u :: u in b0.store ==> u in step.store && step.store[u] == b0.store[u]
    ensures var b := Batch(step.store, b0.created + step.created);
            && b.store.Keys == store.Keys + UidsOf(b.created)
            && (forall u :: u in store ==> b.store[u] == store[u])
            && (forall i :: 0 <= i < |b.created| ==>
                  b.created[i].uid !in store && b.store[b.created[i].uid] == NewRecord(b.created[i], now))
            && (forall i, j :: 0 <= i < j < |b.created| ==> b.created[i].uid != b.created[j].uid)
  {
    var xs := b0.created + step.created;
    if step.created == [] {
      assert xs == b0.created;
    } else {
      var a := step.created[0];
      assert step.created == [a];
      assert UidsOf(xs) == UidsOf(b0.created) + {uid} by {
        UidsOfAppend(b0.created, [a]);
        assert UidsOf([a]) == {uid};
      }
      assert forall i :: 0 <= i < |b0.created| ==> b0.created[i].uid in b0.store;
      AppendFresh(store, b0.created, b0.store, a, step.store, now);
      AppendDistinct(b0.created, b0.store, a);
    }
  }

  /** A fresh pending row added after rows that were fresh keeps all of them fresh and
      pending. */
  lemma AppendFresh(store: Store, xs: seq<Assignment>, st: Store, a: Assignment, st2: Store, now: Timestamp)
    requires forall i :: 0 <= i < |xs| ==> xs[i].uid in st
    requires forall i :: 0 <= i < |xs| ==> xs[i].uid !in store && st[xs[i].uid] == NewRecord(xs[i], now)
    requires store.Keys <= st.Keys && a.uid !in st
    requires forall u :: u in st ==> u in st2 && st2[u] == st[u]
    requires a.uid in st2 && st2[a.uid] == NewRecord(a, now)
    ensures var ys := xs + [a];
            forall i :: 0 <= i < |ys| ==> ys[i].uid !in store && st2[ys[i].uid] == NewRecord(ys[i], now)
  {
    var ys := xs + [a];
    forall i | 0 <= i < |ys| ensures ys[i].uid !in store && st2[ys[i].uid] == NewRecord(ys[i], now) {
      if i < |xs| {
        assert ys[i] == xs[i];
      }
    }
  }

  /** A uid not yet stored keeps the uids of the created rows distinct. */
  lemma AppendDistinct(xs: seq<Assignment>, st: Store, a: Assignment)
    requires forall i, j :: 0 <= i < j < |xs| ==> xs[i].uid != xs[j].uid
    requires forall i :: 0 <= i < |xs| ==> xs[i].uid in st
    requires a.uid !in st
    ensures var ys := xs + [a];
            forall i, j :: 0 <= i < j < |ys| ==> ys[i].uid != ys[j].uid
  {
    var ys := xs + [a];
    forall i, j | 0 <= i < j < |ys| ensures ys[i].uid != ys[j].uid {
      assert ys[i] == xs[i];
      if j < |xs| {
        assert ys[j] == xs[j];
      }
    }
  }

  /** `get_pending_assignments`. */
  function GetPendingAssignments(store: Store): (r: map<string, Record>)
    ensures forall u :: u in r <==> u in store && store[u].status == Pending
    ensures forall u :: u in r ==> r[u] == store[u]
  {
    GetPendingEvents(store)
  }

  /** `mark_assignment_synced`: status synced, and the task id when it is truthy. */
  function MarkAssignmentSynced(store: Store, uid: string, taskId: Option<string>): (r: Store)
    ensures r.Keys == store.Keys
    ensures forall u :: u in store && u != uid ==> r[u] == store[u]
    ensures uid in store ==> r[uid].status == Synced
    ensures uid in store && Truthy(taskId) ==> r[uid].taskId == taskId
    ensures uid in store && !Truthy(taskId) ==> r[uid].taskId == store[uid].taskId
  {
    UpdateSyncStatus(store, uid, Synced, taskId)
  }

  /** `mark_assignment_failed`: status failed; any task id already stored is kept. */
  function MarkAssignmentFailed(store: Store, uid: string): (r: Store)
    ensures r.Keys == store.Keys
    ensures forall u :: u in store && u != uid ==> r[u] == store[u]
    ensures uid in store ==> r[uid].status == Failed && r[uid].taskId == store[uid].taskId
  {
    UpdateSyncStatus(store, uid, Failed, None)
  }
}
