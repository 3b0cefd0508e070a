# canvas-todoist-link: reconciliation core in Dafny

canvas-todoist-link reads a Canvas calendar feed and turns assignment events into
Todoist tasks. This project models the part of it that decides what happens to each
event, and proves properties of that model:

- **Assignment filter.** An event is an assignment when its uid, lower-cased, contains
  `assignment`.
- **Course-number extraction.** The course number is the leftmost bracketed token that
  matches the course-number regular expression. The title is then cleaned: every
  bracketed copy of the token, together with the whitespace around it, is deleted, and the
  result is stripped.
- **Event store.** The SQLite `events` table is a map from uid to row.
  - `add_event` is insert-or-replace: the new row is pending and has no task id. It
    fails, writing nothing, when the due date is missing.
  - `update_sync_status` sets the status. It sets the task id only when the id given is
    truthy.
  - `get_pending_events` selects the pending rows.
- **`process_events`.** A left fold over the batch. It stores and reports each assignment
  whose uid is new, whose title holds a course number and which has a due date.
- **Todoist side.**
  - The project index keeps only projects whose name is a value of the course mapping.
  - `get_project_id` resolves a course number through `get_project_name`.
  - `create_task` and `create_tasks_from_assignments` call an abstract API oracle.
- **Configuration.**
  - Required environment variables must be set and non-empty.
  - `FETCH_INTERVAL` goes through `int()` and defaults to `"3600"`.
  - A null `courses.yml` document is treated as `{}`.
  - Missing keys take their defaults: no courses, project `"Uncategorized"`, no patterns.

Modules, one per concern:

| module | what it holds |
|---|---|
| `Wrappers` | `Option`, `Result`, Python truthiness of an optional string |
| `Text` | ASCII character classes, runs, `strip`, `find`, `lower` |
| `Events` | raw events and assignments |
| `CourseToken` | the token grammar, two ways (see below), and a proof that they agree |
| `Extraction` | the leftmost search |
| `Titles` | the title clean-up |
| `Database` | the store |
| `EventProcessor` | the processor |
| `Reconciliation` | whole-batch properties of `process_events` |
| `Config` | configuration |
| `TodoistCreator` | the Todoist side |
| `Examples` | concrete runs |

The token grammar is given twice:
- `TokenSpec` reads the regular expression as a language, with existential cut points.
- `IsCourseToken` is a deterministic recogniser.

Character classes are ASCII throughout:
- whitespace is space, 9–13 and 28–31, which is what Python's `\s` and `strip()` accept
  below 128;
- `int()` skips a narrower set around a literal: space and 9–13 only, not 28–31
  (`IsIntSpace`, `SeparatorIsNotPadding`);
- `\d` is `0`–`9`;
- `lower()` maps only `A`–`Z`.

The store does not keep a task id exactly on the synced rows:
- marking a row failed keeps any task id it already has (`SyncedThenFailedKeepsTaskId`);
- marking it synced with an empty or missing id records no id (`SyncedWithoutIdKeepsNone`).

The clean-up also does not simply cut the token out. A token in the middle of a title
takes the spaces on both sides with it, so the neighbouring words are joined
(`CleanTitleJoinsWords`, `MidTitleTokenJoinsWords`). When the title holds one bracketed
copy of the token, the clean title is the stripped join of the text on the two sides of the token (`CleanTitleCutsToken`). It is
exactly that join when the title neither starts nor ends with whitespace
(`CleanTitleCutsTokenExact`).

## Model

| member | source | states |
|---|---|---|
| EventProcessor.IsAssignment | src/event_processor.py:32-33 | true exactly when `assignment` occurs somewhere in the lower-cased uid |
| Examples.IsAssignmentExample | src/event_processor.py:32-33 | the uid test ignores case: `ASSIGNMENT-abc123` is an assignment |
| Examples.NotAssignmentExample | src/event_processor.py:32-33 | `event-1` is not an assignment |
| CourseToken.TokenEquiv | src/event_processor.py:36 | the deterministic recogniser accepts exactly the strings of the capture group's language (optional `CCS_`, 4 digits, 2–3 capitals, department, number, optional sub-number and section) |
| CourseToken.TokenChars | src/event_processor.py:36 | a token contains only digits, capitals, `_` and `-`, so never a bracket or whitespace |
| Extraction.MatchAtIff | src/event_processor.py:36-37 | the pattern matches at index i with capture tok exactly when i holds `[`, tok runs to the first `]` after it, and tok is a token |
| Extraction.MatchAtUnique | src/event_processor.py:36-39 | at most one capture group can match at a given index |
| Extraction.ExtractCourseNumber | src/event_processor.py:35-40 | None exactly when the pattern matches nowhere; otherwise the capture of a match with no match anywhere before it (the leftmost, as `re.search` returns) |
| Extraction.TokenAfterPlainText | src/event_processor.py:36-39 | a token in brackets with no `[` before it is the course number returned, whatever follows it |
| Extraction.FirstBracketDecides | src/event_processor.py:37-39 | a match at the first `[` of a title is the course number returned |
| Extraction.ExtractedIsToken | src/event_processor.py:36-39 | a returned course number is a token and occurs in the title in brackets |
| Extraction.SearchFrom | src/event_processor.py:37 | scanning from i finds a match with none between i and it, or reports that no match starts at or after i |
| Titles.RemoveSpaced | src/event_processor.py:48-49 | the substitution never lengthens the title |
| Titles.CleanTitle | src/event_processor.py:48-49 | the clean title is no longer than the title and has no surrounding whitespace |
| Titles.RemoveNoOccurrence | src/event_processor.py:48-49 | a title without the bracketed token is left unchanged by the substitution |
| Titles.NoMatchInPrefix | src/event_processor.py:48 | no match of the pattern starts inside a prefix that contains no character the pattern starts with (for the bracketed token, no `[`) |
| Titles.RemoveKeepsFront | src/event_processor.py:48-49 | the first n characters of the text, where no match starts and which do not end in whitespace, pass through the substitution unchanged and the substitution goes on over the rest |
| Titles.RemoveKeepsPrefix | src/event_processor.py:48-49 | a prefix in which no match starts and which does not end in whitespace passes through the substitution unchanged; the prefix may hold other bracketed text |
| Titles.RemoveDeletesMatch | src/event_processor.py:48-49 | the bracketed token together with the whitespace runs on both sides of it is deleted |
| Titles.CleanTitleJoinsWords | src/event_processor.py:48-49 | for words a and b without `[`, `a [tok] b` cleans to `a + b`: the token and the single space on each side are deleted, nothing is put in their place |
| Titles.NoOpenBracketNoToken | src/event_processor.py:48 | text without a `[` holds no bracketed token, so the substitution has nothing to delete in it |
| Titles.RemoveCutsFirst | src/event_processor.py:48-49 | for a title `a + w1 + [tok] + w2 + b` with no match starting in `a`: `a` is kept, the first bracketed token and the whitespace runs around it are deleted, and the substitution goes on over `b`, which may hold further copies |
| Titles.CleanTitleCutsToken | src/event_processor.py:48-49 | for a title `a + w1 + [tok] + w2 + b`, where no match starts in `a` (which may hold other bracketed text) and `b` holds no further copy of the bracketed token, the clean title is `strip(a + b)`: the token and its adjacent whitespace are cut and nothing is put in their place |
| Titles.CleanTitleCutsTokenExact | src/event_processor.py:48-49 | under the same conditions, when `a` does not start and `b` does not end with whitespace, the clean title is exactly `a + b` |
| Text.TrimPadded | src/event_processor.py:49 | `strip` removes exactly the whitespace padding around text that starts and ends with a non-space character |
| Text.Trim | src/event_processor.py:49 | `strip` returns a slice of its input whose ends are not whitespace and which is surrounded only by whitespace |
| Text.IndexOf | src/event_processor.py:33 | `find` returns the leftmost occurrence at or after the start, or None when there is none |
| EventProcessor.ExtractAssignmentData | src/event_processor.py:42-56 | None exactly when the title holds no course number; otherwise the uid and date of the event, the leftmost course number, and the title cleaned of that course number |
| Examples.TokenExample | src/event_processor.py:36 | `2024FA_ENGLISH_105-0_SEC20` is accepted by the recogniser: term `2024FA`, department `ENGLISH_`, number `105`, sub-number `-0`, section `_SEC20` |
| Examples.ExtractExample | src/event_processor.py:35-40 | the course number of `Essay 1 [2024FA_ENGLISH_105-0_SEC20]` is that token |
| Examples.CleanTitleExample | src/event_processor.py:48-49 | whatever the token, `Essay 1 [tok]` cleans to `Essay 1`: the space before the bracket goes with it |
| Examples.MidTitleTokenJoinsWords | src/event_processor.py:48-49 | `Read [tok] chapter 3` cleans to `Readchapter 3`: the spaces on both sides of the token are removed |
| Examples.AssignmentDataExample | src/event_processor.py:42-56 | the event `assignment-abc123` with that title yields the assignment titled `Essay 1` with that course number and the event's date |
| EventProcessor.ProcessEvent | src/event_processor.py:16-29 | one event adds nothing when it is not an assignment, its uid is stored, its title has no course number, or it has no due date (the insert raises and the event is skipped); otherwise it adds exactly its assignment, stored as a new pending row; existing rows never change |
| EventProcessor.ProcessEvents | src/event_processor.py:13-30 | after a batch the stored uids are the old ones plus those reported; old rows are untouched; each reported assignment had a new uid, is stored as a fresh pending row, and appears once; no more are reported than events given |
| Reconciliation.ProcessEventsKeys | src/event_processor.py:15-29 | the uids stored after a batch are those stored before plus the uids of every event that is an assignment with a course number and a due date |
| Reconciliation.ProcessEventsSelects | src/event_processor.py:13-30 | the assignments reported are exactly the first sightings (qualifying: an assignment with a course number and a due date; not previously stored, not seen earlier in the batch), in input order |
| Reconciliation.SettledBatch | src/event_processor.py:17 | when every qualifying uid is already stored, the batch changes nothing and reports nothing |
| Reconciliation.ProcessEventsIdempotent | src/event_processor.py:13-30 | running the same batch again, at any time, reports nothing and leaves the store as the first run left it |
| Reconciliation.ProcessEventsSnoc | src/event_processor.py:15-21 | one more event at the end of the batch is one more loop iteration |
| Reconciliation.ProcessEventsIgnoresNonAssignments | src/event_processor.py:17 | a batch behaves exactly as the batch of its assignment events alone |
| Reconciliation.NoAssignmentsNoChange | src/event_processor.py:17 | a batch without assignment events leaves the store unchanged and reports nothing |
| Reconciliation.CreatedArePending | src/event_processor.py:20-21 | every reported assignment is afterwards among the pending rows |
| EventProcessor.GetPendingAssignments | src/event_processor.py:58-59 | exactly the stored rows whose status is pending, unchanged |
| EventProcessor.MarkAssignmentSynced | src/event_processor.py:61-62 | the row becomes synced; its task id is set when the id given is truthy and kept otherwise; no other row changes |
| EventProcessor.MarkAssignmentFailed | src/event_processor.py:64-65 | the row becomes failed and keeps its task id; no other row changes |
| Reconciliation.SyncedThenFailedKeepsTaskId | src/event_processor.py:61-65 | marking synced with id X and then failed leaves status failed and id X |
| Reconciliation.SyncedWithoutIdKeepsNone | src/database.py:53-64 | after an insert that succeeds, marking the fresh row synced with a missing or empty id leaves it synced with no id |
| Database.AddEvent | src/database.py:40-47 | fails, writing nothing, exactly when the due date is missing (its `isoformat()` raises); otherwise the row for the uid is written afresh: the assignment's fields, `processed_date` now, pending, no task id; no other row changes |
| Database.AddEventReplaces | src/database.py:43-46 | replace, not merge: the result does not depend on any row the uid had before |
| Database.AddEventTwice | src/database.py:43-46 | after a first insert that succeeds, a second insert for the same uid wins outright |
| Database.AddEventIsPending | src/database.py:43-46 | an insert that succeeds grows the pending set by exactly the inserted uid |
| Database.UpdateSyncStatus | src/database.py:50-64 | same uids; other rows unchanged; the row's status set; its id set only for a truthy id; title, course number, due date and processed date kept; an unknown uid is a no-op |
| Database.UpdateIdempotent | src/database.py:50-64 | applying the same status update twice equals applying it once |
| Database.EventExists | src/database.py:34-38 | a uid exists exactly when it has a row, pending, synced or failed alike |
| Database.ExistsIgnoresStatus | src/database.py:34-38 | status updates never change which uids exist |
| Database.GetPendingEvents | src/database.py:67-72 | exactly the rows whose status is pending, unchanged |
| Database.UpdateLeavesPending | src/database.py:67-72 | setting a row to synced or failed removes exactly that uid from the pending set |
| TodoistCreator.IndexProjects | src/todoist_creator.py:18-20 | the index holds a name exactly when it is a mapping value carried by some listed project, and maps it to the id of the last project listed with that name |
| TodoistCreator.FetchProjects | src/todoist_creator.py:13-22 | a failed project listing leaves the index empty; otherwise the index is built from the listing |
| TodoistCreator.GetProjectId | src/todoist_creator.py:24-27 | an id exactly when the course's project name is indexed, and then that name's id |
| TodoistCreator.ResolvedProjectWasListed | src/todoist_creator.py:18-27 | a resolved id belongs to the last listed project with the course's project name, and that name is a mapping value |
| TodoistCreator.DefaultProjectNeedsMapping | src/todoist_creator.py:18-27 | an unmapped course resolves to nothing unless the default project's name is also a mapping value |
| TodoistCreator.CreateTask | src/todoist_creator.py:29-46 | no truthy project id: no request and no id; otherwise exactly one request with the title, the due date (none when the date is empty) and that project id, and the API's task id when it returns one, None when it raises |
| TodoistCreator.CreateTasksFromAssignments | src/todoist_creator.py:48-58 | at most one id and one request per assignment; every id is non-empty; every request names a non-empty project id |
| TodoistCreator.CreateTasksSingle | src/todoist_creator.py:50-57 | for one assignment: the requests of its `create_task` call and its id if truthy |
| TodoistCreator.CreateTasksAppend | src/todoist_creator.py:48-58 | the loop over `xs + ys` is the loop over `xs` followed by the loop over `ys`, ids kept in input order |
| TodoistCreator.IdsComeFromApi | src/todoist_creator.py:36-43 | every id returned is the id the API gave to one of the requests made |
| TodoistCreator.FailedFetchCreatesNothing | src/todoist_creator.py:13-34 | after a failed project listing no request is made and no id returned |
| TodoistCreator.AllResolvedAllCreated | src/todoist_creator.py:48-58 | when every project resolves and the API always returns a non-empty id, there is one request and one id per assignment |
| Config.GetRequiredEnv | src/config.py:57-63 | fails with a missing-variable error exactly when the variable is unset or empty; otherwise returns its value unchanged |
| Config.ParseInt | src/config.py:47 | a value exactly when the text, cut of the whitespace `int()` skips, is an optional sign followed by at most 4300 decimal digits, and then the value they denote |
| Config.IntStripPadded | src/config.py:47 | `int()` skips exactly the space, tab, line feed, vertical tab, form feed and carriage return padding around a literal |
| Config.SeparatorIsNotPadding | src/config.py:47 | `"\x1c60"` is not an integer for `int()`, although `strip()` reduces it to `60` |
| Config.DigitCountBound | src/config.py:47 | a natural number has at most k digits exactly when it is below `10^k`, so the 4300-digit limit bounds `|v|` by `10^4300` |
| Config.ParseFormatRoundTrip | src/config.py:47 | `int(str(v)) == v` for every integer of at most 4300 digits; for longer ones `int()` raises |
| Config.ParseIgnoresPadding | src/config.py:47 | padding that `int()` skips does not change its result; in particular it gives `v` for `str(v)` padded, within the digit limit |
| Config.FetchInterval | src/config.py:47 | the interval parsed from `FETCH_INTERVAL`, or from `"3600"` when unset; an unparsable text is an error carrying that text |
| Config.FetchIntervalDefault | src/config.py:47 | with `FETCH_INTERVAL` unset the interval is 3600 |
| Config.LoadConfiguration | src/config.py:37-55 | succeeds exactly when both required variables are set and the interval parses; the feed URL is checked first, then the token; on success the fields come from the environment and the document, with missing keys defaulted |
| Config.NormalizeDocument | src/config.py:78 | a loaded document is used as it is; a null one becomes `{}`, with none of the three keys |
| Config.NullDocumentIsEmpty | src/config.py:78 | a null document loads exactly as `{}` does |
| Config.MissingKeysDefault | src/config.py:53-55 | each key missing from the document takes its default (no courses, `Uncategorized`, no patterns); each key present is used as given |
| Config.EmptyDocumentDefaults | src/config.py:95-102 | with an empty or null document every course maps to `Uncategorized` and there are no course patterns |
| Config.GetProjectName | src/config.py:95-97 | the mapped name for a mapped course, the default project otherwise |
| Config.CoursePatterns | src/config.py:99-102 | the document's `course_patterns` list when the key is present, the empty list when it is missing |
| Config.ProjectNameRange | src/config.py:95-97 | a project name is always a mapping value or the default project |
| Config.UnknownCourseUsesDefault | src/config.py:95-97 | `UNKNOWN_COURSE`, absent from the mapping, gets the default project `Uncategorized` |

## Left out

- Everything outside the four core files is not part of this model:
  - the calendar feed reader `src/ics_watcher.py` (HTTP and iCalendar parsing);
  - the polling loop in `src/main.py`.
  - Raw events are an input sequence of `(uid, title, date)`.
- The SQLite mechanics are not modelled: connections, commits and `CREATE TABLE`.
  - The table is a map, which gives the primary-key uniqueness of the uid for free.
- `datetime('now')` is not modelled. `processed_date` is one timestamp parameter per batch,
  not one clock reading per insert.
- The `isoformat()` serialisation of due dates in `add_event` and `create_task` is not
  modelled. Dates are carried as their ISO-8601 text, and the empty text stands for a
  missing date. `add_event` fails on it, since `isoformat()` on `None` raises
  (src/database.py:47). `create_task` passes it on as no due date
  (src/todoist_creator.py:40).
- The broad `except` in `process_events` (src/event_processor.py:27-29) is modelled for
  that one failure only: the undated event is skipped, the store unchanged. No other
  failing event, store or dictionary access is modelled; the model assumes none of them
  raises.
- Logging and `print` output are left out.
- Unicode is left out. `\s`, `\d`, `lower()` and `strip()` are modelled on ASCII only.
- Todoist SDK calls are oracles:
  - `get_projects` is an optional list, where a missing list means the call raised;
  - `add_task` is a fixed function from request to result, so a retried identical
    request gets the same answer.
- `fetch_projects` is modelled once, on a fresh creator with an empty index, as the
  constructor runs it. Repeated calls that merge into an existing index are not modelled.
- YAML and `.env` loading, the search for `courses.yml` and its read and parse errors,
  the singleton `__new__` and `reload_configuration` are left out.
  - The environment is a map.
  - The parsed document is an optional record of the three keys the program reads.
- Config.LoadConfiguration: a document key present with a null value, and a document
  that is not a mapping, are not representable. In the code:
  - a truthy document that is not a mapping (a non-empty list, a non-empty string, a
    non-zero number, `true`) makes the `.get` at src/config.py:53 raise while the
    configuration loads; a falsy one (`[]`, `''`, `0`, `false`) becomes `{}` through the
    `or {}` at src/config.py:78 and loads like an empty document;
  - a null `courses` loads, and then the `.get` in `get_project_name`
    (src/config.py:97) raises;
  - a null `default_project` loads, and unmapped courses then resolve to `None`;
  - a null `course_patterns` loads, and the `course_patterns` property then returns
    `None`.
- Config.ParseInt: the underscores between digits that Python's `int()` accepts and
  non-ASCII digits are not accepted. The digit limit is Python's default of 4300; changing
  it with `PYTHONINTMAXSTRDIGITS` or `sys.set_int_max_str_digits` is not modelled.
- Config.FormatInt: `str()` itself raises beyond 4300 digits; `FormatInt` still writes the
  text. It serves only the round trip, which reports failure for such values anyway.
- No code connects `create_task` results to `mark_assignment_synced` or
  `mark_assignment_failed`, and none requeues failed or pending rows. The model adds no
  such wiring.
