/** Turning assignments into Todoist tasks: the project index built from the account's
    projects, project resolution for a course number, and the per-assignment task
    creation loop. The Todoist API is an oracle passed in as a parameter. */
module TodoistCreator {
  import opened Wrappers
  import opened Events
  import opened Config

  /** A Todoist project as `get_projects` lists it. */
  datatype Project = Project(id: string, name: string)

  /** The `projects` attribute: project name to project id. */
  type ProjectIndex = map<string, string>

  /** The arguments of one `add_task` call; `due` is `None` when no due date was passed. */
  datatype TaskRequest = TaskRequest(content: string, projectId: string, due: Option<Timestamp>)

  /** What `add_task` does with a request: returns a task with an id, or raises. */
  datatype AddTaskResult = Added(taskId: string) | Raised

  /** The Todoist API's answer to each possible `add_task` request. */
  type TaskApi = TaskRequest -> AddTaskResult

  /** One `create_task` call: the `add_task` requests it made and the id it returned. */
  datatype TaskAttempt = TaskAttempt(requests: seq<TaskRequest>, taskId: Option<string>)

  /** One `create_tasks_from_assignments` call: every request made, and the ids returned. */
  datatype Outcome = Outcome(requests: seq<TaskRequest>, ids: seq<string>)

  /** `projects[i]` is the last project in the list that carries `name`. */
  ghost predicate IsLastNamed(projects: seq<Project>, name: string, i: int) {
    0 <= i < |projects| && projects[i].name == name
    && forall j :: i < j < |projects| ==> projects[j].name != name
  }

  /** The loop of `fetch_projects`: keep the projects whose name is a value of the course
      mapping, a later project overwriting an earlier one of the same name. */
  function IndexProjects(mapping: map<string, string>, projects: seq<Project>): (idx: ProjectIndex)
    ensures forall name :: name in idx <==>
              name in mapping.Values && exists i :: 0 <= i < |projects| && projects[i].name == name
    ensures forall name :: name in idx ==>
              exists i :: IsLastNamed(projects, name, i) && idx[name] == projects[i].id
    decreases |projects|
  {
    if projects == [] then map[]
    else
      var n := |projects| - 1;
      var prev := IndexProjects(mapping, projects[..n]);
      var p := projects[n];
      IndexStep(mapping, projects, prev);
      if p.name in mapping.Values then prev[p.name := p.id] else prev
  }

  /** The inductive step of `IndexProjects`, over the last project of the list. */
  lemma IndexStep(mapping: map<string, string>, projects: seq<Project>, prev: ProjectIndex)
    requires projects != []
    requires var n := |projects| - 1;
             (forall name :: name in prev <==>
                name in mapping.Values && exists i :: 0 <= i < n && projects[..n][i].name == name)
             && (forall name :: name in prev ==>
                exists i :: IsLastNamed(projects[..n], name, i) && prev[name] == projects[..n][i].id)
    ensures var n := |projects| - 1;
            var p := projects[n];
            var idx := if p.name in mapping.Values then prev[p.name := p.id] else prev;
            (forall name :: name in idx <==>
               name in mapping.Values && exists i :: 0 <= i < |projects| && projects[i].name == name)
            && (forall name :: name in idx ==>
               exists i :: IsLastNamed(projects, name, i) && idx[name] == projects[i].id)
  {
    var n := |projects| - 1;
    var p := projects[n];
    var idx := if p.name in mapping.Values then prev[p.name := p.id] else prev;
    forall name | name in mapping.Values && exists i :: 0 <= i < |projects| && projects[i].name == name
      ensures name in idx
    {
      var i :| 0 <= i < |projects| && projects[i].name == name;
      if i < n {
        assert projects[..n][i].name == name;
      }
    }
    forall name | name in idx
      ensures exists i :: IsLastNamed(projects, name, i) && idx[name] == projects[i].id
    {
      if name == p.name {
        assert IsLastNamed(projects, name, n);
      } else {
        var i :| IsLastNamed(projects[..n], name, i) && prev[name] == projects[..n][i].id;
        assert IsLastNamed(projects, name, i);
      }
    }
  }

  /** `fetch_projects` on a fresh creator: `None` is a `get_projects` call that raised,
      which leaves the index empty. */
  function FetchProjects(mapping: map<string, string>, listed: Option<seq<Project>>): (idx: ProjectIndex)
    ensures listed.None? ==> idx == map[]
    ensures listed.Some? ==> idx == IndexProjects(mapping, listed.value)
  {
    match listed
    case None => map[]
    case Some(projects) => IndexProjects(mapping, projects)
  }

  /** `get_project_id`: the id of the project named for the course, if it was indexed. */
  function GetProjectId(cfg: Configuration, idx: ProjectIndex, courseNumber: string): (r: Option<string>)
    ensures r.Some? <==> GetProjectName(cfg, courseNumber) in idx
    ensures r.Some? ==> r.value == idx[GetProjectName(cfg, courseNumber)]
  {
    var name := GetProjectName(cfg, courseNumber);
    if name in idx then Some(idx[name]) else None
  }

  /** `create_task`: without a truthy project id no request is made; otherwise one
      `add_task` request is made and its task id, if any, is returned. */
  function CreateTask(cfg: Configuration, idx: ProjectIndex, api: TaskApi,
                      title: string, due: Timestamp, courseNumber: string): (t: TaskAttempt)
    ensures |t.requests| <= 1
    ensures t.requests == [] <==> !Truthy(GetProjectId(cfg, idx, courseNumber))
    ensures t.requests == [] ==> t.taskId == None
    ensures t.requests != [] ==>
              t.requests[0].content == title
              && (t.requests[0].due.None? <==> due == "")
              && (t.requests[0].due.Some? ==> t.requests[0].due.value == due)
              && Some(t.requests[0].projectId) == GetProjectId(cfg, idx, courseNumber)
    ensures t.taskId.Some? <==> t.requests != [] && api(t.requests[0]).Added?
    ensures t.taskId.Some? ==> api(t.requests[0]) == Added(t.taskId.value)
  {
    var projectId := GetProjectId(cfg, idx, courseNumber);
    if !Truthy(projectId) then TaskAttempt([], None)
    else
      var request := TaskRequest(title, projectId.value, if due == "" then None else Some(due));
      match api(request)
      case Added(id) => TaskAttempt([request], Some(id))
      case Raised => TaskAttempt([request], None)
  }

  /** The ids `create_tasks_from_assignments` keeps from one attempt: the truthy one. */
  function KeptIds(t: TaskAttempt): seq<string> {
    if Truthy(t.taskId) then [t.taskId.value] else []
  }

  /** `create_tasks_from_assignments`: one `create_task` per assignment in order,
      collecting the truthy task ids. */
  function CreateTasksFromAssignments(cfg: Configuration, idx: ProjectIndex, api: TaskApi,
                                      assignments: seq<Assignment>): (o: Outcome)
    ensures |o.ids| <= |assignments| && |o.requests| <= |assignments|
    ensures forall k :: 0 <= k < |o.ids| ==> o.ids[k] != ""
    ensures forall m :: 0 <= m < |o.requests| ==> o.requests[m].projectId != ""
    decreases |assignments|
  {
    if assignments == [] then Outcome([], [])
    else
      var n := |assignments| - 1;
      var prev := CreateTasksFromAssignments(cfg, idx, api, assignments[..n]);
      var a := assignments[n];
      var t := CreateTask(cfg, idx, api, a.title, a.dueDate, a.courseNumber);
      Outcome(prev.requests + t.requests, prev.ids + KeptIds(t))
  }

  /** One more assignment runs one more iteration of the loop. */
  lemma CreateTasksSnoc(cfg: Configuration, idx: ProjectIndex, api: TaskApi,
                        xs: seq<Assignment>, a: Assignment)
    ensures var prev := CreateTasksFromAssignments(cfg, idx, api, xs);
            var t := CreateTask(cfg, idx, api, a.title, a.dueDate, a.courseNumber);
            CreateTasksFromAssignments(cfg, idx, api, xs + [a])
            == Outcome(prev.requests + t.requests, prev.ids + KeptIds(t))
  {
    assert (xs + [a])[..|xs|] == xs;
  }

  /** Running the loop on `xs + ys` is running it on `xs`, then on `ys`. */
  lemma {:induction false} CreateTasksAppend(cfg: Configuration, idx: ProjectIndex, api: TaskApi,
                                             xs: seq<Assignment>, ys: seq<Assignment>)
    ensures var whole := CreateTasksFromAssignments(cfg, idx, api, xs + ys);
            var left := CreateTasksFromAssignments(cfg, idx, api, xs);
            var right := CreateTasksFromAssignments(cfg, idx, api, ys);
            whole == Outcome(left.requests + right.requests, left.ids + right.ids)
    decreases |ys|
  {
    if ys == [] {
      assert xs + ys == xs;
      var left := CreateTasksFromAssignments(cfg, idx, api, xs);
      assert left.requests + [] == left.requests && left.ids + [] == left.ids;
    } else {
      var n := |ys| - 1;
      var init := ys[..n];
      var a := ys[n];
      assert ys == init + [a];
      assert xs + ys == (xs + init) + [a];
      CreateTasksAppend(cfg, idx, api, xs, init);
      CreateTasksSnoc(cfg, idx, api, xs + init, a);
      CreateTasksSnoc(cfg, idx, api, init, a);
      var left := CreateTasksFromAssignments(cfg, idx, api, xs);
      var mid := CreateTasksFromAssignments(cfg, idx, api, init);
      var t := CreateTask(cfg, idx, api, a.title, a.dueDate, a.courseNumber);
      var whole := CreateTasksFromAssignments(cfg, idx, api, xs + ys);
      assert whole == Outcome(left.requests + mid.requests + t.requests, left.ids + mid.ids + KeptIds(t));
      assert CreateTasksFromAssignments(cfg, idx, api, ys)
             == Outcome(mid.requests + t.requests, mid.ids + KeptIds(t));
      ConcatAssoc(left.requests, mid.requests, t.requests);
      ConcatAssoc(left.ids, mid.ids, KeptIds(t));
    }
  }

  lemma ConcatAssoc<T>(a: seq<T>, b: seq<T>, c: seq<T>)
    ensures a + b + c == a + (b + c)
  {
  }

  /** `id` is the task id `add_task` returned for one of `requests`. */
  ghost predicate ReturnedFor(api: TaskApi, requests: seq<TaskRequest>, id: string) {
    exists m :: 0 <= m < |requests| && api(requests[m]) == Added(id)
  }

  /** Every id of `o` was returned for one of its requests. */
  ghost predicate AllReturned(api: TaskApi, o: Outcome) {
    forall k :: 0 <= k < |o.ids| ==> ReturnedFor(api, o.requests, o.ids[k])
  }

  /** Every id returned is the id `add_task` gave to one of the requests made. */
  lemma {:induction false} IdsComeFromApi(cfg: Configuration, idx: ProjectIndex, api: TaskApi,
                                          assignments: seq<Assignment>)
    ensures AllReturned(api, CreateTasksFromAssignments(cfg, idx, api, assignments))
    decreases |assignments|
  {
    if assignments != [] {
      var n := |assignments| - 1;
      IdsComeFromApi(cfg, idx, api, assignments[..n]);
      var prev := CreateTasksFromAssignments(cfg, idx, api, assignments[..n]);
      var a := assignments[n];
      var t := CreateTask(cfg, idx, api, a.title, a.dueDate, a.courseNumber);
      var o := CreateTasksFromAssignments(cfg, idx, api, assignments);
      assert o == Outcome(prev.requests + t.requests, prev.ids + KeptIds(t));
      forall k | 0 <= k < |o.ids|
        ensures ReturnedFor(api, o.requests, o.ids[k])
      {
        if k < |prev.ids| {
          assert AllReturned(api, prev);
          assert ReturnedFor(api, prev.requests, prev.ids[k]);
          var m :| 0 <= m < |prev.requests| && api(prev.requests[m]) == Added(prev.ids[k]);
          assert o.requests[m] == prev.requests[m];
        } else {
          assert o.ids[k] == t.taskId.value;
          assert o.requests[|prev.requests|] == t.requests[0];
        }
      }
    }
  }

  /** A single assignment yields at most its own task id. */
  lemma CreateTasksSingle(cfg: Configuration, idx: ProjectIndex, api: TaskApi, a: Assignment)
    ensures var o := CreateTasksFromAssignments(cfg, idx, api, [a]);
            var t := CreateTask(cfg, idx, api, a.title, a.dueDate, a.courseNumber);
            o == Outcome(t.requests, KeptIds(t))
  {
    assert [a][..0] == [];
  }

  /** A resolved project id names a listed project whose name is a value of the course
      mapping, and it is the last such project listed. */
  lemma ResolvedProjectWasListed(cfg: Configuration, projects: seq<Project>, courseNumber: string)
    requires GetProjectId(cfg, FetchProjects(cfg.courseProjectMapping, Some(projects)), courseNumber).Some?
    ensures var name := GetProjectName(cfg, courseNumber);
            name in cfg.courseProjectMapping.Values
            && exists i :: IsLastNamed(projects, name, i)
                           && GetProjectId(cfg, FetchProjects(cfg.courseProjectMapping, Some(projects)), courseNumber)
                              == Some(projects[i].id)
  {
  }

  /** The default project resolves only when its name is also a value of the course
      mapping, because the index holds no other names. */
  lemma DefaultProjectNeedsMapping(cfg: Configuration, listed: Option<seq<Project>>, courseNumber: string)
    requires courseNumber !in cfg.courseProjectMapping
    requires cfg.defaultProject !in cfg.courseProjectMapping.Values
    ensures GetProjectId(cfg, FetchProjects(cfg.courseProjectMapping, listed), courseNumber) == None
  {
  }

  /** When `get_projects` raised, nothing resolves: no request is made and no id is
      returned, whatever the assignments. */
  lemma {:induction false} FailedFetchCreatesNothing(cfg: Configuration, api: TaskApi, assignments: seq<Assignment>)
    ensures CreateTasksFromAssignments(cfg, FetchProjects(cfg.courseProjectMapping, None), api, assignments)
            == Outcome([], [])
    decreases |assignments|
  {
    if assignments != [] {
      FailedFetchCreatesNothing(cfg, api, assignments[..|assignments| - 1]);
    }
  }

  /** When every assignment's project resolves and every `add_task` call returns a
      non-empty id, every assignment gets a task: one request and one id each, in order. */
  lemma {:induction false} AllResolvedAllCreated(cfg: Configuration, idx: ProjectIndex, api: TaskApi,
                                                 assignments: seq<Assignment>)
    requires forall k :: 0 <= k < |assignments| ==> Truthy(GetProjectId(cfg, idx, assignments[k].courseNumber))
    requires forall r: TaskRequest :: api(r).Added? && api(r).taskId != ""
    ensures |CreateTasksFromAssignments(cfg, idx, api, assignments).ids| == |assignments|
    ensures |CreateTasksFromAssignments(cfg, idx, api, assignments).requests| == |assignments|
    decreases |assignments|
  {
    if assignments != [] {
      var n := |assignments| - 1;
      AllResolvedAllCreated(cfg, idx, api, assignments[..n]);
      var a := assignments[n];
      var t := CreateTask(cfg, idx, api, a.title, a.dueDate, a.courseNumber);
      assert |t.requests| == 1;
      assert |KeptIds(t)| == 1;
    }
  }
}
