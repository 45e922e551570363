/** The `Database` class of main.py as two tables, `projects` and `tasks`, keyed
    by their `SERIAL` ids. The SQL text of each method fixes what it does to the
    rows; the schema's constraints (the foreign key with `ON DELETE CASCADE`,
    the `VARCHAR` lengths, the status domain) are the class invariant. Clock
    values (`CURRENT_TIMESTAMP`, `CURRENT_DATE`) are passed in. */
module Store {
  import opened Wrappers
  import opened Dates
  import opened Sorting

  /** `VARCHAR(255)` for project names, `VARCHAR(500)` for task titles. */
  const NameLimit: nat := 255
  const TitleLimit: nat := 500
  /** `LIMIT 20` of the upcoming-tasks query. */
  const UpcomingLimit: nat := 20

  /** `CHECK (status IN ('active', 'completed', 'archived'))`, default 'active'. */
  datatype Status = Active | Completed | Archived

  datatype Project = Project(userId: int, name: string, createdAt: int)

  datatype Task = Task(projectId: int, title: string, deadline: Option<Date>, status: Status,
                       createdAt: int, updatedAt: int)

  /** A write the bot asked the store for, kept in call order: the model's way
      of saying how many writes a handler makes. */
  datatype StoreCall =
    | AddProjectCall(userId: int, name: string)
    | DeleteProjectCall(projectId: int)
    | RenameProjectCall(projectId: int, name: string)
    | AddTaskCall(projectId: int, title: string, deadline: Option<Date>)
    | ToggleTaskCall(taskId: int)
    | DeleteTaskCall(taskId: int)
    | SetDeadlineCall(taskId: int, deadline: Option<Date>)

  /** Python's `s[:n]`. */
  function Truncate(s: string, n: nat): (r: string)
    ensures |r| == if |s| <= n then |s| else n
    ensures r == s[..|r|]
  {
    if |s| <= n then s else s[..n]
  }

  /** `CASE WHEN status = 'active' THEN 'completed' ELSE 'active' END`. */
  function Toggled(s: Status): (r: Status)
    ensures r == Completed <==> s == Active
    ensures r != Archived
  {
    if s == Active then Completed else Active
  }

  /** The tasks table after `ON DELETE CASCADE` removes the project's tasks. */
  function WithoutProject(tasks: map<int, Task>, projectId: int): (r: map<int, Task>)
    ensures forall t :: t in r ==> t in tasks && r[t] == tasks[t] && r[t].projectId != projectId
    ensures forall t :: t in tasks && tasks[t].projectId != projectId ==> t in r
  {
    map t | t in tasks && tasks[t].projectId != projectId :: tasks[t]
  }

  predicate DeadlineOk(d: Option<Date>) {
    d.Some? ==> ValidDate(d.value)
  }

  // ---------------------------------------------------------------------
  // What the queries select

  datatype TaskRow = TaskRow(id: int, task: Task)

  /** `WHERE project_id = $1 [AND status = 'active']`, over the ids in `among`. */
  function TaskRowsAmong(tasks: map<int, Task>, among: set<int>, projectId: int, showCompleted: bool): set<TaskRow>
  {
    set t | t in among && t in tasks && tasks[t].projectId == projectId
                       && (showCompleted || tasks[t].status == Active) :: TaskRow(t, tasks[t])
  }

  function ProjectTaskRows(tasks: map<int, Task>, projectId: int, showCompleted: bool): set<TaskRow> {
    TaskRowsAmong(tasks, tasks.Keys, projectId, showCompleted)
  }

  /** `ORDER BY CASE WHEN deadline IS NULL THEN 1 ELSE 0 END, deadline ASC, created_at DESC`:
      `TaskListOrder(a, b)` says `a` may be listed before `b`. */
  predicate TaskListOrder(a: TaskRow, b: TaskRow) {
    match (a.task.deadline, b.task.deadline)
    case (Some(x), None) => true
    case (None, Some(_)) => false
    case (Some(x), Some(y)) => Before(x, y) || (x == y && a.task.createdAt >= b.task.createdAt)
    case (None, None) => a.task.createdAt >= b.task.createdAt
  }

  lemma TaskListOrderTotal()
    ensures TotalPreorder(TaskListOrder)
  {
  }

  /** A task `get_upcoming_tasks` may return: the user's, active, with a deadline at
      most `daysAhead` days after `today` (earlier deadlines included). */
  predicate IsUpcoming(projects: map<int, Project>, tasks: map<int, Task>, userId: int,
                       daysAhead: int, today: Date, t: int)
    requires ValidDate(today)
  {
    && t in tasks
    && tasks[t].projectId in projects
    && projects[tasks[t].projectId].userId == userId
    && tasks[t].status == Active
    && tasks[t].deadline.Some?
    && ValidDate(tasks[t].deadline.value)
    && DayNumber(tasks[t].deadline.value) <= DayNumber(today) + daysAhead
  }

  datatype UpcomingRow = UpcomingRow(id: int, task: Task, projectName: string)

  function UpcomingAmong(projects: map<int, Project>, tasks: map<int, Task>, among: set<int>,
                         userId: int, daysAhead: int, today: Date): set<UpcomingRow>
    requires ValidDate(today)
  {
    set t | t in among && IsUpcoming(projects, tasks, userId, daysAhead, today, t)
      :: UpcomingRow(t, tasks[t], projects[tasks[t].projectId].name)
  }

  function UpcomingRows(projects: map<int, Project>, tasks: map<int, Task>,
                        userId: int, daysAhead: int, today: Date): set<UpcomingRow>
    requires ValidDate(today)
  {
    UpcomingAmong(projects, tasks, tasks.Keys, userId, daysAhead, today)
  }

  /** `ORDER BY t.deadline ASC`. */
  predicate DeadlineOrder(a: UpcomingRow, b: UpcomingRow) {
    match (a.task.deadline, b.task.deadline)
    case (Some(x), Some(y)) => NotAfter(x, y)
    case (Some(_), None) => true
    case (None, Some(_)) => false
    case (None, None) => true
  }

  lemma DeadlineOrderTotal()
    ensures TotalPreorder(DeadlineOrder)
  {
  }

  /** The ids of a project's tasks, and of those still active: `COUNT(t.id)` and
      `COUNT(CASE WHEN t.status = 'active' THEN 1 END)`. */
  function TasksOf(tasks: map<int, Task>, projectId: int): set<int> {
    set t | t in tasks && tasks[t].projectId == projectId
  }

  function ActiveTasksOf(tasks: map<int, Task>, projectId: int): set<int> {
    set t | t in tasks && tasks[t].projectId == projectId && tasks[t].status == Active
  }

  datatype ProjectSummary = ProjectSummary(id: int, name: string, createdAt: int, totalTasks: int, activeTasks: int)

  function Summary(projects: map<int, Project>, tasks: map<int, Task>, p: int): ProjectSummary
    requires p in projects
  {
    ProjectSummary(p, projects[p].name, projects[p].createdAt, |TasksOf(tasks, p)|, |ActiveTasksOf(tasks, p)|)
  }

  function SummariesAmong(projects: map<int, Project>, tasks: map<int, Task>, among: set<int>, userId: int): set<ProjectSummary> {
    set p | p in among && p in projects && projects[p].userId == userId :: Summary(projects, tasks, p)
  }

  /** `ORDER BY p.created_at DESC`. */
  predicate NewestFirst(a: ProjectSummary, b: ProjectSummary) {
    a.createdAt >= b.createdAt
  }

  lemma NewestFirstTotal()
    ensures TotalPreorder(NewestFirst)
  {
  }

  /** Scanning one more id adds at most that id's own row, which was not there yet. */
  lemma TaskRowsStep(tasks: map<int, Task>, done: set<int>, t: int, projectId: int, showCompleted: bool)
    requires t in tasks && t !in done
    ensures multiset(TaskRowsAmong(tasks, done + {t}, projectId, showCompleted))
      == multiset(TaskRowsAmong(tasks, done, projectId, showCompleted))
         + (if tasks[t].projectId == projectId && (showCompleted || tasks[t].status == Active)
            then multiset{TaskRow(t, tasks[t])} else multiset{})
  {
    var before := TaskRowsAmong(tasks, done, projectId, showCompleted);
    var row := TaskRow(t, tasks[t]);
    assert row !in before;
    if tasks[t].projectId == projectId && (showCompleted || tasks[t].status == Active) {
      assert TaskRowsAmong(tasks, done + {t}, projectId, showCompleted) == before + {row};
    } else {
      assert TaskRowsAmong(tasks, done + {t}, projectId, showCompleted) == before;
    }
  }

  lemma UpcomingStep(projects: map<int, Project>, tasks: map<int, Task>, done: set<int>, t: int,
                     userId: int, daysAhead: int, today: Date)
    requires ValidDate(today) && t in tasks && t !in done
    requires tasks[t].projectId in projects && DeadlineOk(tasks[t].deadline)
    ensures multiset(UpcomingAmong(projects, tasks, done + {t}, userId, daysAhead, today))
      == multiset(UpcomingAmong(projects, tasks, done, userId, daysAhead, today))
         + (if IsUpcoming(projects, tasks, userId, daysAhead, today, t)
            then multiset{UpcomingRow(t, tasks[t], projects[tasks[t].projectId].name)} else multiset{})
  {
    var before := UpcomingAmong(projects, tasks, done, userId, daysAhead, today);
    var row := UpcomingRow(t, tasks[t], projects[tasks[t].projectId].name);
    assert row !in before;
    if IsUpcoming(projects, tasks, userId, daysAhead, today, t) {
      assert UpcomingAmong(projects, tasks, done + {t}, userId, daysAhead, today) == before + {row};
    } else {
      assert UpcomingAmong(projects, tasks, done + {t}, userId, daysAhead, today) == before;
    }
  }

  lemma SummariesStep(projects: map<int, Project>, tasks: map<int, Task>, done: set<int>, p: int, userId: int)
    requires p in projects && p !in done
    ensures multiset(SummariesAmong(projects, tasks, done + {p}, userId))
      == multiset(SummariesAmong(projects, tasks, done, userId))
         + (if projects[p].userId == userId then multiset{Summary(projects, tasks, p)} else multiset{})
  {
    var before := SummariesAmong(projects, tasks, done, userId);
    var row := Summary(projects, tasks, p);
    assert row !in before;
    if projects[p].userId == userId {
      assert SummariesAmong(projects, tasks, done + {p}, userId) == before + {row};
    } else {
      assert SummariesAmong(projects, tasks, done + {p}, userId) == before;
    }
  }

  lemma HasMember(s: set<int>)
    requires s != {}
    ensures exists x :: x in s
  {
    if forall x :: x !in s {
      assert false;
    }
  }

  /** Some id not yet scanned; the order of a table scan is not specified. */
  method Choose(s: set<int>) returns (x: int)
    requires s != {}
    ensures x in s
  {
    HasMember(s);
    x :| x in s;
  }

  // ---------------------------------------------------------------------
  // format_project_stats

  datatype Stats = Stats(total: int, active: int, completed: int)

  /** `format_project_stats`: a missing or `None` count reads as 0 (`get(k, 0) or 0`),
      and completed is reported as total minus active. */
  function FormatProjectStats(totalTasks: Option<int>, activeTasks: Option<int>): Stats {
    var total := if totalTasks.Some? then totalTasks.value else 0;
    var active := if activeTasks.Some? then activeTasks.value else 0;
    Stats(total, active, total - active)
  }

  /** For a summary row of `get_user_projects`, the "completed" figure counts every
      task that is not active, so archived tasks are reported as completed. */
  lemma StatsCompletedAreNotActive(projects: map<int, Project>, tasks: map<int, Task>, p: int)
    requires p in projects
    ensures var s := Summary(projects, tasks, p);
      FormatProjectStats(Some(s.totalTasks), Some(s.activeTasks))
        == Stats(s.totalTasks, s.activeTasks,
                 |set t | t in tasks && tasks[t].projectId == p && tasks[t].status != Active|)
  {
    var all, active := TasksOf(tasks, p), ActiveTasksOf(tasks, p);
    var rest := set t | t in tasks && tasks[t].projectId == p && tasks[t].status != Active;
    assert all == active + rest;
    assert active * rest == {};
  }

  // ---------------------------------------------------------------------

  class Database {
    /** Whether `connect` produced a pool; without one every method returns its failure value. */
    const connected: bool
    var projects: map<int, Project>
    var tasks: map<int, Task>
    /** The next values of the two `SERIAL` sequences. */
    var nextProjectId: int
    var nextTaskId: int
    ghost var calls: seq<StoreCall>

    ghost predicate Valid()
      reads this
    {
      && 1 <= nextProjectId && 1 <= nextTaskId
      && (forall p :: p in projects ==> 1 <= p < nextProjectId && |projects[p].name| <= NameLimit)
      && (forall t :: t in tasks ==> 1 <= t < nextTaskId && |tasks[t].title| <= TitleLimit)
      && (forall t :: t in tasks ==> tasks[t].projectId in projects && DeadlineOk(tasks[t].deadline))
      && (!connected ==> projects == map[] && tasks == map[])
    }

    constructor (connected: bool)
      ensures Valid() && this.connected == connected
      ensures projects == map[] && tasks == map[] && calls == []
    {
      this.connected := connected;
      projects, tasks := map[], map[];
      nextProjectId, nextTaskId := 1, 1;
      calls := [];
    }

    /** `add_project`: `INSERT ... RETURNING id` with `name[:255]`; `None` without a pool. */
    method AddProject(userId: int, name: string, now: int) returns (id: Option<int>)
      requires Valid()
      modifies this
      ensures Valid()
      ensures calls == old(calls) + [AddProjectCall(userId, name)]
      ensures id.Some? <==> connected
      ensures id.Some? ==> id.value == old(nextProjectId) && id.value !in old(projects)
                           && projects == old(projects)[id.value := Project(userId, Truncate(name, NameLimit), now)]
      ensures id.None? ==> projects == old(projects)
      ensures tasks == old(tasks)
    {
      calls := calls + [AddProjectCall(userId, name)];
      if !connected {
        return None;
      }
      id := Some(nextProjectId);
      projects := projects[nextProjectId := Project(userId, Truncate(name, NameLimit), now)];
      nextProjectId := nextProjectId + 1;
    }

    /** `get_project_by_id`. */
    function GetProjectById(projectId: int): (r: Option<Project>)
      reads this
      ensures r.Some? <==> projectId in projects
      ensures r.Some? ==> r.value == projects[projectId]
    {
      if projectId in projects then Some(projects[projectId]) else None
    }

    /** `get_task_by_id`. */
    function GetTaskById(taskId: int): (r: Option<Task>)
      reads this
      ensures r.Some? <==> taskId in tasks
      ensures r.Some? ==> r.value == tasks[taskId]
    {
      if taskId in tasks then Some(tasks[taskId]) else None
    }

    /** `delete_project`: the row goes and the cascade takes its tasks; `True`
        whenever there is a pool, whether or not the id existed. */
    method DeleteProject(projectId: int) returns (ok: bool)
      requires Valid()
      modifies this
      ensures Valid()
      ensures calls == old(calls) + [DeleteProjectCall(projectId)]
      ensures ok == connected
      ensures projects == old(projects) - {projectId}
      ensures tasks == WithoutProject(old(tasks), projectId)
    {
      calls := calls + [DeleteProjectCall(projectId)];
      if !connected {
        return false;
      }
      projects := projects - {projectId};
      tasks := WithoutProject(tasks, projectId);
      ok := true;
    }

    /** `update_project_name`: `SET name = $1` with `new_name[:255]`. */
    method UpdateProjectName(projectId: int, newName: string) returns (ok: bool)
      requires Valid()
      modifies this
      ensures Valid()
      ensures calls == old(calls) + [RenameProjectCall(projectId, newName)]
      ensures ok == connected
      ensures projects == if projectId in old(projects)
        then old(projects)[projectId := old(projects)[projectId].(name := Truncate(newName, NameLimit))]
        else old(projects)
      ensures tasks == old(tasks)
    {
      calls := calls + [RenameProjectCall(projectId, newName)];
      if !connected {
        return false;
      }
      if projectId in projects {
        projects := projects[projectId := projects[projectId].(name := Truncate(newName, NameLimit))];
      }
      ok := true;
    }

    /** `add_task`: a new 'active' row with `title[:500]`. An unknown project breaks
        the foreign key and the method reports `False`; the sequence value drawn
        for the failed row is still used up. */
    method AddTask(projectId: int, title: string, deadline: Option<Date>, now: int) returns (ok: bool)
      requires Valid() && DeadlineOk(deadline)
      modifies this
      ensures Valid()
      ensures calls == old(calls) + [AddTaskCall(projectId, title, deadline)]
      ensures ok <==> connected && projectId in old(projects)
      ensures ok ==> old(nextTaskId) !in old(tasks)
                     && tasks == old(tasks)[old(nextTaskId) := Task(projectId, Truncate(title, TitleLimit), deadline, Active, now, now)]
      ensures !ok ==> tasks == old(tasks)
      ensures projects == old(projects)
    {
      calls := calls + [AddTaskCall(projectId, title, deadline)];
      if !connected {
        return false;
      }
      var id := nextTaskId;
      nextTaskId := nextTaskId + 1;
      if projectId !in projects {
        return false;
      }
      tasks := tasks[id := Task(projectId, Truncate(title, TitleLimit), deadline, Active, now, now)];
      ok := true;
    }

    /** `toggle_task_status`: 'active' becomes 'completed', anything else 'active';
        `updated_at` is set. `True` with a pool even when no row has the id. */
    method ToggleTaskStatus(taskId: int, now: int) returns (ok: bool)
      requires Valid()
      modifies this
      ensures Valid()
      ensures calls == old(calls) + [ToggleTaskCall(taskId)]
      ensures ok == connected
      ensures tasks == if taskId in old(tasks)
        then old(tasks)[taskId := old(tasks)[taskId].(status := Toggled(old(tasks)[taskId].status), updatedAt := now)]
        else old(tasks)
      ensures projects == old(projects)
    {
      calls := calls + [ToggleTaskCall(taskId)];
      if !connected {
        return false;
      }
      if taskId in tasks {
        tasks := tasks[taskId := tasks[taskId].(status := Toggled(tasks[taskId].status), updatedAt := now)];
      }
      ok := true;
    }

    /** `delete_task`. */
    method DeleteTask(taskId: int) returns (ok: bool)
      requires Valid()
      modifies this
      ensures Valid()
      ensures calls == old(calls) + [DeleteTaskCall(taskId)]
      ensures ok == connected
      ensures tasks == old(tasks) - {taskId}
      ensures projects == old(projects)
    {
      calls := calls + [DeleteTaskCall(taskId)];
      if !connected {
        return false;
      }
      tasks := tasks - {taskId};
      ok := true;
    }

    /** `update_task_deadline`: `SET deadline = $1, updated_at = CURRENT_TIMESTAMP`. */
    method UpdateTaskDeadline(taskId: int, newDeadline: Option<Date>, now: int) returns (ok: bool)
      requires Valid() && DeadlineOk(newDeadline)
      modifies this
      ensures Valid()
      ensures calls == old(calls) + [SetDeadlineCall(taskId, newDeadline)]
      ensures ok == connected
      ensures tasks == if taskId in old(tasks)
        then old(tasks)[taskId := old(tasks)[taskId].(deadline := newDeadline, updatedAt := now)]
        else old(tasks)
      ensures projects == old(projects)
    {
      calls := calls + [SetDeadlineCall(taskId, newDeadline)];
      if !connected {
        return false;
      }
      if taskId in tasks {
        tasks := tasks[taskId := tasks[taskId].(deadline := newDeadline, updatedAt := now)];
      }
      ok := true;
    }

    /** `get_project_tasks`: the project's tasks (only the 'active' ones unless
        `showCompleted`), each exactly once, dated before undated, earlier
        deadlines first, then newest first. */
    method GetProjectTasks(projectId: int, showCompleted: bool) returns (rows: seq<TaskRow>)
      requires Valid()
      ensures multiset(rows) == multiset(ProjectTaskRows(tasks, projectId, showCompleted))
      ensures SortedBy(rows, TaskListOrder)
    {
      rows := [];
      if !connected {
        return;
      }
      var pending: set<int>, done: set<int> := tasks.Keys, {};
      while pending != {}
        invariant pending + done == tasks.Keys && pending !! done
        invariant SortedBy(rows, TaskListOrder)
        invariant multiset(rows) == multiset(TaskRowsAmong(tasks, done, projectId, showCompleted))
        decreases pending
      {
        var t := Choose(pending);
        var row := TaskRow(t, tasks[t]);
        TaskRowsStep(tasks, done, t, projectId, showCompleted);
        if tasks[t].projectId == projectId && (showCompleted || tasks[t].status == Active) {
          TaskListOrderTotal();
          InsertSorted(rows, row, TaskListOrder);
          rows := Insert(rows, row, TaskListOrder);
        }
        pending, done := pending - {t}, done + {t};
      }
    }

    /** The user's upcoming tasks in deadline order: the query before its `LIMIT`. */
    method UpcomingInOrder(userId: int, daysAhead: int, today: Date) returns (sorted: seq<UpcomingRow>)
      requires Valid() && ValidDate(today)
      ensures multiset(sorted) == multiset(UpcomingRows(projects, tasks, userId, daysAhead, today))
      ensures SortedBy(sorted, DeadlineOrder)
    {
      sorted := [];
      if !connected {
        return;
      }
      var pending: set<int>, done: set<int> := tasks.Keys, {};
      while pending != {}
        invariant pending + done == tasks.Keys && pending !! done
        invariant SortedBy(sorted, DeadlineOrder)
        invariant multiset(sorted) == multiset(UpcomingAmong(projects, tasks, done, userId, daysAhead, today))
        decreases pending
      {
        var t := Choose(pending);
        var task := tasks[t];
        UpcomingStep(projects, tasks, done, t, userId, daysAhead, today);
        if task.status == Active && task.deadline.Some?
           && projects[task.projectId].userId == userId
           && DayNumber(task.deadline.value) <= DayNumber(today) + daysAhead
        {
          var row := UpcomingRow(t, task, projects[task.projectId].name);
          DeadlineOrderTotal();
          InsertSorted(sorted, row, DeadlineOrder);
          sorted := Insert(sorted, row, DeadlineOrder);
        }
        pending, done := pending - {t}, done + {t};
      }
    }

    /** `get_upcoming_tasks`: at most 20 of the user's active tasks whose deadline
        is at most `daysAhead` days after `today`, earliest deadlines first; when
        more qualify, the ones left out are due no earlier than any listed. */
    method GetUpcomingTasks(userId: int, daysAhead: int, today: Date) returns (rows: seq<UpcomingRow>)
      requires Valid() && ValidDate(today)
      ensures var all := UpcomingRows(projects, tasks, userId, daysAhead, today);
        && multiset(rows) <= multiset(all)
        && |rows| == (if |all| < UpcomingLimit then |all| else UpcomingLimit)
        && SortedBy(rows, DeadlineOrder)
        && forall r, c :: r in rows && c in all && c !in rows ==> DeadlineOrder(r, c)
    {
      var sorted := UpcomingInOrder(userId, daysAhead, today);
      var n := if |sorted| < UpcomingLimit then |sorted| else UpcomingLimit;
      TakeLeast(sorted, UpcomingRows(projects, tasks, userId, daysAhead, today), n, DeadlineOrder);
      rows := sorted[..n];
    }

    /** `get_user_projects`: one summary per project of the user, each exactly
        once, newest first, with its task count and active-task count. */
    method GetUserProjects(userId: int) returns (rows: seq<ProjectSummary>)
      requires Valid()
      ensures multiset(rows) == multiset(SummariesAmong(projects, tasks, projects.Keys, userId))
      ensures SortedBy(rows, NewestFirst)
    {
      rows := [];
      if !connected {
        return;
      }
      var pending: set<int>, done: set<int> := projects.Keys, {};
      while pending != {}
        invariant pending + done == projects.Keys && pending !! done
        invariant SortedBy(rows, NewestFirst)
        invariant multiset(rows) == multiset(SummariesAmong(projects, tasks, done, userId))
        decreases pending
      {
        var p := Choose(pending);
        SummariesStep(projects, tasks, done, p, userId);
        if projects[p].userId == userId {
          var total := |set t | t in tasks && tasks[t].projectId == p|;
          var active := |set t | t in tasks && tasks[t].projectId == p && tasks[t].status == Active|;
          var row := ProjectSummary(p, projects[p].name, projects[p].createdAt, total, active);
          NewestFirstTotal();
          InsertSorted(rows, row, NewestFirst);
          rows := Insert(rows, row, NewestFirst);
        }
        pending, done := pending - {p}, done + {p};
      }
    }
  }
}
