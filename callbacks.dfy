/** The inline-keyboard side of main.py: the `callback_data` strings the
    keyboards carry, the order in which the callback handlers are registered,
    how each handler takes its ids back out of the string with
    `split("_")[k]` and `int`, and the access decision each handler makes
    against the two tables before it acts. */
module Callbacks {
  import opened Wrappers
  import opened Text
  import opened Dates
  import opened Store

  /** One button press, as the keyboards built in main.py encode it. */
  datatype Callback =
    | RefreshProjects
    | ProjectMenu(projectId: int)
    | ShowTasks(projectId: int)
    | AddTaskStart(projectId: int)
    | ToggleTask(taskId: int, projectId: int)
    | ShowCompleted(projectId: int)
    | DeleteProject(projectId: int)
    | ConfirmDelete(projectId: int)

  /** The `callback_data` string a keyboard button carries. */
  function Encode(c: Callback): string {
    match c
    case RefreshProjects => "refresh_projects"
    case ProjectMenu(p) => "project_" + IntToString(p)
    case ShowTasks(p) => "tasks_" + IntToString(p)
    case AddTaskStart(p) => "add_task_" + IntToString(p)
    case ToggleTask(t, p) => "toggle_task_" + (IntToString(t) + "_" + IntToString(p))
    case ShowCompleted(p) => "completed_" + IntToString(p)
    case DeleteProject(p) => "delete_" + IntToString(p)
    case ConfirmDelete(p) => "confirm_delete_" + IntToString(p)
  }

  // ---------------------------------------------------------------------
  // Routing: the first registered handler whose filter accepts the data

  datatype Handler =
    | RefreshHandler | ProjectHandler | TasksHandler | AddTaskHandler
    | ToggleHandler | CompletedHandler | DeleteHandler | ConfirmDeleteHandler

  /** `F.data == text` or `F.data.startswith(prefix)`. */
  datatype Filter = DataEquals(text: string) | DataStartsWith(prefix: string)

  function FilterOf(h: Handler): Filter {
    match h
    case RefreshHandler => DataEquals("refresh_projects")
    case ProjectHandler => DataStartsWith("project_")
    case TasksHandler => DataStartsWith("tasks_")
    case AddTaskHandler => DataStartsWith("add_task_")
    case ToggleHandler => DataStartsWith("toggle_task_")
    case CompletedHandler => DataStartsWith("completed_")
    case DeleteHandler => DataStartsWith("delete_")
    case ConfirmDeleteHandler => DataStartsWith("confirm_delete_")
  }

  predicate Accepts(f: Filter, data: string) {
    match f
    case DataEquals(t) => data == t
    case DataStartsWith(p) => StartsWith(data, p)
  }

  /** The callback handlers in the order the decorators register them. */
  const CallbackHandlers: seq<Handler> := [
    RefreshHandler, ProjectHandler, TasksHandler, AddTaskHandler,
    ToggleHandler, CompletedHandler, DeleteHandler, ConfirmDeleteHandler
  ]

  /** The position of the first handler in `hs` that accepts `data`, or `|hs|`
      when none does. */
  function FirstAccepting(hs: seq<Handler>, data: string): (i: nat)
    ensures i <= |hs|
    ensures i < |hs| ==> Accepts(FilterOf(hs[i]), data)
    ensures forall j :: 0 <= j < i ==> !Accepts(FilterOf(hs[j]), data)
  {
    if hs == [] then 0
    else if Accepts(FilterOf(hs[0]), data) then 0
    else 1 + FirstAccepting(hs[1..], data)
  }

  /** The handler a callback's data reaches. */
  function HandlerOf(c: Callback): Handler {
    match c
    case RefreshProjects => RefreshHandler
    case ProjectMenu(_) => ProjectHandler
    case ShowTasks(_) => TasksHandler
    case AddTaskStart(_) => AddTaskHandler
    case ToggleTask(_, _) => ToggleHandler
    case ShowCompleted(_) => CompletedHandler
    case DeleteProject(_) => DeleteHandler
    case ConfirmDelete(_) => ConfirmDeleteHandler
  }

  // ---------------------------------------------------------------------
  // Decoding: `int(callback.data.split("_")[k])`

  /** `int(data.split("_")[k])`; `None` stands for the `IndexError` or
      `ValueError` the handler's `except` turns into an error reply. */
  function IdAt(data: string, k: nat): Option<int> {
    var parts := Split(data, '_');
    if k < |parts| then ParseInt(parts[k]) else None
  }

  /** What handler `h` reads out of `data`. */
  function DecodeFor(h: Handler, data: string): (r: Option<Callback>)
    ensures r.Some? ==> HandlerOf(r.value) == h
  {
    match h
    case RefreshHandler => Some(RefreshProjects)
    case ProjectHandler => if IdAt(data, 1).Some? then Some(ProjectMenu(IdAt(data, 1).value)) else None
    case TasksHandler => if IdAt(data, 1).Some? then Some(ShowTasks(IdAt(data, 1).value)) else None
    case AddTaskHandler => if IdAt(data, 2).Some? then Some(AddTaskStart(IdAt(data, 2).value)) else None
    case ToggleHandler =>
      if IdAt(data, 2).Some? && IdAt(data, 3).Some?
      then Some(ToggleTask(IdAt(data, 2).value, IdAt(data, 3).value))
      else None
    case CompletedHandler => if IdAt(data, 1).Some? then Some(ShowCompleted(IdAt(data, 1).value)) else None
    case DeleteHandler => if IdAt(data, 1).Some? then Some(DeleteProject(IdAt(data, 1).value)) else None
    case ConfirmDeleteHandler => if IdAt(data, 2).Some? then Some(ConfirmDelete(IdAt(data, 2).value)) else None
  }

  datatype ParseError = NoHandler | Malformed

  /** Routing followed by the reached handler's decoding: `NoHandler` when no
      filter accepts the data (aiogram leaves the query unanswered),
      `Malformed` when the handler's `int(...)` raises. */
  function ParseCallback(data: string): (r: Result<Callback, ParseError>)
    ensures r == Err(NoHandler) <==> forall h :: h in CallbackHandlers ==> !Accepts(FilterOf(h), data)
    ensures r.Ok? ==> Accepts(FilterOf(HandlerOf(r.value)), data)
  {
    var i := FirstAccepting(CallbackHandlers, data);
    if i == |CallbackHandlers| then Err(NoHandler)
    else match DecodeFor(CallbackHandlers[i], data)
      case None => Err(Malformed)
      case Some(c) => Ok(c)
  }

  /** `s` does not start with `q` when they differ at a position inside `q`. */
  lemma DiffersAt(s: string, q: string, i: nat)
    requires i < |q| && i < |s| && s[i] != q[i]
    ensures !StartsWith(s, q)
  {
    if |q| <= |s| {
      assert s[..|q|][i] != q[i];
    }
  }

  /** `p + x` starts with `p`, character by character. */
  lemma PrefixOf(p: string, x: string)
    ensures StartsWith(p + x, p)
    ensures forall i :: 0 <= i < |p| ==> (p + x)[i] == p[i]
  {
    assert (p + x)[..|p|] == p;
  }

  /** The first accepting handler is the one at `i` when it accepts and none before it does. */
  lemma FirstAcceptingIs(hs: seq<Handler>, data: string, i: nat)
    requires i < |hs| && Accepts(FilterOf(hs[i]), data)
    requires forall j :: 0 <= j < i ==> !Accepts(FilterOf(hs[j]), data)
    ensures FirstAccepting(hs, data) == i
  {
  }

  /** Data that starts with `p` is not the literal `refresh_projects` when `p`
      differs from it in the first character. */
  lemma NotRefresh(s: string, p: string)
    requires StartsWith(s, p) && |p| > 0 && p[0] != 'r'
    ensures s != "refresh_projects"
  {
    assert s[..|p|][0] == s[0];
  }

  // One lemma per button kind: its data is rejected by every filter
  // registered before its own and accepted by its own.

  lemma RouteRefreshProjects()
    ensures FirstAccepting(CallbackHandlers, Encode(RefreshProjects)) == 0
  {
    var s := Encode(RefreshProjects);
    var hs := CallbackHandlers;
      FirstAcceptingIs(hs, s, 0);
  }

  lemma RouteProjectMenu(p: int)
    ensures FirstAccepting(CallbackHandlers, Encode(ProjectMenu(p))) == 1
  {
    var s := Encode(ProjectMenu(p));
    var hs := CallbackHandlers;
      PrefixOf("project_", IntToString(p));
      NotRefresh(s, "project_");
      FirstAcceptingIs(hs, s, 1);
  }

  lemma RouteShowTasks(p: int)
    ensures FirstAccepting(CallbackHandlers, Encode(ShowTasks(p))) == 2
  {
    var s := Encode(ShowTasks(p));
    var hs := CallbackHandlers;
      PrefixOf("tasks_", IntToString(p));
      NotRefresh(s, "tasks_");
      DiffersAt(s, "project_", 0);
      FirstAcceptingIs(hs, s, 2);
  }

  lemma RouteAddTaskStart(p: int)
    ensures FirstAccepting(CallbackHandlers, Encode(AddTaskStart(p))) == 3
  {
    var s := Encode(AddTaskStart(p));
    var hs := CallbackHandlers;
      PrefixOf("add_task_", IntToString(p));
      NotRefresh(s, "add_task_");
      DiffersAt(s, "project_", 0);
      DiffersAt(s, "tasks_", 0);
      FirstAcceptingIs(hs, s, 3);
  }

  lemma RouteToggleTask(t: int, p: int)
    ensures FirstAccepting(CallbackHandlers, Encode(ToggleTask(t, p))) == 4
  {
    var s := Encode(ToggleTask(t, p));
    var hs := CallbackHandlers;
      PrefixOf("toggle_task_", IntToString(t) + "_" + IntToString(p));
      NotRefresh(s, "toggle_task_");
      DiffersAt(s, "project_", 0);
      DiffersAt(s, "tasks_", 1);
      DiffersAt(s, "add_task_", 0);
      FirstAcceptingIs(hs, s, 4);
  }

  lemma RouteShowCompleted(p: int)
    ensures FirstAccepting(CallbackHandlers, Encode(ShowCompleted(p))) == 5
  {
    var s := Encode(ShowCompleted(p));
    var hs := CallbackHandlers;
      PrefixOf("completed_", IntToString(p));
      NotRefresh(s, "completed_");
      DiffersAt(s, "project_", 0);
      DiffersAt(s, "tasks_", 0);
      DiffersAt(s, "add_task_", 0);
      DiffersAt(s, "toggle_task_", 0);
      FirstAcceptingIs(hs, s, 5);
  }

  lemma RouteDeleteProject(p: int)
    ensures FirstAccepting(CallbackHandlers, Encode(DeleteProject(p))) == 6
  {
    var s := Encode(DeleteProject(p));
    var hs := CallbackHandlers;
      PrefixOf("delete_", IntToString(p));
      NotRefresh(s, "delete_");
      DiffersAt(s, "project_", 0);
      DiffersAt(s, "tasks_", 0);
      DiffersAt(s, "add_task_", 0);
      DiffersAt(s, "toggle_task_", 0);
      DiffersAt(s, "completed_", 0);
      FirstAcceptingIs(hs, s, 6);
  }

  lemma RouteConfirmDelete(p: int)
    ensures FirstAccepting(CallbackHandlers, Encode(ConfirmDelete(p))) == 7
  {
    var s := Encode(ConfirmDelete(p));
    var hs := CallbackHandlers;
      PrefixOf("confirm_delete_", IntToString(p));
      NotRefresh(s, "confirm_delete_");
      DiffersAt(s, "project_", 0);
      DiffersAt(s, "tasks_", 0);
      DiffersAt(s, "add_task_", 0);
      DiffersAt(s, "toggle_task_", 0);
      DiffersAt(s, "completed_", 2);
      DiffersAt(s, "delete_", 0);
      FirstAcceptingIs(hs, s, 7);
  }

  /** The data of every button reaches the handler that button is for. */
  lemma RouteEncoded(c: Callback)
    ensures FirstAccepting(CallbackHandlers, Encode(c)) < |CallbackHandlers|
    ensures CallbackHandlers[FirstAccepting(CallbackHandlers, Encode(c))] == HandlerOf(c)
  {
    match c
    case RefreshProjects => RouteRefreshProjects();
    case ProjectMenu(p) => RouteProjectMenu(p);
    case ShowTasks(p) => RouteShowTasks(p);
    case AddTaskStart(p) => RouteAddTaskStart(p);
    case ToggleTask(t, p) => RouteToggleTask(t, p);
    case ShowCompleted(p) => RouteShowCompleted(p);
    case DeleteProject(p) => RouteDeleteProject(p);
    case ConfirmDelete(p) => RouteConfirmDelete(p);
  }

  /** `w_{n}`, split at the underscores: the word, then the number's digits. */
  lemma SplitWordId(w: string, n: int)
    requires '_' !in w
    ensures Split(w + "_" + IntToString(n), '_') == [w, IntToString(n)]
  {
    IntToStringHasNoSeparator(n, '_');
    SplitAfterPiece(w, '_', IntToString(n));
    SplitNoSeparator(IntToString(n), '_');
  }

  /** `v_w_{n}`, split at the underscores. */
  lemma SplitTwoWordsId(v: string, w: string, n: int)
    requires '_' !in v && '_' !in w
    ensures Split(v + "_" + w + "_" + IntToString(n), '_') == [v, w, IntToString(n)]
  {
    var rest := w + "_" + IntToString(n);
    assert v + "_" + w + "_" + IntToString(n) == v + ['_'] + rest;
    SplitWordId(w, n);
    SplitAfterPiece(v, '_', rest);
  }

  /** `toggle_task_{x}_{y}`, split at the underscores, for pieces without one. */
  lemma SplitToggleData(x: string, y: string)
    requires '_' !in x && '_' !in y
    ensures Split("toggle_task_" + (x + "_" + y), '_') == ["toggle", "task", x, y]
  {
    var rest := x + "_" + y;
    SplitAfterPiece(x, '_', y);
    SplitNoSeparator(y, '_');
    SplitAfterPiece("task", '_', rest);
    assert "toggle_task_" + rest == "toggle" + ['_'] + ("task" + ['_'] + rest);
    SplitAfterPiece("toggle", '_', "task" + ['_'] + rest);
  }

  /** `toggle_task_{t}_{p}`, split at the underscores. */
  lemma SplitToggle(t: int, p: int)
    ensures Split(Encode(ToggleTask(t, p)), '_') == ["toggle", "task", IntToString(t), IntToString(p)]
  {
    IntToStringHasNoSeparator(t, '_');
    IntToStringHasNoSeparator(p, '_');
    SplitToggleData(IntToString(t), IntToString(p));
  }

  /** `int(data.split("_")[1])` of `w_{n}` is `n`. */
  lemma IdAfterWord(w: string, n: int)
    requires '_' !in w
    ensures IdAt(w + "_" + IntToString(n), 1) == Some(n)
  {
    SplitWordId(w, n);
    IntRoundTrip(n);
  }

  /** `int(data.split("_")[2])` of `v_w_{n}` is `n`. */
  lemma IdAfterTwoWords(v: string, w: string, n: int)
    requires '_' !in v && '_' !in w
    ensures IdAt(v + "_" + w + "_" + IntToString(n), 2) == Some(n)
  {
    SplitTwoWordsId(v, w, n);
    IntRoundTrip(n);
  }

  /** `int(parts[2])` and `int(parts[3])` of `toggle_task_{t}_{p}`. */
  lemma IdsOfToggle(t: int, p: int)
    ensures IdAt(Encode(ToggleTask(t, p)), 2) == Some(t)
    ensures IdAt(Encode(ToggleTask(t, p)), 3) == Some(p)
  {
    SplitToggle(t, p);
    IntRoundTrip(t);
    IntRoundTrip(p);
  }

  // One lemma per button kind: its handler reads its ids back.

  lemma DecodeProjectMenu(p: int)
    ensures DecodeFor(ProjectHandler, Encode(ProjectMenu(p))) == Some(ProjectMenu(p))
  {
    assert Encode(ProjectMenu(p)) == "project" + "_" + IntToString(p);
    IdAfterWord("project", p);
  }

  lemma DecodeShowTasks(p: int)
    ensures DecodeFor(TasksHandler, Encode(ShowTasks(p))) == Some(ShowTasks(p))
  {
    assert Encode(ShowTasks(p)) == "tasks" + "_" + IntToString(p);
    IdAfterWord("tasks", p);
  }

  lemma DecodeAddTaskStart(p: int)
    ensures DecodeFor(AddTaskHandler, Encode(AddTaskStart(p))) == Some(AddTaskStart(p))
  {
    assert Encode(AddTaskStart(p)) == "add" + "_" + "task" + "_" + IntToString(p);
    IdAfterTwoWords("add", "task", p);
  }

  lemma DecodeToggleTask(t: int, p: int)
    ensures DecodeFor(ToggleHandler, Encode(ToggleTask(t, p))) == Some(ToggleTask(t, p))
  {
    IdsOfToggle(t, p);
  }

  lemma DecodeShowCompleted(p: int)
    ensures DecodeFor(CompletedHandler, Encode(ShowCompleted(p))) == Some(ShowCompleted(p))
  {
    assert Encode(ShowCompleted(p)) == "completed" + "_" + IntToString(p);
    IdAfterWord("completed", p);
  }

  lemma DecodeDeleteProject(p: int)
    ensures DecodeFor(DeleteHandler, Encode(DeleteProject(p))) == Some(DeleteProject(p))
  {
    assert Encode(DeleteProject(p)) == "delete" + "_" + IntToString(p);
    IdAfterWord("delete", p);
  }

  lemma DecodeConfirmDelete(p: int)
    ensures DecodeFor(ConfirmDeleteHandler, Encode(ConfirmDelete(p))) == Some(ConfirmDelete(p))
  {
    assert Encode(ConfirmDelete(p)) == "confirm" + "_" + "delete" + "_" + IntToString(p);
    IdAfterTwoWords("confirm", "delete", p);
  }

  /** The handler a button reaches reads the button's own ids back. */
  lemma DecodeEncoded(c: Callback)
    ensures DecodeFor(HandlerOf(c), Encode(c)) == Some(c)
  {
    match c
    case RefreshProjects =>
    case ProjectMenu(p) => DecodeProjectMenu(p);
    case ShowTasks(p) => DecodeShowTasks(p);
    case AddTaskStart(p) => DecodeAddTaskStart(p);
    case ToggleTask(t, p) => DecodeToggleTask(t, p);
    case ShowCompleted(p) => DecodeShowCompleted(p);
    case DeleteProject(p) => DecodeDeleteProject(p);
    case ConfirmDelete(p) => DecodeConfirmDelete(p);
  }

  /** Reading a button's data back gives the button: routing picks its handler
      and `int(data.split("_")[k])` recovers every id. */
  lemma ParseEncode(c: Callback)
    ensures ParseCallback(Encode(c)) == Ok(c)
  {
    RouteEncoded(c);
    DecodeEncoded(c);
  }

  // ---------------------------------------------------------------------
  // The access decision each callback handler makes

  /** What a callback handler ends up doing, read off the branch it takes. */
  datatype Decision =
    | Unhandled                     // no filter accepts the data
    | Failed                        // the handler's `except` branch
    | NotFound                      // "❌ Проект не найден." / "❌ Задача не найдена."
    | Denied                        // "❌ У вас нет доступа ..." / "❌ Доступ запрещен."
    | ProjectsListed(ownerId: int)
    | MenuShown(projectId: int)
    | TasksShown(projectId: int)
    | TaskWizardStarted(projectId: int, projectName: string)
    | StatusToggled(taskId: int, projectId: int)
    | CompletedShown(projectId: int)
    | DeleteAsked(projectId: int)
    | ProjectDeleted(projectId: int)

  predicate Refused(d: Decision) {
    d.NotFound? || d.Denied?
  }

  /** `project['user_id'] == callback.from_user.id` for an existing project. */
  predicate Owns(projects: map<int, Project>, projectId: int, userId: int) {
    projectId in projects && projects[projectId].userId == userId
  }

  /** The callbacks whose handler checks that the caller owns the project id
      the data names. */
  predicate OwnerChecked(c: Callback) {
    c.ProjectMenu? || c.ShowTasks? || c.AddTaskStart? || c.ShowCompleted? || c.DeleteProject?
  }

  /** How many of the earliest deadlines `project_menu` prints. */
  const MenuDeadlines: int := 3

  /** An active task of project `p` with a deadline: what the "upcoming"
      block of `project_menu` sorts by deadline. */
  predicate ActiveDated(tasks: map<int, Task>, p: int, t: int) {
    t in tasks && tasks[t].projectId == p && tasks[t].status == Active && tasks[t].deadline.Some?
  }

  /** `project_menu` raises in `format_date` for one of the three earliest
      deadlines among the project's active tasks. */
  predicate MenuFails(tasks: map<int, Task>, p: int, today: Date) {
    FirstDeadlinesFail(
      exists t :: t in tasks && ActiveDated(tasks, p, t) && Before(tasks[t].deadline.value, today),
      exists t :: t in tasks && ActiveDated(tasks, p, t) && Before(today, tasks[t].deadline.value),
      |set t | t in tasks && ActiveDated(tasks, p, t) && tasks[t].deadline.value == today|,
      MenuDeadlines, today)
  }

  /** `show_tasks` (status 'active') or `show_completed_tasks` (status
      'completed') raises in `format_date` for the deadline of a task it lists. */
  predicate ListFails(tasks: map<int, Task>, p: int, status: Status, today: Date) {
    exists t :: t in tasks && tasks[t].projectId == p && tasks[t].status == status
                && FormatFails(tasks[t].deadline, today)
  }

  /** A listing fails exactly when `format_date` raises for one of its tasks. */
  lemma ListFailsOnFormatError(tasks: map<int, Task>, p: int, status: Status, today: Date)
    requires ValidDate(today) && forall t :: t in tasks ==> DeadlineOk(tasks[t].deadline)
    ensures ListFails(tasks, p, status, today) <==>
      exists t :: t in tasks && tasks[t].projectId == p && tasks[t].status == status
                  && DeadlineOk(tasks[t].deadline) && FormatDate(tasks[t].deadline, today).Err?
  {
  }

  /** The handler of `c`, called by `caller` on `today`, against the tables as
      they are when the query arrives. Only the project handlers that check
      ownership refuse another user's project; `confirm_delete_` checks only
      that the project exists, and `toggle_task_` checks the project named in
      the data, never the project the task belongs to. The three views that
      print deadlines end in the `except` branch when `format_date` raises,
      which happens only on the last day of a month. */
  function Decide(c: Callback, projects: map<int, Project>, tasks: map<int, Task>, caller: int, today: Date): (d: Decision)
    ensures OwnerChecked(c) ==> (Refused(d) <==> !Owns(projects, c.projectId, caller))
    ensures c.ConfirmDelete? ==> (Refused(d) <==> c.projectId !in projects)
    ensures c.ToggleTask? ==> (Refused(d) <==> c.taskId !in tasks || !Owns(projects, c.projectId, caller))
    ensures c.ToggleTask? && c.taskId !in tasks ==> d == NotFound
    ensures c.RefreshProjects? ==> d == ProjectsListed(caller)
    ensures c.ProjectMenu? && Owns(projects, c.projectId, caller) ==>
              (d.Failed? <==> MenuFails(tasks, c.projectId, today))
    ensures c.ShowTasks? && Owns(projects, c.projectId, caller) ==>
              (d.Failed? <==> ListFails(tasks, c.projectId, Active, today))
    ensures c.ShowCompleted? && Owns(projects, c.projectId, caller) ==>
              (d.Failed? <==> ListFails(tasks, c.projectId, Completed, today))
    ensures d.Failed? ==> MonthEnd(today) && (c.ProjectMenu? || c.ShowTasks? || c.ShowCompleted?)
    ensures !d.Unhandled?
    // what a granted press gives
    ensures c.ProjectMenu? && Owns(projects, c.projectId, caller) && !MenuFails(tasks, c.projectId, today) ==>
              d == MenuShown(c.projectId)
    ensures c.ShowTasks? && Owns(projects, c.projectId, caller) && !ListFails(tasks, c.projectId, Active, today) ==>
              d == TasksShown(c.projectId)
    ensures c.AddTaskStart? && Owns(projects, c.projectId, caller) ==>
              d == TaskWizardStarted(c.projectId, projects[c.projectId].name)
    ensures c.ToggleTask? && c.taskId in tasks && Owns(projects, c.projectId, caller) ==>
              d == StatusToggled(c.taskId, c.projectId)
    ensures c.ShowCompleted? && Owns(projects, c.projectId, caller) && !ListFails(tasks, c.projectId, Completed, today) ==>
              d == CompletedShown(c.projectId)
    ensures c.DeleteProject? && Owns(projects, c.projectId, caller) ==> d == DeleteAsked(c.projectId)
    ensures c.ConfirmDelete? && c.projectId in projects ==> d == ProjectDeleted(c.projectId)
  {
    match c
    case RefreshProjects => ProjectsListed(caller)
    case ProjectMenu(p) =>
      if p !in projects then NotFound
      else if projects[p].userId != caller then Denied
      else if MenuFails(tasks, p, today) then Failed
      else MenuShown(p)
    case ShowTasks(p) =>
      if !Owns(projects, p, caller) then Denied
      else if ListFails(tasks, p, Active, today) then Failed
      else TasksShown(p)
    case AddTaskStart(p) =>
      if Owns(projects, p, caller) then TaskWizardStarted(p, projects[p].name) else Denied
    case ToggleTask(t, p) =>
      if t !in tasks then NotFound
      else if !Owns(projects, p, caller) then Denied
      else StatusToggled(t, p)
    case ShowCompleted(p) =>
      if !Owns(projects, p, caller) then Denied
      else if ListFails(tasks, p, Completed, today) then Failed
      else CompletedShown(p)
    case DeleteProject(p) => if Owns(projects, p, caller) then DeleteAsked(p) else Denied
    case ConfirmDelete(p) => if p in projects then ProjectDeleted(p) else NotFound
  }

  /** A callback query from its raw data to the decision. */
  function Dispatch(data: string, projects: map<int, Project>, tasks: map<int, Task>, caller: int, today: Date): (d: Decision)
    ensures d == Unhandled <==> forall h :: h in CallbackHandlers ==> !Accepts(FilterOf(h), data)
  {
    match ParseCallback(data)
    case Err(NoHandler) => Unhandled
    case Err(Malformed) => Failed
    case Ok(c) => Decide(c, projects, tasks, caller, today)
  }

  /** Pressing a button the bot built reaches the decision for that button. */
  lemma DispatchEncoded(c: Callback, projects: map<int, Project>, tasks: map<int, Task>, caller: int, today: Date)
    ensures Dispatch(Encode(c), projects, tasks, caller, today) == Decide(c, projects, tasks, caller, today)
  {
    ParseEncode(c);
  }

  /** A user who owns no project named in a button is refused by every
      owner-checked handler. */
  lemma ForeignProjectRefused(c: Callback, projects: map<int, Project>, tasks: map<int, Task>, caller: int, today: Date)
    requires OwnerChecked(c) && c.projectId in projects && projects[c.projectId].userId != caller
    ensures Dispatch(Encode(c), projects, tasks, caller, today) in {NotFound, Denied}
  {
    DispatchEncoded(c, projects, tasks, caller, today);
  }

  /** `confirm_delete_{id}` deletes a project of another user: the delete
      button is refused but the confirmation it would lead to is not. */
  lemma {:induction false} ConfirmDeleteSkipsOwnerCheck(projects: map<int, Project>, tasks: map<int, Task>, p: int,
                                                       caller: int, today: Date)
    requires p in projects && projects[p].userId != caller
    ensures Dispatch(Encode(DeleteProject(p)), projects, tasks, caller, today) == Denied
    ensures Dispatch(Encode(ConfirmDelete(p)), projects, tasks, caller, today) == ProjectDeleted(p)
  {
    assert Decide(DeleteProject(p), projects, tasks, caller, today) == Denied;
    assert Decide(ConfirmDelete(p), projects, tasks, caller, today) == ProjectDeleted(p);
    DispatchEncoded(DeleteProject(p), projects, tasks, caller, today);
    DispatchEncoded(ConfirmDelete(p), projects, tasks, caller, today);
  }

  /** `toggle_task_{t}_{p}` toggles a task of another user's project as long
      as the caller owns project `p`. */
  lemma {:induction false} ToggleChecksNamedProjectOnly(projects: map<int, Project>, tasks: map<int, Task>,
                                                       t: int, p: int, caller: int, today: Date)
    requires t in tasks && Owns(projects, p, caller)
    requires tasks[t].projectId in projects && projects[tasks[t].projectId].userId != caller
    ensures Dispatch(Encode(ToggleTask(t, p)), projects, tasks, caller, today) == StatusToggled(t, p)
    ensures Dispatch(Encode(ShowTasks(tasks[t].projectId)), projects, tasks, caller, today) == Denied
  {
    DispatchEncoded(ToggleTask(t, p), projects, tasks, caller, today);
    DispatchEncoded(ShowTasks(tasks[t].projectId), projects, tasks, caller, today);
  }

  // ---------------------------------------------------------------------
  // The view a handler shows after it has changed something

  /** The list shown after a change: after a toggle, the project's active
      tasks as `tasks_{p}` would show them; after a delete, the caller's
      projects. */
  function FollowUp(d: Decision, projects: map<int, Project>, tasks: map<int, Task>, caller: int, today: Date): (r: Option<Decision>)
    ensures r.Some? <==> d.StatusToggled? || d.ProjectDeleted?
  {
    match d
    case StatusToggled(_, p) => Some(Decide(ShowTasks(p), projects, tasks, caller, today))
    case ProjectDeleted(_) => Some(Decide(RefreshProjects, projects, tasks, caller, today))
    case _ => None
  }

  /** After a granted toggle the refreshed list is the project's task list:
      the toggle changes no project, so the owner check passes again, and the
      list fails only where `tasks_{p}` itself would. */
  lemma ToggleFollowUpShowsTasks(projects: map<int, Project>, tasks: map<int, Task>, t: int, p: int,
                                 caller: int, today: Date, tasksAfter: map<int, Task>)
    requires Decide(ToggleTask(t, p), projects, tasks, caller, today) == StatusToggled(t, p)
    ensures FollowUp(StatusToggled(t, p), projects, tasksAfter, caller, today)
            == Some(if ListFails(tasksAfter, p, Active, today) then Failed else TasksShown(p))
  {
  }

  /** After a deletion the refreshed list is the caller's own projects, the
      list `refresh_projects` gives the caller. */
  lemma DeleteFollowUpListsCaller(projects: map<int, Project>, tasks: map<int, Task>, p: int, caller: int, today: Date)
    ensures FollowUp(ProjectDeleted(p), projects, tasks, caller, today) == Some(ProjectsListed(caller))
  {
  }

  /** The list shown after a change as main.py builds it: `show_tasks` is
      handed the toggle's own query and reads `split("_")[1]` of
      `toggle_task_{t}_{p}`; `show_projects` is handed `callback.message`,
      whose author is the bot that sent the keyboard. */
  function FollowUpAsWritten(d: Decision, data: string, projects: map<int, Project>, tasks: map<int, Task>,
                             caller: int, messageAuthor: int, today: Date): (r: Option<Decision>)
    ensures r.Some? <==> d.StatusToggled? || d.ProjectDeleted?
  {
    match d
    case StatusToggled(_, _) =>
      Some(if IdAt(data, 1).Some? then Decide(ShowTasks(IdAt(data, 1).value), projects, tasks, caller, today) else Failed)
    case ProjectDeleted(_) => Some(RefreshAsWritten(messageAuthor))
    case _ => None
  }

  /** The second piece of `toggle_task_{t}_{p}` is the word `task`, so the
      refreshed list after every toggle is the error reply. */
  lemma ToggleRefreshFails(t: int, p: int, projects: map<int, Project>, tasks: map<int, Task>,
                           caller: int, messageAuthor: int, today: Date)
    ensures FollowUpAsWritten(StatusToggled(t, p), Encode(ToggleTask(t, p)), projects, tasks, caller, messageAuthor, today)
            == Some(Failed)
  {
    ToggleSecondPiece(t, p);
    RefreshFailsWhenNoId(StatusToggled(t, p), Encode(ToggleTask(t, p)), projects, tasks, caller, messageAuthor, today);
  }

  lemma ToggleSecondPiece(t: int, p: int)
    ensures IdAt(Encode(ToggleTask(t, p)), 1) == None
  {
    SplitToggle(t, p);
    SecondPieceTask(Encode(ToggleTask(t, p)));
  }

  lemma SecondPieceTask(data: string)
    requires |Split(data, '_')| > 1 && Split(data, '_')[1] == "task"
    ensures IdAt(data, 1) == None
  {
    TaskIsNoNumber();
  }

  lemma RefreshFailsWhenNoId(d: Decision, data: string, projects: map<int, Project>, tasks: map<int, Task>,
                             caller: int, messageAuthor: int, today: Date)
    requires d.StatusToggled? && IdAt(data, 1) == None
    ensures FollowUpAsWritten(d, data, projects, tasks, caller, messageAuthor, today) == Some(Failed)
  {
  }

  /** `int("task")` raises. */
  lemma TaskIsNoNumber()
    ensures ParseInt("task") == None
  {
    StripUnchanged("task");
    assert !IsDigit("task"[0]);
  }

  /** `refresh_projects` as written: `show_projects(callback.message)` lists
      the projects of the message's author. */
  function RefreshAsWritten(messageAuthor: int): Decision
  {
    ProjectsListed(messageAuthor)
  }

  /** The keyboard's message is the bot's, so the list shown is the bot's,
      which shares no project with the person who pressed the button, while
      the listing `Decide` gives is the caller's. */
  lemma RefreshListsKeyboardAuthor(projects: map<int, Project>, tasks: map<int, Task>, caller: int, botId: int,
                                   today: Date)
    requires botId != caller
    ensures RefreshAsWritten(botId) != Decide(RefreshProjects, projects, tasks, caller, today)
    ensures forall s :: s in SummariesAmong(projects, tasks, projects.Keys, botId) ==>
              s.id in projects && projects[s.id].userId != caller
  {
  }

  /** After a deletion, as written, the list shown is the bot's too, not the
      caller's list the refresh was meant to show. */
  lemma DeleteRefreshListsKeyboardAuthor(projects: map<int, Project>, tasks: map<int, Task>, p: int, data: string,
                                         caller: int, botId: int, today: Date)
    requires botId != caller
    ensures FollowUpAsWritten(ProjectDeleted(p), data, projects, tasks, caller, botId, today)
            == Some(ProjectsListed(botId))
    ensures FollowUpAsWritten(ProjectDeleted(p), data, projects, tasks, caller, botId, today)
            != FollowUp(ProjectDeleted(p), projects, tasks, caller, today)
  {
  }
}
