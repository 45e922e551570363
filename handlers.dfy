/** The conversation side of main.py: the `ProjectStates` wizard kept per
    user, the order in which the message handlers are registered, and the
    message and callback handlers with what they read from and write to the
    store. Replies are named by what they tell the user; their text and
    keyboards are not modelled. */
module Handlers {
  import opened Wrappers
  import opened Text
  import opened Dates
  import opened Store
  import opened Callbacks
  import opened Sorting

  /** The states of `ProjectStates`; `Idle` is a user with no state set. */
  datatype WizardState = Idle | WaitingProjectName | WaitingTaskTitle | WaitingTaskDeadline

  /** The keys the handlers store with `state.update_data`. */
  datatype SessionData = SessionData(projectId: Option<int>, projectName: Option<string>, title: Option<string>)

  datatype Session = Session(state: WizardState, data: SessionData)

  /** What `state.clear()` leaves: no state and no data. */
  const Cleared: Session := Session(Idle, SessionData(None, None, None))

  /** What a state promises about the data stored with it: the title step
      knows its project, the deadline step its project and a title the
      title step accepted. */
  predicate SessionOk(s: Session) {
    && (s.state == WaitingTaskTitle ==> s.data.projectId.Some?)
    && (s.state == WaitingTaskDeadline ==>
          s.data.projectId.Some? && s.data.title.Some?
          && 0 < |s.data.title.value| <= TitleLimit)
  }

  // ---------------------------------------------------------------------
  // Reply-keyboard labels and commands

  const HelpLabel: string := "\U{2139}\U{FE0F} Помощь"
  const RestartLabel: string := "\U{1F504} Перезапустить"
  const ProjectsLabel: string := "\U{1F4C2} Мои проекты"
  const NewProjectLabel: string := "\U{2795} Новый проект"
  const UpcomingLabel: string := "\U{1F4C5} Ближайшие задачи"
  const CancelLabel: string := "\U{274C} Отмена"

  /** The replies the deadline step accepts for "no deadline", compared after
      `strip()` only, so case-sensitively. */
  const DeadlineSkipWords: seq<string> := ["нет", "no", "без срока", "пропустить", "skip"]

  /** How many days ahead `show_upcoming_tasks` asks for. */
  const UpcomingDays: int := 14

  /** The longest prefix of `s` without white space. */
  function TakeWord(s: string): (w: string)
    ensures StartsWith(s, w)
    ensures forall i :: 0 <= i < |w| ==> !IsSpace(w[i])
    ensures |w| < |s| ==> IsSpace(s[|w|])
  {
    if s == [] || IsSpace(s[0]) then [] else [s[0]] + TakeWord(s[1..])
  }

  /** `text.split()[0]`, the word a command filter looks at. */
  function FirstWord(text: string): string {
    TakeWord(TrimLeft(text))
  }

  /** `Command(name)`: the first word is `/name`. */
  predicate IsCommand(text: string, name: string) {
    FirstWord(text) == "/" + name
  }

  /** The message handlers, in the order the decorators register them. */
  datatype MessageHandler =
    | StartHandler | HelpHandler | RestartHandler | ProjectsHandler | NewProjectHandler
    | ProjectNameHandler | UpcomingHandler | TaskTitleHandler | TaskDeadlineHandler | FallbackHandler

  /** The handler a text message reaches: the first registered one whose
      filter accepts the text in the sender's current state. */
  function RouteMessage(text: string, st: WizardState): (h: MessageHandler)
    ensures FitsState(h, st)
  {
    if IsCommand(text, "start") then StartHandler
    else if IsCommand(text, "help") || text == HelpLabel then HelpHandler
    else if text == RestartLabel then RestartHandler
    else if IsCommand(text, "projects") || text == ProjectsLabel then ProjectsHandler
    else if text == NewProjectLabel then NewProjectHandler
    else if st == WaitingProjectName then ProjectNameHandler
    else if IsCommand(text, "tasks") || text == UpcomingLabel then UpcomingHandler
    else if st == WaitingTaskTitle then TaskTitleHandler
    else if st == WaitingTaskDeadline then TaskDeadlineHandler
    else FallbackHandler
  }

  /** A wizard step's handler is reached only in its own state. */
  predicate FitsState(h: MessageHandler, st: WizardState) {
    && (h == ProjectNameHandler ==> st == WaitingProjectName)
    && (h == TaskTitleHandler ==> st == WaitingTaskTitle)
    && (h == TaskDeadlineHandler ==> st == WaitingTaskDeadline)
  }

  /** The handler that owns a wizard state. */
  function StepHandler(st: WizardState): MessageHandler {
    match st
    case Idle => FallbackHandler
    case WaitingProjectName => ProjectNameHandler
    case WaitingTaskTitle => TaskTitleHandler
    case WaitingTaskDeadline => TaskDeadlineHandler
  }

  /** Text that starts with neither white space nor `/` is no command. */
  lemma NotACommand(text: string)
    requires |text| > 0 && !IsSpace(text[0]) && text[0] != '/'
    ensures forall name :: !IsCommand(text, name)
  {
    assert TrimLeft(text) == text;
    assert FirstWord(text) == [] || FirstWord(text)[0] == text[0];
  }

  lemma HelpButton(st: WizardState)
    ensures RouteMessage(HelpLabel, st) == HelpHandler
  {
    NotACommand(HelpLabel);
  }

  lemma RestartButton(st: WizardState)
    ensures RouteMessage(RestartLabel, st) == RestartHandler
  {
    NotACommand(RestartLabel);
  }

  lemma ProjectsButton(st: WizardState)
    ensures RouteMessage(ProjectsLabel, st) == ProjectsHandler
  {
    NotACommand(ProjectsLabel);
  }

  lemma NewProjectButton(st: WizardState)
    ensures RouteMessage(NewProjectLabel, st) == NewProjectHandler
  {
    NotACommand(NewProjectLabel);
  }

  lemma UpcomingButton(st: WizardState)
    ensures RouteMessage(UpcomingLabel, st) == if st == WaitingProjectName then ProjectNameHandler else UpcomingHandler
  {
    NotACommand(UpcomingLabel);
  }

  lemma CancelButton(st: WizardState)
    ensures RouteMessage(CancelLabel, st) == StepHandler(st)
  {
    NotACommand(CancelLabel);
  }

  /** A string with no white space is its own first word. */
  lemma {:induction false} TakeWordWhole(s: string)
    requires forall i :: 0 <= i < |s| ==> !IsSpace(s[i])
    ensures TakeWord(s) == s
  {
    if s != [] {
      TakeWordWhole(s[1..]);
      assert [s[0]] + s[1..] == s;
    }
  }

  /** `/tasks` is a word of its own. */
  lemma TasksWord()
    ensures FirstWord("/tasks") == "/tasks"
  {
    var t := "/tasks";
    assert TrimLeft(t) == t;
    assert t == ['/', 't', 'a', 's', 'k', 's'];
    TakeWordWhole(t);
  }

  lemma TasksCommand(st: WizardState)
    ensures RouteMessage("/tasks", st) == if st == WaitingProjectName then ProjectNameHandler else UpcomingHandler
  {
    TasksWord();
    assert IsCommand("/tasks", "tasks");
    assert !IsCommand("/tasks", "start") && !IsCommand("/tasks", "help") && !IsCommand("/tasks", "projects");
  }

  /** The menu buttons are handled as buttons in every state: help, restart
      and the project list leave a wizard where it was, "new project" starts
      over, and the upcoming-tasks button and `/tasks`, registered after the
      project-name step, become the new project's name in that step. The
      cancel button only means something to a wizard step. */
  lemma {:induction false} MenuButtonsInEveryState(st: WizardState)
    ensures RouteMessage(HelpLabel, st) == HelpHandler
    ensures RouteMessage(RestartLabel, st) == RestartHandler
    ensures RouteMessage(ProjectsLabel, st) == ProjectsHandler
    ensures RouteMessage(NewProjectLabel, st) == NewProjectHandler
    ensures RouteMessage(UpcomingLabel, st) == if st == WaitingProjectName then ProjectNameHandler else UpcomingHandler
    ensures RouteMessage("/tasks", st) == if st == WaitingProjectName then ProjectNameHandler else UpcomingHandler
    ensures RouteMessage(CancelLabel, st) == StepHandler(st)
  {
    HelpButton(st);
    RestartButton(st);
    ProjectsButton(st);
    NewProjectButton(st);
    UpcomingButton(st);
    TasksCommand(st);
    CancelButton(st);
  }

  // ---------------------------------------------------------------------
  // The deadline step's acceptance rule

  /** `add_task_deadline` goes on when the stripped text is one of its five
      words or `parse_date` reads a date from it. */
  predicate DeadlineAccepted(text: string) {
    var s := Strip(text);
    s in DeadlineSkipWords || ParseDate(s).Some?
  }

  /** Lower-casing keeps a string with no upper-case letter it knows of. */
  lemma LowerFixed(s: string)
    requires forall c :: c in s ==> LowerChar(c) == c
    ensures Lower(s) == s
  {
    assert forall i :: 0 <= i < |s| ==> s[i] in s;
  }

  /** A reply whose stripped, lower-cased form is one of `parse_date`'s words
      has no deadline. */
  lemma NoDeadlineReply(text: string, w: string)
    requires Strip(text) == text && Lower(text) == w && w in NoDeadlineWords
    ensures ParseDate(text) == None
  {
  }

  /** A word with no white space at either end and no upper-case letter. */
  predicate PlainWord(w: string) {
    && w != [] && !IsSpace(w[0]) && !IsSpace(w[|w| - 1])
    && forall c :: c in w ==> LowerChar(c) == c
  }

  /** A plain word among `parse_date`'s seven is read as "no deadline". */
  lemma PlainNoDeadlineWord(w: string)
    requires PlainWord(w) && w in NoDeadlineWords
    ensures ParseDate(w) == None
  {
    StripUnchanged(w);
    LowerFixed(w);
    NoDeadlineReply(w, w);
  }

  /** The five words are plain and among `parse_date`'s seven. */
  lemma SkipWordsArePlain(w: string)
    requires w in DeadlineSkipWords
    ensures PlainWord(w) && w in NoDeadlineWords
  {
  }

  /** Each accepted word is also one of `parse_date`'s seven, so an accepted
      reply is either a date or "no deadline". */
  lemma SkipWordsMeanNoDeadline(w: string)
    requires w in DeadlineSkipWords
    ensures w in NoDeadlineWords && ParseDate(w) == None
  {
    SkipWordsArePlain(w);
    PlainNoDeadlineWord(w);
  }

  /** A reply `parse_date` reads as "no deadline" that the deadline step
      refuses, re-asking for a date. */
  lemma RefusedNoDeadlineReply(text: string, w: string)
    requires Strip(text) == text && Lower(text) == w && w in NoDeadlineWords
    requires text !in DeadlineSkipWords
    ensures ParseDate(text) == None && !DeadlineAccepted(text)
  {
    NoDeadlineReply(text, w);
  }

  /** A plain word among `parse_date`'s seven but not among the step's five. */
  lemma RefusedPlainWord(w: string)
    requires PlainWord(w) && w in NoDeadlineWords && w !in DeadlineSkipWords
    ensures ParseDate(w) == None && !DeadlineAccepted(w)
  {
    StripUnchanged(w);
    LowerFixed(w);
    RefusedNoDeadlineReply(w, w);
  }

  /** `none`, one of the two words only `parse_date` knows, is read as "no
      deadline" but refused by the deadline step. */
  lemma NoneIsRefused()
    ensures ParseDate("none") == None && !DeadlineAccepted("none")
  {
    assert PlainWord("none");
    RefusedPlainWord("none");
  }

  /** `null`, the other word only `parse_date` knows. */
  lemma NullIsRefused()
    ensures ParseDate("null") == None && !DeadlineAccepted("null")
  {
    assert PlainWord("null");
    RefusedPlainWord("null");
  }

  /** `NO` meets `RefusedNoDeadlineReply`: `parse_date` lower-cases it to
      `no`, while the deadline step compares it as it is. */
  lemma UpperNoIsRefused()
    ensures Strip("NO") == "NO" && Lower("NO") == "no" && "no" in NoDeadlineWords
    ensures "NO" !in DeadlineSkipWords && "no" in DeadlineSkipWords
  {
    StripUnchanged("NO");
    UpperNoLowered();
    UpperNoNotSkipWord();
  }

  lemma UpperNoNotSkipWord()
    ensures "NO" !in DeadlineSkipWords
  {
    assert "NO"[0] != "no"[0];
    assert forall k :: 0 <= k < |DeadlineSkipWords| && k != 1 ==> |DeadlineSkipWords[k]| != 2;
  }

  lemma UpperNoLowered()
    ensures Lower("NO") == "no"
  {
    assert Lower("NO")[0] == LowerChar('N') && Lower("NO")[1] == LowerChar('O');
  }

  /** The deadline step strips the reply before `parse_date` strips it again;
      the second strip changes nothing. */
  lemma ParseDateStripped(text: string)
    ensures ParseDate(Strip(text)) == ParseDate(text)
  {
    StripIdempotent(text);
    assert Lower(Strip(Strip(text))) == Lower(Strip(text));
  }

  /** How the deadline step reads a reply, in terms of `parse_date` on the
      reply itself: a skip word goes on without a deadline; any other word
      `parse_date` reads as "no deadline" is refused; a reply that goes on
      without a deadline is a skip word; a date goes on. */
  lemma {:induction false} DeadlineAcceptedRule(text: string)
    ensures Strip(text) in DeadlineSkipWords ==> DeadlineAccepted(text) && ParseDate(text) == None
    ensures Lower(Strip(text)) in NoDeadlineWords && Strip(text) !in DeadlineSkipWords ==>
              !DeadlineAccepted(text) && ParseDate(text) == None
    ensures DeadlineAccepted(text) && ParseDate(text).None? ==> Strip(text) in DeadlineSkipWords
    ensures ParseDate(text).Some? ==> DeadlineAccepted(text)
  {
    var s := Strip(text);
    ParseDateStripped(text);
    StripIdempotent(text);
    if s in DeadlineSkipWords {
      SkipWordsMeanNoDeadline(s);
    } else if Lower(s) in NoDeadlineWords {
      RefusedNoDeadlineReply(s, Lower(s));
    }
  }

  // ---------------------------------------------------------------------
  // Printing the upcoming tasks

  /** `show_upcoming_tasks` prints `format_date` of each listed deadline, so
      it raises when one of them is not today on the last day of a month. */
  predicate UpcomingFails(rows: seq<UpcomingRow>, today: Date) {
    exists r :: r in rows && FormatFails(r.task.deadline, today)
  }

  /** The rows the query selects that are due today. */
  function DueToday(all: set<UpcomingRow>, today: Date): set<UpcomingRow> {
    set c | c in all && c.task.deadline == Some(today)
  }

  /** The failure stated on every row the query selects, before its `LIMIT`. */
  predicate UpcomingQueryFails(all: set<UpcomingRow>, today: Date) {
    FirstDeadlinesFail(
      exists c :: c in all && c.task.deadline.Some? && Before(c.task.deadline.value, today),
      exists c :: c in all && c.task.deadline.Some? && Before(today, c.task.deadline.value),
      |DueToday(all, today)|, UpcomingLimit, today)
  }

  /** The earliest `LIMIT` rows print without error exactly when the query's
      rows do not call for a failure. */
  lemma UpcomingHeadFails(rows: seq<UpcomingRow>, all: set<UpcomingRow>, today: Date)
    requires forall c :: c in all ==> c.task.deadline.Some?
    requires multiset(rows) <= multiset(all)
    requires |rows| == (if |all| < UpcomingLimit then |all| else UpcomingLimit)
    requires forall r, c :: r in rows && c in all && c !in rows ==> DeadlineOrder(r, c)
    ensures UpcomingFails(rows, today) <==> UpcomingQueryFails(all, today)
  {
    assert forall r :: r in rows ==> r in all by {
      forall r | r in rows ensures r in all {
        assert multiset(rows)[r] > 0;
      }
    }
    if UpcomingFails(rows, today) {
      ListedFailureShows(rows, all, today);
    }
    if UpcomingQueryFails(all, today) {
      QueryFailureListed(rows, all, today);
    }
  }

  /** A listed deadline other than today is earlier than today, or later
      while fewer than `LIMIT` rows are due today. */
  lemma ListedFailureShows(rows: seq<UpcomingRow>, all: set<UpcomingRow>, today: Date)
    requires forall c :: c in all ==> c.task.deadline.Some?
    requires forall r :: r in rows ==> r in all
    requires |rows| <= UpcomingLimit
    requires forall r, c :: r in rows && c in all && c !in rows ==> DeadlineOrder(r, c)
    requires UpcomingFails(rows, today)
    ensures UpcomingQueryFails(all, today)
  {
    var due := DueToday(all, today);
    var r :| r in rows && FormatFails(r.task.deadline, today);
    if !Before(r.task.deadline.value, today) && |due| >= UpcomingLimit {
      var listed := due + {r};
      assert multiset(listed) <= multiset(rows) by {
        forall x | x in listed ensures x in rows {
          if x != r {
            assert x in due;
          }
        }
      }
      assert r !in due;
      SubMultisetSize(multiset(listed), multiset(rows));
      assert false;
    }
  }

  /** When the rows the query selects call for a failure, a listed row fails. */
  lemma QueryFailureListed(rows: seq<UpcomingRow>, all: set<UpcomingRow>, today: Date)
    requires forall c :: c in all ==> c.task.deadline.Some?
    requires multiset(rows) <= multiset(all)
    requires forall r :: r in rows ==> r in all
    requires |rows| == (if |all| < UpcomingLimit then |all| else UpcomingLimit)
    requires forall r, c :: r in rows && c in all && c !in rows ==> DeadlineOrder(r, c)
    requires UpcomingQueryFails(all, today)
    ensures UpcomingFails(rows, today)
  {
    var due := DueToday(all, today);
    if c :| c in all && Before(c.task.deadline.value, today) {
      if c in rows {
        assert FormatFails(c.task.deadline, today);
      } else {
        assert rows[0] in rows && DeadlineOrder(rows[0], c);
        assert FormatFails(rows[0].task.deadline, today);
      }
    } else {
      var c :| c in all && Before(today, c.task.deadline.value);
      if c in rows {
        assert FormatFails(c.task.deadline, today);
      } else if forall r :: r in rows ==> r.task.deadline == Some(today) {
        assert multiset(rows) <= multiset(due) by {
          forall x ensures multiset(rows)[x] <= multiset(due)[x] {
            if x in rows {
              assert x in due;
            }
          }
        }
        SubMultisetSize(multiset(rows), multiset(due));
        assert |multiset(due)| == |due|;
        assert |rows| == |all|;
        assert multiset(all)[c] > 0;
        SubMultisetSize(multiset(rows), multiset(all));
        assert false;
      }
    }
  }

  // ---------------------------------------------------------------------
  // Replies

  datatype Reply =
    | Welcome
    | HelpText
    | ProjectList(projects: seq<ProjectSummary>)
    | UpcomingList(tasks: seq<UpcomingRow>)
    | UpcomingError
    | AskProjectName
    | Cancelled
    | EmptyName
    | NameTooLong
    | ProjectCreated(projectId: int)
    | ProjectNotCreated
    | EmptyTitle
    | TitleTooLong
    | AskDeadline
    | BadDeadline
    | TaskCreated
    | TaskNotCreated
    | TaskError
    | UseButtons
    | Silent

  /** The replies each message handler can give. */
  predicate ReplyOf(h: MessageHandler, r: Reply) {
    match h
    case StartHandler => r == Welcome
    case HelpHandler => r == HelpText
    case RestartHandler => r == Welcome
    case ProjectsHandler => r.ProjectList?
    case NewProjectHandler => r == AskProjectName
    case ProjectNameHandler => r in {Cancelled, EmptyName, NameTooLong, ProjectNotCreated} || r.ProjectCreated?
    case UpcomingHandler => r.UpcomingList? || r == UpcomingError
    case TaskTitleHandler => r in {Cancelled, EmptyTitle, TitleTooLong, AskDeadline}
    case TaskDeadlineHandler => r in {Cancelled, BadDeadline, TaskCreated, TaskNotCreated, TaskError}
    case FallbackHandler => r in {UseButtons, Silent}
  }

  /** The handlers that only read. */
  predicate ReadsOnly(h: MessageHandler) {
    h in {StartHandler, HelpHandler, RestartHandler, ProjectsHandler, UpcomingHandler, FallbackHandler}
  }

  // ---------------------------------------------------------------------

  /** The bot: the store and the wizard state of every user. */
  class Bot {
    const db: Database
    var sessions: map<int, Session>

    /** `FSMContext` of a user; a user never seen has no state and no data. */
    function SessionOf(user: int): Session
      reads this
    {
      if user in sessions then sessions[user] else Cleared
    }

    ghost predicate Valid()
      reads this, db
    {
      && db.Valid()
      && forall u :: u in sessions ==> SessionOk(sessions[u])
    }

    /** What `add_project_finish` leaves behind: cancel clears the wizard; an
        empty or over-long name re-asks with nothing changed; otherwise one
        `add_project` write of the stripped name, then the wizard is cleared
        whatever the store answered. */
    twostate predicate NameStepDone(user: int, text: string, now: int, new reply: Reply)
      reads this, db
    {
      && (text == CancelLabel ==>
            reply == Cancelled && sessions == old(sessions)[user := Cleared] && unchanged(db))
      && (text != CancelLabel && (Strip(text) == [] || |Strip(text)| > NameLimit) ==>
            reply == (if Strip(text) == [] then EmptyName else NameTooLong)
            && sessions == old(sessions) && unchanged(db))
      && (text != CancelLabel && 0 < |Strip(text)| <= NameLimit ==>
            && sessions == old(sessions)[user := Cleared]
            && db.calls == old(db.calls) + [AddProjectCall(user, Strip(text))]
            && db.tasks == old(db.tasks)
            && (reply.ProjectCreated? <==> db.connected)
            && (reply.ProjectCreated? ==>
                  reply.projectId !in old(db.projects)
                  && db.projects == old(db.projects)[reply.projectId := Project(user, Strip(text), now)])
            && (!reply.ProjectCreated? ==> reply == ProjectNotCreated && db.projects == old(db.projects)))
    }

    /** What `add_task_title` leaves behind: cancel clears the wizard; an
        empty or over-long title re-asks; otherwise the stripped title is
        stored and the wizard moves on to the deadline. The store is not
        touched. */
    twostate predicate TitleStepDone(user: int, text: string, new reply: Reply)
      reads this, db
    {
      && unchanged(db)
      && (text == CancelLabel ==> reply == Cancelled && sessions == old(sessions)[user := Cleared])
      && (text != CancelLabel && (Strip(text) == [] || |Strip(text)| > TitleLimit) ==>
            reply == (if Strip(text) == [] then EmptyTitle else TitleTooLong) && sessions == old(sessions))
      && (text != CancelLabel && 0 < |Strip(text)| <= TitleLimit ==>
            reply == AskDeadline
            && sessions == old(sessions)[user := Session(WaitingTaskDeadline,
                                                         old(SessionOf(user)).data.(title := Some(Strip(text))))])
    }

    /** The end of the deadline step: one `add_task` write with the stored
        project and title, the wizard cleared whatever the store answered, and
        the reply printing the deadline with `format_date`: the success when
        the task is written and its deadline prints, the error when it is
        written but `format_date` raises. */
    twostate predicate TaskCommitted(user: int, new deadline: Option<Date>, now: int, today: Date, new reply: Reply)
      reads this, db
    {
      var data := old(SessionOf(user)).data;
      data.projectId.Some? && data.title.Some? &&
      var projectId, title := data.projectId.value, data.title.value;
      && sessions == old(sessions)[user := Cleared]
      && db.calls == old(db.calls) + [AddTaskCall(projectId, title, deadline)]
      && db.projects == old(db.projects)
      && (reply == TaskCreated <==> db.connected && projectId in old(db.projects) && !FormatFails(deadline, today))
      && (reply == TaskError <==> db.connected && projectId in old(db.projects) && FormatFails(deadline, today))
      && (reply == TaskCreated || reply == TaskError ==>
            old(db.nextTaskId) !in old(db.tasks)
            && db.tasks == old(db.tasks)[old(db.nextTaskId) := Task(projectId, title, deadline, Active, now, now)])
      && (reply != TaskCreated && reply != TaskError ==> reply == TaskNotCreated && db.tasks == old(db.tasks))
    }

    /** What `add_task_deadline` leaves behind: cancel clears the wizard; a
        refused reply re-asks with nothing changed; an accepted one commits
        the task with the deadline `parse_date` reads. */
    twostate predicate DeadlineStepDone(user: int, text: string, now: int, today: Date, new reply: Reply)
      reads this, db
    {
      && (text == CancelLabel ==>
            reply == Cancelled && sessions == old(sessions)[user := Cleared] && unchanged(db))
      && (text != CancelLabel && !DeadlineAccepted(text) ==>
            reply == BadDeadline && sessions == old(sessions) && unchanged(db))
      && (text != CancelLabel && DeadlineAccepted(text) ==>
            TaskCommitted(user, ParseDate(Strip(text)), now, today, reply))
    }

    constructor (db: Database)
      requires db.Valid()
      ensures Valid() && this.db == db && sessions == map[]
    {
      this.db := db;
      sessions := map[];
    }

    /** `add_project_start`: enter the name step, keeping any stored data. */
    method AddProjectStart(user: int) returns (reply: Reply)
      requires Valid()
      modifies this
      ensures Valid() && reply == AskProjectName
      ensures sessions == old(sessions)[user := Session(WaitingProjectName, old(SessionOf(user)).data)]
    {
      sessions := sessions[user := Session(WaitingProjectName, SessionOf(user).data)];
      reply := AskProjectName;
    }

    /** `add_project_finish`: cancel, re-ask for an empty or over-long name, or
        write the project exactly once and leave the wizard whatever the store
        answers. */
    method AddProjectFinish(user: int, text: string, now: int) returns (reply: Reply)
      requires Valid() && SessionOf(user).state == WaitingProjectName
      modifies this, db
      ensures Valid() && ReplyOf(ProjectNameHandler, reply)
      ensures forall u :: u != user ==> SessionOf(u) == old(SessionOf(u))
      ensures |old(db.calls)| <= |db.calls| <= |old(db.calls)| + 1 && db.calls[..|old(db.calls)|] == old(db.calls)
      ensures NameStepDone(user, text, now, reply)
    {
      if text == CancelLabel {
        sessions := sessions[user := Cleared];
        return Cancelled;
      }
      var name := Strip(text);
      if name == [] {
        return EmptyName;
      }
      if |name| > NameLimit {
        return NameTooLong;
      }
      var id := db.AddProject(user, name, now);
      reply := if id.Some? then ProjectCreated(id.value) else ProjectNotCreated;
      sessions := sessions[user := Cleared];
    }

    /** `add_task_start`, reached through a granted `add_task_{id}` button:
        enter the title step with the project remembered. */
    method StartTaskWizard(user: int, projectId: int, projectName: string)
      requires Valid()
      modifies this
      ensures Valid()
      ensures sessions == old(sessions)[user := Session(WaitingTaskTitle,
                old(SessionOf(user)).data.(projectId := Some(projectId), projectName := Some(projectName)))]
    {
      var data := SessionOf(user).data.(projectId := Some(projectId), projectName := Some(projectName));
      sessions := sessions[user := Session(WaitingTaskTitle, data)];
    }

    /** `add_task_title`: cancel, re-ask for an empty or over-long title, or
        store the stripped title and move on to the deadline. */
    method AddTaskTitle(user: int, text: string) returns (reply: Reply)
      requires Valid() && SessionOf(user).state == WaitingTaskTitle
      modifies this
      ensures Valid() && ReplyOf(TaskTitleHandler, reply)
      ensures forall u :: u != user ==> SessionOf(u) == old(SessionOf(u))
      ensures TitleStepDone(user, text, reply)
    {
      if text == CancelLabel {
        sessions := sessions[user := Cleared];
        return Cancelled;
      }
      var title := Strip(text);
      if title == [] {
        return EmptyTitle;
      }
      if |title| > TitleLimit {
        return TitleTooLong;
      }
      sessions := sessions[user := Session(WaitingTaskDeadline, SessionOf(user).data.(title := Some(title)))];
      reply := AskDeadline;
    }

    /** `add_task_deadline`: cancel, re-ask when the reply is neither a date nor
        one of the five skip words, or write the task exactly once with the
        stored project and title and leave the wizard whatever the store
        answers. A task written with a deadline `format_date` cannot print is
        kept, but the reply is the error. */
    method AddTaskDeadline(user: int, text: string, now: int, today: Date) returns (reply: Reply)
      requires Valid() && SessionOf(user).state == WaitingTaskDeadline
      modifies this, db
      ensures Valid()
      ensures ReplyOf(TaskDeadlineHandler, reply)
      ensures forall u :: u != user ==> SessionOf(u) == old(SessionOf(u))
      ensures |old(db.calls)| <= |db.calls| <= |old(db.calls)| + 1 && db.calls[..|old(db.calls)|] == old(db.calls)
      ensures DeadlineStepDone(user, text, now, today, reply)
    {
      if text == CancelLabel {
        sessions := sessions[user := Cleared];
        return Cancelled;
      }
      var s := Strip(text);
      var deadline := ParseDate(s);
      if !(s in DeadlineSkipWords || deadline.Some?) {
        return BadDeadline;
      }
      reply := CommitTask(user, deadline, now, today);
    }

    /** The end of the deadline step: write the task with the stored project
        and title exactly once and leave the wizard whatever the store answers;
        the reply prints the deadline with `format_date`. */
    method CommitTask(user: int, deadline: Option<Date>, now: int, today: Date) returns (reply: Reply)
      requires Valid() && SessionOf(user).state == WaitingTaskDeadline && DeadlineOk(deadline)
      modifies this, db
      ensures Valid()
      ensures reply in {TaskCreated, TaskNotCreated, TaskError}
      ensures forall u :: u != user ==> SessionOf(u) == old(SessionOf(u))
      ensures |db.calls| == |old(db.calls)| + 1 && db.calls[..|old(db.calls)|] == old(db.calls)
      ensures TaskCommitted(user, deadline, now, today, reply)
    {
      var data := SessionOf(user).data;
      var ok := db.AddTask(data.projectId.value, data.title.value, deadline, now);
      reply := if !ok then TaskNotCreated else if FormatFails(deadline, today) then TaskError else TaskCreated;
      sessions := sessions[user := Cleared];
    }

    /** One text message from `user`: routed by its text and the user's state,
        it changes only that user's session, writes to the store at most once
        and only in a wizard step, and the list handlers show what the store's
        queries promise. */
    method HandleMessage(user: int, text: string, now: int, today: Date) returns (reply: Reply)
      requires Valid() && ValidDate(today)
      modifies this, db
      ensures Valid()
      ensures ReplyOf(RouteMessage(text, old(SessionOf(user)).state), reply)
      ensures forall u :: u != user ==> SessionOf(u) == old(SessionOf(u))
      ensures ReadsOnly(RouteMessage(text, old(SessionOf(user)).state)) ==>
        sessions == old(sessions) && unchanged(db)
      ensures RouteMessage(text, old(SessionOf(user)).state) == NewProjectHandler ==>
        SessionOf(user) == Session(WaitingProjectName, old(SessionOf(user)).data) && unchanged(db)
      ensures RouteMessage(text, old(SessionOf(user)).state) == ProjectNameHandler ==>
        NameStepDone(user, text, now, reply)
      ensures RouteMessage(text, old(SessionOf(user)).state) == TaskTitleHandler ==>
        TitleStepDone(user, text, reply)
      ensures RouteMessage(text, old(SessionOf(user)).state) == TaskDeadlineHandler ==>
        DeadlineStepDone(user, text, now, today, reply)
      ensures RouteMessage(text, old(SessionOf(user)).state) == FallbackHandler ==>
        (reply == UseButtons <==> text != [])
      ensures |old(db.calls)| <= |db.calls| <= |old(db.calls)| + 1 && db.calls[..|old(db.calls)|] == old(db.calls)
      ensures reply.ProjectList? ==>
        multiset(reply.projects) == multiset(SummariesAmong(db.projects, db.tasks, db.projects.Keys, user))
        && SortedBy(reply.projects, NewestFirst)
      ensures reply.UpcomingList? ==>
        var all := UpcomingRows(db.projects, db.tasks, user, UpcomingDays, today);
        && multiset(reply.tasks) <= multiset(all)
        && |reply.tasks| == (if |all| < UpcomingLimit then |all| else UpcomingLimit)
        && SortedBy(reply.tasks, DeadlineOrder)
        && (forall r, c :: r in reply.tasks && c in all && c !in reply.tasks ==> DeadlineOrder(r, c))
        && !UpcomingFails(reply.tasks, today)
      ensures RouteMessage(text, old(SessionOf(user)).state) == UpcomingHandler ==>
        (reply == UpcomingError <==> UpcomingQueryFails(UpcomingRows(db.projects, db.tasks, user, UpcomingDays, today), today))
    {
      var h := RouteMessage(text, SessionOf(user).state);
      if ReadsOnly(h) {
        reply := Answer(h, user, text, today);
      } else {
        reply := Step(h, user, text, now, today);
      }
    }

    /** The handlers that only read: a fixed text, or a list the store's
        queries give. */
    method Answer(h: MessageHandler, user: int, text: string, today: Date) returns (reply: Reply)
      requires Valid() && ValidDate(today) && ReadsOnly(h)
      ensures ReplyOf(h, reply)
      ensures reply.ProjectList? ==>
        multiset(reply.projects) == multiset(SummariesAmong(db.projects, db.tasks, db.projects.Keys, user))
        && SortedBy(reply.projects, NewestFirst)
      ensures reply.UpcomingList? ==>
        var all := UpcomingRows(db.projects, db.tasks, user, UpcomingDays, today);
        && multiset(reply.tasks) <= multiset(all)
        && |reply.tasks| == (if |all| < UpcomingLimit then |all| else UpcomingLimit)
        && SortedBy(reply.tasks, DeadlineOrder)
        && (forall r, c :: r in reply.tasks && c in all && c !in reply.tasks ==> DeadlineOrder(r, c))
        && !UpcomingFails(reply.tasks, today)
      ensures h == UpcomingHandler ==>
        (reply == UpcomingError <==> UpcomingQueryFails(UpcomingRows(db.projects, db.tasks, user, UpcomingDays, today), today))
      ensures h == FallbackHandler ==> (reply == UseButtons <==> text != [])
    {
      match h
      case ProjectsHandler =>
        var rows := db.GetUserProjects(user);
        reply := ProjectList(rows);
      case UpcomingHandler =>
        var rows := db.GetUpcomingTasks(user, UpcomingDays, today);
        var all := UpcomingRows(db.projects, db.tasks, user, UpcomingDays, today);
        assert forall c :: c in all ==> c.task.deadline.Some?;
        UpcomingHeadFails(rows, all, today);
        reply := if UpcomingFails(rows, today) then UpcomingError else UpcomingList(rows);
      case FallbackHandler =>
        reply := if text != [] then UseButtons else Silent;
      case StartHandler =>
        reply := Welcome;
      case HelpHandler =>
        reply := HelpText;
      case RestartHandler =>
        reply := Welcome;
    }

    /** The handlers that move the wizard: "new project" and the three steps.
        Only this user's session changes and the store is written at most once. */
    method Step(h: MessageHandler, user: int, text: string, now: int, today: Date) returns (reply: Reply)
      requires Valid() && !ReadsOnly(h) && FitsState(h, SessionOf(user).state)
      modifies this, db
      ensures Valid() && ReplyOf(h, reply)
      ensures forall u :: u != user ==> SessionOf(u) == old(SessionOf(u))
      ensures h == NewProjectHandler ==>
        SessionOf(user) == Session(WaitingProjectName, old(SessionOf(user)).data) && unchanged(db)
      ensures h == ProjectNameHandler ==> NameStepDone(user, text, now, reply)
      ensures h == TaskTitleHandler ==> TitleStepDone(user, text, reply)
      ensures h == TaskDeadlineHandler ==> DeadlineStepDone(user, text, now, today, reply)
      ensures |old(db.calls)| <= |db.calls| <= |old(db.calls)| + 1 && db.calls[..|old(db.calls)|] == old(db.calls)
    {
      if h == NewProjectHandler {
        reply := AddProjectStart(user);
      } else if h == ProjectNameHandler {
        reply := AddProjectFinish(user, text, now);
      } else if h == TaskTitleHandler {
        reply := AddTaskTitle(user, text);
      } else {
        reply := AddTaskDeadline(user, text, now, today);
      }
    }

    /** One button press from `user`: the decision is the one `Dispatch` makes
        on the tables as they were; a granted toggle, delete confirmation or
        "add task" is the only change, and the refreshed view is `FollowUp`. */
    method HandleCallback(user: int, data: string, now: int, today: Date) returns (d: Decision, view: Option<Decision>)
      requires Valid()
      modifies this, db
      ensures Valid()
      ensures d == Dispatch(data, old(db.projects), old(db.tasks), user, today)
      ensures view == FollowUp(d, db.projects, db.tasks, user, today)
      ensures d.StatusToggled? ==>
        && db.calls == old(db.calls) + [ToggleTaskCall(d.taskId)]
        && d.taskId in old(db.tasks)
        && db.tasks == old(db.tasks)[d.taskId := old(db.tasks)[d.taskId].(
             status := Toggled(old(db.tasks)[d.taskId].status), updatedAt := now)]
        && db.projects == old(db.projects) && sessions == old(sessions)
      ensures d.ProjectDeleted? ==>
        && db.calls == old(db.calls) + [DeleteProjectCall(d.projectId)]
        && db.projects == old(db.projects) - {d.projectId}
        && db.tasks == WithoutProject(old(db.tasks), d.projectId)
        && sessions == old(sessions)
      ensures d.TaskWizardStarted? ==>
        && unchanged(db)
        && sessions == old(sessions)[user := Session(WaitingTaskTitle,
             old(SessionOf(user)).data.(projectId := Some(d.projectId), projectName := Some(d.projectName)))]
      ensures !(d.StatusToggled? || d.ProjectDeleted? || d.TaskWizardStarted?) ==>
        unchanged(db) && sessions == old(sessions)
    {
      var parsed := ParseCallback(data);
      if parsed == Err(NoHandler) {
        return Unhandled, None;
      }
      if parsed.Err? {
        return Failed, None;
      }
      d, view := Press(parsed.value, user, now, today);
    }

    /** The handler of a decoded button press. */
    method Press(c: Callback, user: int, now: int, today: Date) returns (d: Decision, view: Option<Decision>)
      requires Valid()
      modifies this, db
      ensures Valid()
      ensures d == Decide(c, old(db.projects), old(db.tasks), user, today)
      ensures view == FollowUp(d, db.projects, db.tasks, user, today)
      ensures d.StatusToggled? ==>
        && db.calls == old(db.calls) + [ToggleTaskCall(d.taskId)]
        && d.taskId in old(db.tasks)
        && db.tasks == old(db.tasks)[d.taskId := old(db.tasks)[d.taskId].(
             status := Toggled(old(db.tasks)[d.taskId].status), updatedAt := now)]
        && db.projects == old(db.projects) && sessions == old(sessions)
      ensures d.ProjectDeleted? ==>
        && db.calls == old(db.calls) + [DeleteProjectCall(d.projectId)]
        && db.projects == old(db.projects) - {d.projectId}
        && db.tasks == WithoutProject(old(db.tasks), d.projectId)
        && sessions == old(sessions)
      ensures d.TaskWizardStarted? ==>
        && unchanged(db)
        && sessions == old(sessions)[user := Session(WaitingTaskTitle,
             old(SessionOf(user)).data.(projectId := Some(d.projectId), projectName := Some(d.projectName)))]
      ensures !(d.StatusToggled? || d.ProjectDeleted? || d.TaskWizardStarted?) ==>
        unchanged(db) && sessions == old(sessions)
    {
      view := None;
      match c
      case RefreshProjects =>
        d := ProjectsListed(user);
      case ProjectMenu(p) =>
        var project := db.GetProjectById(p);
        if project.None? {
          d := NotFound;
        } else if project.value.userId != user {
          d := Denied;
        } else {
          d := if MenuFails(db.tasks, p, today) then Failed else MenuShown(p);
        }
      case ShowTasks(p) =>
        var project := db.GetProjectById(p);
        d := if project.None? || project.value.userId != user then Denied
             else if ListFails(db.tasks, p, Active, today) then Failed
             else TasksShown(p);
      case AddTaskStart(p) =>
        var project := db.GetProjectById(p);
        if project.None? || project.value.userId != user {
          d := Denied;
        } else {
          StartTaskWizard(user, p, project.value.name);
          d := TaskWizardStarted(p, project.value.name);
        }
      case ToggleTask(t, p) =>
        var task := db.GetTaskById(t);
        var project := db.GetProjectById(p);
        if task.None? {
          d := NotFound;
        } else if project.None? || project.value.userId != user {
          d := Denied;
        } else {
          var ok := db.ToggleTaskStatus(t, now);
          d := if ok then StatusToggled(t, p) else Failed;
          view := Some(Decide(ShowTasks(p), db.projects, db.tasks, user, today));
        }
      case ShowCompleted(p) =>
        var project := db.GetProjectById(p);
        d := if project.None? || project.value.userId != user then Denied
             else if ListFails(db.tasks, p, Completed, today) then Failed
             else CompletedShown(p);
      case DeleteProject(p) =>
        var project := db.GetProjectById(p);
        d := if project.None? || project.value.userId != user then Denied else DeleteAsked(p);
      case ConfirmDelete(p) =>
        var project := db.GetProjectById(p);
        if project.None? {
          d := NotFound;
        } else {
          var ok := db.DeleteProject(p);
          d := if ok then ProjectDeleted(p) else Failed;
          view := Some(ProjectsListed(user));
        }
    }
  }
}
