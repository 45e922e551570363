# Task Planner Bot — a Dafny model of its core

The bot (`main.py`) keeps projects and tasks for Telegram users. This project
models the parts of it that carry logic, and proves what they promise:

- **Dates** (`dates.dfy`): `parse_date` and `format_date`, with the clock's
  `date.today()` passed in. The part of `datetime.strptime` that the nine
  accepted formats use is written out as a field grammar:
  - `%d` and `%m` are one or two digits (a space-padded day as well);
  - `%Y` is four digits;
  - `%y` is two digits, 00–68 meaning 20xx and 69–99 meaning 19xx;
  - the date must exist in the calendar.
- **Text** (`text.dfy`): the Python string operations these use — `strip`,
  `lower`, `split`, `str(int)` and `int(str)`.
- **Store** (`store.dfy`): the `Database` class as two tables keyed by their
  `SERIAL` ids.
  - What each SQL statement does to the rows: fresh ids, truncation to 255 and
    500 characters, the cascade from a project to its tasks, the toggle rule.
  - The three listings, with their filters, their `ORDER BY` and the `LIMIT 20`.
  - The schema's constraints are the class invariant.
- **Sorting** (`sorting.dfy`): an `ORDER BY` stated as "sorted by a total
  preorder", and `LIMIT n` after it.
- **Callbacks** (`callbacks.dfy`): the inline-keyboard side of the bot.
  - The `callback_data` strings the buttons carry.
  - Which handler a string reaches, in decorator order.
  - How that handler reads its ids back with `split("_")[k]` and `int`.
  - The owner check each handler makes, or leaves out.
- **Handlers** (`handlers.dfy`): the conversation side of the bot.
  - The `ProjectStates` wizard, kept per user.
  - The order in which message handlers are tried.
  - The message and callback handlers as methods of a `Bot` class that holds
    the sessions and the store.
  - Every handler states its reply, the new sessions and the store writes it
    makes.

Replies are named by what they tell the user (`EmptyTitle`, `TaskCreated`, …).
Their wording, HTML and keyboards are not modelled.

Where clocks are involved, `now` (a timestamp) and `today` (a date) are
parameters. Every handler that prints a deadline with `format_date` takes
`today`, so the error `format_date` raises on the last day of a month
reaches its reply as in the source: the project menu, the task and
completed-task lists, the upcoming list and the reply to a new task.
Whether the database pool exists is the store's `connected`
flag; without a pool, every method returns its failure value.

## Model

| member | source | states |
|---|---|---|
| Text.Strip | main.py:539 | `strip()` cuts exactly the white space at both ends: what is left starts where the leading white space ends, only white space follows it, and it neither starts nor ends with white space |
| Text.Lower | main.py:539 | `lower()` keeps the length and maps each character on its own: an ASCII capital to its small letter, any character that is neither an ASCII nor a Cyrillic capital nor the Kelvin sign to itself |
| Text.Split | main.py:822 | `split(sep)` gives at least one piece and no piece holds the separator |
| Text.StripIdempotent | main.py:1042-1043 | stripping an already stripped reply changes nothing |
| Text.JoinSplit | main.py:1097 | joining the pieces of `split(sep)` with `sep` gives back the string |
| Text.IntRoundTrip | main.py:822 | `int(str(n)) == n` for every integer, with `str` as `Text.IntToString` and `int` as `Text.ParseInt` |
| Text.IntToStringHasNoSeparator | main.py:653 | `str(n)` holds no `_`, so an id cannot split a payload |
| Dates.DaysInMonth | main.py:531 | every month has 28 to 31 days |
| Dates.DayNumberOrdered | main.py:484-486 | day numbers (`toordinal`) follow calendar order; they are equal exactly for equal dates |
| Dates.NextDayNumber | main.py:531 | the day after a date has the next day number |
| Dates.NextDay | main.py:531 | the day after a date is a valid, later date |
| Dates.DayField | main.py:547-550 | `%d` reads only a day from 1 to 31 out of one or two characters |
| Dates.MonthField | main.py:547-550 | `%m` reads only a month from 1 to 12 out of one or two digits |
| Dates.FullYearField | main.py:547-550 | `%Y` reads only exactly four digits |
| Dates.ShortYearField | main.py:547-550 | `%y` reads two digits as a year from 1969 to 2068 |
| Dates.Strptime | main.py:553-557 | a successful `strptime` gives a date that exists |
| Dates.FirstParse | main.py:552-559 | the loop finds a date exactly when one of the formats parses the text |
| Dates.ParseDate | main.py:537-559 | the result is a real date; the seven keywords, after strip and lower, give `None` |
| Dates.FormatsExclusive | main.py:546-550 | at most one of the nine formats parses any string, so their order never decides the result |
| Dates.ParseDateByFormat | main.py:537-559 | past the keyword test, `parse_date` gives the date of whichever format parses the text |
| Dates.Pad2 | main.py:535 | `%d`/`%m` output is two digits worth the number |
| Dates.StrptimeRender | main.py:553-555 | `strptime(d.strftime(f), f) == d` for each of the nine formats, with `strftime` as `Dates.Render` (four-digit years; 1969–2068 for `%y`) |
| Dates.RenderPlain | main.py:539-542 | a rendered date is unchanged by strip and lower and is no keyword |
| Dates.ParseDateRender | main.py:537-559 | `parse_date(d.strftime(f)) == d` for every one of the nine formats |
| Dates.ParseDateRenderDayFirst | main.py:535 | what `format_date` prints for a date with a four-digit year (`Dates.RenderDayFirst`, `%d.%m.%Y`) reads back as that date |
| Dates.FormatDate | main.py:523-535 | raises exactly when the date is not today and today is the last day of its month; "no deadline" exactly for `None`; "today" exactly for today; "tomorrow" exactly for the next day when today does not end a month; `%d.%m.%Y` for every other date |
| Dates.FormatDateAgrees | main.py:523-535 | when today does not end a month, `format_date` prints what `Dates.FormatDateFixed` prints |
| Dates.FormatDateFailsAtMonthEnd | main.py:531 | on 31 January, `format_date(1 February)` raises although 1 February is tomorrow |
| Dates.RenderIsNotLabel | main.py:535 | a rendered date is never one of the three labels |
| Dates.FormatDateFixed | main.py:523-535 | without-deadline, today and tomorrow labels exactly for `None`, today and the next day; any other date is rendered |
| Sorting.Insert | main.py:353-359 | inserting a row adds exactly that row |
| Sorting.InsertSorted | main.py:353-359 | inserting into a listing sorted by a total preorder keeps it sorted |
| Sorting.TakeLeast | main.py:486-488 | the first `n` rows of an ordered listing are rows of it, stay ordered, and none left out comes before one kept |
| Store.Truncate | main.py:226 | `s[:n]` is the first `min(len(s), n)` characters of `s` |
| Store.Toggled | main.py:417-420 | 'active' becomes 'completed', every other status 'active' |
| Store.WithoutProject | main.py:154 | the cascade removes exactly the project's tasks and keeps every other row as it was |
| Store.TaskListOrderTotal | main.py:353-359 | dated before undated, deadline ascending, newest first is a total preorder |
| Store.DeadlineOrderTotal | main.py:486 | `ORDER BY t.deadline ASC` is a total preorder |
| Store.NewestFirstTotal | main.py:249 | `ORDER BY p.created_at DESC` is a total preorder |
| Store.StatsCompletedAreNotActive | main.py:561-571 | `format_project_stats` (`Store.FormatProjectStats`) on a summary row reports its total and active counts, and as "completed" every task that is not active, archived ones included |
| Store.Database.constructor | main.py:96-99 | a new store is empty and keeps the schema invariant |
| Store.Database.AddProject | main.py:214-233 | one new row under a fresh id with the name cut to 255 characters; `None` and no row without a pool |
| Store.Database.GetProjectById | main.py:262-279 | the row with that id, `None` exactly when there is none |
| Store.Database.GetTaskById | main.py:387-406 | the task with that id, `None` exactly when there is none |
| Store.Database.DeleteProject | main.py:281-298 | the project and all its tasks go; `True` with a pool even for a missing id |
| Store.Database.UpdateProjectName | main.py:300-317 | only that project's name changes, cut to 255 characters; a missing id changes nothing |
| Store.Database.AddTask | main.py:321-339 | one new 'active' task under a fresh id with the title cut to 500 characters; fails with no row for a missing project |
| Store.Database.ToggleTaskStatus | main.py:408-429 | only that task's status toggles and `updated_at` is set; a missing id changes nothing yet gives `True` |
| Store.Database.DeleteTask | main.py:431-447 | only that task goes; `True` with a pool |
| Store.Database.UpdateTaskDeadline | main.py:449-467 | only that task's deadline and `updated_at` change |
| Store.Database.GetProjectTasks | main.py:341-385 | exactly the project's tasks (active ones only unless asked), each once, in the query's order |
| Store.Database.UpcomingInOrder | main.py:469-486 | exactly the user's active tasks due within the window, each once, earliest first |
| Store.Database.GetUpcomingTasks | main.py:469-496 | at most 20 of those rows, earliest first; any left out is due no earlier than any listed |
| Store.Database.GetUserProjects | main.py:235-260 | one summary per project of the user with its task and active-task counts, newest first |
| Callbacks.FirstAccepting | main.py:812-1217 | the handler picked is the first whose filter accepts the data |
| Callbacks.DecodeFor | main.py:818-1217 | a handler decodes only a press of its own kind |
| Callbacks.ParseCallback | main.py:812-1217 | no handler exactly when no filter accepts the data; a decoded press was accepted by its own handler's filter |
| Callbacks.RouteEncoded | main.py:812-1217 | the data of every button the bot builds reaches the handler for that button |
| Callbacks.SplitToggle | main.py:1097 | `toggle_task_{t}_{p}` splits into `toggle`, `task`, `t` and `p` |
| Callbacks.IdsOfToggle | main.py:1097-1099 | pieces 2 and 3 of a toggle payload read back as the task and project ids |
| Callbacks.DecodeEncoded | main.py:818-1217 | the handler a button reaches reads the button's own ids back |
| Callbacks.ParseEncode | main.py:652-1193 | reading back the data the keyboards build (`Callbacks.Encode`) gives the button that was built |
| Callbacks.Decide | main.py:818-1240 | the five owner-checked handlers refuse exactly a caller who does not own the project; `confirm_delete_` refuses only a missing project; `toggle_task_` refuses a missing task or a payload project the caller does not own; `refresh_projects` lists the caller's projects; a granted press gives its view, wizard start, toggle, delete prompt or deletion; for an owner, the project menu, the task list and the completed list end in the error reply exactly when `format_date` raises for a deadline they print, which happens only on the last day of a month |
| Callbacks.ListFailsOnFormatError | main.py:910-953 | a task or completed-task list fails exactly when `Dates.FormatDate` gives an error for one of its tasks' deadlines |
| Callbacks.Dispatch | main.py:812-1240 | a query is unhandled exactly when no filter accepts its data |
| Callbacks.DispatchEncoded | main.py:812-1240 | pressing a button the bot built leads to the decision for that button |
| Callbacks.ForeignProjectRefused | main.py:825-834 | a project of another user is refused by every owner-checked handler |
| Callbacks.ConfirmDeleteSkipsOwnerCheck | main.py:1213-1224 | for another user's project the delete button is refused but its confirmation deletes |
| Callbacks.ToggleChecksNamedProjectOnly | main.py:1101-1113 | a task in another user's project is toggled when the payload names a project the caller owns |
| Callbacks.ToggleFollowUpShowsTasks | main.py:1119 | after a granted toggle the refreshed list passes the owner check again and is the task list, or the error reply exactly when a listed deadline cannot be printed |
| Callbacks.DeleteFollowUpListsCaller | main.py:1233 | after a deletion the refreshed view is the caller's projects, as `refresh_projects` gives them |
| Callbacks.ToggleRefreshFails | main.py:1119 | as written, the refresh after every toggle reads `int("task")` and ends in the error reply |
| Callbacks.RefreshListsKeyboardAuthor | main.py:812-815 | as written, `refresh_projects` lists the projects of the keyboard message's author; when that is the bot, the list is not the caller's and shows none of the caller's projects |
| Callbacks.DeleteRefreshListsKeyboardAuthor | main.py:1233 | as written, the view after a deletion lists the bot's projects, not the caller's |
| Handlers.RouteMessage | main.py:575-1245 | the project-name, title and deadline handlers are reached only in their own state |
| Handlers.NotACommand | main.py:591-592 | text starting with neither white space nor `/` is no command |
| Handlers.MenuButtonsInEveryState | main.py:591-766 | help, restart, projects and "new project" are buttons in every state; the upcoming button and `/tasks` become the name in the name step; cancel reaches only a step |
| Handlers.UpcomingButton | main.py:705-766 | the upcoming-tasks button is taken as the project name in the name step |
| Handlers.TasksCommand | main.py:705-766 | `/tasks` is taken as the project name in the name step |
| Handlers.CancelButton | main.py:708 | the cancel button reaches the handler of the user's state |
| Handlers.SkipWordsMeanNoDeadline | main.py:1042-1046 | every word the deadline step accepts is one `parse_date` reads as "no deadline" |
| Handlers.RefusedNoDeadlineReply | main.py:1042-1046 | a reply `parse_date` reads as "no deadline" that is not one of the step's five words is refused |
| Handlers.NoneIsRefused | main.py:542 | `none` is "no deadline" to `parse_date` but refused by the step |
| Handlers.NullIsRefused | main.py:542 | `null` is "no deadline" to `parse_date` but refused by the step |
| Handlers.UpperNoIsRefused | main.py:1046 | `NO` lower-cases to the keyword `no` but is not among the step's words |
| Handlers.ParseDateStripped | main.py:1042-1043 | the step's strip before `parse_date` does not change its result |
| Handlers.DeadlineAcceptedRule | main.py:1042-1046 | read through `parse_date` of the reply itself: a skip word goes on without a deadline, any other word `parse_date` reads as "no deadline" is refused, a reply that goes on without a deadline is a skip word, and a date goes on |
| Handlers.UpcomingHeadFails | main.py:783-806 | printing the 20 earliest upcoming tasks fails exactly when today ends a month and either a selected task is due before today, or one is due later while fewer than 20 are due today |
| Handlers.Bot.constructor | main.py:80-81 | a new bot holds the given store and no user has a wizard state |
| Handlers.Bot.AddProjectStart | main.py:689-703 | enters the name step and keeps the stored data |
| Handlers.Bot.AddProjectFinish | main.py:705-763 | cancel clears; an empty or over-255 name re-asks with nothing changed; otherwise one `add_project` write, then the session is cleared whatever the store answered |
| Handlers.Bot.StartTaskWizard | main.py:968-974 | enters the title step with the project id and name stored |
| Handlers.Bot.AddTaskTitle | main.py:992-1030 | cancel clears; an empty or over-500 title re-asks; otherwise stores the stripped title and moves to the deadline step; no other session changes |
| Handlers.Bot.AddTaskDeadline | main.py:1032-1091 | cancel clears; a refused reply re-asks with nothing changed; otherwise one `add_task` write with the stored project and title, then the session is cleared; a written task whose deadline `format_date` cannot print gets the error reply |
| Handlers.Bot.CommitTask | main.py:1053-1091 | one `add_task` write with the stored project and title; the task is written exactly when connected and the project exists; the reply is the success exactly when it is written and `format_date` prints its deadline, and the error when it is written but `format_date` raises |
| Handlers.Bot.HandleMessage | main.py:575-1250 | the routed handler's reply; only this user's session changes; at most one write, none for a read-only handler; the lists are what the store's queries promise, down to which rows the `LIMIT` keeps; the upcoming list is the error reply exactly as `Handlers.UpcomingHeadFails` says; a message routed to a wizard step leaves exactly the session and store that step leaves (for a valid project name: one `add_project` write of the stripped name and the wizard cleared); the fallback answers exactly non-empty text |
| Handlers.Bot.Answer | main.py:575-810 | the read-only handlers change nothing; their lists are what the store's queries promise, down to which rows the `LIMIT` keeps; the upcoming list is the error reply exactly when printing it fails; the fallback answers exactly non-empty text |
| Handlers.Bot.Step | main.py:689-1091 | the wizard handlers change only this user's session and write at most once; the name, title and deadline steps leave exactly the session and store their handlers leave (`NameStepDone`, `TitleStepDone`, `DeadlineStepDone`) |
| Handlers.Bot.HandleCallback | main.py:812-1240 | the decision is `Dispatch` on the tables as they were and today's date; only a granted toggle, deletion or "add task" changes anything; the refreshed view is the corrected one |
| Handlers.Bot.Press | main.py:818-1240 | the decision is `Decide` on the tables as they were and today's date, with exactly the changes listed for `HandleCallback` |

## Findings

| source | as written | input that shows it | evidently intended | confidence | as-written member | corrected member |
|---|---|---|---|---|---|---|
| main.py:531 | "tomorrow" is tested with `today.replace(day=today.day + 1)`, which raises `ValueError` on the last day of a month | today 2024-01-31, deadline 2024-02-01 | compare with `today + timedelta(days=1)` | high, not executed | Dates.FormatDateFailsAtMonthEnd | Dates.FormatDateFixed |
| main.py:1119 | after a toggle, `show_tasks(callback)` decodes the toggle's own data at index 1, i.e. `int("task")`, which raises | any granted press of `toggle_task_{t}_{p}` | show the task list of project `p` | high, not executed | Callbacks.ToggleRefreshFails | Callbacks.ToggleFollowUpShowsTasks |
| main.py:815 | `show_projects(callback.message)` lists the projects of `callback.message.from_user`, the bot that sent the keyboard (also after a deletion, main.py:1233) | any press of `refresh_projects` by a user other than the bot | list the projects of `callback.from_user` | medium, not executed | Callbacks.RefreshListsKeyboardAuthor | Callbacks.DeleteFollowUpListsCaller |

The rest of the model uses the corrected behaviour.
- The view `Handlers.Bot.HandleCallback` promises after a change is the corrected one (`Callbacks.ToggleFollowUpShowsTasks`, `Callbacks.DeleteFollowUpListsCaller`).
- `Callbacks.Decide` lists the caller's own projects for `refresh_projects`.
- `Dates.FormatDate` keeps the error result, as written, and every handler that prints a deadline passes that error on to its reply.

## Left out

- The Telegram side is not modelled: the text and HTML of replies, keyboards, `callback.answer` toasts, and `edit_text` versus `answer`. A reply or decision names only what the user is told.
- Non-text messages are not modelled, so the `if message.text` test of the fallback handler is reduced to empty versus non-empty text.
- Commands are recognised as the first word being exactly `/name`. The `/name@botname` form and `CommandStart`'s deep-link arguments are not modelled.
- The webhook server, the health, keep-alive and test endpoints, and `on_startup`, `on_shutdown` and `main`. These are process and network I/O.
- `Database.connect`'s retry loop, `init_db`, `close` and `health_check`. These are network I/O; the outcome of connecting is the store's `connected` flag.
- Driver errors other than the foreign-key failure of `add_task` are not modelled. Such an error makes a method return its failure value, which the model gives only without a pool.
- Handlers run one at a time. aiogram's concurrent handling, and the `asyncio.sleep(1)` before the list is refreshed after a deletion, are not modelled.
- Timestamps are integers passed in as `now`, and `date.today()` is passed in as `today`. The same `today` also stands for Postgres's `CURRENT_DATE` in `get_upcoming_tasks` (main.py:486), so the model assumes the database and the bot agree on the date; `Handlers.UpcomingHeadFails` and the upcoming clauses of `Handlers.Bot.Answer` and `Handlers.Bot.HandleMessage` rest on that.
- `project_menu`'s statistics and its list of the next three deadlines are not modelled; only its decision is. The same holds for the lists shown by `show_tasks` and `show_completed_tasks`.
- The `message_id` and `chat_id` that `add_task_start` stores are not modelled. No handler reads them back.
- Text.Lower: lower-cases ASCII, Cyrillic `А`–`Я`, `Ѐ`–`Џ` and the Kelvin sign only, which covers every keyword and digit `parse_date` compares. Python lower-cases every cased character.
- Text.ParseInt: accepts ASCII digits only. Python's `int` also takes other Unicode decimal digits and `_` between digits; neither can occur in a piece of `split("_")` of a payload the bot builds.
- Dates.Strptime: `\d` is taken as an ASCII digit. Python's `strptime` also matches other Unicode decimal digits.
- Dates.ParseDateRender: proved for four-digit years only (1969–2068 for `%y`). Below year 1000, `%Y` output is not four digits and does not parse back.
- Handlers.UpperNoIsRefused: states the premises of `Handlers.RefusedNoDeadlineReply` for `NO`, which gives the conclusion for it, rather than restating `parse_date("NO") is None`.
- `Нет` and other case variants of the step's words are not exhibited one by one. Each falls under `Handlers.RefusedNoDeadlineReply` once its lower-cased form is shown to be a keyword.
- Callbacks.RouteEncoded: states that the first filter accepting a button's data is that button's own, which is what first-match dispatch uses. It does not state that no later filter accepts the data too.
- Handlers.Bot.Answer: the help and welcome replies are named, not their text.
- Callbacks.MenuFails: the project menu's failure is stated by the rule `Dates.FirstDeadlinesFail` on the project's active deadlines (some earlier than today, or some later while fewer than three are due today). The menu's sorting and its list of three are not modelled; for the upcoming list the same rule is proved against the listed rows (`Handlers.UpcomingHeadFails`).
- Wizard sessions are kept per user. aiogram keys them by chat and user, so the same user in two chats has two wizards in the bot but one in the model.
