# Task reminder dashboard — a Dafny model of its task-list logic

The dashboard keeps a list of task records (name, description, due date,
priority, status Pending or Completed) in its session, mirrored in a task
file. Users add tasks and mark them completed. A reminder check sorts the
Pending tasks into overdue and due-today by comparing each due date with
today's date. It then reports exactly one outcome: overdue first, else
due-today, else all clear. Only the first two send a desktop notification.

This project models that logic in `app.py` and proves what it promises:

- `tasks.dfy` (module `Tasks`): the record, dates and their order, the name column.
- `seqs.dfy` (module `Seqs`): order-preserving filtering. This is the shape of
  the reminder loop's two lists and of the Pending-name comprehension.
- `reminder.dfy` (module `Reminder`): `check_and_alert`. The loop is
  `CheckAndAlert`, proved against the pure `Evaluate`. The alert is a value.
  The notification is a returned `Option<Notice>` with a title and a message.
- `session.dfy` (module `Session`): the session list as class `TaskList`.
  Its field `tasks` is the in-memory list. Its field `store` is the task
  file's content, abstracted as `Option<seq<Task>>`, where `None` means
  the file does not exist. `Valid()` says that reading the file back gives
  the in-memory list. This is an assumption about the file format (see
  "## Left out"), not something the model proves about it: adding a task and
  marking one completed keep it only because each saves the whole list.
  The module also has the Pending-name list and the pure description
  `MarkFirst` of the mark-completed loop.
- `scenarios.dfy` (module `Scenarios`): worked cases for one task, checked on
  2024-01-05, plus a client that adds a task to a fresh store.
- `wrappers.dfy`: the `Option` type.

Dates are `(year, month, day)` triples compared lexicographically. For valid
calendar dates this is the order Python's `date` uses. `today` is a
parameter. Two more facts about the code that the model keeps:

- An empty task name is accepted, as at app.py:60-73.
- `Status` is two-valued. Any value other than `"Pending"` is skipped at
  app.py:41, so the model's `Completed` stands for every such value.

## Model

| member | source | states |
|---|---|---|
| `Tasks.DateTrichotomy` | app.py:42-44 | any two due dates are equal or one is earlier, never both, so the `<` / `==` / later branches of the check are exhaustive and exclusive |
| `Reminder.ClassOf` | app.py:41-45 | a Completed task is skipped; a Pending one is overdue iff due before today, due-today iff due today, later iff due after today |
| `Reminder.CollectedMember` | app.py:39-45 | a record is in the overdue list iff it is in the list, Pending and due before today; in the due-today list iff Pending and due today; Completed records are in neither; no record is in both |
| `Reminder.CollectedInOrder` | app.py:39-45 | both collected lists, and their name lists, are subsequences of the task list (list order kept), and each holds every matching record as many times as the task list does |
| `Reminder.ClassPartition` | app.py:39-45 | overdue + due-today + later + skipped counts add up to the list length: each record takes exactly one branch |
| `Reminder.CollectStep` | app.py:42-45 | one loop iteration appends the task's name to the overdue list, the due-today list, or neither, as its class says |
| `Reminder.JoinSnoc` | app.py:48-52 | joining with `", "` one more name at the end adds the separator and that name (just the name for the first one) |
| `Reminder.Join` | app.py:48-52 | `', '.join`: empty for no names; otherwise the result starts with the first name and ends with the last |
| `Reminder.Decide` | app.py:47-56 | overdue alert iff the overdue list is non-empty; due-today alert iff overdue is empty and due-today is not; all clear iff both are empty |
| `Reminder.NoticeFor` | app.py:47-56 | a notification exactly for the two warnings, none for all clear; it carries the alert's message and the title for its kind |
| `Reminder.Evaluate` | app.py:36-56 | the alert for a task list and a date: overdue iff some record is collected as overdue; due-today iff none is overdue and some is due today; all clear iff neither list has a record |
| `Reminder.OverdueDominates` | app.py:47-50 | one overdue Pending task forces the overdue alert `"Overdue Tasks: "` + the overdue names joined by `", "`, whatever is due today |
| `Reminder.DueTodayWhenNothingOverdue` | app.py:51-54 | with no overdue Pending task and one due today, the alert is `"Tasks Due Today: "` + the due-today names joined by `", "` |
| `Reminder.AllClearIff` | app.py:55-56 | all clear iff every Pending task is due after today |
| `Reminder.NotifiesIff` | app.py:47-56 | a notification is produced iff some Pending task is due today or earlier |
| `Reminder.CheckAndAlert` | app.py:34-56 | the loop's alert equals `Evaluate` of the list and date, and its notification is the one `NoticeFor` gives for that alert |
| `Session.PendingNames` | app.py:84 | no longer than the task list; every name in order when all records are Pending; empty when all are Completed |
| `Session.PendingNamesCons` | app.py:84 | one more record in front adds its name at the front exactly when it is Pending, which fixes how often each name is offered |
| `Session.PendingNamesSpec` | app.py:84 | a name is offered iff some Pending record carries it; the offered names are a subsequence of the task names |
| `Session.AddExtendsPendingNames` | app.py:66-73 | adding a Pending record adds its name at the end of the Pending names |
| `Session.MarkFirst` | app.py:88-93 | the list after the as-written marking has the same length and the same name in every position |
| `Session.MarkFirstAt` | app.py:88-93 | when record i is the first named `name`, marking sets record i's status to Completed and changes nothing else, including later duplicates |
| `Session.MarkFirstNoMatch` | app.py:88-93 | a name no record carries (such as the placeholder "Select") leaves the list unchanged |
| `Session.MarkFirstMonotonic` | app.py:88-93 | marking changes no field but status and never turns Completed into Pending |
| `Session.MarkFirstOnCompletedIsNoop` | app.py:88-93 | if the first record with the name is already Completed, marking changes nothing |
| `Session.StuckDuplicate` | app.py:84-93 | a list with a Completed then a Pending "Pay rent": the name is offered, but marking it changes neither the list nor the offered names |
| `Session.MarkFirstPending` | app.py:88-93 | the corrected marking (first Pending record with the name) keeps the length and every name |
| `Session.MarkFirstPendingAt` | app.py:88-93 | when record i is the first record that has the name and is Pending, the corrected marking sets record i's status to Completed and changes nothing else |
| `Session.MarkFirstPendingNoMatch` | app.py:88-93 | when no Pending record has the name, the corrected marking leaves the list unchanged |
| `Session.MarkFirstPendingCompletesOne` | app.py:84-93 | corrected marking of an offered name removes exactly one copy of that name from the Pending names and keeps all others |
| `Session.MarkFirstPendingMonotonic` | app.py:88-93 | corrected marking changes no field but status and never turns Completed into Pending |
| `Session.Load` | app.py:8-12 | a missing file reads as the empty list; an existing one as its content |
| `Session.TaskList.Open` | app.py:29-31 | the session list is the file's content, or empty when the file is missing; the file invariant holds |
| `Session.TaskList.Add` | app.py:65-74 | the list grows by one record at the end: the given name, description, date and priority, status Pending; earlier records unchanged; the file then holds the new list |
| `Session.TaskList.MarkCompleted` | app.py:87-93 | the scan-and-break loop leaves the list equal to `MarkFirst` of the old list; it saves only if some record matched; the file invariant holds |
| `Scenarios.ScenarioOverdue` | app.py:39-50 | Pending "Pay rent" due 2024-01-01, checked on 2024-01-05: overdue ["Pay rent"], due-today [], overdue alert and notification |
| `Scenarios.ScenarioDueToday` | app.py:39-54 | due 2024-01-05, checked the same day: due-today ["Pay rent"], overdue [], due-today alert |
| `Scenarios.ScenarioCompleted` | app.py:39-56 | Completed, due 2024-01-01, checked 2024-01-05: both lists empty, all clear, no notification |
| `Scenarios.ScenarioEmpty` | app.py:47-56 | an empty list is all clear on any date, with no notification |
| `Scenarios.ScenarioAddToFreshStore` | app.py:65-74 | adding "Groceries" to a session opened on a missing file: the list, and the file read back, hold just the new Pending task, and "Groceries" is the one offered name |

## Findings

| source | as written | input that shows it | evidently intended | confidence | as-written member | corrected member |
|---|---|---|---|---|---|---|
| app.py:88-93 | "Mark Completed" picks the first record whose name matches, whatever its status | records "Pay rent" (Completed), then "Pay rent" (Pending); choose "Pay rent", which the box offers because the second record is Pending | complete the first Pending record with that name, so the offered task really leaves the Pending list | medium, not executed | `Session.StuckDuplicate` | `Session.MarkFirstPendingCompletesOne` |

In the as-written case the Completed record takes the mark and nothing
changes. The Pending duplicate can then never be completed through the box,
yet the success message is shown. `Session.MarkFirstOnCompletedIsNoop`
states this in general. The corrected definition is `Session.MarkFirstPending`;
`Session.MarkFirstPendingAt` and `Session.MarkFirstPendingNoMatch` give its
value exactly.
`Session.TaskList.MarkCompleted` follows the code as written, because that is
the behaviour the dashboard has.

## Left out

- CSV reading and writing (`load_tasks`, `save_tasks`, app.py:8-16): pandas file I/O. The file is abstracted as `store: Option<seq<Task>>`, and `TaskList.Valid()` assumes that reading it back gives the saved list.
- Known losses of that round trip that the model does not capture: `pd.read_csv` at app.py:10 re-infers types, so an empty name or description and NA-like names (`"NA"`, `"None"`, `"null"`, `"nan"`) come back as NaN, and a Task column whose values all look numeric comes back as numbers. After such a reload the `', '.join` at app.py:48/52 raises on a non-string name, and the name comparison at app.py:89 never matches a NaN name. Names in the model are always strings.
- Due-date parsing with `pd.to_datetime` (app.py:40), including the failure on a malformed date, which also fires for Completed tasks: dates are taken as already parsed.
- The desktop notification call through `plyer` (app.py:18-23), a foreign OS call: it is returned as a `Notice` value. Its 8-second timeout is not modelled.
- `date.today()` (app.py:35), a wall-clock read: `today` is a parameter.
- The Streamlit page and widgets, the `st.error` / `st.warning` / `st.success` / `st.info` status lines, and the table display (app.py:26-29, 59-63, 75-83, 85-86, 91, 94-98, 101-106): presentation only.
- The reminder loop `while True` with `time.sleep` (app.py:105-109): it never terminates and only calls the check again and again. One pass is `CheckAndAlert`.
- Records as mutable Python dicts: the list holds values, and marking replaces one element. No record has another alias in the code, so nothing observable is lost.
