/**
 * The reminder evaluator: sorts the Pending tasks of the list into overdue
 * and due-today by comparing each due date with today's date, then chooses
 * one alert, with overdue taking precedence over due-today, and the
 * desktop notification that goes with it.
 */
module Reminder {
  import opened Wrappers
  import opened Seqs
  import opened Tasks

  /** Where one task falls when the list is checked against a date. */
  datatype Class = Overdue | DueToday | Later | Skipped

  /** The branch a task takes in the checking loop: only Pending tasks are
      compared with today, and a task takes at most one branch. */
  function ClassOf(t: Task, today: Date): (c: Class)
    ensures c == Skipped <==> t.status == Completed
    ensures c == Overdue <==> t.status == Pending && Before(t.due, today)
    ensures c == DueToday <==> t.status == Pending && t.due == today
    ensures c == Later <==> t.status == Pending && Before(today, t.due)
  {
    DateTrichotomy(t.due, today);
    match t.status
    case Completed => Skipped
    case Pending =>
      if Before(t.due, today) then Overdue
      else if t.due == today then DueToday
      else Later
  }

  /** The test "falls in class c", as a value that Filter can take. */
  function Classified(today: Date, c: Class): Task -> bool {
    t => ClassOf(t, today) == c
  }

  /** The tasks whose names go into the overdue list, in list order. */
  function OverdueTasks(ts: seq<Task>, today: Date): seq<Task> {
    Filter(ts, Classified(today, Overdue))
  }

  /** The tasks whose names go into the due-today list, in list order. */
  function DueTodayTasks(ts: seq<Task>, today: Date): seq<Task> {
    Filter(ts, Classified(today, DueToday))
  }

  /** A task is collected as overdue exactly when it is in the list, Pending and
      due before today; as due today exactly when it is in the list, Pending and
      due today. A Completed task is never collected, and no task is in both. */
  lemma CollectedMember(ts: seq<Task>, today: Date, t: Task)
    ensures t in OverdueTasks(ts, today) <==> t in ts && t.status == Pending && Before(t.due, today)
    ensures t in DueTodayTasks(ts, today) <==> t in ts && t.status == Pending && t.due == today
    ensures t.status == Completed ==> t !in OverdueTasks(ts, today) && t !in DueTodayTasks(ts, today)
    ensures !(t in OverdueTasks(ts, today) && t in DueTodayTasks(ts, today))
  {
    FilterMember(ts, Classified(today, Overdue), t);
    FilterMember(ts, Classified(today, DueToday), t);
  }

  /** Each collected list holds every matching record as often as the task list
      does, and in the task list's order. */
  lemma CollectedInOrder(ts: seq<Task>, today: Date, t: Task)
    ensures IsSubsequence(OverdueTasks(ts, today), ts)
    ensures IsSubsequence(DueTodayTasks(ts, today), ts)
    ensures IsSubsequence(Names(OverdueTasks(ts, today)), Names(ts))
    ensures IsSubsequence(Names(DueTodayTasks(ts, today)), Names(ts))
    ensures multiset(OverdueTasks(ts, today))[t] ==
              if t.status == Pending && Before(t.due, today) then multiset(ts)[t] else 0
    ensures multiset(DueTodayTasks(ts, today))[t] ==
              if t.status == Pending && t.due == today then multiset(ts)[t] else 0
  {
    FilterSubsequence(ts, Classified(today, Overdue));
    FilterSubsequence(ts, Classified(today, DueToday));
    NamesSubsequence(OverdueTasks(ts, today), ts);
    NamesSubsequence(DueTodayTasks(ts, today), ts);
    FilterCount(ts, Classified(today, Overdue), t);
    FilterCount(ts, Classified(today, DueToday), t);
  }

  /** Every record of the list lands in exactly one of the four classes. */
  lemma {:induction false} ClassPartition(ts: seq<Task>, today: Date)
    ensures |OverdueTasks(ts, today)| + |DueTodayTasks(ts, today)|
            + |Filter(ts, Classified(today, Later))| + |Filter(ts, Classified(today, Skipped))| == |ts|
  {
    if ts != [] {
      ClassPartition(ts[1..], today);
    }
  }

  /** Python's `sep.join(xs)`: the strings of `xs` with `sep` between neighbours. */
  function Join(xs: seq<string>, sep: string): (r: string)
    ensures xs == [] ==> r == ""
    ensures xs != [] ==> |xs[0]| <= |r| && r[..|xs[0]|] == xs[0]
    ensures xs != [] ==> |xs[|xs| - 1]| <= |r| && r[|r| - |xs[|xs| - 1]|..] == xs[|xs| - 1]
  {
    if |xs| == 0 then ""
    else if |xs| == 1 then xs[0]
    else xs[0] + sep + Join(xs[1..], sep)
  }

  /** Joining one more string at the end adds the separator and that string. */
  lemma {:induction false} JoinSnoc(xs: seq<string>, y: string, sep: string)
    ensures Join(xs + [y], sep) == if xs == [] then y else Join(xs, sep) + sep + y
  {
    if |xs| == 1 {
      assert xs + [y] == [xs[0], y];
    } else if |xs| > 1 {
      assert (xs + [y])[1..] == xs[1..] + [y];
      JoinSnoc(xs[1..], y, sep);
    }
  }

  const Separator: string := ", "
  const OverduePrefix: string := "Overdue Tasks: "
  const DueTodayPrefix: string := "Tasks Due Today: "
  const OverdueTitle: string := "\U{26A0}\U{FE0F} Task Reminder Alert"
  const DueTodayTitle: string := "\U{1F4C5} Task Reminder Alert"

  /** The outcome of one check: at most one message is ever reported. */
  datatype Alert = OverdueAlert(message: string) | DueTodayAlert(message: string) | AllClear

  /** A desktop notification: its title and its message. */
  datatype Notice = Notice(title: string, message: string)

  /** The alert chosen from the two collected name lists. */
  function Decide(overdue: seq<string>, dueToday: seq<string>): (a: Alert)
    ensures a.OverdueAlert? <==> overdue != []
    ensures a.DueTodayAlert? <==> overdue == [] && dueToday != []
    ensures a.AllClear? <==> overdue == [] && dueToday == []
  {
    if overdue != [] then OverdueAlert(OverduePrefix + Join(overdue, Separator))
    else if dueToday != [] then DueTodayAlert(DueTodayPrefix + Join(dueToday, Separator))
    else AllClear
  }

  /** The notification sent for an alert: one for either warning, none for all-clear,
      always carrying the alert's own message. */
  function NoticeFor(a: Alert): (n: Option<Notice>)
    ensures n.Some? <==> !a.AllClear?
    ensures n.Some? ==> n.value.message == a.message
    ensures n.Some? ==> n.value.title == if a.OverdueAlert? then OverdueTitle else DueTodayTitle
  {
    match a
    case OverdueAlert(msg) => Some(Notice(OverdueTitle, msg))
    case DueTodayAlert(msg) => Some(Notice(DueTodayTitle, msg))
    case AllClear => None
  }

  /** The alert for a whole task list on a given date. */
  function Evaluate(ts: seq<Task>, today: Date): (a: Alert)
    ensures a.OverdueAlert? <==> OverdueTasks(ts, today) != []
    ensures a.DueTodayAlert? <==> OverdueTasks(ts, today) == [] && DueTodayTasks(ts, today) != []
    ensures a.AllClear? <==> OverdueTasks(ts, today) == [] && DueTodayTasks(ts, today) == []
  {
    Decide(Names(OverdueTasks(ts, today)), Names(DueTodayTasks(ts, today)))
  }

  /** One overdue Pending task is enough for the overdue alert, whatever is due
      today; its message names every overdue task in list order. */
  lemma OverdueDominates(ts: seq<Task>, today: Date, i: nat)
    requires i < |ts| && ts[i].status == Pending && Before(ts[i].due, today)
    ensures Evaluate(ts, today) ==
              OverdueAlert(OverduePrefix + Join(Names(OverdueTasks(ts, today)), Separator))
  {
    CollectedMember(ts, today, ts[i]);
  }

  /** Without an overdue task, one task due today yields the due-today alert,
      naming every such task in list order. */
  lemma DueTodayWhenNothingOverdue(ts: seq<Task>, today: Date, i: nat)
    requires forall j :: 0 <= j < |ts| && ts[j].status == Pending ==> !Before(ts[j].due, today)
    requires i < |ts| && ts[i].status == Pending && ts[i].due == today
    ensures Evaluate(ts, today) ==
              DueTodayAlert(DueTodayPrefix + Join(Names(DueTodayTasks(ts, today)), Separator))
  {
    FilterEmpty(ts, Classified(today, Overdue));
    CollectedMember(ts, today, ts[i]);
  }

  /** All clear exactly when every Pending task is due after today. */
  lemma AllClearIff(ts: seq<Task>, today: Date)
    ensures Evaluate(ts, today) == AllClear <==>
              forall j :: 0 <= j < |ts| && ts[j].status == Pending ==> Before(today, ts[j].due)
  {
    FilterEmpty(ts, Classified(today, Overdue));
    FilterEmpty(ts, Classified(today, DueToday));
  }

  /** A notification goes out exactly when some Pending task is due today or earlier. */
  lemma NotifiesIff(ts: seq<Task>, today: Date)
    ensures NoticeFor(Evaluate(ts, today)).Some? <==>
              exists j :: 0 <= j < |ts| && ts[j].status == Pending && !Before(today, ts[j].due)
  {
    AllClearIff(ts, today);
  }

  /** The loop step: the name lists of a one-longer prefix gain at most the
      next task's name, in the list its class says. */
  lemma CollectStep(ts: seq<Task>, i: nat, today: Date)
    requires i < |ts|
    ensures Names(OverdueTasks(ts[..i + 1], today)) ==
              Names(OverdueTasks(ts[..i], today)) + (if ClassOf(ts[i], today) == Overdue then [ts[i].name] else [])
    ensures Names(DueTodayTasks(ts[..i + 1], today)) ==
              Names(DueTodayTasks(ts[..i], today)) + (if ClassOf(ts[i], today) == DueToday then [ts[i].name] else [])
  {
    FilterSnoc(ts, i, Classified(today, Overdue));
    FilterSnoc(ts, i, Classified(today, DueToday));
    NamesAppend(OverdueTasks(ts[..i], today), if ClassOf(ts[i], today) == Overdue then [ts[i]] else []);
    NamesAppend(DueTodayTasks(ts[..i], today), if ClassOf(ts[i], today) == DueToday then [ts[i]] else []);
  }

  /** One reminder check over the task list: the loop that collects the two
      name lists, then the choice of alert and notification. */
  method CheckAndAlert(ts: seq<Task>, today: Date) returns (alert: Alert, notice: Option<Notice>)
    ensures alert == Evaluate(ts, today)
    ensures notice == NoticeFor(alert)
  {
    var overdue: seq<string> := [];
    var dueToday: seq<string> := [];
    for i := 0 to |ts|
      invariant overdue == Names(OverdueTasks(ts[..i], today))
      invariant dueToday == Names(DueTodayTasks(ts[..i], today))
    {
      var task := ts[i];
      CollectStep(ts, i, today);
      if task.status == Pending {
        if Before(task.due, today) {
          overdue := overdue + [task.name];
        } else if task.due == today {
          dueToday := dueToday + [task.name];
        }
      }
    }
    assert ts[..|ts|] == ts;
    if overdue != [] {
      var msg := OverduePrefix + Join(overdue, Separator);
      alert := OverdueAlert(msg);
      notice := Some(Notice(OverdueTitle, msg));
    } else if dueToday != [] {
      var msg := DueTodayPrefix + Join(dueToday, Separator);
      alert := DueTodayAlert(msg);
      notice := Some(Notice(DueTodayTitle, msg));
    } else {
      alert := AllClear;
      notice := None;
    }
  }
}
