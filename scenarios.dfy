/**
 * Worked cases for one task, "Pay rent", checked on 5 January 2024, and a
 * client of the session that adds a task to a fresh store.
 */
module Scenarios {
  import opened Wrappers
  import opened Tasks
  import opened Reminder
  import opened Session

  function PayRent(due: Date, status: Status): Task {
    Task("Pay rent", "", due, Medium, status)
  }

  /** Due four days earlier and still Pending: overdue, with its notification. */
  lemma ScenarioOverdue()
    ensures var ts, today := [PayRent(Date(2024, 1, 1), Pending)], Date(2024, 1, 5);
            Names(OverdueTasks(ts, today)) == ["Pay rent"] &&
            Names(DueTodayTasks(ts, today)) == [] &&
            Evaluate(ts, today) == OverdueAlert("Overdue Tasks: Pay rent") &&
            NoticeFor(Evaluate(ts, today)) == Some(Notice(OverdueTitle, "Overdue Tasks: Pay rent"))
  {
    var ts, today := [PayRent(Date(2024, 1, 1), Pending)], Date(2024, 1, 5);
    assert OverdueTasks(ts, today) == [ts[0]];
    assert DueTodayTasks(ts, today) == [];
  }

  /** Due on the day of the check: due today. */
  lemma ScenarioDueToday()
    ensures var ts, today := [PayRent(Date(2024, 1, 5), Pending)], Date(2024, 1, 5);
            Names(OverdueTasks(ts, today)) == [] &&
            Names(DueTodayTasks(ts, today)) == ["Pay rent"] &&
            Evaluate(ts, today) == DueTodayAlert("Tasks Due Today: Pay rent")
  {
    var ts, today := [PayRent(Date(2024, 1, 5), Pending)], Date(2024, 1, 5);
    assert OverdueTasks(ts, today) == [];
    assert DueTodayTasks(ts, today) == [ts[0]];
  }

  /** Past due but Completed: neither list, all clear, no notification. */
  lemma ScenarioCompleted()
    ensures var ts, today := [PayRent(Date(2024, 1, 1), Completed)], Date(2024, 1, 5);
            Names(OverdueTasks(ts, today)) == [] &&
            Names(DueTodayTasks(ts, today)) == [] &&
            Evaluate(ts, today) == AllClear &&
            NoticeFor(Evaluate(ts, today)) == None
  {
    var ts, today := [PayRent(Date(2024, 1, 1), Completed)], Date(2024, 1, 5);
    assert OverdueTasks(ts, today) == [];
    assert DueTodayTasks(ts, today) == [];
  }

  /** An empty list is all clear on any date. */
  lemma ScenarioEmpty(today: Date)
    ensures Evaluate([], today) == AllClear && NoticeFor(Evaluate([], today)) == None
  {
  }

  /** Adding "Groceries" to a session opened on a missing file: reading the
      file back gives the one new Pending task. */
  method ScenarioAddToFreshStore() returns (list: TaskList)
    ensures list.Valid()
    ensures list.tasks == [Task("Groceries", "", Date(2024, 1, 6), Low, Pending)]
    ensures Load(list.store) == list.tasks
    ensures PendingNames(list.tasks) == ["Groceries"]
  {
    list := new TaskList.Open(None);
    assert list.tasks == [];
    list.Add("Groceries", "", Date(2024, 1, 6), Low);
    assert Load(list.store) == [Task("Groceries", "", Date(2024, 1, 6), Low, Pending)];
    assert PendingNames(list.tasks) == ["Groceries"] by {
      AddExtendsPendingNames([], list.tasks[0]);
    }
  }
}
