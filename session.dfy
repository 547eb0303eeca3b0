/**
 * The session's task list and the operations the dashboard performs on it:
 * loading it from the task file, adding a task, listing the names of the
 * Pending tasks, and marking a task completed. The program saves the whole
 * list after each change; the model assumes that reading the file back
 * gives that list again (see Valid).
 */
module Session {
  import opened Wrappers
  import opened Seqs
  import opened Tasks

  /** The list read from the task file; a missing file (None) reads as no tasks. */
  function Load(file: Option<seq<Task>>): (r: seq<Task>)
    ensures file.None? ==> r == []
    ensures file.Some? ==> r == file.value
  {
    match file
    case None => []
    case Some(ts) => ts
  }

  /** The test "is Pending", as a value that Filter can take. */
  const IsPending: Task -> bool := (t: Task) => t.status == Pending

  /** The names offered in the "mark a task as completed" box, after its placeholder. */
  function PendingNames(ts: seq<Task>): (r: seq<string>)
    ensures |r| <= |ts|
    ensures (forall i :: 0 <= i < |ts| ==> ts[i].status == Pending) ==> r == Names(ts)
    ensures (forall i :: 0 <= i < |ts| ==> ts[i].status == Completed) ==> r == []
  {
    FilterAll(ts, IsPending);
    FilterEmpty(ts, IsPending);
    Names(Filter(ts, IsPending))
  }

  /** The Pending-name list of a list with one more record in front. */
  lemma PendingNamesCons(t: Task, ts: seq<Task>)
    ensures PendingNames([t] + ts) == (if t.status == Pending then [t.name] else []) + PendingNames(ts)
  {
    assert ([t] + ts)[0] == t;
    assert ([t] + ts)[1..] == ts;
    NamesAppend(if t.status == Pending then [t] else [], Filter(ts, IsPending));
  }

  /** A name occurs in the Task column of the Pending records exactly when
      some Pending record carries it. */
  lemma PendingNameOccurs(ts: seq<Task>, ps: seq<Task>, name: string)
    requires ps == Filter(ts, IsPending)
    ensures name in Names(ps) <==>
              exists i :: 0 <= i < |ts| && ts[i].name == name && ts[i].status == Pending
  {
    if name in Names(ps) {
      var k :| 0 <= k < |ps| && Names(ps)[k] == name;
      FilterMember(ts, IsPending, ps[k]);
      var i :| 0 <= i < |ts| && ts[i] == ps[k];
      assert ts[i].name == name && ts[i].status == Pending;
    }
    forall i | 0 <= i < |ts| && ts[i].name == name && ts[i].status == Pending
      ensures name in Names(ps)
    {
      FilterMember(ts, IsPending, ts[i]);
      var k :| 0 <= k < |ps| && ps[k] == ts[i];
      assert Names(ps)[k] == name;
    }
  }

  /** A name is offered exactly when some Pending record carries it; the offered
      names keep the order of the task list. */
  lemma PendingNamesSpec(ts: seq<Task>, name: string)
    ensures name in PendingNames(ts) <==>
              exists i :: 0 <= i < |ts| && ts[i].name == name && ts[i].status == Pending
    ensures IsSubsequence(PendingNames(ts), Names(ts))
  {
    var ps := Filter(ts, IsPending);
    assert PendingNames(ts) == Names(ps);
    PendingNameOccurs(ts, ps, name);
    FilterSubsequence(ts, IsPending);
    NamesSubsequence(ps, ts);
  }

  /** A new Pending record adds its name at the end of the offered names. */
  lemma AddExtendsPendingNames(ts: seq<Task>, t: Task)
    requires t.status == Pending
    ensures PendingNames(ts + [t]) == PendingNames(ts) + [t.name]
  {
    FilterAppend(ts, [t], IsPending);
    assert Filter([t], IsPending) == [t];
    NamesAppend(Filter(ts, IsPending), [t]);
  }

  /** The list after "mark completed" as the program does it: the first record
      whose name matches, whatever its status, becomes Completed. */
  function MarkFirst(ts: seq<Task>, name: string): (r: seq<Task>)
    ensures |r| == |ts|
    ensures forall j :: 0 <= j < |ts| ==> r[j].name == ts[j].name
  {
    if ts == [] then []
    else if ts[0].name == name then [ts[0].(status := Completed)] + ts[1..]
    else [ts[0]] + MarkFirst(ts[1..], name)
  }

  /** Only the first record named `name` changes, and only its status. */
  lemma {:induction false} MarkFirstAt(ts: seq<Task>, name: string, i: nat)
    requires i < |ts| && ts[i].name == name
    requires forall j :: 0 <= j < i ==> ts[j].name != name
    ensures MarkFirst(ts, name) == ts[i := ts[i].(status := Completed)]
  {
    if i > 0 {
      MarkFirstAt(ts[1..], name, i - 1);
      assert ts[i := ts[i].(status := Completed)] ==
             [ts[0]] + ts[1..][i - 1 := ts[i].(status := Completed)];
    }
  }

  /** A name that no record carries (the "Select" placeholder, say) changes nothing. */
  lemma {:induction false} MarkFirstNoMatch(ts: seq<Task>, name: string)
    requires forall j :: 0 <= j < |ts| ==> ts[j].name != name
    ensures MarkFirst(ts, name) == ts
  {
    if ts != [] {
      MarkFirstNoMatch(ts[1..], name);
      assert ts == [ts[0]] + ts[1..];
    }
  }

  /** Marking never turns a Completed record back into Pending and never
      changes any field but the status. */
  lemma {:induction false} MarkFirstMonotonic(ts: seq<Task>, name: string, j: nat)
    requires j < |ts|
    ensures MarkFirst(ts, name)[j] == ts[j].(status := MarkFirst(ts, name)[j].status)
    ensures ts[j].status == Completed ==> MarkFirst(ts, name)[j].status == Completed
  {
    if j > 0 && ts[0].name != name {
      MarkFirstMonotonic(ts[1..], name, j - 1);
    }
  }

  /** As written, a Completed record met first takes the mark: the list does not
      change, even when a later record of the same name is still Pending. */
  lemma MarkFirstOnCompletedIsNoop(ts: seq<Task>, name: string, i: nat)
    requires i < |ts| && ts[i].name == name && ts[i].status == Completed
    requires forall j :: 0 <= j < i ==> ts[j].name != name
    ensures MarkFirst(ts, name) == ts
  {
    MarkFirstAt(ts, name, i);
    assert ts[i].(status := Completed) == ts[i];
  }

  /** The smallest case: "Pay rent" is offered as Pending, yet marking it leaves
      the list, and so the offered names, as they were. */
  lemma StuckDuplicate()
    ensures var ts := [Task("Pay rent", "", Date(2024, 1, 1), High, Completed),
                       Task("Pay rent", "", Date(2024, 2, 1), High, Pending)];
            "Pay rent" in PendingNames(ts) &&
            MarkFirst(ts, "Pay rent") == ts &&
            PendingNames(MarkFirst(ts, "Pay rent")) == PendingNames(ts)
  {
    var ts := [Task("Pay rent", "", Date(2024, 1, 1), High, Completed),
               Task("Pay rent", "", Date(2024, 2, 1), High, Pending)];
    PendingNamesSpec(ts, "Pay rent");
    MarkFirstOnCompletedIsNoop(ts, "Pay rent", 0);
  }

  /** The intended "mark completed": the first Pending record named `name`
      becomes Completed. */
  function MarkFirstPending(ts: seq<Task>, name: string): (r: seq<Task>)
    ensures |r| == |ts|
    ensures forall j :: 0 <= j < |ts| ==> r[j].name == ts[j].name
  {
    if ts == [] then []
    else if ts[0].name == name && ts[0].status == Pending then [ts[0].(status := Completed)] + ts[1..]
    else [ts[0]] + MarkFirstPending(ts[1..], name)
  }

  /** The corrected marking changes only the first Pending record named `name`,
      and only its status. */
  lemma {:induction false} MarkFirstPendingAt(ts: seq<Task>, name: string, i: nat)
    requires i < |ts| && ts[i].name == name && ts[i].status == Pending
    requires forall j :: 0 <= j < i ==> !(ts[j].name == name && ts[j].status == Pending)
    ensures MarkFirstPending(ts, name) == ts[i := ts[i].(status := Completed)]
  {
    if i > 0 {
      MarkFirstPendingAt(ts[1..], name, i - 1);
      assert ts[i := ts[i].(status := Completed)] ==
             [ts[0]] + ts[1..][i - 1 := ts[i].(status := Completed)];
    }
  }

  /** With no Pending record named `name`, the corrected marking changes nothing. */
  lemma {:induction false} MarkFirstPendingNoMatch(ts: seq<Task>, name: string)
    requires forall j :: 0 <= j < |ts| ==> !(ts[j].name == name && ts[j].status == Pending)
    ensures MarkFirstPending(ts, name) == ts
  {
    if ts != [] {
      MarkFirstPendingNoMatch(ts[1..], name);
      assert ts == [ts[0]] + ts[1..];
    }
  }

  /** Marking an offered name removes exactly one occurrence of it from the
      offered names and leaves every other offered name as it was. */
  lemma {:induction false} MarkFirstPendingCompletesOne(ts: seq<Task>, name: string)
    requires name in PendingNames(ts)
    ensures multiset(PendingNames(MarkFirstPending(ts, name))) == multiset(PendingNames(ts)) - multiset{name}
  {
    if ts != [] {
      var t, rest := ts[0], ts[1..];
      var head := if t.status == Pending then [t.name] else [];
      assert ts == [t] + rest;
      PendingNamesCons(t, rest);
      var pRest := PendingNames(rest);
      assert PendingNames(ts) == head + pRest;
      if t.name == name && t.status == Pending {
        var t' := t.(status := Completed);
        assert MarkFirstPending(ts, name) == [t'] + rest;
        PendingNamesCons(t', rest);
        assert PendingNames([t'] + rest) == pRest;
        RemoveHead(pRest, name);
      } else {
        assert name in pRest;
        var after := MarkFirstPending(rest, name);
        assert MarkFirstPending(ts, name) == [t] + after;
        MarkFirstPendingCompletesOne(rest, name);
        PendingNamesCons(t, after);
        assert PendingNames([t] + after) == head + PendingNames(after);
        RemoveInTail(head, pRest, PendingNames(after), name);
      }
    }
  }

  /** Multiset bookkeeping: taking the leading occurrence off. */
  lemma RemoveHead(a: seq<string>, name: string)
    ensures multiset(a) == multiset([name] + a) - multiset{name}
  {
    assert multiset([name] + a) == multiset{name} + multiset(a);
  }

  /** Multiset bookkeeping: an occurrence removed from the tail is removed from the whole. */
  lemma RemoveInTail(head: seq<string>, a: seq<string>, b: seq<string>, name: string)
    requires name in a
    requires multiset(b) == multiset(a) - multiset{name}
    ensures multiset(head + b) == multiset(head + a) - multiset{name}
  {
    assert multiset(head + a) == multiset(head) + multiset(a);
    assert multiset(head + b) == multiset(head) + multiset(b);
  }

  /** The corrected marking also keeps Completed records Completed and changes
      nothing but a status. */
  lemma {:induction false} MarkFirstPendingMonotonic(ts: seq<Task>, name: string, j: nat)
    requires j < |ts|
    ensures MarkFirstPending(ts, name)[j] == ts[j].(status := MarkFirstPending(ts, name)[j].status)
    ensures ts[j].status == Completed ==> MarkFirstPending(ts, name)[j].status == Completed
  {
    if j > 0 && !(ts[0].name == name && ts[0].status == Pending) {
      MarkFirstPendingMonotonic(ts[1..], name, j - 1);
    }
  }

  /** The session's task list together with the task file it mirrors. */
  class TaskList {
    var tasks: seq<Task>
    var store: Option<seq<Task>>

    /** Reading the file back gives the in-memory list. This is an assumption
        about the file format, not a property of it: the real reader
        re-infers the column types of the table. */
    ghost predicate Valid()
      reads this
    {
      tasks == Load(store)
    }

    /** Opening a session: the list is whatever the file holds, or empty. */
    constructor Open(file: Option<seq<Task>>)
      ensures Valid()
      ensures store == file && tasks == Load(file)
    {
      store := file;
      tasks := Load(file);
    }

    /** "Add Task": append one Pending record and save. */
    method Add(name: string, description: string, due: Date, priority: Priority)
      requires Valid()
      modifies this
      ensures Valid()
      ensures tasks == old(tasks) + [Task(name, description, due, priority, Pending)]
      ensures store == Some(tasks)
    {
      var newTask := Task(name, description, due, priority, Pending);
      tasks := tasks + [newTask];
      store := Some(tasks);
    }

    /** "Mark Completed": scan for the first record named `name`, set its status,
        save and stop; with no such record nothing changes and nothing is saved. */
    method MarkCompleted(name: string)
      requires Valid()
      modifies this
      ensures Valid()
      ensures tasks == MarkFirst(old(tasks), name)
      ensures store == if exists j :: 0 <= j < |old(tasks)| && old(tasks)[j].name == name
                       then Some(tasks) else old(store)
    {
      var i := 0;
      while i < |tasks|
        invariant 0 <= i <= |tasks|
        invariant tasks == old(tasks) && store == old(store)
        invariant forall j :: 0 <= j < i ==> tasks[j].name != name
      {
        if tasks[i].name == name {
          MarkFirstAt(tasks, name, i);
          tasks := tasks[i := tasks[i].(status := Completed)];
          store := Some(tasks);
          return;
        }
        i := i + 1;
      }
      MarkFirstNoMatch(tasks, name);
    }
  }
}
