/**
 * The task record of the dashboard: one row of its task table, with the
 * columns Task, Description, Due Date, Priority and Status.
 */
module Tasks {
  import opened Seqs

  /** A calendar date; dates are compared by year, then month, then day. */
  datatype Date = Date(year: int, month: int, day: int)

  /** `a` is a strictly earlier date than `b`. */
  predicate Before(a: Date, b: Date) {
    a.year < b.year ||
    (a.year == b.year && (a.month < b.month || (a.month == b.month && a.day < b.day)))
  }

  /** The date order is a strict total order: two dates are equal or one precedes the other. */
  lemma DateTrichotomy(a: Date, b: Date)
    ensures Before(a, b) || a == b || Before(b, a)
    ensures !(Before(a, b) && Before(b, a))
    ensures !Before(a, a)
  {
  }

  /** The three values the priority box offers. */
  datatype Priority = Low | Medium | High

  /** A task is created Pending and may later be marked Completed. */
  datatype Status = Pending | Completed

  datatype Task = Task(name: string, description: string, due: Date, priority: Priority, status: Status)

  /** The Task column of a list of records, in list order. */
  function Names(ts: seq<Task>): (r: seq<string>)
    ensures |r| == |ts|
    ensures forall i :: 0 <= i < |ts| ==> r[i] == ts[i].name
  {
    if ts == [] then [] else [ts[0].name] + Names(ts[1..])
  }

  /** The Task column of a concatenation is the concatenation of the columns. */
  lemma NamesAppend(a: seq<Task>, b: seq<Task>)
    ensures Names(a + b) == Names(a) + Names(b)
  {
    assert forall i :: 0 <= i < |a + b| ==> Names(a + b)[i] == (Names(a) + Names(b))[i];
  }

  /** Taking the Task column keeps a subsequence a subsequence. */
  lemma {:induction false} NamesSubsequence(a: seq<Task>, b: seq<Task>)
    requires IsSubsequence(a, b)
    ensures IsSubsequence(Names(a), Names(b))
    decreases |b|
  {
    if a != [] {
      assert b != [];
      assert Names(a)[1..] == Names(a[1..]);
      assert Names(b)[1..] == Names(b[1..]);
      if a[0] == b[0] && IsSubsequence(a[1..], b[1..]) {
        NamesSubsequence(a[1..], b[1..]);
      } else {
        NamesSubsequence(a, b[1..]);
      }
    }
  }
}
