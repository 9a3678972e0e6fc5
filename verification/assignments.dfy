/**
  The records that flow through the tool: a course as the Canvas export gives
  it (its title and its assignments) and an assignment (name, link, due date,
  and the course title that the pipeline attaches to it).
 */
module Assignments {

  datatype Option<+T> = None | Some(value: T)

  /**
    A present `due_at` value: the text the export carries, and the instant it
    denotes as an abstract timestamp (what `new Date(due_at)` yields).
   */
  datatype DueDate = DueDate(text: string, stamp: int)

  /**
    One assignment. `dueAt` is `None` where the export has `null`;
    `courseTitle` is `None` until the pipeline tags the assignment with its course.
   */
  datatype Assignment = Assignment(
    name: string,
    htmlUrl: string,
    dueAt: Option<DueDate>,
    courseTitle: Option<string>)

  datatype Course = Course(courseTitle: string, assignments: seq<Assignment>)

  /** `assignment.due_at` is truthy. */
  predicate HasDueDate(a: Assignment) {
    a.dueAt.Some?
  }

  predicate AllHaveDueDates(s: seq<Assignment>) {
    forall i :: 0 <= i < |s| ==> HasDueDate(s[i])
  }

  /** The time `new Date(due_at)` denotes: the due date's timestamp, or the epoch (0) for `null`. */
  function DueKey(a: Assignment): int {
    if a.dueAt.Some? then a.dueAt.value.stamp else 0
  }

  /** Non-decreasing by due date. */
  predicate SortedByDue(s: seq<Assignment>) {
    forall i, j :: 0 <= i < j < |s| ==> DueKey(s[i]) <= DueKey(s[j])
  }
}
