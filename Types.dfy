/** The weekly-goal entities of types/index.ts, and the weekly_goals row the two scheduled routes read. */
module Types {
  import opened Base

  datatype GoalState = NotStarted | InProgress | Done

  datatype Priority = Low | Medium | High

  /** A subtask of a goal; a negative id marks a task created in the editor and not yet stored. */
  datatype WeeklyGoalTask = WeeklyGoalTask(id: int, goalId: int, title: string, completed: bool)

  datatype WeeklyGoal = WeeklyGoal(
    id: int,
    title: string,
    state: GoalState,
    tasks: seq<WeeklyGoalTask>,
    createdAt: string,
    priority: Priority,
    deadline: Option<string>)

  /**
   * A weekly_goals row as the scheduled routes select it: the owner's user id,
   * the creation time as milliseconds since the epoch, and the deadline as the
   * stored "YYYY-MM-DD" text (or null).
   */
  datatype GoalRow = GoalRow(
    id: int,
    userId: string,
    title: string,
    state: GoalState,
    createdAt: int,
    deadline: Option<string>)

  /** The rows owned by one user. */
  function OwnedBy(goals: seq<GoalRow>, userId: string): (r: seq<GoalRow>)
    ensures forall g :: g in r <==> g in goals && g.userId == userId
  {
    if goals == [] then []
    else if goals[0].userId == userId then [goals[0]] + OwnedBy(goals[1..], userId)
    else OwnedBy(goals[1..], userId)
  }

  /** Filtering is compatible with concatenation: relative order is kept. */
  lemma {:induction false} OwnedByAppend(a: seq<GoalRow>, b: seq<GoalRow>, userId: string)
    ensures OwnedBy(a + b, userId) == OwnedBy(a, userId) + OwnedBy(b, userId)
  {
    if a == [] {
      assert a + b == b;
    } else {
      assert (a + b)[1..] == a[1..] + b;
      OwnedByAppend(a[1..], b, userId);
    }
  }
}
