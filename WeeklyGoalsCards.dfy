/**
 * The weekly-goal board (components/WeeklyGoalsCards.tsx): three columns by
 * state, a progress bar per goal and a deadline badge.  The current time and
 * the parsed deadline enter as the millisecond difference between them.
 */
module WeeklyGoalsCards {
  import opened Base
  import opened Types
  import JsText

  const DayMs: int := 86_400_000

  /** Line 7: the fixed column order. */
  const ColumnStates: seq<GoalState> := [NotStarted, InProgress, Done]

  /** Lines 17-21: the column heading. */
  function Heading(s: GoalState): (h: string)
    ensures h == "Not Started" <==> s == NotStarted
    ensures h == "In Progress" <==> s == InProgress
    ensures h == "Done" <==> s == Done
  {
    assert "Not Started"[0] != "In Progress"[0] && |"Done"| != |"In Progress"|;
    match s
    case NotStarted => "Not Started"
    case InProgress => "In Progress"
    case Done => "Done"
  }

  /** Distinct columns carry distinct headings. */
  lemma HeadingInjective(s: GoalState, t: GoalState)
    ensures Heading(s) == Heading(t) ==> s == t
  {
    assert "Not Started"[0] != "In Progress"[0];
  }

  /** Lines 26-28: the goals of one column, in input order. */
  function Column(goals: seq<WeeklyGoal>, s: GoalState): (r: seq<WeeklyGoal>)
    ensures |r| <= |goals|
    ensures forall g :: g in r <==> g in goals && g.state == s
  {
    if goals == [] then []
    else if goals[0].state == s then [goals[0]] + Column(goals[1..], s)
    else Column(goals[1..], s)
  }

  lemma {:induction false} ColumnAppend(a: seq<WeeklyGoal>, b: seq<WeeklyGoal>, s: GoalState)
    ensures Column(a + b, s) == Column(a, s) + Column(b, s)
  {
    if a == [] {
      assert a + b == b;
    } else {
      assert (a + b)[1..] == a[1..] + b;
      ColumnAppend(a[1..], b, s);
    }
  }

  /** The three columns together hold every goal exactly as often as the input does. */
  lemma {:induction false} ColumnsPartition(goals: seq<WeeklyGoal>)
    ensures multiset(Column(goals, NotStarted)) + multiset(Column(goals, InProgress)) + multiset(Column(goals, Done))
         == multiset(goals)
  {
    if goals != [] {
      ColumnsPartition(goals[1..]);
      HeadTail(goals);
      ColumnHead(goals, NotStarted);
      ColumnHead(goals, InProgress);
      ColumnHead(goals, Done);
    }
  }

  lemma HeadTail(goals: seq<WeeklyGoal>)
    requires goals != []
    ensures multiset(goals) == multiset{goals[0]} + multiset(goals[1..])
  {
    assert goals == [goals[0]] + goals[1..];
  }

  lemma ColumnHead(goals: seq<WeeklyGoal>, s: GoalState)
    requires goals != []
    ensures multiset(Column(goals, s))
         == (if goals[0].state == s then multiset{goals[0]} else multiset{}) + multiset(Column(goals[1..], s))
  {
  }

  /** A goal shows up only in the column of its own state. */
  lemma ColumnOfOwnState(goals: seq<WeeklyGoal>, g: WeeklyGoal, s: GoalState)
    requires g in goals
    ensures g in Column(goals, s) <==> s == g.state
  {
  }

  datatype ColumnView = Placeholder | Cards(goals: seq<WeeklyGoal>)

  /** Lines 24 and 153-155: the cards of a column, or the placeholder when it has none. */
  function ColumnContent(goals: seq<WeeklyGoal>, s: GoalState): (v: ColumnView)
    ensures v.Placeholder? <==> forall g :: g in goals ==> g.state != s
    ensures v.Cards? ==> v.goals == Column(goals, s) && v.goals != []
  {
    var c := Column(goals, s);
    if |c| > 0 then
      assert c[0] in c;
      Cards(c)
    else Placeholder
  }

  function Board(goals: seq<WeeklyGoal>): (b: seq<ColumnView>)
    ensures |b| == 3
    ensures forall i :: 0 <= i < 3 ==> b[i] == ColumnContent(goals, ColumnStates[i])
  {
    [ColumnContent(goals, NotStarted), ColumnContent(goals, InProgress), ColumnContent(goals, Done)]
  }

  function CompletedCount(tasks: seq<WeeklyGoalTask>): (c: nat)
    ensures c <= |tasks|
    ensures c == |tasks| <==> forall k :: 0 <= k < |tasks| ==> tasks[k].completed
    ensures c == 0 <==> forall k :: 0 <= k < |tasks| ==> !tasks[k].completed
  {
    if tasks == [] then 0 else (if tasks[0].completed then 1 else 0) + CompletedCount(tasks[1..])
  }

  lemma MulMono(a: int, b: int, t: int)
    requires a <= b && t >= 0
    ensures a * t <= b * t
  {
  }

  /**
   * `Math.round(completed / total * 100)`, or 0 with no tasks: the percentage
   * rounded half up, always within 0..100.
   */
  function ProgressOf(completed: nat, total: nat): (p: int)
    requires completed <= total
    ensures 0 <= p <= 100
    ensures total == 0 ==> p == 0
    ensures total > 0 ==> 2 * total * p <= 200 * completed + total < 2 * total * (p + 1)
  {
    if total == 0 then 0
    else
      var p := (200 * completed + total) / (2 * total);
      assert p <= 100 by {
        if p > 100 {
          MulMono(101, p, 2 * total);
        }
        MulMono(completed, total, 200);
      }
      p
  }

  /** Lines 102-104. */
  /** Lines 102-104: the rounded share of completed tasks, in 0..100, 0 without tasks. */
  function Progress(tasks: seq<WeeklyGoalTask>): (p: int)
    ensures 0 <= p <= 100
    ensures tasks == [] ==> p == 0
    ensures tasks != [] ==> 2 * |tasks| * p <= 200 * CompletedCount(tasks) + |tasks| < 2 * |tasks| * (p + 1)
  {
    ProgressOf(CompletedCount(tasks), |tasks|)
  }

  /** Line 105: at least one task, and all of them completed. */
  function IsAllFinished(tasks: seq<WeeklyGoalTask>): (r: bool)
    ensures r <==> tasks != [] && forall k :: 0 <= k < |tasks| ==> tasks[k].completed
  {
    CompletedCount(tasks) == |tasks| && |tasks| > 0
  }

  /** A finished goal shows 100%, one with no completed task 0%; a goal with no tasks is never finished. */
  lemma ProgressEnds(tasks: seq<WeeklyGoalTask>)
    ensures IsAllFinished(tasks) ==> Progress(tasks) == 100
    ensures CompletedCount(tasks) == 0 ==> Progress(tasks) == 0
    ensures tasks == [] ==> !IsAllFinished(tasks)
  {
    var c, t := CompletedCount(tasks), |tasks|;
    if t > 0 && c == t {
      var p := Progress(tasks);
      if p < 100 { MulMono(p + 1, 100, 2 * t); }
      if p > 100 { MulMono(101, p, 2 * t); }
    }
    if t > 0 && c == 0 {
      var p := Progress(tasks);
      if p > 0 { MulMono(1, p, 2 * t); }
    }
  }

  /** Rounding can show 100% for a goal that is not finished: 200 of 201 tasks. */
  lemma RoundedHundredNotFinished()
    ensures ProgressOf(200, 201) == 100
  {
  }

  /** `Math.ceil(deltaMs / day)`: the whole days left until the deadline, rounded up. */
  function DaysLeft(deltaMs: int): (d: int)
    ensures (d - 1) * DayMs < deltaMs <= d * DayMs
  {
    -((-deltaMs) / DayMs)
  }

  datatype Badge = Green | Yellow | Red

  /** Lines 127-134. */
  function BadgeFor(daysLeft: int): (b: Badge)
    ensures b == Green <==> daysLeft > 3
    ensures b == Yellow <==> 1 <= daysLeft <= 3
    ensures b == Red <==> daysLeft < 1
  {
    if daysLeft > 3 then Green else if daysLeft >= 1 then Yellow else Red
  }

  /** Line 139. */
  function DeadlineLabel(daysLeft: int): (s: string)
    ensures daysLeft > 0 ==> s == JsText.IntToString(daysLeft) + " days left"
    ensures daysLeft <= 0 ==> s == "Overdue!"
  {
    if daysLeft > 0 then JsText.IntToString(daysLeft) + " days left" else "Overdue!"
  }

  /** For whole days, the red badge and the "Overdue!" label go together. */
  lemma RedIffOverdue(daysLeft: int)
    ensures BadgeFor(daysLeft) == Red <==> DeadlineLabel(daysLeft) == "Overdue!"
  {
    if daysLeft > 0 {
      assert |DeadlineLabel(daysLeft)| > |"Overdue!"|;
    }
  }

  /** Line 121: deadline info only for a goal whose deadline is set (and not the empty string). */
  function DeadlineInfo(goal: WeeklyGoal, deltaMs: int): (r: Option<(Badge, string)>)
    ensures r.Some? <==> goal.deadline.Some? && goal.deadline.value != ""
    ensures r.Some? ==> r.value == (BadgeFor(DaysLeft(deltaMs)), DeadlineLabel(DaysLeft(deltaMs)))
  {
    if goal.deadline.Some? && goal.deadline.value != "" then
      var d := DaysLeft(deltaMs);
      Some((BadgeFor(d), DeadlineLabel(d)))
    else None
  }
}
