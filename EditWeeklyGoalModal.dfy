/**
 * The goal editor (components/EditWeeklyGoalModal.tsx).  The task-list
 * handlers are pure list rewrites; the modal itself is an object whose React
 * state (title, state, tasks, priority, deadline) the handlers replace.
 */
module EditWeeklyGoalModal {
  import opened Base
  import opened Types
  import JsText

  /** Line 50: every task with the given id gets the new title; nothing else changes. */
  function RenameTask(tasks: seq<WeeklyGoalTask>, id: int, newTitle: string): (r: seq<WeeklyGoalTask>)
    ensures |r| == |tasks|
    ensures forall k :: 0 <= k < |r| ==>
              if tasks[k].id == id then r[k] == tasks[k].(title := newTitle) else r[k] == tasks[k]
  {
    if tasks == [] then []
    else [if tasks[0].id == id then tasks[0].(title := newTitle) else tasks[0]] + RenameTask(tasks[1..], id, newTitle)
  }

  /** Line 54: the same for the completed flag only. */
  function SetTaskCompleted(tasks: seq<WeeklyGoalTask>, id: int, completed: bool): (r: seq<WeeklyGoalTask>)
    ensures |r| == |tasks|
    ensures forall k :: 0 <= k < |r| ==>
              if tasks[k].id == id then r[k] == tasks[k].(completed := completed) else r[k] == tasks[k]
  {
    if tasks == [] then []
    else [if tasks[0].id == id then tasks[0].(completed := completed) else tasks[0]] + SetTaskCompleted(tasks[1..], id, completed)
  }

  /** Line 58: drop every task with the given id. */
  function RemoveTaskById(tasks: seq<WeeklyGoalTask>, id: int): (r: seq<WeeklyGoalTask>)
    ensures |r| <= |tasks|
    ensures forall t :: t in r <==> t in tasks && t.id != id
  {
    if tasks == [] then []
    else if tasks[0].id == id then RemoveTaskById(tasks[1..], id)
    else [tasks[0]] + RemoveTaskById(tasks[1..], id)
  }

  /** Removal keeps the other tasks in their relative order: it distributes over concatenation. */
  lemma {:induction false} RemoveTaskByIdAppend(a: seq<WeeklyGoalTask>, b: seq<WeeklyGoalTask>, id: int)
    ensures RemoveTaskById(a + b, id) == RemoveTaskById(a, id) + RemoveTaskById(b, id)
  {
    if a == [] {
      assert a + b == b;
    } else {
      assert (a + b)[1..] == a[1..] + b;
      RemoveTaskByIdAppend(a[1..], b, id);
    }
  }

  /** Removing an id no task has changes nothing. */
  lemma {:induction false} RemoveTaskByIdAbsent(tasks: seq<WeeklyGoalTask>, id: int)
    requires forall k :: 0 <= k < |tasks| ==> tasks[k].id != id
    ensures RemoveTaskById(tasks, id) == tasks
  {
    if tasks != [] {
      RemoveTaskByIdAbsent(tasks[1..], id);
    }
  }

  /** Removing twice is removing once. */
  lemma RemoveTaskByIdIdempotent(tasks: seq<WeeklyGoalTask>, id: int)
    ensures RemoveTaskById(RemoveTaskById(tasks, id), id) == RemoveTaskById(tasks, id)
  {
    var r := RemoveTaskById(tasks, id);
    forall k | 0 <= k < |r| ensures r[k].id != id {
      assert r[k] in r;
    }
    RemoveTaskByIdAbsent(r, id);
  }

  /** Line 67: the tasks whose trimmed title is non-empty, in order, titles left untrimmed. */
  function ValidTasks(tasks: seq<WeeklyGoalTask>): (r: seq<WeeklyGoalTask>)
    ensures |r| <= |tasks|
    ensures forall t :: t in r <==> t in tasks && JsText.Trim(t.title) != ""
  {
    if tasks == [] then []
    else if JsText.Trim(tasks[0].title) != "" then [tasks[0]] + ValidTasks(tasks[1..])
    else ValidTasks(tasks[1..])
  }

  lemma {:induction false} ValidTasksAppend(a: seq<WeeklyGoalTask>, b: seq<WeeklyGoalTask>)
    ensures ValidTasks(a + b) == ValidTasks(a) + ValidTasks(b)
  {
    if a == [] {
      assert a + b == b;
    } else {
      assert (a + b)[1..] == a[1..] + b;
      ValidTasksAppend(a[1..], b);
    }
  }

  /** A task list with no blank title is saved as it is. */
  lemma {:induction false} ValidTasksKeepsNonBlank(tasks: seq<WeeklyGoalTask>)
    requires forall k :: 0 <= k < |tasks| ==> !JsText.AllWhitespace(tasks[k].title)
    ensures ValidTasks(tasks) == tasks
  {
    if tasks != [] {
      JsText.TrimEmptyIff(tasks[0].title);
      ValidTasksKeepsNonBlank(tasks[1..]);
    }
  }

  /** What the new-goal form keeps, the editor drops: the padding around a title and a blank task. */
  lemma EditTrimsAndDropsBlank(title: string, id: int, goalId: int)
    requires title != [] && !JsText.IsWhitespace(title[0]) && !JsText.IsWhitespace(title[|title| - 1])
    ensures JsText.Trim(" " + title + " ") == title
    ensures ValidTasks([BlankTask(id, goalId)]) == []
  {
    var padded := " " + title + " ";
    assert padded[1..] == title + " ";
    assert (title + " ")[0] == title[0];
    assert JsText.TrimStart(padded) == title + " ";
    assert (title + " ")[..|title|] == title;
    assert JsText.TrimEnd(title + " ") == title;
    assert JsText.Trim("") == "";
    assert [BlankTask(id, goalId)][1..] == [];
  }

  predicate DistinctTaskIds(tasks: seq<WeeklyGoalTask>) {
    forall i, j :: 0 <= i < j < |tasks| ==> tasks[i].id != tasks[j].id
  }

  function BlankTask(id: int, goalId: int): WeeklyGoalTask {
    WeeklyGoalTask(id, goalId, "", false)
  }

  /** The smallest id in use, or 0 for an empty list. */
  function MinTaskId(tasks: seq<WeeklyGoalTask>): (m: int)
    ensures m <= 0
    ensures forall k :: 0 <= k < |tasks| ==> m <= tasks[k].id
  {
    if tasks == [] then 0 else Min(tasks[0].id, MinTaskId(tasks[1..]))
  }

  /** A temporary id below every id in use: negative and unused. */
  function FreshTempId(tasks: seq<WeeklyGoalTask>): (id: int)
    ensures id < 0
    ensures forall k :: 0 <= k < |tasks| ==> tasks[k].id != id
  {
    MinTaskId(tasks) - 1
  }

  /** Adding a blank task with a fresh temporary id keeps the task ids distinct. */
  lemma FreshTempIdKeepsIdsDistinct(tasks: seq<WeeklyGoalTask>, goalId: int)
    requires DistinctTaskIds(tasks)
    ensures DistinctTaskIds(tasks + [BlankTask(FreshTempId(tasks), goalId)])
  {
  }

  /** The editor: the goal prop (null while nothing is being edited) and the React state. */
  class EditGoalModal {
    var goal: Option<WeeklyGoal>
    var title: string
    var state: GoalState
    var tasks: seq<WeeklyGoalTask>
    var priority: Priority
    var deadline: Option<string>
    /** Line 35: re-declared as -1 on every render. */
    var tempTaskIdCounter: int

    ghost predicate Valid()
      reads this
    {
      tempTaskIdCounter < 0
    }

    /**
     * Mounting, lines 19-31: priority and deadline are initialised from the goal
     * only here; the effect then copies its title, state and tasks.
     */
    constructor (initial: Option<WeeklyGoal>)
      ensures Valid()
      ensures goal == initial && tempTaskIdCounter == -1
      ensures initial.Some? ==> title == initial.value.title && state == initial.value.state && tasks == initial.value.tasks
      ensures initial.None? ==> title == "" && state == NotStarted && tasks == []
      ensures priority == (if initial.Some? then initial.value.priority else Medium)
      ensures deadline == (if initial.Some? then initial.value.deadline else None)
    {
      goal := initial;
      title, state, tasks := "", NotStarted, [];
      priority := if initial.Some? then initial.value.priority else Medium;
      deadline := if initial.Some? then initial.value.deadline else None;
      tempTaskIdCounter := -1;
      if initial.Some? {
        title, state, tasks := initial.value.title, initial.value.state, initial.value.tasks;
      }
    }

    /** A new goal prop, lines 25-31: title, state and tasks follow it; priority and deadline do not. */
    method ReceiveGoal(g: WeeklyGoal)
      requires Valid()
      modifies this
      ensures Valid()
      ensures goal == Some(g) && title == g.title && state == g.state && tasks == g.tasks
      ensures priority == old(priority) && deadline == old(deadline)
      ensures tempTaskIdCounter == -1
    {
      goal := Some(g);
      title, state, tasks := g.title, g.state, g.tasks;
      tempTaskIdCounter := -1;
    }

    /** A re-render: line 35 runs again. */
    method Render()
      modifies this`tempTaskIdCounter
      ensures Valid() && tempTaskIdCounter == -1
    {
      tempTaskIdCounter := -1;
    }

    /** Lines 37-45: one blank task at the end, with the counter's id; the counter moves down. */
    method HandleAddTask()
      requires Valid() && goal.Some?
      modifies this`tasks, this`tempTaskIdCounter
      ensures Valid()
      ensures tasks == old(tasks) + [BlankTask(old(tempTaskIdCounter), goal.value.id)]
      ensures tasks[|tasks| - 1].id < 0
      ensures tempTaskIdCounter == old(tempTaskIdCounter) - 1
    {
      var newTask := BlankTask(tempTaskIdCounter, goal.value.id);
      tempTaskIdCounter := tempTaskIdCounter - 1;
      tasks := tasks + [newTask];
    }

    /** The evidently intended add: the new task's id is below every id in the list, so ids stay distinct. */
    method HandleAddTaskWithFreshId()
      requires goal.Some?
      modifies this`tasks
      ensures tasks == old(tasks) + [BlankTask(FreshTempId(old(tasks)), goal.value.id)]
      ensures DistinctTaskIds(old(tasks)) ==> DistinctTaskIds(tasks)
    {
      if DistinctTaskIds(tasks) {
        FreshTempIdKeepsIdsDistinct(tasks, goal.value.id);
      }
      tasks := tasks + [BlankTask(FreshTempId(tasks), goal.value.id)];
    }

    method HandleTaskTitleChange(taskId: int, newTitle: string)
      requires goal.Some?
      modifies this`tasks
      ensures tasks == RenameTask(old(tasks), taskId, newTitle)
    {
      tasks := RenameTask(tasks, taskId, newTitle);
    }

    method HandleTaskCompletedChange(taskId: int, completed: bool)
      requires goal.Some?
      modifies this`tasks
      ensures tasks == SetTaskCompleted(old(tasks), taskId, completed)
    {
      tasks := SetTaskCompleted(tasks, taskId, completed);
    }

    method HandleRemoveTask(taskId: int)
      requires goal.Some?
      modifies this`tasks
      ensures tasks == RemoveTaskById(old(tasks), taskId)
    {
      tasks := RemoveTaskById(tasks, taskId);
    }

    /**
     * Lines 61-79.  A blank title (after trimming) saves nothing and keeps the
     * modal open.  Otherwise the goal is saved with its id and creation time,
     * the trimmed title, the selected state (not derived from the tasks), the
     * non-blank tasks, the edited priority and deadline, and the modal closes.
     */
    method HandleSave() returns (saved: Option<WeeklyGoal>, closed: bool)
      requires goal.Some?
      ensures JsText.AllWhitespace(title) <==> saved.None?
      ensures closed <==> saved.Some?
      ensures saved.Some? ==>
                && saved.value.id == goal.value.id && saved.value.createdAt == goal.value.createdAt
                && saved.value.title == JsText.Trim(title) && saved.value.title != ""
                && saved.value.state == state
                && saved.value.tasks == ValidTasks(tasks)
                && saved.value.priority == priority && saved.value.deadline == deadline
    {
      JsText.TrimEmptyIff(title);
      if JsText.Trim(title) == "" {
        return None, false;
      }
      var validTasks := ValidTasks(tasks);
      saved := Some(goal.value.(title := JsText.Trim(title), state := state, tasks := validTasks,
                                priority := priority, deadline := deadline));
      closed := true;
    }

    /** Lines 81-88: title, state and tasks come back from the goal; priority and deadline stay as edited. */
    method HandleCancel() returns (closed: bool)
      requires goal.Some?
      modifies this`title, this`state, this`tasks
      ensures title == goal.value.title && state == goal.value.state && tasks == goal.value.tasks
      ensures closed
    {
      title, state, tasks := goal.value.title, goal.value.state, goal.value.tasks;
      closed := true;
    }
  }

  /**
   * Two tasks added in separate renders both get the id -1, so typing a title
   * into one of them renames both.
   */
  method AddTwiceAcrossRenders(g: WeeklyGoal, typed: string) returns (added: seq<WeeklyGoalTask>)
    requires g.tasks == []
    ensures |added| == 2
    ensures added[0].id == -1 && added[1].id == -1
    ensures added[0].title == typed && added[1].title == typed
  {
    var m := new EditGoalModal(Some(g));
    m.Render();
    m.HandleAddTask();
    m.Render();
    m.HandleAddTask();
    m.HandleTaskTitleChange(-1, typed);
    added := m.tasks;
  }

  /** With fresh ids, two added tasks are distinct, and typing into the first leaves the second blank. */
  method AddTwiceWithFreshIds(g: WeeklyGoal, typed: string) returns (added: seq<WeeklyGoalTask>)
    requires g.tasks == []
    ensures |added| == 2
    ensures added[0].id != added[1].id
    ensures added[0].title == typed && added[1].title == ""
  {
    var m := new EditGoalModal(Some(g));
    m.HandleAddTaskWithFreshId();
    m.Render();
    m.HandleAddTaskWithFreshId();
    var first := m.tasks[0].id;
    m.HandleTaskTitleChange(first, typed);
    added := m.tasks;
  }

  /**
   * With the modal mounted before any goal is chosen, the goal received later
   * is saved with the mount-time priority (medium) and deadline (null).
   */
  method SaveAfterLateGoal(g: WeeklyGoal) returns (saved: Option<WeeklyGoal>)
    requires !JsText.AllWhitespace(g.title)
    ensures saved.Some? && saved.value.priority == Medium && saved.value.deadline.None?
  {
    var m := new EditGoalModal(None);
    m.ReceiveGoal(g);
    var closed;
    saved, closed := m.HandleSave();
  }
}
