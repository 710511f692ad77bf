/**
 * The new-goal form (components/AddWeeklyGoalModal.tsx).  Unlike the editor it
 * neither trims the title nor drops blank tasks when saving.
 */
module AddWeeklyGoalModal {
  import opened Base
  import opened Types
  import JsText

  /** A task as the form holds it: no id, no goal id. */
  datatype DraftTask = DraftTask(title: string, completed: bool)

  /** What `onSave` receives. */
  datatype NewGoal = NewGoal(title: string, state: GoalState, tasks: seq<DraftTask>, priority: Priority, deadline: Option<string>)

  /** Line 35: keep every element whose position is not `index`. */
  function RemoveAt(tasks: seq<DraftTask>, index: int): (r: seq<DraftTask>)
    ensures 0 <= index < |tasks| ==> r == tasks[..index] + tasks[index + 1..]
    ensures !(0 <= index < |tasks|) ==> r == tasks
  {
    if tasks == [] then []
    else if index == 0 then tasks[1..]
    else [tasks[0]] + RemoveAt(tasks[1..], index - 1)
  }

  class AddGoalModal {
    var title: string
    var state: GoalState
    var tasks: seq<DraftTask>
    var priority: Priority
    var deadline: Option<string>

    /** Lines 16-20: the initial form. */
    predicate IsInitial()
      reads this
    {
      title == "" && state == NotStarted && tasks == [] && priority == Medium && deadline == None
    }

    constructor ()
      ensures IsInitial()
    {
      title, state, tasks, priority, deadline := "", NotStarted, [], Medium, None;
    }

    /** Lines 24-26: one blank task at the end. */
    method AddTask()
      modifies this`tasks
      ensures tasks == old(tasks) + [DraftTask("", false)]
    {
      tasks := tasks + [DraftTask("", false)];
    }

    /**
     * Lines 28-32: copy the list, then set the title of the element at `index`.
     * Outside the list `newTasks[index]` is undefined and the assignment throws
     * before `setTasks`, so nothing changes (`ok` is false).
     */
    method UpdateTask(index: int, value: string) returns (ok: bool)
      modifies this`tasks
      ensures ok <==> 0 <= index < |old(tasks)|
      ensures |tasks| == |old(tasks)|
      ensures forall k :: 0 <= k < |tasks| ==>
                tasks[k] == if ok && k == index then old(tasks)[k].(title := value) else old(tasks)[k]
    {
      if !(0 <= index < |tasks|) {
        return false;
      }
      var newTasks := tasks;
      newTasks := newTasks[index := newTasks[index].(title := value)];
      tasks := newTasks;
      ok := true;
    }

    /** Lines 34-36. */
    method RemoveTask(index: int)
      modifies this`tasks
      ensures tasks == RemoveAt(old(tasks), index)
    {
      tasks := RemoveAt(tasks, index);
    }

    /**
     * Lines 38-50.  A title that is blank after trimming is refused and the form
     * is kept.  Otherwise the title (untrimmed) and every task (blank ones too)
     * are passed on, and the form returns to its initial state.
     */
    method HandleSave() returns (saved: Option<NewGoal>, closed: bool)
      modifies this
      ensures JsText.AllWhitespace(old(title)) ==>
                saved.None? && !closed
                && title == old(title) && state == old(state) && tasks == old(tasks)
                && priority == old(priority) && deadline == old(deadline)
      ensures !JsText.AllWhitespace(old(title)) ==>
                && saved == Some(NewGoal(old(title), old(state), old(tasks), old(priority), old(deadline)))
                && closed && IsInitial()
    {
      JsText.TrimEmptyIff(title);
      if JsText.Trim(title) == "" {
        return None, false;
      }
      saved := Some(NewGoal(title, state, tasks, priority, deadline));
      title := "";
      state := NotStarted;
      tasks := [];
      priority := Medium;
      deadline := None;
      closed := true;
    }
  }

  /**
   * The form saves a padded title and a blank task as they are; the editor would
   * trim the first and drop the second.
   */
  method AddKeepsWhatEditDrops() returns (saved: Option<NewGoal>)
    ensures saved.Some? && saved.value.title == " Read " && saved.value.tasks == [DraftTask("", false)]
  {
    var m := new AddGoalModal();
    m.title := " Read ";
    m.AddTask();
    assert !JsText.AllWhitespace(m.title) by { assert !JsText.IsWhitespace(m.title[1]); }
    var closed;
    saved, closed := m.HandleSave();
  }
}
