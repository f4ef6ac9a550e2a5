/**
 * The state of the TodoApp object: the array of tasks, the current filter and
 * the id of the item being edited, with the methods that change them.
 * Form fields, the confirm() answer, the clock and the storage slot are
 * inputs; `saved` stands for the "todoTasks" entry of localStorage.
 */
module Todo {
  import opened JsString
  import opened TaskList

  class TodoApp {
    var tasks: seq<Task>
    var currentFilter: string
    var editingTaskId: Option<int>
    /** The last snapshot written to storage; None while nothing has been stored. */
    ghost var saved: Option<seq<Task>>

    /** Storage always holds the in-memory list, except that an absent entry stands for the empty list. */
    ghost predicate Valid()
      reads this
    {
      saved == Some(tasks) || (saved == None && tasks == [])
    }

    /** Starts from the decoded storage entry, or from no tasks when there is none. */
    constructor (stored: Option<seq<Task>>)
      ensures Valid()
      ensures tasks == (if stored.Some? then stored.value else [])
      ensures saved == stored
      ensures currentFilter == "all" && editingTaskId == None
    {
      tasks := if stored.Some? then stored.value else [];
      currentFilter := "all";
      editingTaskId := None;
      saved := stored;
    }

    /** The tasks the list shows under the current filter, in store order. */
    function GetFilteredTasks(): (r: seq<Task>)
      reads this
      ensures SubsequenceOf(r, tasks)
      ensures currentFilter == "active" ==> forall t :: t in r <==> t in tasks && !t.completed
      ensures currentFilter == "active" ==>
        forall t :: multiset(r)[t] == if !t.completed then multiset(tasks)[t] else 0
      ensures currentFilter == "completed" ==> forall t :: t in r <==> t in tasks && t.completed
      ensures currentFilter == "completed" ==>
        forall t :: multiset(r)[t] == if t.completed then multiset(tasks)[t] else 0
      ensures currentFilter != "active" && currentFilter != "completed" ==> r == tasks
    {
      Filtered(tasks, currentFilter)
    }

    /** The numbers of the counter line. */
    function Counter(): (c: Counts)
      reads this
      ensures c.total == |tasks| && c.active + c.completed == c.total
      ensures c.active == |Filtered(tasks, "active")| && c.completed == |Filtered(tasks, "completed")|
    {
      CountsOf(tasks)
    }

    /**
     * Submitting the form with no edit in progress: a trimmed, non-empty text
     * and a non-empty date put a new uncompleted task at the front and save;
     * anything else changes nothing.
     */
    method AddTask(input: string, date: string, now: int, createdAt: string)
      requires Valid()
      modifies this`tasks, this`saved
      ensures Valid()
      ensures Trim(input) != [] && date != [] ==>
        && tasks == [Task(now, Trim(input), date, false, createdAt)] + old(tasks)
        && saved == Some(tasks)
      ensures !(Trim(input) != [] && date != []) ==> tasks == old(tasks) && saved == old(saved)
      ensures WellFormed(old(tasks)) ==> WellFormed(tasks)
      ensures UniqueIds(old(tasks)) && FreshId(old(tasks), now) ==> UniqueIds(tasks)
    {
      var text := Trim(input);
      if text != [] && date != [] {
        var task := Task(now, text, date, false, createdAt);
        ghost var before := tasks;
        tasks := [task] + tasks;
        saved := Some(tasks);
        AddKeepsWellFormed(input, date, before, now, createdAt);
        assert UniqueIds(before) && FreshId(before, now) ==> UniqueIds(tasks) by {
          if UniqueIds(before) && FreshId(before, now) {
            AddFreshKeepsUnique(before, task);
          }
        }
      }
    }

    /**
     * Submitting the form during an edit: with valid input and an edit target
     * present in the list, the first task with that id takes the new text and
     * date, the list is saved and the edit ends; otherwise nothing changes and
     * the edit stays open.
     */
    method UpdateTask(input: string, date: string)
      requires Valid()
      modifies this`tasks, this`saved, this`editingTaskId
      ensures Valid()
      ensures var applies := Trim(input) != [] && date != [] && old(editingTaskId).Some?
                             && FindIndex(old(tasks), old(editingTaskId).value) != -1;
        if applies then
          && tasks == Edited(old(tasks), old(editingTaskId).value, Trim(input), date)
          && saved == Some(tasks) && editingTaskId == None
        else
          tasks == old(tasks) && saved == old(saved) && editingTaskId == old(editingTaskId)
      ensures WellFormed(old(tasks)) ==> WellFormed(tasks)
      ensures UniqueIds(old(tasks)) ==> UniqueIds(tasks)
    {
      var text := Trim(input);
      if text != [] && date != [] && editingTaskId.Some? {
        var id := editingTaskId.value;
        var i := FindIndex(tasks, id);
        if i != -1 {
          ghost var before := tasks;
          tasks := tasks[i := tasks[i].(text := text, date := date)];
          saved := Some(tasks);
          assert tasks == Edited(before, id, text, date);
          EditKeepsWellFormed(input, date, before, id);
          assert UniqueIds(before) ==> UniqueIds(tasks) by {
            if UniqueIds(before) {
              ToggleEditKeepUnique(before, id, text, date);
            }
          }
          CancelEdit();
        }
      }
    }

    /** Opens the edit of a task: only an id present in the list becomes the edit target. */
    method EditTask(id: int)
      modifies this`editingTaskId
      ensures editingTaskId == if FindIndex(tasks, id) != -1 then Some(id) else old(editingTaskId)
    {
      if FindIndex(tasks, id) != -1 {
        editingTaskId := Some(id);
      }
    }

    /** Ends any edit; calling it with no edit open leaves the state as it is. */
    method CancelEdit()
      modifies this`editingTaskId
      ensures editingTaskId == None
    {
      editingTaskId := None;
    }

    /**
     * Deletes one task after confirmation: every task with the id goes, the
     * rest keep their order, and the list is saved. The edit target is kept.
     */
    method DeleteTask(id: int, confirmed: bool)
      requires Valid()
      modifies this`tasks, this`saved
      ensures Valid()
      ensures confirmed ==> tasks == Removed(old(tasks), id) && saved == Some(tasks)
      ensures !confirmed ==> tasks == old(tasks) && saved == old(saved)
      ensures WellFormed(old(tasks)) ==> WellFormed(tasks)
      ensures UniqueIds(old(tasks)) ==> UniqueIds(tasks)
    {
      if confirmed {
        ghost var before := tasks;
        tasks := Removed(tasks, id);
        saved := Some(tasks);
        assert WellFormed(before) ==> WellFormed(tasks) by {
          if WellFormed(before) {
            ToggleRemoveKeepWellFormed(before, id);
          }
        }
        assert UniqueIds(before) ==> UniqueIds(tasks) by {
          if UniqueIds(before) {
            RemoveKeepsUnique(before, id);
          }
        }
      }
    }

    /**
     * Deletes every task after confirmation and ends any edit. An empty list
     * only raises an alert: nothing changes, not even the edit target.
     */
    method DeleteAllTasks(confirmed: bool)
      requires Valid()
      modifies this`tasks, this`saved, this`editingTaskId
      ensures Valid()
      ensures old(tasks) != [] && confirmed ==> tasks == [] && saved == Some([]) && editingTaskId == None
      ensures old(tasks) == [] || !confirmed ==>
        tasks == old(tasks) && saved == old(saved) && editingTaskId == old(editingTaskId)
      ensures WellFormed(old(tasks)) ==> WellFormed(tasks)
      ensures UniqueIds(old(tasks)) ==> UniqueIds(tasks)
    {
      if |tasks| == 0 {
        return;
      }
      if confirmed {
        tasks := [];
        saved := Some(tasks);
        CancelEdit();
      }
    }

    /** Flips the completed flag of the first task with the id and saves; an unknown id changes nothing. */
    method ToggleTask(id: int)
      requires Valid()
      modifies this`tasks, this`saved
      ensures Valid()
      ensures FindIndex(old(tasks), id) != -1 ==> tasks == Toggled(old(tasks), id) && saved == Some(tasks)
      ensures FindIndex(old(tasks), id) == -1 ==> tasks == old(tasks) && saved == old(saved)
      ensures WellFormed(old(tasks)) ==> WellFormed(tasks)
      ensures UniqueIds(old(tasks)) ==> UniqueIds(tasks)
    {
      var i := FindIndex(tasks, id);
      if i != -1 {
        if WellFormed(tasks) {
          ToggleRemoveKeepWellFormed(tasks, id);
        }
        if UniqueIds(tasks) {
          ToggleEditKeepUnique(tasks, id, "", "");
        }
        tasks := tasks[i := tasks[i].(completed := !tasks[i].completed)];
        saved := Some(tasks);
      }
    }

    /** Selects a filter. Any string is accepted; one that is not "active" or "completed" shows all. */
    method SetFilter(filter: string)
      modifies this`currentFilter
      ensures currentFilter == filter
    {
      currentFilter := filter;
    }
  }

  /** Toggling a task twice through the object restores the list and leaves it saved. */
  method ToggleTwiceRestores(app: TodoApp, id: int)
    requires app.Valid()
    modifies app`tasks, app`saved
    ensures app.Valid() && app.tasks == old(app.tasks)
  {
    app.ToggleTask(id);
    app.ToggleTask(id);
    ToggleTwice(old(app.tasks), id);
    if FindIndex(old(app.tasks), id) != -1 {
      FindIndexById(old(app.tasks), Toggled(old(app.tasks), id), id);
    }
  }
}
