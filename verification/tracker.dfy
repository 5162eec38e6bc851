/**
 * The `TaskTracker` object: the task list, the current filter and the id of
 * the task being edited, updated in place by the event handlers. Browser
 * storage is a ghost snapshot of what `localStorage` would hand back on the
 * next load, with a count of the writes made to it.
 */
module Tracker {
  import opened Wrappers
  import opened Text
  import opened Tasks
  import opened Views

  /** What `safeParse(localStorage.getItem('tasks'))` can produce: no stored
      value, text that does not parse, or a parsed list of tasks. */
  datatype Stored = Missing | Corrupt | Saved(tasks: seq<Task>)

  /** The constructor's `safeParse(...) || []`: the parsed list if there is
      one, the empty list when nothing is stored or the text is corrupt. */
  function Load(stored: Stored): (r: seq<Task>)
    ensures stored.Saved? ==> r == stored.tasks
    ensures !stored.Saved? ==> r == []
  {
    match stored
    case Saved(ts) => ts
    case _ => []
  }

  class TaskTracker {
    var tasks: seq<Task>
    var currentFilter: Filter
    var editingTaskId: Option<int>
    /** The value stored under the key "tasks", as the next load would parse it. */
    ghost var storage: Stored
    /** How many times `saveTasks` has written to storage. */
    ghost var writes: nat

    /** Reloading would give back the list in memory. */
    ghost predicate Synced()
      reads this
    {
      Load(storage) == tasks
    }

    constructor (stored: Stored)
      ensures tasks == Load(stored) && currentFilter == All && editingTaskId == None
      ensures storage == stored && writes == 0
      ensures Synced()
    {
      tasks := Load(stored);
      currentFilter := All;
      editingTaskId := None;
      storage := stored;
      writes := 0;
    }

    /** `saveTasks`: writes the whole list. */
    method SaveTasks()
      modifies this
      ensures storage == Saved(tasks) && writes == old(writes) + 1
      ensures tasks == old(tasks) && currentFilter == old(currentFilter) && editingTaskId == old(editingTaskId)
      ensures Synced()
    {
      storage := Saved(tasks);
      writes := writes + 1;
    }

    /** `addTask`: blank input is ignored without a write; otherwise a new
        record with the trimmed text is put at the front and saved. */
    method AddTask(input: string, priority: Priority, now: int, createdAt: string)
      requires Synced()
      modifies this
      ensures Synced()
      ensures tasks == Added(old(tasks), input, priority, now, createdAt)
      ensures AllSpace(input) ==> tasks == old(tasks) && storage == old(storage) && writes == old(writes)
      ensures !AllSpace(input) ==>
        && |tasks| == |old(tasks)| + 1
        && tasks[0] == Task(now, Trim(input), priority, false, createdAt)
        && tasks[1..] == old(tasks)
        && storage == Saved(tasks) && writes == old(writes) + 1
      ensures currentFilter == old(currentFilter) && editingTaskId == old(editingTaskId)
    {
      var text := Trim(input);
      if text == [] {
        return;
      }
      var task := Task(now, text, priority, false, createdAt);
      tasks := [task] + tasks;
      assert tasks[1..] == old(tasks);
      SaveTasks();
    }

    /** `toggleTask`: flips the first record with the id and saves; an absent
        id changes nothing and writes nothing. */
    method ToggleTask(id: int)
      requires Synced()
      modifies this
      ensures Synced()
      ensures tasks == Toggled(old(tasks), id)
      ensures HasId(old(tasks), id) ==> storage == Saved(tasks) && writes == old(writes) + 1
      ensures !HasId(old(tasks), id) ==> tasks == old(tasks) && storage == old(storage) && writes == old(writes)
      ensures currentFilter == old(currentFilter) && editingTaskId == old(editingTaskId)
    {
      var found := FirstIndex(tasks, id);
      if found.None? {
        return;
      }
      var i := found.value;
      tasks := tasks[i := tasks[i].(completed := !tasks[i].completed)];
      SaveTasks();
    }

    /** `editTask`: starts editing the id if some record has it. */
    method EditTask(id: int)
      requires Synced()
      modifies this
      ensures Synced()
      ensures editingTaskId == if HasId(tasks, id) then Some(id) else old(editingTaskId)
      ensures tasks == old(tasks) && currentFilter == old(currentFilter)
      ensures storage == old(storage) && writes == old(writes)
    {
      var found := FirstIndex(tasks, id);
      if found.None? {
        return;
      }
      editingTaskId := Some(id);
    }

    /** `closeEditModal`: nothing is being edited any more. */
    method CloseEditModal()
      requires Synced()
      modifies this
      ensures Synced()
      ensures editingTaskId == None
      ensures tasks == old(tasks) && currentFilter == old(currentFilter)
      ensures storage == old(storage) && writes == old(writes)
    {
      editingTaskId := None;
    }

    /** `saveEdit`, with `value` the content of the edit box: blank text
        cancels; otherwise the first record with the edited id gets the
        trimmed text and is saved. Editing always ends. */
    method SaveEdit(value: string)
      requires Synced()
      modifies this
      ensures Synced()
      ensures editingTaskId == None
      ensures AllSpace(value) || old(editingTaskId).None? ==> tasks == old(tasks)
      ensures !AllSpace(value) && old(editingTaskId).Some? ==>
        tasks == Edited(old(tasks), old(editingTaskId).value, Trim(value))
      ensures EditHits(old(tasks), old(editingTaskId), value) ==> storage == Saved(tasks) && writes == old(writes) + 1
      ensures !EditHits(old(tasks), old(editingTaskId), value) ==>
        tasks == old(tasks) && storage == old(storage) && writes == old(writes)
      ensures currentFilter == old(currentFilter)
    {
      var newText := Trim(value);
      if newText == [] {
        CloseEditModal();
        return;
      }
      if editingTaskId.Some? {
        var found := FirstIndex(tasks, editingTaskId.value);
        if found.Some? {
          var i := found.value;
          tasks := tasks[i := tasks[i].(text := newText)];
          SaveTasks();
        }
      }
      CloseEditModal();
    }

    /** `deleteTask`: drops every record with the id; saves only if one was
        dropped. */
    method DeleteTask(id: int)
      requires Synced()
      modifies this
      ensures Synced()
      ensures tasks == Removed(old(tasks), id)
      ensures HasId(old(tasks), id) ==> |tasks| < |old(tasks)| && storage == Saved(tasks) && writes == old(writes) + 1
      ensures !HasId(old(tasks), id) ==> tasks == old(tasks) && storage == old(storage) && writes == old(writes)
      ensures currentFilter == old(currentFilter) && editingTaskId == old(editingTaskId)
    {
      RemovedSpec(tasks, id);
      var before := |tasks|;
      tasks := Removed(tasks, id);
      if |tasks| == before {
        return;
      }
      SaveTasks();
    }

    /** A filter button was clicked: the tracker remembers its `data-filter`. */
    method SetFilter(name: string)
      requires Synced()
      modifies this
      ensures Synced()
      ensures currentFilter == FilterOf(name) && currentFilter.Name() == name
      ensures tasks == old(tasks) && editingTaskId == old(editingTaskId)
      ensures storage == old(storage) && writes == old(writes)
    {
      currentFilter := FilterOf(name);
    }

    /** `getFilteredTasks`: the tasks the current filter shows, each as often
        as in the list, in list order; unfiltered for "all" and unknown names. */
    function GetFilteredTasks(): (r: seq<Task>)
      reads this
      ensures IsSubsequence(r, tasks)
      ensures forall t :: multiset(r)[t] == if Shows(currentFilter, t) then multiset(tasks)[t] else 0
      ensures currentFilter.All? || currentFilter.Other? ==> r == tasks
    {
      ViewSpec(tasks, currentFilter);
      View(tasks, currentFilter)
    }
  }

  /** `saveEdit` writes exactly when the text is not blank and some record has
      the id being edited. */
  predicate EditHits(tasks: seq<Task>, editing: Option<int>, value: string)
  {
    !AllSpace(value) && editing.Some? && HasId(tasks, editing.value)
  }

  /** The walk-through of adding "Buy milk", completing it, and then trying
      to add a blank task. */
  method BuyMilkScenario(now: int, createdAt: string)
  {
    var tracker := new TaskTracker(Missing);
    var milk := "Buy milk";
    assert !IsSpace(milk[0]) && !IsSpace(milk[|milk| - 1]);
    assert LeadingSpaces(milk) == 0 && TrailingSpaces(milk) == 0 && milk[0..|milk|] == milk;
    assert Trim(milk) == milk;
    tracker.AddTask(milk, High, now, createdAt);
    var task := Task(now, milk, High, false, createdAt);
    assert tracker.tasks == [task];
    assert View([task], Completed) == [];
    assert Statistics(tracker.tasks) == Stats(1, 1, 0, 0);
    tracker.ToggleTask(now);
    var done := task.(completed := true);
    assert tracker.tasks == [done];
    assert View([done], Completed) == [done];
    assert Statistics(tracker.tasks) == Stats(1, 0, 1, 100);
    var blank := "  ";
    assert AllSpace(blank);
    tracker.AddTask(blank, Low, now + 1, createdAt);
    assert tracker.tasks == [done];
    assert tracker.writes == 2 && tracker.storage == Saved(tracker.tasks);
  }
}
