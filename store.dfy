/** The tracker's state: the task list, seeded or reloaded at start-up and
    written through to the 'tasks' storage slot after every change. */
module Store {
  import opened Tasks
  import opened Text
  import opened Sequences
  import opened Collection

  /** The example tasks used when nothing is stored. */
  function Seed(): (r: seq<Task>)
    ensures |r| == 3 && UniqueIds(r)
    ensures forall i :: 0 <= i < |r| ==> !IsBlank(r[i].text) && r[i].dueDate.Some?
    ensures r[0].priority == High && r[1].priority == Medium && r[2].priority == Low
    ensures Keep(r, (t: Task) => t.completed) == [r[1]]
  {
    var r := [
      Task(1, "Complete project proposal", false, High, Some(DayNumber(2023, 12, 15))),
      Task(2, "Buy groceries", true, Medium, Some(DayNumber(2023, 12, 10))),
      Task(3, "Call mom", false, Low, Some(DayNumber(2023, 12, 20)))
    ];
    assert !IsWhitespace(r[0].text[0]) && !IsWhitespace(r[1].text[0]) && !IsWhitespace(r[2].text[0]);
    assert r[1..] == [r[1], r[2]] && r[2..] == [r[2]] && r[3..] == [];
    r
  }

  /** The list at start-up: what the slot holds, or the seed when the slot is
      absent or holds the empty string (both are None here). A slot holding an
      empty list is kept as it is. */
  function InitialTasks(saved: Option<seq<Task>>): (r: seq<Task>)
    ensures saved.Some? ==> r == saved.value
    ensures saved.None? ==> r == Seed() && |r| == 3 && UniqueIds(r)
  {
    match saved
    case Some(s) => s
    case None => Seed()
  }

  class TaskStore {
    /** The `tasks` state. */
    var tasks: seq<Task>
    /** The 'tasks' entry of local storage; None while it is absent. */
    var slot: Option<seq<Task>>
    /** How many times the slot has been written. */
    var writes: nat

    /** Write-through: the slot always holds the current list. */
    ghost predicate Valid()
      reads this
    {
      slot == Some(tasks)
    }

    /** Start-up: read the slot, fall back to the seed, then write the list
        back once, as the effect does after the first render. */
    constructor (saved: Option<seq<Task>>)
      ensures Valid()
      ensures tasks == InitialTasks(saved)
      ensures writes == 1
    {
      tasks := InitialTasks(saved);
      slot := Some(InitialTasks(saved));
      writes := 1;
    }

    /** `setTasks` followed by the effect that writes the slot. */
    method Commit(next: seq<Task>)
      modifies this
      ensures tasks == next && slot == Some(next)
      ensures writes == old(writes) + 1
    {
      tasks := next;
      slot := Some(next);
      writes := writes + 1;
    }

    /** `addTask`, with the clock-derived id passed in and required to be fresh. */
    method Add(id: int, text: string, priority: Priority, dueField: Option<Day>)
      requires Valid() && Absent(tasks, id)
      modifies this
      ensures Valid()
      ensures tasks == AddTask(old(tasks), id, text, priority, dueField)
      ensures writes == if IsBlank(text) then old(writes) else old(writes) + 1
      ensures UniqueIds(old(tasks)) ==> UniqueIds(tasks)
    {
      TrimEmptyIffBlank(text);
      if UniqueIds(tasks) {
        AddKeepsIdsUnique(tasks, id, text, priority, dueField);
      }
      if Trim(text) == "" {
        return;
      }
      var task := Task(id, text, false, priority, dueField);
      Commit(tasks + [task]);
    }

    /** `deleteTask`: the slot is written even when no task carries `id`. */
    method Delete(id: int)
      requires Valid()
      modifies this
      ensures Valid()
      ensures tasks == DeleteTask(old(tasks), id)
      ensures writes == old(writes) + 1
      ensures UniqueIds(old(tasks)) ==> UniqueIds(tasks)
    {
      if UniqueIds(tasks) {
        ChangesKeepIdsUnique(tasks, id, "", Medium, None);
      }
      Commit(DeleteTask(tasks, id));
    }

    /** `toggleComplete`. */
    method Toggle(id: int)
      requires Valid()
      modifies this
      ensures Valid()
      ensures tasks == ToggleComplete(old(tasks), id)
      ensures writes == old(writes) + 1
      ensures UniqueIds(old(tasks)) ==> UniqueIds(tasks)
    {
      if UniqueIds(tasks) {
        ChangesKeepIdsUnique(tasks, id, "", Medium, None);
      }
      Commit(ToggleComplete(tasks, id));
    }

    /** `saveEdit`, with the edit form's text, priority and date passed in. */
    method Edit(id: int, text: string, priority: Priority, dueField: Option<Day>)
      requires Valid()
      modifies this
      ensures Valid()
      ensures tasks == SaveEdit(old(tasks), id, text, priority, dueField)
      ensures writes == old(writes) + 1
      ensures UniqueIds(old(tasks)) ==> UniqueIds(tasks)
    {
      if UniqueIds(tasks) {
        ChangesKeepIdsUnique(tasks, id, text, priority, dueField);
      }
      Commit(SaveEdit(tasks, id, text, priority, dueField));
    }
  }

  /** Reopening the tracker from what the slot holds gives back the same list. */
  method Reopen(store: TaskStore) returns (reopened: TaskStore)
    requires store.Valid()
    ensures reopened.Valid() && reopened.tasks == store.tasks
  {
    reopened := new TaskStore(store.slot);
  }
}
