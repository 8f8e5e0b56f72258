/** The four handlers that replace the task list: add, delete, toggle and
    save-edit. Each builds a new list from the old one. */
module Collection {
  import opened Tasks
  import opened Text
  import opened Sequences

  /** No task in `s` carries `id`. */
  predicate Absent(s: seq<Task>, id: int) {
    forall i :: 0 <= i < |s| ==> s[i].id != id
  }

  /** The two tasks carry different ids. */
  predicate DistinctIds(a: Task, b: Task) {
    a.id != b.id
  }

  /** No two tasks of `s` share an id. */
  predicate UniqueIds(s: seq<Task>) {
    Pairwise(s, DistinctIds)
  }

  /** The `tasks.map(task => task.id === id ? f(task) : task)` pattern shared
      by toggle and save-edit. */
  function Update(s: seq<Task>, id: int, f: Task -> Task): (r: seq<Task>)
    ensures |r| == |s|
    ensures forall i :: 0 <= i < |s| ==> r[i] == if s[i].id == id then f(s[i]) else s[i]
  {
    if s == [] then []
    else [if s[0].id == id then f(s[0]) else s[0]] + Update(s[1..], id, f)
  }

  /** `addTask`: blank text (empty after trimming) is rejected; otherwise a new,
      incomplete task is appended. `dueField` is the date input, None when the
      field is empty (`dueDate || null`). The text is stored untrimmed. */
  function AddTask(s: seq<Task>, id: int, text: string, priority: Priority, dueField: Option<Day>): (r: seq<Task>)
    ensures IsBlank(text) ==> r == s
    ensures !IsBlank(text) ==> |r| == |s| + 1 && r[..|s|] == s
    ensures !IsBlank(text) ==>
      var t := r[|s|];
      t.id == id && t.text == text && !t.completed && t.priority == priority && t.dueDate == dueField
  {
    TrimEmptyIffBlank(text);
    if Trim(text) == "" then s
    else s + [Task(id, text, false, priority, dueField)]
  }

  /** `deleteTask`: keeps the tasks whose id differs, in their original order. */
  function DeleteTask(s: seq<Task>, id: int): (r: seq<Task>)
    ensures IsSubsequence(r, s)
    ensures Absent(r, id)
    ensures forall t :: t in s && t.id != id ==> multiset(r)[t] == multiset(s)[t]
    ensures Absent(s, id) ==> r == s
  {
    var keep := (t: Task) => t.id != id;
    KeepIsSubsequence(s, keep);
    KeepSpec(s, keep);
    var r := Keep(s, keep);
    assert Absent(s, id) ==> r == s by {
      if Absent(s, id) { KeepAll(s, keep); }
    }
    assert forall i :: 0 <= i < |r| ==> r[i] in r;
    r
  }

  /** `toggleComplete`: flips `completed` on the tasks carrying `id`. */
  function ToggleComplete(s: seq<Task>, id: int): (r: seq<Task>)
    ensures |r| == |s|
    ensures forall i :: 0 <= i < |s| ==>
      r[i].completed == (if s[i].id == id then !s[i].completed else s[i].completed)
    ensures forall i :: 0 <= i < |s| ==>
      r[i] == s[i].(completed := r[i].completed)
  {
    Update(s, id, (t: Task) => t.(completed := !t.completed))
  }

  /** `saveEdit`: overwrites text, priority and due date on the tasks carrying
      `id`; there is no blank-text check here, unlike `addTask`. */
  function SaveEdit(s: seq<Task>, id: int, text: string, priority: Priority, dueField: Option<Day>): (r: seq<Task>)
    ensures |r| == |s|
    ensures forall i :: 0 <= i < |s| ==> r[i].id == s[i].id && r[i].completed == s[i].completed
    ensures forall i :: 0 <= i < |s| && s[i].id == id ==>
      r[i].text == text && r[i].priority == priority && r[i].dueDate == dueField
    ensures forall i :: 0 <= i < |s| && s[i].id != id ==> r[i] == s[i]
  {
    Update(s, id, (t: Task) => t.(text := text, priority := priority, dueDate := dueField))
  }

  /** Toggling the same id twice restores the list. */
  lemma {:induction false} ToggleTwice(s: seq<Task>, id: int)
    ensures ToggleComplete(ToggleComplete(s, id), id) == s
  {
  }

  /** Deleting removes exactly the tasks carrying `id`: the list shrinks by their number. */
  lemma DeleteCount(s: seq<Task>, id: int)
    ensures |DeleteTask(s, id)| == |s| - |Keep(s, (t: Task) => t.id == id)|
  {
    KeepSplits(s, (t: Task) => t.id != id, (t: Task) => t.id == id);
  }

  /** Two lists with the same ids position by position are alike in id uniqueness. */
  lemma SameIdsSameUniqueness(s: seq<Task>, r: seq<Task>)
    requires |r| == |s| && forall i :: 0 <= i < |s| ==> r[i].id == s[i].id
    ensures UniqueIds(r) <==> UniqueIds(s)
  {
  }

  /** Adding under a fresh id keeps ids unique. */
  lemma AddKeepsIdsUnique(s: seq<Task>, id: int, text: string, priority: Priority, dueField: Option<Day>)
    requires UniqueIds(s) && Absent(s, id)
    ensures UniqueIds(AddTask(s, id, text, priority, dueField))
  {
  }

  /** Deleting, toggling and editing keep ids unique. */
  lemma ChangesKeepIdsUnique(s: seq<Task>, id: int, text: string, priority: Priority, dueField: Option<Day>)
    requires UniqueIds(s)
    ensures UniqueIds(DeleteTask(s, id))
    ensures UniqueIds(ToggleComplete(s, id))
    ensures UniqueIds(SaveEdit(s, id, text, priority, dueField))
  {
    KeepPairwise(s, (t: Task) => t.id != id, DistinctIds);
    SameIdsSameUniqueness(s, ToggleComplete(s, id));
    SameIdsSameUniqueness(s, SaveEdit(s, id, text, priority, dueField));
  }

  /** Editing may store a blank text, which adding would have refused. */
  lemma EditAcceptsBlank(s: seq<Task>, i: int, priority: Priority, dueField: Option<Day>)
    requires 0 <= i < |s|
    ensures AddTask(s, s[i].id, "", priority, dueField) == s
    ensures SaveEdit(s, s[i].id, "", priority, dueField)[i].text == ""
  {
  }
}
