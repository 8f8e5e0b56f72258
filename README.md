# Task tracker: a verified model of the task-list logic

The tracker is a single React component (`app.js`) that keeps a list of tasks
in local storage. Each task has an id, a text, a completed flag, a priority
(high, medium or low) and an optional due date. Users add, delete, toggle and
edit tasks. They filter the list (all, active, completed), search it by text,
and see it sorted for display. Footer counters report remaining, total and
completed tasks.

This project models the list logic that sits under the markup:

- `tasks.dfy` (module `Tasks`): the task record, priorities and their ranks,
  filter modes, and due dates as day numbers.
- `sequences.dfy` (module `Sequences`): `Array.prototype.filter` as `Keep`,
  order-preserving subsequences, and properties that hold for every ordered
  pair of a list.
- `text.dfy` (module `Text`): `trim`, ASCII `toLowerCase` and `includes`.
- `collection.dfy` (module `Collection`): the list each handler builds:
  `addTask`, `deleteTask`, `toggleComplete` and `saveEdit`, plus id uniqueness.
- `views.dfy` (module `Views`): the `filteredTasks` predicate and the footer counters.
- `ordering.dfy` (module `Ordering`): the `sortTasks` comparator, a stable
  sort, and `sortedTasks`.
- `store.dfy` (module `Store`): the seed list, start-up from the storage slot,
  and the class `TaskStore`. Its handlers replace `tasks` and write the list
  through to the slot.

The pure list code (spread and append, `filter`, `map`, the comparator) is
written as functions with lemmas. The handlers, which replace component state
and trigger the storage effect, are methods of `TaskStore`. Its invariant
`Valid()` says that the slot holds the current list after every change.

Behaviours of the code that a reader might not expect, all kept by the model:

- All three seed tasks have a due date (`app.js:7-9`).
- `deleteTask`, `toggleComplete` and `saveEdit` always hand React a new array.
  So the slot is written even when no task carries the id (`Store.TaskStore.Delete`
  and its siblings count the writes).
- `saveEdit` does not check the text, so an edit can store a blank text
  (`Collection.EditAcceptsBlank`).
- Only an absent slot or an empty string selects the seed list. A stored empty
  list `[]` is kept as an empty list (`Store.InitialTasks`).
- Malformed stored JSON is not recovered from: `JSON.parse` would throw.

## Model

| member | source | states |
|---|---|---|
| `Tasks.Rank` | app.js:106 | the `priorityOrder` table: every priority has a rank between 1 and 3 |
| `Tasks.RankOrder` | app.js:106 | high outranks medium, medium outranks low, and distinct priorities have distinct ranks |
| `Tasks.DayNumberOrder` | app.js:111 | day numbers order dates the way the ISO `YYYY-MM-DD` spellings do: by year, then month, then day |
| `Sequences.Keep` | app.js:43 | `filter` never returns more elements than it is given |
| `Sequences.KeepSpec` | app.js:70 | `filter` keeps exactly the elements satisfying the predicate, each as often as it occurs in the input, and drops all others |
| `Text.Trim` | app.js:26 | neither end of the trimmed text is whitespace |
| `Text.TrimIsMiddle` | app.js:26 | the trimmed text is the stretch of the input between a blank prefix and a blank suffix |
| `Text.TrimEmptyIffBlank` | app.js:26 | `trim()` yields the empty string exactly when every character is ECMAScript whitespace or a line terminator |
| `Text.Lower` | app.js:76 | same length; each character is lower-cased on its own: `A`-`Z` become `a`-`z` (code point plus 32), every other character is kept |
| `Text.LowerLeavesNoCapital` | app.js:76 | no capital letter is left after lower-casing, so lower-casing twice is lower-casing once |
| `Text.Includes` | app.js:76 | `includes` is true exactly when the needle occurs at some position of the text |
| `Collection.Update` | app.js:47-49 | the `tasks.map(task => task.id === id ? f(task) : task)` pattern that `toggleComplete` and `saveEdit` (app.js:60-62) share: same length; position by position, a task carrying the id becomes `f(task)` and every other task is kept |
| `Collection.AddTask` | app.js:25-36 | blank text leaves the list unchanged; otherwise exactly one task is appended and earlier tasks are unchanged. The new task has the given id, the untrimmed text, completed false, the chosen priority, and no due date when the date field is empty |
| `Collection.AddKeepsIdsUnique` | app.js:28-36 | adding under an id no stored task carries keeps ids unique |
| `Collection.DeleteTask` | app.js:42-44 | the result is an order-preserving subsequence. No task in it carries the id. Every task with another id keeps its multiplicity. An absent id leaves the list unchanged |
| `Collection.DeleteCount` | app.js:43 | the list shrinks by exactly the number of tasks carrying the id |
| `Collection.ToggleComplete` | app.js:46-50 | same length; `completed` flips exactly on the tasks carrying the id; every other field and every other task is unchanged |
| `Collection.ToggleTwice` | app.js:46-50 | toggling the same id twice restores the original list |
| `Collection.SaveEdit` | app.js:59-62 | same length, same ids and same completed flags position by position. Matching tasks get the new text, priority and due date. Other tasks are unchanged |
| `Collection.ChangesKeepIdsUnique` | app.js:42-62 | delete, toggle and edit keep ids unique |
| `Collection.EditAcceptsBlank` | app.js:59-62 | an edit stores the empty text, which adding refuses |
| `Views.MatchesFilter` | app.js:71-74 | 'all' passes every task; 'completed' passes exactly the completed tasks and 'active' exactly the incomplete ones |
| `Views.MatchesSearch` | app.js:76 | the empty term matches every task; a match needs a term no longer than the text |
| `Views.FilteredTasks` | app.js:70-79 | the view is an order-preserving subsequence of the stored list. It holds exactly the tasks matching both the mode and the case-insensitive search, each with its stored multiplicity |
| `Views.AllUnsearchedIsEverything` | app.js:70-79 | mode 'all' with an empty search returns the whole list in stored order |
| `Views.ActiveCompletedPartition` | app.js:71-74 | with an empty search, 'active' holds exactly the incomplete tasks and 'completed' exactly the completed ones; together they make up the stored list |
| `Views.SearchIgnoresCase` | app.js:76 | a task matches exactly when, at some position of its text, the term agrees with the text letter by letter once ASCII case is ignored |
| `Views.SearchTermCaseIrrelevant` | app.js:76 | two terms that differ only in the case of their letters match the same tasks |
| `Views.SearchScenario` | app.js:76 | "Buy groceries" is found by "buy", "GROCERIES" and "groc", not by "milk" |
| `Views.RemainingCount` | app.js:309 | the remaining counter is the size of the 'active' view under the same search, except under the 'completed' filter, where it is zero; it never exceeds the filtered view |
| `Views.TotalCount` | app.js:312 | the total is the size of the unfiltered, unsearched view, and the sum of the unsearched 'active' and 'completed' views |
| `Views.CompletedCount` | app.js:312 | the completed counter is the size of the unsearched 'completed' view; it is at most the total and zero exactly when no task is completed |
| `Views.CountsAddUp` | app.js:309-312 | remaining plus completed equals the total; under any search term, the remaining counter plus the completed matches equals the size of the 'all' view |
| `Ordering.Compare` | app.js:105-116 | a higher priority sorts first. At equal priority the earlier date sorts first and equal dates tie, a dated task sorts before an undated one, and of two undated tasks the larger id sorts first and equal ids tie |
| `Ordering.CompareIsKeyOrder` | app.js:105-116 | the comparator is negative exactly when the first task's key (priority descending, dated first, date ascending, id descending) is smaller, and zero exactly when the keys are equal |
| `Ordering.CompareRules` | app.js:105-116 | `cmp(a,a) = 0` and `cmp(a,b) = -cmp(b,a)` |
| `Ordering.CompareTransitive` | app.js:105-116 | "not after" is transitive, so the comparator is a consistent order |
| `Ordering.TiesAreEquivalent` | app.js:105-116 | two tasks tied with the same task are tied with each other |
| `Ordering.Insert` | app.js:118 | inserting adds exactly the one task: one element longer, the same multiset plus that task |
| `Ordering.Sort` | app.js:118 | the sort returns a permutation of its input: same length, same multiset |
| `Ordering.SortSorted` | app.js:118 | the sort's result is ordered by the comparator |
| `Ordering.SortStable` | app.js:118 | the sort is stable: tasks that tie keep their input order |
| `Ordering.SortedTasks` | app.js:118 | the sorted view is a permutation of the filtered view, ordered by the comparator, with ties in filtered order |
| `Ordering.SortScenarioPriorityThenDate` | app.js:105-116 | two high-priority tasks sort by ascending date ahead of a low-priority task, whatever its date |
| `Ordering.SortScenarioDatedFirst` | app.js:110-114 | at equal priority, a dated task sorts before an undated one, whichever was stored first |
| `Store.Seed` | app.js:6-10 | three tasks with distinct ids and non-blank texts, all dated. They have priorities high, medium and low, and only the second is completed |
| `Store.InitialTasks` | app.js:4-11 | a present slot is used as it is, an empty stored list included; otherwise the seed list |
| `Store.TaskStore.constructor` | app.js:4-23 | start-up takes the initial list and writes it to the slot once |
| `Store.TaskStore.Commit` | app.js:21-23 | replacing the list writes it to the slot, exactly once |
| `Store.TaskStore.Add` | app.js:25-40 | the list becomes `AddTask` of the old list. The slot still holds the list. Blank text causes no write, other text one write. Unique ids stay unique |
| `Store.TaskStore.Delete` | app.js:42-44 | the list becomes `DeleteTask` of the old list; the slot holds it; one write, even for an absent id; unique ids stay unique |
| `Store.TaskStore.Toggle` | app.js:46-50 | the list becomes `ToggleComplete` of the old list; the slot holds it; one write; unique ids stay unique |
| `Store.TaskStore.Edit` | app.js:59-64 | the list becomes `SaveEdit` of the old list; the slot holds it; one write; unique ids stay unique |
| `Store.Reopen` | app.js:4-23 | starting again from what the slot holds gives back the same list |

## Left out

- Markup, CSS classes, and the `getPriorityColor` / `getPriorityLabel` lookups (`app.js:81-97`, `app.js:120-331`). They are presentation only.
- `formatDate` and the overdue badge (`app.js:99-103`, `app.js:271`). They depend on locale formatting and the wall clock.
- The `Date.now()` id (`app.js:29`) reads the clock. `Store.TaskStore.Add` takes the id as a parameter and requires that no stored task carries it.
- `JSON.stringify`, `JSON.parse` and `localStorage` are foreign calls. The slot is modelled as holding the list itself (`Option<seq<Task>>`, None for an absent slot or an empty string). Encoding round-trips and malformed stored text are not modelled; on malformed text the source throws.
- React's state scheduling and re-rendering are not modelled. The edit-form state (`editingTask`, `editText`, `startEditing`, `cancelEdit`) and the form resets (`app.js:37-39`, `app.js:52-57`, `app.js:63`, `app.js:66-68`) are left out too. The form values that `addTask` and `saveEdit` read are parameters.
- Views.MatchesSearch: lower-cases the ASCII letters A-Z only, not the full Unicode `toLowerCase`. Strings are sequences of Unicode scalar values, not UTF-16 code units.
- Text.Lower: maps only `A`-`Z` to `a`-`z` and keeps every other character, so non-ASCII capitals (such as `É`), which `toLowerCase` would lower-case, are kept as they are.
- Ordering.Compare: due dates are day numbers, and the date branch returns their difference rather than a difference in milliseconds. Only the sign matters to the sort. A stored due date of `''`, which is falsy in the source, cannot be represented.
- Priorities and filter modes are three-valued enumerations. Unknown strings, which would give `NaN` comparisons or an empty filter, are not modelled.
- Ordering.Sort: stands for the engine's `Array.prototype.sort`. It is a stable insertion sort, proved ordered, a permutation and stable. Engines sort stably, so with this consistent comparator they give the same result; that is not proved about any engine.
- Ids are unbounded integers. The source's ids are JavaScript numbers from `Date.now()`, well inside the exactly representable range.
