/** The display order: the `sortTasks` comparator and the sorted copy of the
    filtered view. */
module Ordering {
  import opened Tasks
  import opened Sequences
  import opened Views

  /** `sortTasks(a, b)`: negative when `a` is shown first, positive when `b` is,
      zero on a tie. Priority descending, then due date ascending when both
      have one, then dated before undated, then id descending. */
  function Compare(a: Task, b: Task): (r: int)
    ensures Rank(a.priority) > Rank(b.priority) ==> r < 0
    ensures Rank(a.priority) < Rank(b.priority) ==> r > 0
    ensures a.priority == b.priority && a.dueDate.Some? && b.dueDate.Some? ==>
      (r < 0 <==> a.dueDate.value < b.dueDate.value) && (r == 0 <==> a.dueDate == b.dueDate)
    ensures a.priority == b.priority && a.dueDate.Some? && b.dueDate.None? ==> r < 0
    ensures a.priority == b.priority && a.dueDate.None? && b.dueDate.None? ==>
      (r < 0 <==> a.id > b.id) && (r == 0 <==> a.id == b.id)
  {
    if Rank(b.priority) != Rank(a.priority) then Rank(b.priority) - Rank(a.priority)
    else if a.dueDate.Some? && b.dueDate.Some? then a.dueDate.value - b.dueDate.value
    else if a.dueDate.Some? then -1
    else if b.dueDate.Some? then 1
    else b.id - a.id
  }

  /** An independent description of the same order: the lexicographic order of
      (priority rank negated, undated flag, due date or id negated). */
  function Key(t: Task): (int, int, int) {
    (-Rank(t.priority),
     if t.dueDate.Some? then 0 else 1,
     if t.dueDate.Some? then t.dueDate.value else -t.id)
  }

  predicate KeyBefore(k: (int, int, int), l: (int, int, int)) {
    k.0 < l.0 || (k.0 == l.0 && (k.1 < l.1 || (k.1 == l.1 && k.2 < l.2)))
  }

  /** The comparator agrees with the key order: it is negative exactly when the
      first key comes first, and zero exactly when the keys are equal. */
  lemma CompareIsKeyOrder(a: Task, b: Task)
    ensures Compare(a, b) < 0 <==> KeyBefore(Key(a), Key(b))
    ensures Compare(a, b) == 0 <==> Key(a) == Key(b)
  {
  }

  /** The comparator ties every task with itself and is antisymmetric. */
  lemma CompareRules(a: Task, b: Task)
    ensures Compare(a, a) == 0
    ensures Compare(a, b) == -Compare(b, a)
  {
  }

  /** "Not after" is transitive, so the comparator is consistent. */
  lemma {:induction false} CompareTransitive(a: Task, b: Task, c: Task)
    requires Compare(a, b) <= 0 && Compare(b, c) <= 0
    ensures Compare(a, c) <= 0
  {
    CompareIsKeyOrder(a, b);
    CompareIsKeyOrder(b, c);
    CompareIsKeyOrder(a, c);
  }

  /** Tasks tied with the same task are tied with each other. */
  lemma TiesAreEquivalent(a: Task, b: Task, k: Task)
    requires Compare(a, k) == 0 && Compare(b, k) == 0
    ensures Compare(a, b) == 0
  {
    CompareIsKeyOrder(a, k);
    CompareIsKeyOrder(b, k);
    CompareIsKeyOrder(a, b);
  }

  /** No task of `s` should be shown after a later one. */
  predicate Sorted(s: seq<Task>) {
    forall i, j :: 0 <= i < j < |s| ==> Compare(s[i], s[j]) <= 0
  }

  /** Places `x` before the first task it is not after: ahead of its ties. */
  function Insert(x: Task, s: seq<Task>): (r: seq<Task>)
    ensures |r| == |s| + 1
    ensures multiset(r) == multiset(s) + multiset{x}
  {
    if s == [] then [x]
    else if Compare(x, s[0]) <= 0 then [x] + s
    else
      assert s == [s[0]] + s[1..];
      [s[0]] + Insert(x, s[1..])
  }

  /** A stable sort by the comparator (insertion sort from the back). */
  function Sort(s: seq<Task>): (r: seq<Task>)
    ensures |r| == |s|
    ensures multiset(r) == multiset(s)
  {
    if s == [] then []
    else
      assert s == [s[0]] + s[1..];
      Insert(s[0], Sort(s[1..]))
  }

  lemma SortedTail(s: seq<Task>)
    requires Sorted(s) && s != []
    ensures Sorted(s[1..])
  {
  }

  lemma SortedCons(x: Task, s: seq<Task>)
    requires Sorted(s)
    requires forall j :: 0 <= j < |s| ==> Compare(x, s[j]) <= 0
    ensures Sorted([x] + s)
  {
  }

  lemma {:induction false} InsertSorted(x: Task, s: seq<Task>)
    requires Sorted(s)
    ensures Sorted(Insert(x, s))
    decreases |s|
  {
    if s != [] {
      if Compare(x, s[0]) <= 0 {
        forall j | 0 <= j < |s| ensures Compare(x, s[j]) <= 0 {
          if j > 0 { CompareTransitive(x, s[0], s[j]); }
        }
        SortedCons(x, s);
      } else {
        var tail := s[1..];
        SortedTail(s);
        InsertSorted(x, tail);
        var rest := Insert(x, tail);
        forall j | 0 <= j < |rest| ensures Compare(s[0], rest[j]) <= 0 {
          assert rest[j] in multiset(rest);
          if rest[j] != x {
            assert rest[j] in multiset(tail);
            var k :| 0 <= k < |tail| && tail[k] == rest[j];
            assert s[k + 1] == rest[j];
          }
        }
        SortedCons(s[0], rest);
      }
    }
  }

  /** The sort's result is ordered by the comparator. */
  lemma {:induction false} SortSorted(s: seq<Task>)
    ensures Sorted(Sort(s))
  {
    if s != [] {
      SortSorted(s[1..]);
      InsertSorted(s[0], Sort(s[1..]));
    }
  }

  /** The tasks of `s` that tie with `k`, in their order in `s`. */
  function TiesWith(s: seq<Task>, k: Task): seq<Task> {
    Keep(s, TiedTo(k))
  }

  function TiedTo(k: Task): Task -> bool {
    (t: Task) => Compare(t, k) == 0
  }

  lemma {:induction false} InsertStable(x: Task, s: seq<Task>, k: Task)
    ensures TiesWith(Insert(x, s), k) == TiesWith([x], k) + TiesWith(s, k)
    decreases |s|
  {
    var tie := TiedTo(k);
    KeepCons(x, [], tie);
    assert [x] + [] == [x];
    if s == [] {
    } else if Compare(x, s[0]) <= 0 {
      KeepCons(x, s, tie);
    } else {
      var tail := s[1..];
      InsertStable(x, tail, k);
      var rest := Insert(x, tail);
      var first := if tie(s[0]) then [s[0]] else [];
      var mine := if tie(x) then [x] else [];
      assert Insert(x, s) == [s[0]] + rest;
      KeepCons(s[0], rest, tie);
      assert TiesWith(Insert(x, s), k) == first + (mine + Keep(tail, tie));
      assert s == [s[0]] + tail;
      KeepCons(s[0], tail, tie);
      assert TiesWith(s, k) == first + Keep(tail, tie);
      assert first == [] || mine == [] by {
        if tie(x) && tie(s[0]) {
          TiesAreEquivalent(x, s[0], k);
        }
      }
    }
  }

  /** The sort is stable: among tasks that tie, the input order is kept. */
  lemma {:induction false} SortStable(s: seq<Task>, k: Task)
    ensures TiesWith(Sort(s), k) == TiesWith(s, k)
  {
    if s != [] {
      SortStable(s[1..], k);
      InsertStable(s[0], Sort(s[1..]), k);
      KeepCons(s[0], s[1..], TiedTo(k));
      KeepCons(s[0], [], TiedTo(k));
      assert [s[0]] + [] == [s[0]];
      assert s == [s[0]] + s[1..];
    }
  }

  /** `sortedTasks`: the filtered view in display order. It is built as a new
      list, so the stored list keeps its insertion order. */
  function SortedTasks(s: seq<Task>, mode: FilterMode, term: string): (r: seq<Task>)
    ensures multiset(r) == multiset(FilteredTasks(s, mode, term))
    ensures Sorted(r)
    ensures forall k :: TiesWith(r, k) == TiesWith(FilteredTasks(s, mode, term), k)
  {
    var view := FilteredTasks(s, mode, term);
    SortSorted(view);
    forall k ensures TiesWith(Sort(view), k) == TiesWith(view, k) {
      SortStable(view, k);
    }
    Sort(view)
  }

  /** Scenario: two high-priority tasks and a low-priority one. The high ones
      come first, by ascending due date; the low one comes last whatever its date. */
  lemma SortScenarioPriorityThenDate(a: Task, b: Task, c: Task)
    requires a.priority == Low && b.priority == High && c.priority == High
    requires b.dueDate.Some? && c.dueDate.Some? && c.dueDate.value < b.dueDate.value
    ensures Sort([a, b, c]) == [c, b, a]
  {
    assert [a, b, c][1..] == [b, c] && [b, c][1..] == [c];
    assert Sort([c]) == [c] by {
      assert [c][1..] == [];
    }
    assert Insert(b, [c]) == [c, b] by {
      assert Compare(b, c) > 0 && [c][1..] == [];
    }
    assert Sort([b, c]) == [c, b];
    assert Insert(a, [b]) == [b, a] by {
      assert Compare(a, b) > 0 && [b][1..] == [];
    }
    assert Insert(a, [c, b]) == [c] + [b, a] by {
      assert Compare(a, c) > 0 && [c, b][1..] == [b];
    }
  }

  /** Scenario: at equal priority, a dated task comes before an undated one,
      whichever was stored first. */
  lemma SortScenarioDatedFirst(d: Task, e: Task)
    requires d.priority == e.priority && d.dueDate.None? && e.dueDate.Some?
    ensures Sort([d, e]) == [e, d]
    ensures Sort([e, d]) == [e, d]
  {
    assert [d, e][1..] == [e] && [e][1..] == [];
    assert [e, d][1..] == [d] && [d][1..] == [];
    assert Sort([e]) == [e] && Sort([d]) == [d];
    assert Compare(d, e) > 0 && Compare(e, d) < 0;
  }
}
