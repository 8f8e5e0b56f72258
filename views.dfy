/** The derived views: the filtered list behind the filter buttons and the
    search box, and the counters in the footer. */
module Views {
  import opened Tasks
  import opened Text
  import opened Sequences

  /** The filter-button half of the `filteredTasks` predicate: 'all' passes
      every task, 'active' the incomplete ones, 'completed' the completed ones. */
  predicate MatchesFilter(t: Task, mode: FilterMode): (b: bool)
    ensures mode == All ==> b
    ensures mode != All ==> (b <==> t.completed == (mode == Completed))
  {
    match mode
    case All => true
    case Completed => t.completed
    case Active => !t.completed
  }

  /** The search half: case-insensitive substring match on the text. The
      empty term matches every task, and a match needs a term no longer than
      the text. */
  predicate MatchesSearch(t: Task, term: string): (b: bool)
    ensures term == "" ==> b
    ensures b ==> |term| <= |t.text|
  {
    EmptyIsIncluded(Lower(t.text));
    Includes(Lower(t.text), Lower(term))
  }

  predicate Visible(t: Task, mode: FilterMode, term: string) {
    MatchesFilter(t, mode) && MatchesSearch(t, term)
  }

  /** `filteredTasks`: the stored tasks that pass both the filter and the search,
      in stored order, each with its stored multiplicity. */
  function FilteredTasks(s: seq<Task>, mode: FilterMode, term: string): (r: seq<Task>)
    ensures IsSubsequence(r, s)
    ensures forall t :: t in r <==> t in s && Visible(t, mode, term)
    ensures forall t :: t in r ==> multiset(r)[t] == multiset(s)[t]
  {
    var visible := (t: Task) => Visible(t, mode, term);
    KeepIsSubsequence(s, visible);
    KeepSpec(s, visible);
    Keep(s, visible)
  }

  /** Mode 'all' with an empty search shows the whole list, in stored order. */
  lemma AllUnsearchedIsEverything(s: seq<Task>)
    ensures FilteredTasks(s, All, "") == s
  {
    forall i | 0 <= i < |s| ensures Visible(s[i], All, "") {
      EmptyIsIncluded(Lower(s[i].text));
    }
    KeepAll(s, (t: Task) => Visible(t, All, ""));
  }

  /** With an empty search, 'active' and 'completed' split the list by the
      completed flag: every stored task lands in exactly one of them. */
  lemma ActiveCompletedPartition(s: seq<Task>)
    ensures forall t :: t in FilteredTasks(s, Active, "") <==> t in s && !t.completed
    ensures forall t :: t in FilteredTasks(s, Completed, "") <==> t in s && t.completed
    ensures multiset(FilteredTasks(s, Active, "")) + multiset(FilteredTasks(s, Completed, "")) == multiset(s)
  {
    forall t: Task ensures MatchesSearch(t, "") {
      EmptyIsIncluded(Lower(t.text));
    }
    KeepSplits(s, (t: Task) => Visible(t, Active, ""), (t: Task) => Visible(t, Completed, ""));
  }

  /** The search is a substring match that ignores the case of ASCII letters:
      a task matches exactly when the term lines up with some stretch of its
      text, letter by letter, up to case. */
  lemma SearchIgnoresCase(t: Task, term: string)
    ensures MatchesSearch(t, term) <==> exists i :: OccursAtIgnoringCase(t.text, term, i)
  {
    forall i ensures OccursAt(Lower(t.text), Lower(term), i) <==> OccursAtIgnoringCase(t.text, term, i) {
      LowerOccursAt(t.text, term, i);
    }
  }

  /** Two terms that differ only in the case of their letters find the same tasks. */
  lemma SearchTermCaseIrrelevant(t: Task, term: string, other: string)
    requires |other| == |term| && forall j :: 0 <= j < |term| ==> LowerChar(other[j]) == LowerChar(term[j])
    ensures MatchesSearch(t, other) == MatchesSearch(t, term)
  {
    assert Lower(other) == Lower(term);
  }

  /** The "tasks remaining" counter: incomplete tasks of the filtered view. It
      counts the 'active' view under the same search, except under the
      'completed' filter, where nothing incomplete is shown. */
  function RemainingCount(s: seq<Task>, mode: FilterMode, term: string): (n: nat)
    ensures n == if mode == Completed then 0 else |FilteredTasks(s, Active, term)|
    ensures n <= |FilteredTasks(s, mode, term)|
  {
    var view := FilteredTasks(s, mode, term);
    var r := Keep(view, (t: Task) => !t.completed);
    assert mode == Completed ==> r == [] by {
      KeepSpec(view, (t: Task) => !t.completed);
      assert r != [] ==> r[0] in r;
    }
    assert mode != Completed ==> r == FilteredTasks(s, Active, term) by {
      if mode != Completed {
        KeepKeep(s, (t: Task) => Visible(t, mode, term), (t: Task) => !t.completed,
                 (t: Task) => Visible(t, Active, term));
      }
    }
    |r|
  }

  /** The "Total tasks" counter: the whole stored list, which the 'active' and
      'completed' views split between them. */
  function TotalCount(s: seq<Task>): (n: nat)
    ensures n == |FilteredTasks(s, All, "")|
    ensures n == |FilteredTasks(s, Active, "")| + |FilteredTasks(s, Completed, "")|
  {
    AllUnsearchedIsEverything(s);
    KeepSplits(s, (t: Task) => Visible(t, Active, ""), (t: Task) => Visible(t, Completed, ""));
    |s|
  }

  /** The "Completed" counter, over the whole stored list: the size of the
      unsearched 'completed' view, zero exactly when nothing is completed. */
  function CompletedCount(s: seq<Task>): (n: nat)
    ensures n == |FilteredTasks(s, Completed, "")|
    ensures n <= |s|
    ensures n == 0 <==> forall i :: 0 <= i < |s| ==> !s[i].completed
  {
    var r := Keep(s, (t: Task) => t.completed);
    KeepSpec(s, (t: Task) => t.completed);
    assert r != [] ==> r[0] in r;
    assert (exists i :: 0 <= i < |s| && s[i].completed) ==> r != [] by {
      if i :| 0 <= i < |s| && s[i].completed { assert s[i] in r; }
    }
    assert r == FilteredTasks(s, Completed, "") by {
      KeepSame(s, (t: Task) => t.completed, (t: Task) => Visible(t, Completed, ""));
    }
    |r|
  }

  /** Remaining plus completed is the total, and under any search term the
      remaining counter plus the completed matches fill the 'all' view. */
  lemma CountsAddUp(s: seq<Task>, term: string)
    ensures RemainingCount(s, All, "") + CompletedCount(s) == TotalCount(s)
    ensures RemainingCount(s, All, term) + |FilteredTasks(s, Completed, term)| == |FilteredTasks(s, All, term)|
  {
    var view := FilteredTasks(s, All, term);
    KeepSplits(view, (t: Task) => !t.completed, (t: Task) => t.completed);
    KeepKeep(s, (t: Task) => Visible(t, All, term), (t: Task) => t.completed,
             (t: Task) => Visible(t, Completed, term));
  }

  /** The search scenario: "Buy groceries" is found by "buy", "GROCERIES" and
      "groc", and not by "milk". */
  lemma SearchScenario()
    ensures var t := Task(2, "Buy groceries", true, Medium, None);
      MatchesSearch(t, "buy") && MatchesSearch(t, "GROCERIES") &&
      MatchesSearch(t, "groc") && !MatchesSearch(t, "milk")
  {
    var text := Lower("Buy groceries");
    assert text == "buy groceries";
    assert OccursAt(text, Lower("buy"), 0);
    assert OccursAt(text, Lower("GROCERIES"), 4);
    assert OccursAt(text, Lower("groc"), 4);
    assert Lower("milk")[0] == 'm';
    FirstCharMissing(text, Lower("milk"));
  }
}
