/**
 * The task list of the `Home` page as values: the task record, the draft of
 * the "Add New Todo" form, the seed list, and the new lists that the view
 * filter and the add, toggle and delete handlers compute from the old one.
 */
module Todos {
  import opened Text
  import opened Seqs

  /** One task. `date` is the display string captured when the task is created. */
  datatype Todo = Todo(id: int, title: string, description: string, date: string, completed: bool)

  /** The contents of the "Add New Todo" inputs. */
  datatype Draft = Draft(title: string, description: string)

  /** The tab value that shows pending tasks; every other value shows completed ones. */
  const TodosTab: string := "todos"

  /** The tab value the "Completed" button selects. */
  const CompletedTab: string := "completed"

  const EmptyDraft: Draft := Draft("", "")

  /** The date string every seed task carries. */
  const SeedDate: string := "November 20, 2025 09:23 PM"

  // ---------------------------------------------------------------------------
  // Ids

  /** Some task in `s` has id `id`. */
  predicate HasId(s: seq<Todo>, id: int) {
    exists i :: 0 <= i < |s| && s[i].id == id
  }

  /** Number of tasks in `s` whose id is `id`. */
  function Occurrences(s: seq<Todo>, id: int): nat {
    if s == [] then 0 else (if s[0].id == id then 1 else 0) + Occurrences(s[1..], id)
  }

  /** No two tasks of `s` share an id. */
  predicate DistinctIds(s: seq<Todo>) {
    forall i, j :: 0 <= i < j < |s| ==> s[i].id != s[j].id
  }

  /** An id occurs in `s` exactly when it is counted at least once. */
  lemma {:induction false} OccurrencesPositive(s: seq<Todo>, id: int)
    ensures Occurrences(s, id) > 0 <==> HasId(s, id)
  {
    if s != [] {
      OccurrencesPositive(s[1..], id);
      if HasId(s[1..], id) {
        var i :| 0 <= i < |s| - 1 && s[1..][i].id == id;
        assert s[i + 1].id == id;
      }
      if HasId(s, id) && s[0].id != id {
        var i :| 0 <= i < |s| && s[i].id == id;
        assert s[1..][i - 1].id == id;
      }
    }
  }

  /** With distinct ids, an id that occurs at index `k` occurs there and nowhere else. */
  lemma {:induction false} OccurrencesDistinct(s: seq<Todo>, k: int)
    requires DistinctIds(s) && 0 <= k < |s|
    ensures Occurrences(s, s[k].id) == 1
  {
    if k == 0 {
      assert !HasId(s[1..], s[0].id);
      OccurrencesPositive(s[1..], s[0].id);
    } else {
      OccurrencesDistinct(s[1..], k - 1);
    }
  }

  // ---------------------------------------------------------------------------
  // Well-formed tasks

  /**
   * A task as `addTodo` creates it: title and description each hold a
   * character that is not white space (BlankIffAllWhiteSpace: neither is blank).
   */
  predicate WellFormed(t: Todo) {
    !AllWhiteSpace(t.title) && !AllWhiteSpace(t.description)
  }

  predicate AllWellFormed(s: seq<Todo>) {
    forall i :: 0 <= i < |s| ==> WellFormed(s[i])
  }

  // ---------------------------------------------------------------------------
  // Seed list

  // The five sample tasks. Each description is written as two literals joined
  // by `+` so that the verifier can read its first character; the joined string
  // is the one the page shows.
  const Grocery: Todo := Todo(1700445601, "Grocery Shopping",
    "Pick " + "up milk, eggs, cheese, and fresh produce from the market.", SeedDate, false)
  const Bills: Todo := Todo(1700445602, "Pay Utility Bills",
    "Ensure " + "electricity and internet bills are paid before the due date (Friday).", SeedDate, false)
  const CallMom: Todo := Todo(1700445603, "Call Mom",
    "Check " + "in and finalize plans for the upcoming holiday weekend.", SeedDate, false)
  const CarWash: Todo := Todo(1700445604, "Car Wash",
    "Take " + "the car to the wash and check the tire pressure.", SeedDate, false)
  const Appointment: Todo := Todo(1700445605, "Book Appointment",
    "Schedule " + "the annual physical check-up with Dr. Peterson.", SeedDate, false)

  /** The list loaded when the page mounts: five pending tasks with distinct ids. */
  function SampleTodos(): (r: seq<Todo>)
    ensures |r| == 5
    ensures DistinctIds(r)
    ensures forall i :: 0 <= i < |r| ==> !r[i].completed
  {
    [Grocery, Bills, CallMom, CarWash, Appointment]
  }

  /** A task whose title and description start with a character other than white space is well formed. */
  lemma VisibleStartWellFormed(t: Todo)
    requires t.title != [] && !IsWhiteSpace(t.title[0])
    requires t.description != [] && !IsWhiteSpace(t.description[0])
    ensures WellFormed(t)
  {
  }

  /** Every sample task has a non-blank title and description. */
  lemma SampleTodosWellFormed()
    ensures AllWellFormed(SampleTodos())
  {
    VisibleStartWellFormed(Grocery);
    VisibleStartWellFormed(Bills);
    VisibleStartWellFormed(CallMom);
    VisibleStartWellFormed(CarWash);
    VisibleStartWellFormed(Appointment);
    var r := SampleTodos();
    forall i | 0 <= i < |r|
      ensures WellFormed(r[i])
    {
      assert r[i] in {Grocery, Bills, CallMom, CarWash, Appointment};
    }
  }

  // ---------------------------------------------------------------------------
  // View filter

  /** The title or the description contains the search term, ignoring (ASCII) case. */
  predicate MatchesSearch(t: Todo, term: string)
    ensures MatchesSearch(t, term) <==>
              Occurs(Lower(t.title), Lower(term)) || Occurs(Lower(t.description), Lower(term))
  {
    IncludesIffOccurs(Lower(t.title), Lower(term));
    IncludesIffOccurs(Lower(t.description), Lower(term));
    Includes(Lower(t.title), Lower(term)) || Includes(Lower(t.description), Lower(term))
  }

  /** The "todos" tab shows pending tasks; any other tab value shows completed ones. */
  predicate MatchesTab(t: Todo, tab: string)
    ensures tab != TodosTab ==> MatchesTab(t, tab) != MatchesTab(t, TodosTab)
    decreases if tab == TodosTab then 0 else 1
  {
    if tab == TodosTab then !t.completed else t.completed
  }

  predicate IsPending(t: Todo) {
    !t.completed
  }

  predicate IsCompleted(t: Todo) {
    t.completed
  }

  predicate Visible(t: Todo, term: string, tab: string) {
    MatchesSearch(t, term) && MatchesTab(t, tab)
  }

  /**
   * `filteredTodos`: an order-preserving subsequence of `todos`, made of tasks
   * matching both the search term and the tab, that leaves none of them out
   * (its length is their number).
   */
  function Filtered(todos: seq<Todo>, term: string, tab: string): (r: seq<Todo>)
    ensures IsSubsequence(r, todos)
    ensures forall i :: 0 <= i < |r| ==> MatchesSearch(r[i], term) && MatchesTab(r[i], tab)
    ensures |r| == CountIf(todos, (t: Todo) => Visible(t, term, tab))
  {
    Filter(todos, (t: Todo) => Visible(t, term, tab))
  }

  /** The empty search term matches every task. */
  lemma EmptyTermMatches(t: Todo)
    ensures MatchesSearch(t, "")
  {
    assert Lower("") == "";
    IncludesEmpty(Lower(t.title));
  }

  /** With an empty search term the "todos" tab lists exactly the pending tasks, in order. */
  lemma ViewPendingWithEmptyTerm(todos: seq<Todo>)
    ensures Filtered(todos, "", TodosTab) == Filter(todos, IsPending)
  {
    forall i | 0 <= i < |todos| {
      EmptyTermMatches(todos[i]);
    }
    FilterCongruent(todos, (t: Todo) => Visible(t, "", TodosTab), IsPending);
  }

  /** With an empty search term every other tab lists exactly the completed tasks, in order. */
  lemma ViewCompletedWithEmptyTerm(todos: seq<Todo>, tab: string)
    requires tab != TodosTab
    ensures Filtered(todos, "", tab) == Filter(todos, IsCompleted)
  {
    forall i | 0 <= i < |todos| {
      EmptyTermMatches(todos[i]);
    }
    FilterCongruent(todos, (t: Todo) => Visible(t, "", tab), IsCompleted);
  }

  /** With an empty search term the two tabs split the list: every task is on exactly one. */
  lemma TabsPartition(todos: seq<Todo>, tab: string)
    requires tab != TodosTab
    ensures multiset(Filtered(todos, "", TodosTab)) + multiset(Filtered(todos, "", tab)) == multiset(todos)
    ensures |Filtered(todos, "", TodosTab)| + |Filtered(todos, "", tab)| == |todos|
  {
    ViewPendingWithEmptyTerm(todos);
    ViewCompletedWithEmptyTerm(todos, tab);
    FilterMultiset(todos, IsPending);
    FilterMultiset(todos, IsCompleted);
    var pending := multiset(Filter(todos, IsPending));
    var completed := multiset(Filter(todos, IsCompleted));
    assert forall x :: (pending + completed)[x] == multiset(todos)[x];
    assert pending + completed == multiset(todos);
  }

  /** The search term is compared case-insensitively: lower-casing it changes nothing. */
  lemma ViewIgnoresTermCase(todos: seq<Todo>, term: string, tab: string)
    ensures Filtered(todos, Lower(term), tab) == Filtered(todos, term, tab)
  {
    LowerIdempotent(term);
    FilterCongruent(todos, (t: Todo) => Visible(t, Lower(term), tab), (t: Todo) => Visible(t, term, tab));
  }

  /** A task whose title or description contains the term verbatim matches it. */
  lemma LiteralOccurrenceMatches(t: Todo, term: string)
    requires Includes(t.title, term) || Includes(t.description, term)
    ensures MatchesSearch(t, term)
  {
    if Includes(t.title, term) {
      IncludesLower(t.title, term);
    } else {
      IncludesLower(t.description, term);
    }
  }

  /** A task is in the view exactly when it is in the list and visible. */
  lemma ViewMembers(todos: seq<Todo>, term: string, tab: string)
    ensures forall t :: t in Filtered(todos, term, tab) <==> t in todos && Visible(t, term, tab)
  {
    FilterMembers(todos, (x: Todo) => Visible(x, term, tab));
  }

  /** The view is empty ("No {activeTab} found.") exactly when no task is visible. */
  lemma EmptyViewIffNoneVisible(todos: seq<Todo>, term: string, tab: string)
    ensures Filtered(todos, term, tab) == [] <==>
            forall i :: 0 <= i < |todos| ==> !Visible(todos[i], term, tab)
  {
    var r := Filtered(todos, term, tab);
    if r == [] {
      forall i | 0 <= i < |todos|
        ensures !Visible(todos[i], term, tab)
      {
        ViewMembers(todos, term, tab);
      }
    } else {
      ViewMembers(todos, term, tab);
    }
  }

  // ---------------------------------------------------------------------------
  // addTodo

  /** `addTodo` proceeds only when both trimmed fields are non-empty. */
  predicate CanAdd(draft: Draft)
    ensures CanAdd(draft) <==> !AllWhiteSpace(draft.title) && !AllWhiteSpace(draft.description)
  {
    BlankIffAllWhiteSpace(draft.title);
    BlankIffAllWhiteSpace(draft.description);
    !IsBlank(draft.title) && !IsBlank(draft.description)
  }

  /**
   * The list after `addTodo` with id `id` (from the clock) and display date
   * `date`: unchanged when either field is blank; otherwise the old list
   * followed by one pending task holding the untrimmed draft strings.
   */
  function Added(todos: seq<Todo>, draft: Draft, id: int, date: string): (r: seq<Todo>)
    ensures !CanAdd(draft) ==> r == todos
    ensures CanAdd(draft) ==> |r| == |todos| + 1 && r[..|todos|] == todos
    ensures CanAdd(draft) ==> r[|todos|].id == id && r[|todos|].date == date && !r[|todos|].completed
    ensures CanAdd(draft) ==> r[|todos|].title == draft.title && r[|todos|].description == draft.description
  {
    if CanAdd(draft) then todos + [Todo(id, draft.title, draft.description, date, false)] else todos
  }

  /** Adding keeps every stored task well formed, and the new one is well formed. */
  lemma AddedWellFormed(todos: seq<Todo>, draft: Draft, id: int, date: string)
    requires AllWellFormed(todos)
    ensures AllWellFormed(Added(todos, draft, id, date))
  {
    BlankIffAllWhiteSpace(draft.title);
    BlankIffAllWhiteSpace(draft.description);
  }

  /** A fresh id keeps the ids distinct and the new task is the only one carrying it. */
  lemma {:induction false} AddedFreshId(todos: seq<Todo>, draft: Draft, id: int, date: string)
    requires DistinctIds(todos) && !HasId(todos, id) && CanAdd(draft)
    ensures DistinctIds(Added(todos, draft, id, date))
    ensures Occurrences(Added(todos, draft, id, date), id) == 1
  {
    var r := Added(todos, draft, id, date);
    OccurrencesDistinct(r, |todos|);
  }

  /** Deleting the id of a task just added with a fresh id restores the old list. */
  lemma AddThenDelete(todos: seq<Todo>, draft: Draft, id: int, date: string)
    requires !HasId(todos, id)
    ensures Deleted(Added(todos, draft, id, date), id) == todos
  {
    DeleteUnknown(todos, id);
    if CanAdd(draft) {
      var t := Todo(id, draft.title, draft.description, date, false);
      FilterAppend(todos, [t], (x: Todo) => x.id != id);
      assert Filter([t], (x: Todo) => x.id != id) == [];
    }
  }

  /** Completing a task just added with a fresh id changes only that task. */
  lemma ToggleAddedFresh(todos: seq<Todo>, draft: Draft, id: int, date: string)
    requires CanAdd(draft) && !HasId(todos, id)
    ensures Toggled(Added(todos, draft, id, date), id)
            == todos + [Todo(id, draft.title, draft.description, date, true)]
  {
    var added := Added(todos, draft, id, date);
    var done := Toggled(added, id);
    forall i | 0 <= i < |todos|
      ensures done[i] == todos[i]
    {
      assert added[i] == todos[i];
    }
  }

  /**
   * A task added with a fresh id and then completed joins the end of the
   * completed view (empty search term); deleting it then restores the list.
   */
  lemma {:induction false} AddCompleteDelete(todos: seq<Todo>, draft: Draft, id: int, date: string)
    requires CanAdd(draft) && !HasId(todos, id)
    ensures var done := Toggled(Added(todos, draft, id, date), id);
            && Filtered(done, "", CompletedTab) ==
               Filtered(todos, "", CompletedTab) + [Todo(id, draft.title, draft.description, date, true)]
            && Deleted(done, id) == todos
  {
    var task := Todo(id, draft.title, draft.description, date, true);
    ToggleAddedFresh(todos, draft, id, date);
    var done := todos + [task];
    ViewCompletedWithEmptyTerm(done, CompletedTab);
    ViewCompletedWithEmptyTerm(todos, CompletedTab);
    FilterAppend(todos, [task], IsCompleted);
    assert Filter([task], IsCompleted) == [task];
    DeleteAppend(todos, [task], id);
    DeleteUnknown(todos, id);
    assert Deleted([task], id) == [];
  }

  // ---------------------------------------------------------------------------
  // toggleTodo

  function Flip(t: Todo): Todo {
    t.(completed := !t.completed)
  }

  /**
   * `toggleTodo`: the same tasks in the same order, where every task whose id
   * is `id` has its `completed` flag negated and every other task is identical.
   */
  function Toggled(todos: seq<Todo>, id: int): (r: seq<Todo>)
    ensures |r| == |todos|
    ensures forall i :: 0 <= i < |r| ==>
              r[i].id == todos[i].id && r[i].title == todos[i].title &&
              r[i].description == todos[i].description && r[i].date == todos[i].date
    ensures forall i :: 0 <= i < |r| ==> (r[i].completed != todos[i].completed <==> todos[i].id == id)
  {
    if todos == [] then []
    else [if todos[0].id == id then Flip(todos[0]) else todos[0]] + Toggled(todos[1..], id)
  }

  /** Toggling the same id twice restores the list. */
  lemma ToggleTwice(todos: seq<Todo>, id: int)
    ensures Toggled(Toggled(todos, id), id) == todos
  {
  }

  /** Toggling an id that no task carries changes nothing. */
  lemma ToggleUnknown(todos: seq<Todo>, id: int)
    requires !HasId(todos, id)
    ensures Toggled(todos, id) == todos
  {
  }

  /** With distinct ids, toggling the id of the task at `k` flips that task only. */
  lemma ToggleOne(todos: seq<Todo>, k: int)
    requires DistinctIds(todos) && 0 <= k < |todos|
    ensures Toggled(todos, todos[k].id) == todos[k := Flip(todos[k])]
  {
  }

  /** Toggling changes neither the ids nor the well-formedness of the list. */
  lemma TogglePreserves(todos: seq<Todo>, id: int)
    ensures DistinctIds(todos) ==> DistinctIds(Toggled(todos, id))
    ensures AllWellFormed(todos) ==> AllWellFormed(Toggled(todos, id))
  {
  }

  // ---------------------------------------------------------------------------
  // deleteTodo

  /**
   * `deleteTodo`: an order-preserving subsequence of `todos` without the id,
   * shorter by exactly the number of tasks carrying the id, so every other
   * task stays.
   */
  function Deleted(todos: seq<Todo>, id: int): (r: seq<Todo>)
    ensures IsSubsequence(r, todos)
    ensures forall i :: 0 <= i < |r| ==> r[i].id != id
    ensures |r| == |todos| - Occurrences(todos, id)
  {
    OtherIdsCount(todos, id);
    Filter(todos, (t: Todo) => t.id != id)
  }

  /** The tasks not carrying `id` are all but its occurrences. */
  lemma {:induction false} OtherIdsCount(todos: seq<Todo>, id: int)
    ensures CountIf(todos, (t: Todo) => t.id != id) == |todos| - Occurrences(todos, id)
  {
    if todos != [] {
      OtherIdsCount(todos[1..], id);
    }
  }

  /** Deleting an id that no task carries changes nothing. */
  lemma DeleteUnknown(todos: seq<Todo>, id: int)
    requires !HasId(todos, id)
    ensures Deleted(todos, id) == todos
  {
    FilterAll(todos, (t: Todo) => t.id != id);
  }

  /** With distinct ids, deleting the id of the task at `k` removes that task only. */
  lemma {:induction false} DeleteOne(todos: seq<Todo>, k: int)
    requires DistinctIds(todos) && 0 <= k < |todos|
    ensures Deleted(todos, todos[k].id) == todos[..k] + todos[k + 1..]
    ensures |Deleted(todos, todos[k].id)| == |todos| - 1
  {
    var id, tail := todos[k].id, todos[1..];
    DeleteCons(todos, id);
    if k == 0 {
      assert !HasId(tail, id);
      DeleteUnknown(tail, id);
      assert todos[..k] + todos[k + 1..] == tail;
    } else {
      assert DistinctIds(tail);
      assert tail[k - 1] == todos[k];
      DeleteOne(tail, k - 1);
      assert todos[0].id != id;
      assert todos[..k] == [todos[0]] + tail[..k - 1];
      assert todos[k + 1..] == tail[k..];
    }
    OccurrencesDistinct(todos, k);
  }

  /** One step of the filter behind `deleteTodo`. */
  lemma DeleteCons(todos: seq<Todo>, id: int)
    requires todos != []
    ensures Deleted(todos, id) ==
            if todos[0].id == id then Deleted(todos[1..], id) else [todos[0]] + Deleted(todos[1..], id)
  {
  }

  /** Deleting from a concatenation deletes from each part. */
  lemma DeleteAppend(s: seq<Todo>, t: seq<Todo>, id: int)
    ensures Deleted(s + t, id) == Deleted(s, id) + Deleted(t, id)
  {
    FilterAppend(s, t, (x: Todo) => x.id != id);
  }

  /** A task is left after deleting exactly when it was in the list and does not carry the id. */
  lemma DeleteMembers(todos: seq<Todo>, id: int, x: Todo)
    ensures x in Deleted(todos, id) <==> x in todos && x.id != id
  {
    FilterMembers(todos, (t: Todo) => t.id != id);
  }

  /** Deleting keeps the remaining tasks well formed. */
  lemma DeleteKeepsWellFormed(todos: seq<Todo>, id: int)
    requires AllWellFormed(todos)
    ensures AllWellFormed(Deleted(todos, id))
  {
    var r := Deleted(todos, id);
    forall i | 0 <= i < |r|
      ensures WellFormed(r[i])
    {
      DeleteMembers(todos, id, r[i]);
    }
  }

  /** Deleting keeps the remaining ids distinct. */
  lemma {:induction false} DeleteKeepsDistinct(todos: seq<Todo>, id: int)
    requires DistinctIds(todos)
    ensures DistinctIds(Deleted(todos, id))
  {
    if todos != [] {
      var head, tail := todos[0], todos[1..];
      DeleteKeepsDistinct(tail, id);
      var rest := Deleted(tail, id);
      if head.id != id {
        assert Deleted(todos, id) == [head] + rest;
        forall i | 0 <= i < |rest|
          ensures rest[i].id != head.id
        {
          DeleteMembers(tail, id, rest[i]);
        }
      } else {
        assert Deleted(todos, id) == rest;
      }
    }
  }
}
