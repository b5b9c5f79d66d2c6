/**
 * The `Home` component's state and its event handlers. Each handler is one
 * synchronous state update that assigns the value the pure functions of
 * module Todos compute from the current state.
 */
module HomePage {
  import opened Text
  import opened Seqs
  import opened Todos

  class Home {
    /** The task list (`todos`). */
    var todos: seq<Todo>
    /** The text of the search box (`searchTerm`). */
    var searchTerm: string
    /** The selected tab (`activeTab`): "todos" or "completed". */
    var activeTab: string
    /** The "Add New Todo" inputs (`newTodo`). */
    var newTodo: Draft

    /** Every stored task has a title and a description that are not blank. */
    ghost predicate Valid()
      reads this
    {
      AllWellFormed(todos)
    }

    /** The initial state: no tasks, empty search, the "todos" tab, an empty draft. */
    constructor ()
      ensures Valid()
      ensures todos == [] && searchTerm == "" && activeTab == TodosTab && newTodo == EmptyDraft
    {
      todos := [];
      searchTerm := "";
      activeTab := TodosTab;
      newTodo := EmptyDraft;
    }

    /** The mount effect: the list becomes the five sample tasks. */
    method LoadSamples()
      modifies this`todos
      ensures Valid()
      ensures todos == SampleTodos()
    {
      todos := SampleTodos();
      SampleTodosWellFormed();
    }

    /**
     * `filteredTodos`, recomputed from the current state: the stored tasks that
     * match the search box and the selected tab, in list order.
     */
    function FilteredTodos(): (r: seq<Todo>)
      reads this
      ensures IsSubsequence(r, todos)
      ensures forall t :: t in r <==> t in todos && MatchesSearch(t, searchTerm) && MatchesTab(t, activeTab)
    {
      ViewMembers(todos, searchTerm, activeTab);
      Filtered(todos, searchTerm, activeTab)
    }

    /**
     * `addTodo`, where `now` stands for `Date.now()` and `date` for the
     * formatted creation time. When both draft fields are non-blank after
     * trimming, the new pending task is appended and the draft is cleared;
     * otherwise nothing changes.
     */
    method AddTodo(now: int, date: string)
      requires Valid()
      modifies this`todos, this`newTodo
      ensures Valid()
      ensures todos == Added(old(todos), old(newTodo), now, date)
      ensures newTodo == if CanAdd(old(newTodo)) then EmptyDraft else old(newTodo)
    {
      AddedWellFormed(todos, newTodo, now, date);
      if !IsBlank(newTodo.title) && !IsBlank(newTodo.description) {
        var item := Todo(now, newTodo.title, newTodo.description, date, false);
        todos := todos + [item];
        newTodo := EmptyDraft;
      }
    }

    /** `toggleTodo`: flips `completed` on every task carrying `id`. */
    method ToggleTodo(id: int)
      requires Valid()
      modifies this`todos
      ensures Valid()
      ensures todos == Toggled(old(todos), id)
    {
      TogglePreserves(todos, id);
      todos := Toggled(todos, id);
    }

    /** `deleteTodo`: removes every task carrying `id`. */
    method DeleteTodo(id: int)
      requires Valid()
      modifies this`todos
      ensures Valid()
      ensures todos == Deleted(old(todos), id)
    {
      DeleteKeepsWellFormed(todos, id);
      todos := Deleted(todos, id);
    }

    /** The search box's change handler. */
    method SetSearchTerm(term: string)
      modifies this`searchTerm
      ensures searchTerm == term
    {
      searchTerm := term;
    }

    /** The tab buttons' click handlers. */
    method SetActiveTab(tab: string)
      modifies this`activeTab
      ensures activeTab == tab
    {
      activeTab := tab;
    }

    /** The title input's change handler: the description is kept. */
    method SetDraftTitle(title: string)
      modifies this`newTodo
      ensures newTodo == Draft(title, old(newTodo).description)
    {
      newTodo := newTodo.(title := title);
    }

    /** The description input's change handler: the title is kept. */
    method SetDraftDescription(description: string)
      modifies this`newTodo
      ensures newTodo == Draft(old(newTodo).title, description)
    {
      newTodo := newTodo.(description := description);
    }
  }
}
