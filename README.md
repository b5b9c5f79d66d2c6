# Todo list page — a Dafny model

This project models the in-memory task list behind the `Home` page of a
single-page todo app (`src/pages/index.js`). The page holds four pieces of
state: the task list `todos`, the search box text `searchTerm`, the selected
tab `activeTab` and the "Add New Todo" draft `newTodo`. It derives the view
`filteredTodos` from them and changes them through three handlers: `addTodo`,
`toggleTodo` and `deleteTodo`. On mount it loads five sample tasks.

Files (one module each):

- `text.dfy` — module `Text`: the string operations the page relies on.
  ECMAScript `trim()` uses the ECMAScript white-space and line-terminator set.
  `toLowerCase()` maps ASCII letters only. `includes()` is a substring scan,
  proved equal to "occurs at some index".
- `seqs.dfy` — module `Seqs`: `Array.prototype.filter` as `Filter`. It is
  characterised by three facts: it is an order-preserving subsequence, every
  element satisfies the predicate, and its length is the number of elements
  that satisfy it. `FilterUnique` proves these facts determine the result.
- `todos.dfy` — module `Todos`: the task record, the draft, the seed list, and
  the pure functions for the view (`Filtered`), add (`Added`), toggle
  (`Toggled`) and delete (`Deleted`), with the lemmas about them.
- `home.dfy` — module `HomePage`: class `Home`, whose fields are the four
  state variables. Each handler method assigns the value the pure functions
  compute. The class keeps the invariant that every stored task has a
  non-blank title and description.
- `scenarios.dfy` — module `Scenarios`: a whole add / complete / delete walk
  through the seed list, and a case-insensitive search.

Ids are not assumed unique: `Date.now()` can repeat. Toggle and delete are
therefore stated for every task carrying the id, as `map` and `filter` do.
The "exactly one task" behaviour is proved as a corollary under `DistinctIds`.

Three details of the code that the model follows:

- The pending tab's value is `"todos"`. Any other tab value shows the
  completed tasks.
- Toggle and delete act on every task carrying the id.
- Ids are not unique, because `Date.now()` can repeat.

## Model

| member | source | states |
|---|---|---|
| Todos.SampleTodos | src/pages/index.js:21-58 | the seed list has five tasks, pairwise distinct ids, and all are pending |
| Todos.SampleTodosWellFormed | src/pages/index.js:21-58 | every seed task has a title and a description that are not blank |
| Todos.Filtered | src/pages/index.js:61-66 | the view is an order-preserving subsequence of the list; every task in it matches the search term and the tab; its length is the number of matching tasks, so none is left out |
| Todos.ViewMembers | src/pages/index.js:61-66 | a task is in the view if and only if it is in the list and matches both the search and the tab |
| Todos.EmptyTermMatches | src/pages/index.js:62-63 | the empty search term matches every task |
| Todos.ViewPendingWithEmptyTerm | src/pages/index.js:61-66 | with an empty term, the "todos" tab shows exactly the pending tasks in list order |
| Todos.ViewCompletedWithEmptyTerm | src/pages/index.js:61-66 | with an empty term, any other tab value shows exactly the completed tasks in list order |
| Todos.MatchesSearch | src/pages/index.js:62-63 | a task matches the term exactly when the lower-cased term occurs somewhere in the lower-cased title or the lower-cased description |
| Todos.MatchesTab | src/pages/index.js:64 | every task is on exactly one of the "todos" tab and any other tab value |
| Todos.TabsPartition | src/pages/index.js:64 | with an empty term, the "todos" view and any other tab's view together hold exactly the tasks of the list, each as often as it occurs there (as multisets), so their lengths add up to the list's |
| Todos.ViewIgnoresTermCase | src/pages/index.js:62-63 | lower-casing the search term does not change the view |
| Todos.LiteralOccurrenceMatches | src/pages/index.js:62-63 | a task whose title or description contains the term verbatim matches it |
| Todos.EmptyViewIffNoneVisible | src/pages/index.js:233-237 | the view is empty, and the "No {activeTab} found." banner shows, exactly when no task matches |
| Todos.CanAdd | src/pages/index.js:69 | the add goes ahead exactly when the title and the description each hold a character that is not white space |
| Todos.Added | src/pages/index.js:68-87 | a blank title or description leaves the list unchanged; otherwise the old list stays in place and one pending task follows it, holding the untrimmed draft strings, the given id and the given date |
| Todos.AddedWellFormed | src/pages/index.js:69-84 | adding keeps every task's title and description non-blank |
| Todos.AddedFreshId | src/pages/index.js:70-84 | with an id no task carries, the ids stay distinct and the new task is the only one carrying its id |
| Todos.AddThenDelete | src/pages/index.js:84-96 | deleting the fresh id of a task just added gives back the old list |
| Todos.AddCompleteDelete | src/pages/index.js:68-97 | a task added with a fresh id and then toggled joins the end of the completed view; deleting it restores the list |
| Todos.Toggled | src/pages/index.js:89-93 | same length and order; id, title, description and date are unchanged; `completed` flips exactly on the tasks whose id matches |
| Todos.ToggleTwice | src/pages/index.js:89-93 | toggling the same id twice restores the list |
| Todos.ToggleUnknown | src/pages/index.js:89-93 | toggling an id no task carries changes nothing |
| Todos.ToggleOne | src/pages/index.js:89-93 | with distinct ids, toggling the id of the task at index k flips that task and nothing else |
| Todos.TogglePreserves | src/pages/index.js:89-93 | toggling keeps the ids distinct and the tasks well formed |
| Todos.Deleted | src/pages/index.js:95-97 | the result is an order-preserving subsequence of the list with no task carrying the id; it is shorter by exactly the number of tasks carrying the id, so it never grows |
| Todos.DeleteMembers | src/pages/index.js:95-97 | a task remains if and only if it was in the list and does not carry the id |
| Todos.DeleteUnknown | src/pages/index.js:95-97 | deleting an id no task carries changes nothing |
| Todos.DeleteOne | src/pages/index.js:95-97 | with distinct ids, deleting the id of the task at index k removes exactly that task, so the length drops by 1 |
| Todos.DeleteKeepsWellFormed | src/pages/index.js:95-97 | deleting keeps the remaining tasks well formed |
| Todos.DeleteKeepsDistinct | src/pages/index.js:95-97 | deleting keeps the remaining ids distinct |
| Todos.OccurrencesDistinct | src/pages/index.js:89-97 | with distinct ids, an id present in the list occurs exactly once |
| Text.BlankIffAllWhiteSpace | src/pages/index.js:69 | `trim()` leaves the empty string exactly when every character is white space |
| Text.Trim | src/pages/index.js:69 | `trim()` never lengthens the string, and a non-empty result neither starts nor ends with white space; `Text.TrimIsInfix` states which infix it is |
| Text.TrimIsInfix | src/pages/index.js:69 | `trim()` returns the infix between a white-space prefix and a white-space suffix, and the result neither starts nor ends with white space |
| Text.Includes | src/pages/index.js:62-63 | `includes` holds only when the term fits in the text; `Text.IncludesIffOccurs` states exactly when it holds |
| Text.IncludesIffOccurs | src/pages/index.js:62-63 | `includes` holds exactly when the term occurs at some index |
| Text.IncludesLower | src/pages/index.js:62-63 | an occurrence survives lower-casing both strings |
| Text.Lower | src/pages/index.js:62-63 | lower-casing keeps the length and maps each character by the ASCII rule |
| Text.LowerIdempotent | src/pages/index.js:62-63 | lower-casing twice is the same as lower-casing once |
| Seqs.Filter | src/pages/index.js:61-66 | `filter` returns an order-preserving subsequence of the elements satisfying the predicate, and none of them is left out |
| Seqs.FilterUnique | src/pages/index.js:61-66 | the three facts in Filter's contract determine the result |
| Seqs.FilterMultiset | src/pages/index.js:61-97 | a value keeps all its occurrences if it satisfies the predicate, and none otherwise |
| HomePage.Home.constructor | src/pages/index.js:15-18 | the initial state is an empty list, an empty search, the "todos" tab and an empty draft |
| HomePage.Home.FilteredTodos | src/pages/index.js:61-66 | the rendered list is an order-preserving subsequence of the stored tasks, and a task is in it exactly when it is stored and matches the search box and the selected tab |
| HomePage.Home.LoadSamples | src/pages/index.js:20-59 | the mount effect replaces the list with the seed list and keeps the invariant |
| HomePage.Home.AddTodo | src/pages/index.js:68-87 | the list becomes `Added` of the old state; the draft is cleared exactly when the add happened; the invariant holds |
| HomePage.Home.ToggleTodo | src/pages/index.js:89-93 | the list becomes `Toggled` of the old list; the invariant holds |
| HomePage.Home.DeleteTodo | src/pages/index.js:95-97 | the list becomes `Deleted` of the old list; the invariant holds |
| HomePage.Home.SetSearchTerm | src/pages/index.js:114 | the search term becomes the typed text |
| HomePage.Home.SetActiveTab | src/pages/index.js:153-163 | the tab becomes the clicked value |
| HomePage.Home.SetDraftTitle | src/pages/index.js:133 | the draft title changes and the draft description is kept |
| HomePage.Home.SetDraftDescription | src/pages/index.js:140 | the draft description changes and the draft title is kept |
| Scenarios.GymLifecycle | src/pages/index.js:21-97 | from the seed list: adding "Gym"/"Leg day" gives six tasks; completing it makes the completed view exactly that task; deleting it restores the five seed tasks and empties the completed view |
| Scenarios.CarWashFound | src/pages/index.js:61-66 | searching "car" in any letter case finds the "Car Wash" seed task on the "todos" tab |

## Left out

- Rendering is not modelled: JSX, Tailwind classes, the table, and the
  "Complete"/"Undo" labels. The empty-results banner is covered only as
  "the view is empty" (`EmptyViewIffNoneVisible`).
- Font loading (`Geist`, `Geist_Mono`) is a call into a library and is not modelled.
- `Date.now()` and the `toLocaleString` date format depend on the clock and
  on locale data. They are the parameters `now` and `date` of
  `HomePage.Home.AddTodo`, and `id` and `date` of `Todos.Added`.
- Todos.MatchesSearch: `toLowerCase()` maps only the ASCII letters A–Z.
  JavaScript lower-cases all of Unicode (including special cases such as
  final sigma), so this model is weaker for non-ASCII text.
- React's `useState`/`useEffect` scheduling and re-rendering are not
  modelled. Each handler is one synchronous update of the state it reads.
  `filteredTodos` is the function `HomePage.Home.FilteredTodos` of the
  current state.
- Scenarios.CarWashFound: it proves that "Car Wash" is found. It does not
  prove that the other four seed tasks are left out.
- Seed descriptions are written as two string literals joined by `+`. This
  lets the verifier read their first character. The joined strings equal the
  descriptions the page's seed list holds.
