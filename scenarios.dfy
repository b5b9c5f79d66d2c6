/**
 * Whole-page sequences of handler calls, stated on the pure functions of
 * module Todos: the life of one added task, and a case-insensitive search.
 */
module Scenarios {
  import opened Text
  import opened Seqs
  import opened Todos

  /** The "Gym"/"Leg day" draft passes the blank check. */
  lemma GymDraftAddable()
    ensures CanAdd(Draft("Gym", "Leg day"))
  {
    var draft := Draft("Gym", "Leg day");
    assert !IsWhiteSpace(draft.title[0]) && !IsWhiteSpace(draft.description[0]);
    BlankIffAllWhiteSpace(draft.title);
    BlankIffAllWhiteSpace(draft.description);
  }

  /**
   * Starting from the sample list: add "Gym"/"Leg day" with a clock value no
   * sample task carries, complete it, then delete it. The list grows to six,
   * the completed tab shows exactly the finished "Gym" task, and after the
   * delete the sample list is back and the completed tab is empty.
   */
  lemma {:induction false} GymLifecycle(gym: int, date: string)
    requires !HasId(SampleTodos(), gym)
    ensures var added := Added(SampleTodos(), Draft("Gym", "Leg day"), gym, date);
            var done := Toggled(added, gym);
            var gone := Deleted(done, gym);
            && |added| == 6
            && Filtered(done, "", CompletedTab) == [Todo(gym, "Gym", "Leg day", date, true)]
            && gone == SampleTodos() && |gone| == 5
            && Filtered(gone, "", CompletedTab) == []
  {
    var seed := SampleTodos();
    var draft := Draft("Gym", "Leg day");
    GymDraftAddable();
    AddCompleteDelete(seed, draft, gym, date);
    ViewCompletedWithEmptyTerm(seed, CompletedTab);
    FilterNone(seed, IsCompleted);
  }

  /** Searching "car" in any letter case finds the "Car Wash" sample task. */
  lemma CarWashFound(term: string)
    requires Lower(term) == "car"
    ensures MatchesSearch(CarWash, term)
    ensures CarWash in Filtered(SampleTodos(), term, TodosTab)
  {
    var title := Lower(CarWash.title);
    assert title[0] == 'c' && title[1] == 'a' && title[2] == 'r';
    assert Lower(term) <= title;
    assert Includes(title, Lower(term));
    assert MatchesTab(CarWash, TodosTab);
    ViewMembers(SampleTodos(), term, TodosTab);
  }
}
