/**
 * The status queries: the all / active / completed views, the two counts
 * and clearing the completed items.
 */
module FilterLogic {
  import opened Seqs
  import opened TodoModel

  /** The view of `todos` selected by `filter`. */
  function FilterTodos(todos: seq<Todo>, filter: FilterType): (r: seq<Todo>)
    ensures filter == All ==> r == todos
    ensures filter == Active ==> forall t :: t in r <==> t in todos && !t.completed
    ensures filter == Completed ==> forall t :: t in r <==> t in todos && t.completed
  {
    match filter
    case Active => Filter(todos, IsActive)
    case Completed => Filter(todos, IsCompleted)
    case All => todos
  }

  /** Every view keeps the relative order of the items it shows. */
  lemma FilterTodosIsSubsequence(todos: seq<Todo>, filter: FilterType)
    ensures IsSubsequence(FilterTodos(todos, filter), todos)
  {
    match filter
    case Active => FilterIsSubsequence(todos, IsActive);
    case Completed => FilterIsSubsequence(todos, IsCompleted);
    case All => SubsequenceReflexive(todos);
  }

  /**
   * The active and completed views partition the collection: no item is in
   * both, and together they hold every item exactly as often as `todos`.
   */
  lemma {:induction false} StatusViewsPartition(todos: seq<Todo>)
    ensures var a, c := FilterTodos(todos, Active), FilterTodos(todos, Completed);
      && multiset(a) + multiset(c) == multiset(todos)
      && |a| + |c| == |todos|
      && forall t :: !(t in a && t in c)
  {
    if todos != [] {
      StatusViewsPartition(todos[1..]);
      assert todos == [todos[0]] + todos[1..];
    }
  }

  /** `getActiveCount`: the number of not-completed items. */
  function GetActiveCount(todos: seq<Todo>): (n: nat)
    ensures n == |FilterTodos(todos, Active)|
    ensures n <= |todos|
  {
    |Filter(todos, IsActive)|
  }

  /** `getCompletedCount`: the number of completed items. */
  function GetCompletedCount(todos: seq<Todo>): (n: nat)
    ensures n == |FilterTodos(todos, Completed)|
    ensures n <= |todos|
  {
    |Filter(todos, IsCompleted)|
  }

  /** The two counts add up to the size of the collection. */
  lemma CountsSum(todos: seq<Todo>)
    ensures GetActiveCount(todos) + GetCompletedCount(todos) == |todos|
  {
    StatusViewsPartition(todos);
  }

  /** No item is active exactly when the active count is zero; likewise for completed. */
  lemma CountZeroIffNone(todos: seq<Todo>)
    ensures GetActiveCount(todos) == 0 <==> forall i :: 0 <= i < |todos| ==> todos[i].completed
    ensures GetCompletedCount(todos) == 0 <==> forall i :: 0 <= i < |todos| ==> !todos[i].completed
  {
    var a, c := Filter(todos, IsActive), Filter(todos, IsCompleted);
    if a != [] { assert a[0] in a; }
    if c != [] { assert c[0] in c; }
    forall i | 0 <= i < |todos|
      ensures todos[i] in todos
    {
    }
  }

  /** `clearCompleted`: the collection without its completed items. */
  function ClearCompleted(todos: seq<Todo>): (r: seq<Todo>)
    ensures r == FilterTodos(todos, Active)
    ensures forall i :: 0 <= i < |r| ==> !r[i].completed
    ensures |r| == GetActiveCount(todos)
  {
    var r := Filter(todos, IsActive);
    assert forall i :: 0 <= i < |r| ==> r[i] in r;
    r
  }

  /** Clearing twice is clearing once. */
  lemma ClearCompletedIdempotent(todos: seq<Todo>)
    ensures ClearCompleted(ClearCompleted(todos)) == ClearCompleted(todos)
  {
    FilterIdempotent(todos, IsActive);
  }

  /** Clearing leaves the collection as it was exactly when nothing is completed. */
  lemma ClearCompletedUnchangedIffNoneCompleted(todos: seq<Todo>)
    ensures ClearCompleted(todos) == todos <==> forall i :: 0 <= i < |todos| ==> !todos[i].completed
  {
    FilterKeepsAll(todos, IsActive);
    forall i | 0 <= i < |todos|
      ensures todos[i] in todos
    {
    }
  }

  /** Clearing keeps the relative order of the remaining items and the collection invariant. */
  lemma ClearCompletedPreservesWellFormed(todos: seq<Todo>)
    requires WellFormed(todos)
    ensures WellFormed(ClearCompleted(todos))
    ensures IsSubsequence(ClearCompleted(todos), todos)
  {
    FilterPreservesWellFormed(todos, IsActive);
    FilterIsSubsequence(todos, IsActive);
  }
}
