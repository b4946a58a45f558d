/**
 * The pure mutation logic: adding, deleting and toggling todo items. Each
 * operation returns a new collection and leaves its argument as it was.
 *
 * The source draws a fresh id from a clock-and-random generator and stamps
 * each item with the current time; here both arrive as the parameters
 * `freshId` and `createdAt`.
 */
module TodoLogic {
  import opened Strings
  import opened Seqs
  import opened TodoModel

  /**
   * Appends a new, not-completed item holding the trimmed text, unless the
   * text is empty or whitespace-only, in which case the collection is
   * returned as it was.
   */
  function AddTodo(todos: seq<Todo>, text: string, freshId: string, createdAt: int): (r: seq<Todo>)
    ensures Trim(text) == [] ==> r == todos
    ensures Trim(text) != [] ==>
      && |r| == |todos| + 1
      && r[..|todos|] == todos
      && r[|todos|].id == freshId
      && r[|todos|].text == Trim(text)
      && !r[|todos|].completed
      && r[|todos|].createdAt == createdAt
  {
    if Trim(text) == [] then todos
    else todos + [Todo(freshId, Trim(text), false, createdAt)]
  }

  /** Adding changes the collection exactly when the text is not blank. */
  lemma AddTodoChangesIffNotBlank(todos: seq<Todo>, text: string, freshId: string, createdAt: int)
    ensures AddTodo(todos, text, freshId, createdAt) != todos <==> !AllWhitespace(text)
  {
    TrimEmptyIffBlank(text);
    if Trim(text) != [] {
      assert |AddTodo(todos, text, freshId, createdAt)| != |todos|;
    }
  }

  /** The new item's text is non-blank and has no surrounding whitespace. */
  lemma AddTodoStoresTrimmedText(todos: seq<Todo>, text: string, freshId: string, createdAt: int)
    requires !AllWhitespace(text)
    ensures var r := AddTodo(todos, text, freshId, createdAt);
      |r| == |todos| + 1 && r[|todos|].text != [] && IsTrimmed(r[|todos|].text)
      && Trim(r[|todos|].text) == r[|todos|].text
  {
    TrimEmptyIffBlank(text);
    TrimCharacterization(text);
    TrimIdempotent(text);
  }

  /** A text that is already trimmed and non-blank is appended as it is. */
  lemma AddTodoTrimmedText(todos: seq<Todo>, text: string, freshId: string, createdAt: int)
    requires text != [] && IsTrimmed(text)
    ensures AddTodo(todos, text, freshId, createdAt) == todos + [Todo(freshId, text, false, createdAt)]
  {
    TrimFixedIffTrimmed(text);
  }

  /** Successive adds read back in call order. */
  lemma AddTodoAppendsText(todos: seq<Todo>, text: string, freshId: string, createdAt: int)
    requires !AllWhitespace(text)
    ensures Texts(AddTodo(todos, text, freshId, createdAt)) == Texts(todos) + [Trim(text)]
  {
    TrimEmptyIffBlank(text);
  }

  /**
   * Adding keeps the collection well formed: ids stay distinct when the new
   * id is fresh, and stored texts stay trimmed and non-blank.
   */
  lemma AddTodoPreservesWellFormed(todos: seq<Todo>, text: string, freshId: string, createdAt: int)
    ensures DistinctIds(todos) && !HasId(todos, freshId) ==> DistinctIds(AddTodo(todos, text, freshId, createdAt))
    ensures TextsTrimmed(todos) ==> TextsTrimmed(AddTodo(todos, text, freshId, createdAt))
  {
    TrimCharacterization(text);
    var r := AddTodo(todos, text, freshId, createdAt);
    if Trim(text) != [] && DistinctIds(todos) && !HasId(todos, freshId) {
      forall i, j | 0 <= i < j < |r|
        ensures r[i].id != r[j].id
      {
        if j == |todos| {
          assert r[i] == todos[i];
        }
      }
    }
  }

  /** The `filter` callback of `deleteTodo`: holds of items not carrying `id`. */
  function OtherThan(id: string): (keep: Todo -> bool)
    ensures forall t :: keep(t) <==> t.id != id
  {
    (t: Todo) => t.id != id
  }

  /** The items whose id differs from `id`, in their original order. */
  function DeleteTodo(todos: seq<Todo>, id: string): (r: seq<Todo>)
    ensures !HasId(r, id)
    ensures forall t :: t in r <==> t in todos && t.id != id
  {
    var r := Filter(todos, OtherThan(id));
    assert forall i :: 0 <= i < |r| ==> r[i] in r;
    r
  }

  /** Every item with another id is kept as many times as it occurs; items with the id are all gone. */
  lemma DeleteTodoKeepsCopies(todos: seq<Todo>, id: string)
    ensures forall t :: multiset(DeleteTodo(todos, id))[t] == if t.id != id then multiset(todos)[t] else 0
  {
    FilterMultiset(todos, OtherThan(id));
  }

  /** Deleting keeps the relative order of the remaining items. */
  lemma DeleteTodoIsSubsequence(todos: seq<Todo>, id: string)
    ensures IsSubsequence(DeleteTodo(todos, id), todos)
  {
    FilterIsSubsequence(todos, OtherThan(id));
  }

  /** Deleting an id that occurs nowhere returns an equal collection, and only then. */
  lemma DeleteTodoAbsentIsIdentity(todos: seq<Todo>, id: string)
    ensures DeleteTodo(todos, id) == todos <==> !HasId(todos, id)
  {
    FilterKeepsAll(todos, OtherThan(id));
    if HasId(todos, id) {
      var i :| 0 <= i < |todos| && todos[i].id == id;
      assert todos[i] in todos;
    }
  }

  /** When ids are unique, deleting a present id removes exactly one item. */
  lemma {:induction false} DeleteTodoRemovesOne(todos: seq<Todo>, id: string)
    requires DistinctIds(todos) && HasId(todos, id)
    ensures |DeleteTodo(todos, id)| == |todos| - 1
  {
    var rest := todos[1..];
    if todos[0].id == id {
      assert !HasId(rest, id);
      DeleteTodoAbsentIsIdentity(rest, id);
    } else {
      var i :| 0 <= i < |todos| && todos[i].id == id;
      assert rest[i - 1].id == id;
      DeleteTodoRemovesOne(rest, id);
    }
  }

  /** Deleting keeps the collection well formed. */
  lemma DeleteTodoPreservesWellFormed(todos: seq<Todo>, id: string)
    requires WellFormed(todos)
    ensures WellFormed(DeleteTodo(todos, id))
  {
    FilterPreservesWellFormed(todos, OtherThan(id));
  }

  /** `t` with its completion flipped when it carries `id`. */
  function ToggleIfMatches(t: Todo, id: string): (r: Todo)
    ensures r.id == t.id && r.text == t.text && r.createdAt == t.createdAt
    ensures r.completed == (t.completed != (t.id == id))
  {
    if t.id == id then t.(completed := !t.completed) else t
  }

  /**
   * The collection with the completion flag of every item carrying `id`
   * flipped; every other item is left as it was.
   */
  function ToggleTodo(todos: seq<Todo>, id: string): (r: seq<Todo>)
    ensures |r| == |todos|
    ensures forall i :: 0 <= i < |todos| && todos[i].id == id ==>
      && r[i].completed == !todos[i].completed
      && r[i].id == todos[i].id && r[i].text == todos[i].text
      && r[i].createdAt == todos[i].createdAt
    ensures forall i :: 0 <= i < |todos| && todos[i].id != id ==> r[i] == todos[i]
  {
    if todos == [] then [] else [ToggleIfMatches(todos[0], id)] + ToggleTodo(todos[1..], id)
  }

  /** With unique ids, toggling the id of the item at `i` flips that item alone. */
  lemma ToggleTodoAt(todos: seq<Todo>, i: int)
    requires DistinctIds(todos) && 0 <= i < |todos|
    ensures ToggleTodo(todos, todos[i].id) == todos[i := todos[i].(completed := !todos[i].completed)]
  {
    var r := ToggleTodo(todos, todos[i].id);
    forall j | 0 <= j < |todos|
      ensures r[j] == todos[i := todos[i].(completed := !todos[i].completed)][j]
    {
      if j != i {
        assert todos[j].id != todos[i].id;
      }
    }
  }

  /** Toggling twice restores the collection. */
  lemma ToggleTodoInvolution(todos: seq<Todo>, id: string)
    ensures ToggleTodo(ToggleTodo(todos, id), id) == todos
  {
    var r := ToggleTodo(ToggleTodo(todos, id), id);
    forall i | 0 <= i < |todos|
      ensures r[i] == todos[i]
    {
    }
  }

  /** Toggling an id that occurs nowhere returns an equal collection. */
  lemma ToggleTodoAbsentIsIdentity(todos: seq<Todo>, id: string)
    requires !HasId(todos, id)
    ensures ToggleTodo(todos, id) == todos
  {
  }

  /** Toggling keeps the collection well formed. */
  lemma ToggleTodoPreservesWellFormed(todos: seq<Todo>, id: string)
    requires WellFormed(todos)
    ensures WellFormed(ToggleTodo(todos, id))
  {
  }
}
