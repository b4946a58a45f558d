/**
 * The todo store: a state holder whose single field `todos` starts empty
 * and is replaced, by each of the three actions, with the result of the
 * matching pure function. A snapshot of `todos` taken before an action is a
 * value and so is never affected by it.
 *
 * Subscriber notification is not modelled; each action is the state
 * transition alone.
 */
module Store {
  import opened Strings
  import opened TodoModel
  import TodoLogic
  import Seqs
  import FilterLogic

  class TodoStore {
    var todos: seq<Todo>

    /** `createTodoStore`: a store with no items. */
    constructor ()
      ensures todos == []
    {
      todos := [];
    }

    /** The `addTodo` action; `freshId` and `createdAt` stand for the id generator and the clock. */
    method AddTodo(text: string, freshId: string, createdAt: int)
      modifies this
      ensures todos == TodoLogic.AddTodo(old(todos), text, freshId, createdAt)
      ensures WellFormed(old(todos)) && !HasId(old(todos), freshId) ==> WellFormed(todos)
    {
      TodoLogic.AddTodoPreservesWellFormed(todos, text, freshId, createdAt);
      todos := TodoLogic.AddTodo(todos, text, freshId, createdAt);
    }

    /** The `deleteTodo` action. */
    method DeleteTodo(id: string)
      modifies this
      ensures todos == TodoLogic.DeleteTodo(old(todos), id)
      ensures WellFormed(old(todos)) ==> WellFormed(todos)
    {
      if WellFormed(todos) {
        TodoLogic.DeleteTodoPreservesWellFormed(todos, id);
      }
      todos := TodoLogic.DeleteTodo(todos, id);
    }

    /** The `toggleTodo` action. */
    method ToggleTodo(id: string)
      modifies this
      ensures todos == TodoLogic.ToggleTodo(old(todos), id)
      ensures WellFormed(old(todos)) ==> WellFormed(todos)
    {
      if WellFormed(todos) {
        TodoLogic.ToggleTodoPreservesWellFormed(todos, id);
      }
      todos := TodoLogic.ToggleTodo(todos, id);
    }
  }

  /**
   * Three adds, toggling the second item and deleting the first leave the
   * second (completed) followed by the third (active). The texts are any
   * non-blank texts without surrounding whitespace, such as "Todo 1",
   * "Todo 2" and "Todo 3"; the ids stand for three distinct draws of the id
   * generator.
   */
  method AddToggleDeleteWorkflow(text1: string, text2: string, text3: string,
                                 id1: string, id2: string, id3: string, t1: int, t2: int, t3: int)
    returns (final: seq<Todo>)
    requires text1 != [] && text2 != [] && text3 != []
    requires IsTrimmed(text1) && IsTrimmed(text2) && IsTrimmed(text3)
    requires id1 != id2 && id1 != id3 && id2 != id3
    ensures final == [Todo(id2, text2, true, t2), Todo(id3, text3, false, t3)]
  {
    var a := Todo(id1, text1, false, t1);
    var b := Todo(id2, text2, false, t2);
    var c := Todo(id3, text3, false, t3);
    var store := new TodoStore();
    TodoLogic.AddTodoTrimmedText([], text1, id1, t1);
    store.AddTodo(text1, id1, t1);
    assert store.todos == [a];
    TodoLogic.AddTodoTrimmedText([a], text2, id2, t2);
    store.AddTodo(text2, id2, t2);
    assert store.todos == [a, b];
    TodoLogic.AddTodoTrimmedText([a, b], text3, id3, t3);
    store.AddTodo(text3, id3, t3);
    assert store.todos == [a, b, c];
    ToggleMiddleOfThree(a, b, c);
    store.ToggleTodo(store.todos[1].id);
    DeleteFirstOfThree(a, b.(completed := true), c);
    store.DeleteTodo(store.todos[0].id);
    final := store.todos;
  }

  /** Toggling the middle one of three items with distinct ids flips it alone. */
  lemma ToggleMiddleOfThree(a: Todo, b: Todo, c: Todo)
    requires a.id != b.id && a.id != c.id && b.id != c.id
    ensures TodoLogic.ToggleTodo([a, b, c], b.id) == [a, b.(completed := !b.completed), c]
  {
    TodoLogic.ToggleTodoAt([a, b, c], 1);
  }

  /** Deleting the first of three items whose ids differ from its own leaves the other two. */
  lemma DeleteFirstOfThree(a: Todo, b: Todo, c: Todo)
    requires a.id != b.id && a.id != c.id
    ensures TodoLogic.DeleteTodo([a, b, c], a.id) == [b, c]
  {
    var keep := TodoLogic.OtherThan(a.id);
    assert Seqs.Filter([c], keep) == [c] by { Seqs.FilterCons(c, [], keep); assert [c] == [c] + []; }
    assert Seqs.Filter([b, c], keep) == [b, c] by { Seqs.FilterCons(b, [c], keep); assert [b, c] == [b] + [c]; }
    Seqs.FilterCons(a, [b, c], keep);
    assert [a, b, c] == [a] + [b, c];
  }

  /**
   * A snapshot of `todos` taken after one add still holds that one item
   * after a second add; the later state holds both, in call order.
   */
  method SnapshotSurvivesLaterAdd(text1: string, text2: string, id1: string, id2: string, t1: int, t2: int)
    returns (first: seq<Todo>, second: seq<Todo>)
    requires text1 != [] && text2 != [] && IsTrimmed(text1) && IsTrimmed(text2)
    ensures first == [Todo(id1, text1, false, t1)]
    ensures second == first + [Todo(id2, text2, false, t2)]
  {
    var store := new TodoStore();
    TodoLogic.AddTodoTrimmedText([], text1, id1, t1);
    store.AddTodo(text1, id1, t1);
    first := store.todos;
    TodoLogic.AddTodoTrimmedText(first, text2, id2, t2);
    store.AddTodo(text2, id2, t2);
    second := store.todos;
  }

  /** Toggling the same item twice completes it and then reopens it. */
  method ToggleTwiceRestores(text: string, id: string, t: int) returns (afterOne: bool, afterTwo: bool)
    requires !AllWhitespace(text)
    ensures afterOne && !afterTwo
  {
    TrimEmptyIffBlank(text);
    var store := new TodoStore();
    store.AddTodo(text, id, t);
    store.ToggleTodo(store.todos[0].id);
    afterOne := store.todos[0].completed;
    store.ToggleTodo(store.todos[0].id);
    afterTwo := store.todos[0].completed;
  }

  /**
   * Adding a text such as "Buy milk", then a blank text such as "  ", then
   * completing the item: one item, none active, one completed; the active
   * view is empty and clearing the completed items leaves nothing.
   */
  method AddBlankToggleSession(text: string, blank: string, id: string, blankId: string, t: int, blankAt: int)
    returns (items: seq<Todo>, active: nat, completed: nat, activeView: seq<Todo>, cleared: seq<Todo>)
    requires !AllWhitespace(text) && AllWhitespace(blank)
    ensures items == [Todo(id, Trim(text), true, t)]
    ensures active == 0 && completed == 1
    ensures activeView == [] && cleared == []
  {
    TrimEmptyIffBlank(text);
    TrimEmptyIffBlank(blank);
    var store := new TodoStore();
    store.AddTodo(text, id, t);
    store.AddTodo(blank, blankId, blankAt);
    store.ToggleTodo(id);
    items := store.todos;
    active := FilterLogic.GetActiveCount(items);
    completed := FilterLogic.GetCompletedCount(items);
    activeView := FilterLogic.FilterTodos(items, Active);
    cleared := FilterLogic.ClearCompleted(items);
  }
}
