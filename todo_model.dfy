/**
 * The todo item and the status filter that the logic and the store share.
 */
module TodoModel {
  import Strings
  import opened Seqs

  /** One todo item; `createdAt` is a millisecond timestamp. */
  datatype Todo = Todo(id: string, text: string, completed: bool, createdAt: int)

  /** The status view selector: "all", "active" or "completed". */
  datatype FilterType = All | Active | Completed

  predicate IsActive(t: Todo) {
    !t.completed
  }

  predicate IsCompleted(t: Todo) {
    t.completed
  }

  /** Some item of `todos` carries `id`. */
  predicate HasId(todos: seq<Todo>, id: string) {
    exists i :: 0 <= i < |todos| && todos[i].id == id
  }

  /** No two items share an id. */
  predicate DistinctIds(todos: seq<Todo>) {
    forall i, j :: 0 <= i < j < |todos| ==> todos[i].id != todos[j].id
  }

  /** Every stored text is non-empty and has no surrounding whitespace. */
  predicate TextsTrimmed(todos: seq<Todo>) {
    forall i :: 0 <= i < |todos| ==> todos[i].text != [] && Strings.IsTrimmed(todos[i].text)
  }

  /** The collection invariant: unique ids and trimmed, non-blank texts. */
  predicate WellFormed(todos: seq<Todo>) {
    DistinctIds(todos) && TextsTrimmed(todos)
  }

  /** The texts of `todos`, in order. */
  function Texts(todos: seq<Todo>): (r: seq<string>)
    ensures |r| == |todos|
    ensures forall i :: 0 <= i < |todos| ==> r[i] == todos[i].text
  {
    if todos == [] then [] else [todos[0].text] + Texts(todos[1..])
  }

  /** Keeping some of the items, in order, keeps the collection well formed. */
  lemma {:induction false} FilterPreservesWellFormed(todos: seq<Todo>, p: Todo -> bool)
    requires WellFormed(todos)
    ensures WellFormed(Filter(todos, p))
  {
    if todos != [] {
      var rest := todos[1..];
      FilterPreservesWellFormed(rest, p);
      var tail := Filter(rest, p);
      if p(todos[0]) {
        assert Filter(todos, p) == [todos[0]] + tail;
        forall k | 0 <= k < |tail|
          ensures tail[k].id != todos[0].id
        {
          assert tail[k] in rest;
          var m :| 0 <= m < |rest| && rest[m] == tail[k];
          assert todos[m + 1] == tail[k];
        }
      }
    }
  }
}
