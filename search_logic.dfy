/**
 * Case-insensitive text search over the collection.
 */
module SearchLogic {
  import opened Strings
  import opened Seqs
  import opened TodoModel
  import opened FilterLogic

  /** The `filter` callback of `searchTodos`: the lowercased text includes `lowerQuery`. */
  function TextIncludes(lowerQuery: string): (matches: Todo -> bool)
    ensures forall t :: matches(t) <==> exists k :: OccursAt(Lower(t.text), lowerQuery, k)
  {
    ContainsIffOccursEverywhere(lowerQuery);
    (t: Todo) => Contains(Lower(t.text), lowerQuery)
  }

  /**
   * `searchTodos`: a blank query (empty after trimming) selects everything;
   * otherwise an item is kept when its lowercased text includes the
   * lowercased, untrimmed query.
   */
  function SearchTodos(todos: seq<Todo>, query: string): (r: seq<Todo>)
    ensures Trim(query) == [] ==> r == todos
    ensures Trim(query) != [] ==>
      forall t :: t in r <==> t in todos && Contains(Lower(t.text), Lower(query))
    ensures |r| <= |todos|
  {
    if Trim(query) == [] then todos
    else Filter(todos, TextIncludes(Lower(query)))
  }

  /** A search keeps the relative order of the items it returns. */
  lemma SearchTodosIsSubsequence(todos: seq<Todo>, query: string)
    ensures IsSubsequence(SearchTodos(todos, query), todos)
  {
    if Trim(query) == [] {
      SubsequenceReflexive(todos);
    } else {
      FilterIsSubsequence(todos, TextIncludes(Lower(query)));
    }
  }

  /** Every matching item is kept as many times as it occurs; every other item is dropped. */
  lemma SearchKeepsCopies(todos: seq<Todo>, query: string)
    ensures forall t :: multiset(SearchTodos(todos, query))[t] ==
                        (if Trim(query) == [] || Contains(Lower(t.text), Lower(query)) then multiset(todos)[t] else 0)
  {
    if Trim(query) != [] {
      FilterMultiset(todos, TextIncludes(Lower(query)));
    }
  }

  /** An empty or whitespace-only query returns the collection as it was. */
  lemma SearchBlankQueryKeepsAll(todos: seq<Todo>, query: string)
    requires AllWhitespace(query)
    ensures SearchTodos(todos, query) == todos
  {
    TrimEmptyIffBlank(query);
  }

  /**
   * An item is returned for a non-blank query exactly when it is in the
   * collection and the lowercased query occurs at some offset of its
   * lowercased text.
   */
  lemma SearchFindsOccurrences(todos: seq<Todo>, query: string, t: Todo)
    requires !AllWhitespace(query)
    ensures t in SearchTodos(todos, query) <==>
      t in todos && exists k :: OccursAt(Lower(t.text), Lower(query), k)
  {
    assert Trim(query) != [] by { TrimEmptyIffBlank(query); }
    assert t in SearchTodos(todos, query) <==> t in todos && Contains(Lower(t.text), Lower(query));
    ContainsIffOccurs(Lower(t.text), Lower(query));
  }

  /** Upper-casing or lower-casing the query does not change what is found. */
  lemma SearchIgnoresQueryCase(todos: seq<Todo>, query: string)
    ensures SearchTodos(todos, Upper(query)) == SearchTodos(todos, query)
    ensures SearchTodos(todos, Lower(query)) == SearchTodos(todos, query)
  {
    UpperKeepsBlankness(query);
    LowerKeepsBlankness(query);
    LowerIgnoresCase(query);
  }

  /** Searching and status filtering commute. */
  lemma SearchCommutesWithStatus(todos: seq<Todo>, query: string, filter: FilterType)
    ensures SearchTodos(FilterTodos(todos, filter), query) == FilterTodos(SearchTodos(todos, query), filter)
  {
    if Trim(query) != [] {
      var p := TextIncludes(Lower(query));
      match filter
      case Active => FilterCommutes(todos, IsActive, p);
      case Completed => FilterCommutes(todos, IsCompleted, p);
      case All =>
    }
  }

  /** A search of the empty collection finds nothing. */
  lemma SearchEmptyCollection(query: string)
    ensures SearchTodos([], query) == []
  {
  }

  /** A text with no `g` or `G` contains, once lowercased, no query that starts with `g`. */
  lemma NoMatchWithoutLeadingLetter(text: string, needle: string)
    requires needle != [] && needle[0] == 'g'
    requires forall i :: 0 <= i < |text| ==> text[i] != 'g' && text[i] != 'G'
    ensures !Contains(Lower(text), needle)
  {
    if Contains(Lower(text), needle) {
      ContainsNeedsFirstChar(Lower(text), needle);
    }
  }

  /** Neither "Write code" nor "Read a book" has a `g`, so no `g…` query matches them. */
  lemma NoMatchInWriteOrRead(needle: string)
    requires needle != [] && needle[0] == 'g'
    ensures !Contains(Lower("Write code"), needle)
    ensures !Contains(Lower("Read a book"), needle)
  {
    NoMatchWithoutLeadingLetter("Write code", needle);
    NoMatchWithoutLeadingLetter("Read a book", needle);
  }

  lemma GroceryStartsShoppingList(needle: string)
    requires needle == "grocery" || needle == "grocer"
    ensures Contains(Lower("GROCERY shopping list"), needle)
  {
    var l := Lower("GROCERY shopping list");
    assert l[..7] == "grocery";
    assert l[..6] == "grocer";
  }

  /** "groceries" spells "grocer" followed by "ies", never "grocery". */
  lemma GroceriesLacksGrocery()
    ensures !Contains(Lower("Buy groceries"), "grocery")
  {
    var l := Lower("Buy groceries");
    ContainsIffOccurs(l, "grocery");
    forall k | 0 <= k <= |l| - 7
      ensures !OccursAt(l, "grocery", k)
    {
      assert l[k + 6] != 'y';
      assert l[k..k + 7][6] == l[k + 6];
    }
  }

  lemma GroceriesHasGrocer()
    ensures Contains(Lower("Buy groceries"), "grocer")
  {
    var l := Lower("Buy groceries");
    assert l[4..10] == "grocer";
    assert OccursAt(l, "grocer", 4);
    ContainsIffOccurs(l, "grocer");
  }

  /** A non-blank query without surrounding whitespace or capitals is searched for as it is. */
  lemma PlainQuery(q: string)
    requires q != [] && IsTrimmed(q)
    requires forall i :: 0 <= i < |q| ==> !('A' <= q[i] <= 'Z')
    ensures Trim(q) != [] && Lower(q) == q
  {
    TrimFixedIffTrimmed(q);
    LowerWithoutCapitals(q);
  }

  /** How `Filter` treats four items when only the first and last can pass. */
  lemma FilterFourItems<T(!new)>(a: T, b: T, c: T, d: T, p: T -> bool)
    requires !p(b) && !p(c) && p(d)
    ensures Filter([a, b, c, d], p) == if p(a) then [a, d] else [d]
  {
    assert Filter([d], p) == [d] by { FilterCons(d, [], p); assert [d] == [d] + []; }
    assert Filter([c, d], p) == [d] by { FilterCons(c, [d], p); assert [c, d] == [c] + [d]; }
    assert Filter([b, c, d], p) == [d] by { FilterCons(b, [c, d], p); assert [b, c, d] == [b] + [c, d]; }
    FilterCons(a, [b, c, d], p);
    assert [a, b, c, d] == [a] + [b, c, d];
  }

  lemma ShoppingListMatches(t: Todo, q: string)
    requires t.text == "GROCERY shopping list" && (q == "grocery" || q == "grocer")
    ensures TextIncludes(q)(t)
  {
    GroceryStartsShoppingList(q);
  }

  /**
   * Searching items titled "Buy groceries", "Write code", "Read a book" and
   * "GROCERY shopping list" for "grocery" returns the last one only: the
   * text "buy groceries" does not contain "grocery".
   */
  lemma SearchGroceryFindsOnlyShoppingList(a: Todo, b: Todo, c: Todo, d: Todo)
    requires a.text == "Buy groceries" && b.text == "Write code"
    requires c.text == "Read a book" && d.text == "GROCERY shopping list"
    ensures SearchTodos([a, b, c, d], "grocery") == [d]
  {
    var q := "grocery";
    var p := TextIncludes(q);
    PlainQuery(q);
    assert !p(a) by { GroceriesLacksGrocery(); }
    assert !p(b) && !p(c) by { NoMatchInWriteOrRead(q); }
    ShoppingListMatches(d, q);
    FilterFourItems(a, b, c, d, p);
  }

  /** The same items searched for "grocer" give the first and the last, in order. */
  lemma SearchGrocerFindsBoth(a: Todo, b: Todo, c: Todo, d: Todo)
    requires a.text == "Buy groceries" && b.text == "Write code"
    requires c.text == "Read a book" && d.text == "GROCERY shopping list"
    ensures SearchTodos([a, b, c, d], "grocer") == [a, d]
  {
    var q := "grocer";
    var p := TextIncludes(q);
    PlainQuery(q);
    assert p(a) by { GroceriesHasGrocer(); }
    assert !p(b) && !p(c) by { NoMatchInWriteOrRead(q); }
    ShoppingListMatches(d, q);
    FilterFourItems(a, b, c, d, p);
  }
}
