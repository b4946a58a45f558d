# Todo-list engine: a Dafny model

This project models the logic core of a client-side todo-list application.
The model has four parts:

- the mutation logic (`addTodo`, `deleteTodo`, `toggleTodo`);
- the status queries (`filterTodos`, `getActiveCount`, `getCompletedCount`, `clearCompleted`);
- the case-insensitive text search (`searchTodos`);
- the store that holds the `todos` list and replaces it on each action.

Every logic function is pure: none of them changes its argument, so the model writes them as Dafny functions over `seq<Todo>`. Most return a new list. Three cases hand back the argument itself: `addTodo` with blank text, `filterTodos` with `all`, and `searchTodos` with a blank query. The store is the one stateful part. It is the class `Store.TodoStore`, which has a `todos: seq<Todo>` field and three methods that each replace that field.

Modules, one per file:

| file | module | models |
|---|---|---|
| `seqs.dfy` | `Seqs` | `Array.prototype.filter` as an order-preserving `Filter`, and the subsequence relation |
| `strings.dfy` | `Strings` | `trim`, `toLowerCase` / `toUpperCase` (ASCII) and `includes` |
| `todo_model.dfy` | `TodoModel` | the `Todo` record, the `all` / `active` / `completed` filter type, and the collection invariant (distinct ids, trimmed non-blank texts) |
| `todo_logic.dfy` | `TodoLogic` | `app/lib/logic/todoLogic.ts` |
| `filter_logic.dfy` | `FilterLogic` | `app/lib/logic/filterLogic.ts` |
| `search_logic.dfy` | `SearchLogic` | `app/lib/logic/searchLogic.ts` |
| `todo_store.dfy` | `Store` | `app/lib/store/todoStore.ts` |

The id generator and the clock are not deterministic. They become the parameters `freshId` and `createdAt` of `AddTodo`. `AddTodo` has no precondition on `freshId`, because the source asks nothing of its callers. Freshness appears only as a hypothesis: in the lemma showing that ids stay distinct, and in the implication each store action ensures.

Three places where the code differs from what its components or tests expect:

- The store defines only `todos`, `addTodo`, `deleteTodo` and `toggleTodo` (app/lib/store/todoStore.ts:5-10). The components also select `filter`, `setFilter` and `clearCompleted` (app/components/FilterBar.tsx:9-11), and `searchQuery` and `setSearchQuery` (app/components/SearchBar.tsx:6-7). The store defines none of these, so the model has none of them either. `clearCompleted` exists only as a pure function in the filter logic.
- The search example in the repository's test suite does not hold for the code as written (see Findings).
- `searchTodos` uses the trimmed query only to decide whether it is blank (app/lib/logic/searchLogic.ts:10). It matches with the lowercased query as given, surrounding whitespace included (app/lib/logic/searchLogic.ts:14).

## Model

| member | source | states |
|---|---|---|
| `Strings.TrimCharacterization` | app/lib/logic/todoLogic.ts:17-23 | `trim` returns the slice of its input left after cutting off the whitespace on both sides, and the result has no whitespace at either end |
| `Strings.Trim` | app/lib/logic/todoLogic.ts:17-23 | `trim` is never longer than its input, and its result is empty or begins and ends with a character that is not whitespace |
| `Strings.TrimEmptyIffBlank` | app/lib/logic/todoLogic.ts:17-19 | trimming gives the empty string exactly when the input is empty or whitespace-only, which is when the `!text.trim()` guard fires |
| `Strings.TrimFixedIffTrimmed` | app/lib/logic/todoLogic.ts:23 | trimming leaves a string unchanged exactly when it has no whitespace at either end |
| `Strings.TrimIdempotent` | app/lib/logic/todoLogic.ts:23 | trimming twice is the same as trimming once |
| `Strings.Lower` | app/lib/logic/searchLogic.ts:14-16 | `toLowerCase` keeps the length, maps each character through the ASCII case mapping, and leaves no capital letter in its result |
| `Strings.LowerIgnoresCase` | app/lib/logic/searchLogic.ts:14 | an upper-cased string and a lower-cased string lowercase to the same thing as the original |
| `Strings.UpperKeepsBlankness` | app/lib/logic/searchLogic.ts:10 | upper-casing a query does not change whether it is blank |
| `Strings.LowerKeepsBlankness` | app/lib/logic/searchLogic.ts:10 | lower-casing a query does not change whether it is blank |
| `Strings.Contains` | app/lib/logic/searchLogic.ts:16 | `includes` always finds the empty needle, and finds a needle only when it is no longer than the text |
| `Strings.ContainsIffOccurs` | app/lib/logic/searchLogic.ts:16 | the recursive `includes` holds exactly when the needle occurs in the text at some offset |
| `Strings.ContainsNeedsFirstChar` | app/lib/logic/searchLogic.ts:16 | a non-empty needle is found only at a place where the text has its first character |
| `Seqs.Filter` | app/lib/logic/todoLogic.ts:38 | `Array.prototype.filter` is never longer than its input, and a value is in the result exactly when it is in the input and passes the predicate |
| `Seqs.FilterMultiset` | app/lib/logic/filterLogic.ts:12 | `filter` keeps every passing value as many times as it occurs in the input and drops every other value |
| `TodoLogic.AddTodo` | app/lib/logic/todoLogic.ts:16-29 | for blank text the list is returned unchanged; otherwise the result is one longer, has the old list as its prefix, and ends with an item that has the given id and timestamp, the trimmed text and `completed == false` |
| `TodoLogic.AddTodoChangesIffNotBlank` | app/lib/logic/todoLogic.ts:17-19 | adding changes the list exactly when the text is not empty or whitespace-only |
| `TodoLogic.AddTodoStoresTrimmedText` | app/lib/logic/todoLogic.ts:21-26 | the new item's text is non-empty, has no whitespace at either end, and is its own trim |
| `TodoLogic.AddTodoTrimmedText` | app/lib/logic/todoLogic.ts:21-28 | a text that is non-empty and already has no surrounding whitespace is appended exactly as given, as a not-completed item with the given id and timestamp |
| `TodoLogic.AddTodoAppendsText` | app/lib/logic/todoLogic.ts:28 | adding appends the trimmed text to the list of texts, so successive adds read back in call order |
| `TodoLogic.AddTodoPreservesWellFormed` | app/lib/logic/todoLogic.ts:21-28 | if the ids are distinct and the new id is fresh, the ids stay distinct; if the stored texts are trimmed and non-blank, they stay so |
| `TodoLogic.DeleteTodo` | app/lib/logic/todoLogic.ts:37-39 | no remaining item has the id, and an item remains exactly when it was in the list and has another id |
| `TodoLogic.OtherThan` | app/lib/logic/todoLogic.ts:38 | the `filter` callback of `deleteTodo` accepts exactly the items whose id differs from the given one |
| `TodoLogic.DeleteTodoKeepsCopies` | app/lib/logic/todoLogic.ts:38 | deleting keeps every item with another id as many times as it occurs, and keeps no item with the id |
| `TodoLogic.DeleteTodoIsSubsequence` | app/lib/logic/todoLogic.ts:38 | the remaining items keep their original relative order |
| `TodoLogic.DeleteTodoAbsentIsIdentity` | app/lib/logic/todoLogic.ts:38 | deleting returns an equal list exactly when no item has the id |
| `TodoLogic.DeleteTodoRemovesOne` | app/lib/logic/todoLogic.ts:38 | when ids are distinct and the id is present, deleting removes exactly one item |
| `TodoLogic.DeleteTodoPreservesWellFormed` | app/lib/logic/todoLogic.ts:38 | deleting keeps ids distinct and texts trimmed and non-blank |
| `TodoLogic.ToggleIfMatches` | app/lib/logic/todoLogic.ts:49 | the `map` callback of `toggleTodo` keeps the id, text and timestamp, and flips `completed` exactly when the item has the given id |
| `TodoLogic.ToggleTodo` | app/lib/logic/todoLogic.ts:47-51 | the length is unchanged; each item with the id has `completed` negated and the same id, text and timestamp; every other item is unchanged |
| `TodoLogic.ToggleTodoAt` | app/lib/logic/todoLogic.ts:48-50 | with unique ids, toggling the id of the item at position `i` gives the list with that one item's flag flipped |
| `TodoLogic.ToggleTodoInvolution` | app/lib/logic/todoLogic.ts:48-50 | toggling the same id twice gives back the original list |
| `TodoLogic.ToggleTodoAbsentIsIdentity` | app/lib/logic/todoLogic.ts:48-50 | toggling an id that no item has returns an equal list |
| `TodoLogic.ToggleTodoPreservesWellFormed` | app/lib/logic/todoLogic.ts:48-50 | toggling keeps ids distinct and texts trimmed and non-blank |
| `FilterLogic.FilterTodos` | app/lib/logic/filterLogic.ts:9-19 | `all` returns the list unchanged; `active` keeps exactly the listed items that are not completed; `completed` keeps exactly the completed ones |
| `FilterLogic.FilterTodosIsSubsequence` | app/lib/logic/filterLogic.ts:9-19 | every view keeps the relative order of the items it shows |
| `FilterLogic.StatusViewsPartition` | app/lib/logic/filterLogic.ts:11-14 | no item is in both the active and the completed view; together, as multisets, the two views are the list, and their lengths add up to its length |
| `FilterLogic.GetActiveCount` | app/lib/logic/filterLogic.ts:26-28 | the count equals the length of the active view and is at most the list length |
| `FilterLogic.GetCompletedCount` | app/lib/logic/filterLogic.ts:35-37 | the count equals the length of the completed view and is at most the list length |
| `FilterLogic.CountsSum` | app/lib/logic/filterLogic.ts:26-37 | the active and completed counts add up to the list length, so both are 0 for the empty list |
| `FilterLogic.CountZeroIffNone` | app/lib/logic/filterLogic.ts:26-37 | the active count is 0 exactly when every item is completed, and the completed count is 0 exactly when none is |
| `FilterLogic.ClearCompleted` | app/lib/logic/filterLogic.ts:44-46 | the result is the active view, contains no completed item, and has as many items as the active count |
| `FilterLogic.ClearCompletedIdempotent` | app/lib/logic/filterLogic.ts:44-46 | clearing twice is the same as clearing once |
| `FilterLogic.ClearCompletedUnchangedIffNoneCompleted` | app/lib/logic/filterLogic.ts:44-46 | clearing returns an equal list exactly when no item is completed |
| `FilterLogic.ClearCompletedPreservesWellFormed` | app/lib/logic/filterLogic.ts:44-46 | clearing keeps the collection invariant and the relative order of the remaining items |
| `SearchLogic.SearchTodos` | app/lib/logic/searchLogic.ts:9-18 | for a blank query the list is returned unchanged; otherwise an item is kept exactly when its lowercased text includes the lowercased, untrimmed query; the result is never longer than the list |
| `SearchLogic.TextIncludes` | app/lib/logic/searchLogic.ts:15-16 | the `filter` callback of `searchTodos` accepts an item exactly when the lowercased query occurs at some offset of the item's lowercased text |
| `SearchLogic.SearchKeepsCopies` | app/lib/logic/searchLogic.ts:10-17 | a search keeps every matching item as many times as it occurs and drops every other item; a blank query keeps every item |
| `SearchLogic.SearchTodosIsSubsequence` | app/lib/logic/searchLogic.ts:15-17 | the result keeps the relative order of the items |
| `SearchLogic.SearchBlankQueryKeepsAll` | app/lib/logic/searchLogic.ts:10-12 | an empty or whitespace-only query returns the list unchanged |
| `SearchLogic.SearchFindsOccurrences` | app/lib/logic/searchLogic.ts:14-17 | for a non-blank query, an item is returned exactly when it is in the list and the lowercased query occurs at some offset of its lowercased text |
| `SearchLogic.SearchIgnoresQueryCase` | app/lib/logic/searchLogic.ts:14-16 | searching for the upper-cased or the lower-cased query gives the same result as searching for the query |
| `SearchLogic.SearchCommutesWithStatus` | app/lib/logic/searchLogic.ts:15-17 | searching a status view gives the same result as taking that status view of the search result |
| `SearchLogic.SearchEmptyCollection` | app/lib/logic/searchLogic.ts:15-17 | searching the empty list finds nothing |
| `SearchLogic.SearchGroceryFindsOnlyShoppingList` | tests/logic/searchLogic.test.ts:24-29 | searching the four sample texts for "grocery" returns only the "GROCERY shopping list" item, because "Buy groceries" does not contain "grocery" |
| `SearchLogic.SearchGrocerFindsBoth` | tests/logic/searchLogic.test.ts:24-29 | searching the same items for "grocer" returns "Buy groceries" and "GROCERY shopping list", in that order |
| `Store.TodoStore.constructor` | app/lib/store/todoStore.ts:12-14 | a new store holds no items |
| `Store.TodoStore.AddTodo` | app/lib/store/todoStore.ts:15-16 | the new `todos` is `addTodo` of the old one; the collection invariant is kept when the id is fresh |
| `Store.TodoStore.DeleteTodo` | app/lib/store/todoStore.ts:17-18 | the new `todos` is `deleteTodo` of the old one; the collection invariant is kept |
| `Store.TodoStore.ToggleTodo` | app/lib/store/todoStore.ts:19-20 | the new `todos` is `toggleTodo` of the old one; the collection invariant is kept |
| `Store.AddToggleDeleteWorkflow` | tests/store/todoStore.test.ts:78-103 | after three adds, toggling the second item and deleting the first, the store holds the second item (completed) followed by the third (active) |
| `Store.SnapshotSurvivesLaterAdd` | tests/store/todoStore.test.ts:62-76 | a `todos` snapshot taken after one add still holds that single item after a second add, and the new state is the snapshot plus the second item |
| `Store.ToggleTwiceRestores` | tests/store/todoStore.test.ts:48-60 | toggling an added item once completes it, and toggling it again reopens it |
| `Store.AddBlankToggleSession` | app/lib/store/todoStore.ts:15-20 | after adding a text, adding a blank text and toggling the item, the store holds one completed item: the active count is 0, the completed count is 1, the active view is empty and clearing the completed items leaves nothing |

## Left out

- Subscriber notification and Zustand's `create` / `set` (app/lib/store/todoStore.ts:13) are left out. Each store action is modelled as its state transition alone.
- The internals of `generateId` (app/lib/logic/todoLogic.ts:6-8) and the `Date.now()` timestamp are left out. Both are non-deterministic calls into the runtime, so they are parameters of `AddTodo`.
- The store fields `filter`, `searchQuery`, `setFilter`, `setSearchQuery` and `clearCompleted`, which the components refer to, are left out. `app/lib/store/todoStore.ts` does not define any of them.
- The React components, the page and layout files, and the context provider in `app/lib/store/StoreProvider.tsx` are not part of this model. They are rendering and context wiring.
- Case mapping covers ASCII letters only. JavaScript's `toLowerCase` / `toUpperCase` use full Unicode case mapping, and some of those mappings change a string's length; that is not modelled.
- Strings are sequences of Unicode scalar values. JavaScript strings are UTF-16 code units, so offsets inside characters outside the Basic Multilingual Plane differ.
- The whitespace set of `trim` is written out and fixed: ECMAScript's WhiteSpace and LineTerminator characters under Unicode's current space-separator category.
- Reference identity is not modelled. JavaScript returns the very same array for a blank text in `addTodo`, for the `all` filter and for a blank query. Here a result is a value that is equal to the input, and snapshots are values that later actions cannot affect.
- The `default:` branch of `filterTodos` (app/lib/logic/filterLogic.ts:16) is left out. The filter type here is a closed datatype, so no other value exists.

## Findings

| source | as written | input that shows it | evidently intended | confidence | as-written member | corrected member |
|---|---|---|---|---|---|---|
| tests/logic/searchLogic.test.ts:24-29 | the test expects the query "grocery" to return both "Buy groceries" and "GROCERY shopping list" (ids 1 and 4), but `searchTodos` matches plain substrings and "buy groceries" does not contain "grocery" | the four sample items of that test, query "grocery": the result is only item 4 | a query contained in both texts, such as "grocer", which returns items 1 and 4 in order | high; not executed | `SearchLogic.SearchGroceryFindsOnlyShoppingList` | `SearchLogic.SearchGrocerFindsBoth` |
