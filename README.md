# Todo slice: a verified model of the to-do store's reducer

The to-do application keeps one piece of client state, the todo slice
`{loading, todos, error}`, where each item is `{id, title, completed}`. Four
asynchronous operations (fetch-all, add, toggle, delete) settle against it.
Each has a pending, a fulfilled and a rejected phase, which gives twelve
reducer cases. This project models that state and those twelve cases in Dafny
and proves what each case does to the list and to the `loading`/`error` flags.

- `todo_slice.dfy`, module `TodoSlice`. The `Todo` datatype. The class
  `TodoStore`, whose fields `loading`, `todos` and `error` are updated in place
  by one method per reducer case, with each action's payload as a parameter.
  Beside the class are the list functions that specify the methods:
  `FirstIndexOf` (the `find` lookup), `Toggled` and `RemoveId` (the `filter`).
  The lemmas about those functions cover order, idempotence, "nothing else
  changes" and the preservation of unique ids.
- `delete_payload.dfy`, module `DeletePayload`. A small model of the
  JavaScript values on the delete path: a number, `undefined`, an object, and
  `Number(...)` giving NaN. It holds the finding below.

Toggle fulfilled looks up the first item whose id equals the payload id and
then writes that item's `completed` field. When no item matches, the lookup
gives `undefined` and the write throws. `TodoStore.ToggleFulfilled` reports
this as `crashed == true`. The state then stays as it was, because a reducer
that throws produces no new state. (The source assigns `loading = false`
before the lookup, but that assignment happens on the discarded draft.)

The fulfilled phases of add, toggle and delete leave `error` alone. Only
fetch-all's fulfilled phase clears it. Every pending phase clears it, and
every rejected phase sets it to the message.

## Model

| member | source | states |
|---|---|---|
| `TodoSlice.TodoStore.constructor` | src/features/todo/todoSlice.js:4-8 | the initial state is not loading, has no items and an empty error |
| `TodoSlice.TodoStore.FetchAllPending` | src/features/todo/todoSlice.js:73-77 | loading becomes true, the list is emptied and the error cleared |
| `TodoSlice.TodoStore.FetchAllFulfilled` | src/features/todo/todoSlice.js:78-82 | the list is exactly the fetched list (same order and length), loading is false and the error cleared |
| `TodoSlice.TodoStore.FetchAllRejected` | src/features/todo/todoSlice.js:83-87 | loading is false, the list is discarded and the error is the rejection message |
| `TodoSlice.TodoStore.AddPending` | src/features/todo/todoSlice.js:88-91 | loading is true, the error cleared, the list unchanged |
| `TodoSlice.TodoStore.AddFulfilled` | src/features/todo/todoSlice.js:92-95 | the new list is the old list with the created item appended, loading is false, the error unchanged |
| `TodoSlice.TodoStore.AddRejected` | src/features/todo/todoSlice.js:96-99 | loading is false, the error is the message, the list unchanged |
| `TodoSlice.TodoStore.TogglePending` | src/features/todo/todoSlice.js:100-103 | loading is true, the error cleared, the list unchanged |
| `TodoSlice.TodoStore.ToggleFulfilled` | src/features/todo/todoSlice.js:104-110 | it crashes exactly when no item has the id, and then the state is unchanged; otherwise the list is the toggled list, loading is false and the error unchanged |
| `TodoSlice.TodoStore.ToggleRejected` | src/features/todo/todoSlice.js:111-114 | loading is false, the error is the message, the list unchanged |
| `TodoSlice.TodoStore.DeletePending` | src/features/todo/todoSlice.js:115-118 | loading is true, the error cleared, the list unchanged |
| `TodoSlice.TodoStore.DeleteFulfilled` | src/features/todo/todoSlice.js:119-124 | the list is the old list with every item of the key's id filtered out, loading is false, the error unchanged |
| `TodoSlice.TodoStore.DeleteRejected` | src/features/todo/todoSlice.js:125-128 | loading is false, the error is the message, the list unchanged |
| `TodoSlice.FirstIndexOf` | src/features/todo/todoSlice.js:106-108 | a found index holds an item with the id and no earlier item has it; nothing is found exactly when no item has the id |
| `TodoSlice.Toggled` | src/features/todo/todoSlice.js:104-110 | it fails exactly when no item has the id; otherwise the length, ids and titles are unchanged, the first item with the id gets the new flag, and every other item is unchanged |
| `TodoSlice.ToggledUniqueExact` | src/features/todo/todoSlice.js:104-110 | with unique ids, exactly the item with the id has the new flag, every other item is unchanged, and ids stay unique |
| `TodoSlice.RemoveId` | src/features/todo/todoSlice.js:121-123 | the result is no longer than the list, and every item in it comes from the list and has a different id than the key |
| `TodoSlice.RemoveIdKeeps` | src/features/todo/todoSlice.js:121-123 | every item whose id differs from the key is kept |
| `TodoSlice.RemoveIdAppend` | src/features/todo/todoSlice.js:121-123 | the filter distributes over concatenation, so it preserves order |
| `TodoSlice.RemoveIdAbsent` | src/features/todo/todoSlice.js:121-123 | when no item has the key's id, the list is unchanged |
| `TodoSlice.RemoveIdIdempotent` | src/features/todo/todoSlice.js:121-123 | deleting the same id twice is the same as deleting it once |
| `TodoSlice.RemoveIdUniqueLength` | src/features/todo/todoSlice.js:121-123 | with unique ids and the id present, exactly one item is removed |
| `TodoSlice.RemoveIdUnique` | src/features/todo/todoSlice.js:121-123 | deleting keeps ids unique |
| `TodoSlice.AppendUnique` | src/features/todo/todoSlice.js:94 | after the append, ids are unique exactly when they were before and the new id was absent |
| `DeletePayload.Property` | src/features/todo/todoSlice.js:122 | property access `.id`: it throws (a TypeError in JavaScript) exactly when the value is `undefined`; a number has no fields, so the read gives `undefined`; an object gives its field |
| `DeletePayload.FilterByKey` | src/features/todo/todoSlice.js:121-123 | the reducer's filter on a converted key: no longer than the list, and every kept item comes from the list and strictly differs from the key (`!==`, under which NaN differs from every id) |
| `DeletePayload.ReducerDelete` | src/features/todo/todoSlice.js:119-124 | the delete fulfilled case as written, reading `.id` of the payload, converting it with `Number` (`ToNumber`) and filtering with `!==` (`StrictlyDiffers`): it throws exactly when the payload is `undefined` and the list is non-empty; for a payload `{id: k}` it equals `RemoveId` with key `k`; for any other payload that does not throw, a bare number included, the list is unchanged |
| `DeletePayload.ThunkResult` | src/features/todo/todoSlice.js:58-63 | the delete wrapper rejects exactly when its argument is `undefined` (the `.id` read throws inside the `try`, before anything is sent) or the DELETE request fails; when the request succeeds, it resolves a request `{id: k}` with the bare number `k`, a value with no `id` field |
| `DeletePayload.ComposedDelete` | src/features/todo/todoSlice.js:119-124 | the wrapper's result fed to the reducer: for every well-formed request `{id: k}` whose DELETE succeeds, the delete is fulfilled with the list unchanged; it is rejected exactly when the request is `undefined` or the DELETE fails |
| `DeletePayload.CorrectedDelete` | src/features/todo/todoSlice.js:119-124 | filtering on the resolved id itself: rejected exactly when the request is `undefined` or the DELETE fails; when the DELETE succeeds, a request `{id: k}` makes the list `RemoveId` with key `k`, and any other defined request leaves it unchanged |
| `DeletePayload.NaNKeyKeepsAll` | src/features/todo/todoSlice.js:121-123 | filtering with a NaN key keeps every item, since NaN differs from every id |
| `DeletePayload.ComposedDeleteIsNoOp` | src/features/todo/todoSlice.js:119-124 | as composed with the wrapper, which resolves with the bare id (line 61), a successful delete leaves the list unchanged |
| `DeletePayload.ComposedDeleteCounterexample` | src/features/todo/todoSlice.js:119-124 | deleting id 1 from a list holding only item 1 keeps the item, where the id filter empties the list |
| `DeletePayload.FiniteKeyIsRemoveId` | src/features/todo/todoSlice.js:121-123 | the reducer's filter with an integer key is the id filter `RemoveId` |
| `DeletePayload.CorrectedDeleteRemovesId` | src/features/todo/todoSlice.js:119-124 | filtering on the resolved id removes exactly the items with the requested id; the reducer as written does the same when given the whole request object |

## Findings

| source | as written | input that shows it | evidently intended | confidence | as-written member | corrected member |
|---|---|---|---|---|---|---|
| src/features/todo/todoSlice.js:119-124 | The delete wrapper resolves with the bare id (line 61). The fulfilled case filters on `Number(payload.id)`, which is `Number(undefined)`, i.e. NaN. NaN differs from every id, so nothing is removed. | list `[{id: 1, title: "a", completed: false}]`, delete request `{id: 1}` whose DELETE succeeds | the item with id 1 is removed from the list | high; not executed | `DeletePayload.ComposedDeleteIsNoOp` | `DeletePayload.CorrectedDeleteRemovesId` |

The rest of the model uses the corrected behaviour: `TodoStore.DeleteFulfilled`
takes the delete key as an integer and removes the items with that id.
The intent shows in the source itself: the wrapper is named `deleteAsyncTodo`
and sends `DELETE /todos/${payload.id}` to the service
(src/features/todo/todoSlice.js:56-60), so on success the item with that id is
gone on the server, and the reducer's filter (lines 121-123) is there to drop it
from the local list too.

## Left out

- The four request wrappers (fetch, create, patch, delete over HTTP with axios) are left out because they are network I/O. Their results are the methods' parameters: the fetched list, the created item, the toggle's `(id, completed)`, the delete key, and the rejection message. The one part of a wrapper that is modelled is the value the delete wrapper resolves with (`DeletePayload.ThunkResult`), because the delete finding depends on it. Whether its DELETE request succeeded is the parameter `deleted`.
- The placeholder id of the create request (the function `Date.now` sent instead of a timestamp) is a wire-format detail of the create wrapper, not of the reducer, so it is left out.
- Redux Toolkit's slice and dispatch machinery, Immer's draft copying, action ordering and the interleaving of concurrent in-flight operations are left out. Each method is one reducer case applied on its own.
- JavaScript coercions are left out apart from the delete key path. Ids and keys are integers: `Number(...)` on a numeric string and `===` between a number and a string are not modelled.
- `ToggleFulfilled`: on a missing id it leaves the whole state unchanged, which is what a throwing reducer gives. It does not model the `loading = false` that the source writes to the draft before the throw.
- The application shell `src/App.jsx` is layout only and is not part of this model.
