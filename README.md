# Todo board state machine

A model of the state held by the `App` component of a React todo-list
widget, and of the handlers that change it. The state is an ordered list of
todo records (`id`, `text`, `tag`, `time`, `completed`) plus a text draft, a
tag draft, an optional id of the record being edited, and the active filter
string. Five handlers change it: add, delete (after a confirmation), begin
editing, commit the edit, and toggle completion. One projection reads it:
the records shown under the active filter.

Layout:

- `wrappers.dfy`, module `Wrappers`: `Option`, the model of `null`/`undefined`.
- `text.dfy`, module `Text`: ECMAScript `String.prototype.trim` and the fact
  that `!s.trim()` holds exactly when `s` is white space only.
- `todos.dfy`, module `Todos`: the `Todo` record and the pure list
  transformations the handlers apply (`filter`, `find`, `map` with an
  object spread), with lemmas on order, length, involution, partition and
  uniqueness of ids.
- `app.dfy`, module `TodoApp`: class `App` with the component's five state
  fields; each handler is a method that assigns those fields through the
  functions of `Todos`.

Each handler is one atomic transition. The clock value used as the new id,
the locale-formatted creation time and the answer of the confirmation
prompt are parameters.

The model follows the code, including these behaviours:

- Add stores the untrimmed draft as `text`. Trimming only decides whether
  the draft is blank.
- Beginning an edit of an id that no record carries is not a no-op. The code
  reads `text` off an undefined `find` result and throws. `Edit` therefore
  requires the id to be present.
- Committing with no editing target still clears both drafts. Only the list
  is left as it was.
- Committing accepts an empty draft, so a stored `text` can become empty.
- Delete and toggle act on every record with the id, not on one record.
  Delete shortens the list by the number of records carrying the id
  (`RemoveLength`). With unique ids and a present id that is exactly one
  (`RemovePresent`).
- No filter value is rejected. Any value other than `completed` or
  `incomplete` shows the whole list.

## Model

| member | source | states |
|---|---|---|
| `TodoApp.App.constructor` | src/App.js:4-11 | the list comes from storage (empty when nothing is stored); drafts are empty, there is no editing target, and the filter is `all` |
| `TodoApp.App.Add` | src/App.js:17-32 | a white-space-only draft changes no field; otherwise the new list is `{id, text: input (untrimmed), tag, time, completed: false}` followed by the old list unchanged, both drafts are empty, and the editing target and filter are kept; with a fresh id, unique ids stay unique |
| `Text.Trim` | src/App.js:18 | `trim()` is the input with a white-space prefix and suffix removed, and it neither starts nor ends with white space |
| `Text.TrimStartCutsPrefix` | src/App.js:18 | the leading part that `trim` removes is all white space, and what is left starts with another character or is empty |
| `Text.TrimEndCutsSuffix` | src/App.js:18 | the trailing part that `trim` removes is all white space, and what is left ends with another character or is empty |
| `Text.TrimEmptyIffBlank` | src/App.js:18 | `input.trim()` is empty if and only if every character of `input` is ECMAScript white space |
| `TodoApp.App.Delete` | src/App.js:34-36 | unconfirmed: the list is unchanged; confirmed: the list becomes `Remove(todos, id)`; drafts, editing target and filter are kept; unique ids stay unique |
| `Todos.Remove` | src/App.js:35 | a record is in the result exactly when it is in the list and its id differs from `id` |
| `Todos.RemoveIsSubsequence` | src/App.js:35 | the records kept by delete stay in their original relative order |
| `Todos.RemoveAbsent` | src/App.js:35 | deleting an id that no record carries leaves the list unchanged |
| `Todos.RemoveLength` | src/App.js:35 | delete keeps every record whose id differs, as often as the list holds it, so the list shrinks by the number of records carrying the id |
| `Todos.RemovePresent` | src/App.js:35 | with unique ids, deleting a present id shortens the list by exactly one |
| `Todos.RemoveKeepsUniqueIds` | src/App.js:35 | deletion keeps ids unique |
| `Todos.Filter` | src/App.js:35 | `filter` keeps at most as many records as it gets, and a record is in the result exactly when it is in the input and satisfies the callback |
| `Todos.FilterIsSubsequence` | src/App.js:60-64 | `filter` returns an order-preserving subsequence of its input |
| `Todos.FilterLength` | src/App.js:60-64 | `filter` returns exactly as many records as satisfy the callback |
| `Todos.FilterKeepsAll` | src/App.js:60-64 | when every record satisfies the callback, `filter` returns the whole list |
| `Todos.FilterPartition` | src/App.js:60-64 | filtering by a callback and by its negation returns the list's records between them, each exactly as often as the list holds it, so the two lengths sum to the list's length |
| `Todos.FilterKeepsUniqueIds` | src/App.js:35 | a filtered list with unique ids has unique ids |
| `TodoApp.App.Edit` | src/App.js:38-43 | for a present id: the drafts hold the text and tag of the first record with that id, the editing target is the id, and the list and filter are unchanged |
| `Todos.Find` | src/App.js:39 | `find` returns nothing exactly when no record has the id; otherwise it returns a record of the list that carries the id |
| `Todos.FindFirst` | src/App.js:39 | `find` returns the record at the first index whose id is the one sought |
| `Todos.FindUnique` | src/App.js:39 | with unique ids, `find` returns the one record carrying the id |
| `TodoApp.App.Update` | src/App.js:45-52 | the list becomes `Rewrite(todos, editingId, input, tag)`; both drafts are empty and the editing target is cleared; unique ids stay unique |
| `Todos.Rewrite` | src/App.js:46-48 | length and order are kept, and so are every id, time and completion flag; the editing target gets the drafts as text and tag; every other record is unchanged |
| `Todos.RewriteWithoutTarget` | src/App.js:46-48 | with a null editing target, the commit leaves the list unchanged |
| `Todos.EditThenUpdate` | src/App.js:38-52 | with unique ids, committing the drafts that an edit of a present id just loaded gives back the list as it was |
| `TodoApp.EditThenUpdateRestores` | src/App.js:38-52 | calling `Edit(id)` then `Update()` on the component leaves its list as it was and clears drafts and target |
| `TodoApp.App.ToggleComplete` | src/App.js:54-58 | the list becomes `Toggle(todos, id)`; drafts, editing target and filter are kept; unique ids stay unique |
| `Todos.Toggle` | src/App.js:55-57 | length, order, ids, texts, tags and times are kept; `completed` flips exactly on the records whose id is `id` |
| `Todos.ToggleTwice` | src/App.js:55-57 | toggling the same id twice restores the list |
| `Todos.ToggleAbsent` | src/App.js:55-57 | toggling an id that no record carries leaves the list unchanged |
| `Todos.SameIdsKeepUniqueIds` | src/App.js:46-48 | a transformation that keeps every id in place keeps ids unique |
| `Todos.PrependKeepsUniqueIds` | src/App.js:29 | putting a record with a fresh id in front keeps ids unique |
| `Todos.Visible` | src/App.js:60-64 | the shown records are an order-preserving subsequence of the list; under `completed` they are exactly the completed records, under `incomplete` exactly the others, and under any other filter the whole list |
| `Todos.VisiblePartition` | src/App.js:60-64 | the `completed` and `incomplete` views hold every record of the list exactly once between them, so their lengths sum to the list's length |
| `TodoApp.App.FilteredTodos` | src/App.js:60-64 | the projection of the component's own list under its own filter, with the properties of `Visible` |
| `TodoApp.App.SetInput` | src/App.js:75 | typing sets the text draft and nothing else |
| `TodoApp.App.SetTag` | src/App.js:80 | typing sets the tag draft and nothing else |
| `TodoApp.App.SetFilter` | src/App.js:96-108 | the filter buttons set the filter and nothing else |

## Left out

- Persistence. The model does not cover the initial `localStorage.getItem`
  with `JSON.parse`, or the effect that writes the list back with
  `JSON.stringify` after every change. Both are browser and library calls. The
  constructor takes the stored list as an already-parsed value. A malformed
  stored value would make `JSON.parse` throw, and that failure is not
  modelled.
- `window.confirm` is an interactive prompt. Its answer is the `confirmed`
  argument of `Delete`.
- `Date.now()` and `new Date().toLocaleString()` read the clock and the
  locale. They are the `id` and `time` arguments of `Add`. The code does not
  guarantee that a new id is fresh. Only the uniqueness lemmas assume it.
- Rendering and CSS class selection are left out, as is the choice between the Add
  and Config buttons. The buttons are chosen by the truthiness of
  `editingId`, so an editing target with id 0 would show Add. Every rendered
  button only calls a handler that is modelled.
- React's batching of `useState` setters and re-rendering are left out. Each handler is one
  atomic transition.
- JavaScript strings are sequences of UTF-16 code units, but here they are sequences of Unicode
  scalar values. Every code point that `trim` removes lies in the Basic
  Multilingual Plane, so the blank test is the same.
