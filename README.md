# Grocery list: a Dafny model of its state and handlers

The app keeps a list of grocery entries `{id, item, checked}` as component
state, next to the text of the add-item input (`newItem`), the search text
(`search`), an error message (`fetchError`) and a loading flag (`isLoading`).
It exists in two versions:

- `src/App.js` changes only the local state;
- `src/sample-one/App.js` changes the local state first and then mirrors each
  change to a REST endpoint with one request made through
  `src/sample-one/apiRequest.js`. That helper turns the request's outcome into
  `null` or an error message. The message may set `fetchError`; it never undoes
  the local change.

The model has these modules:

- `Optional` (`optional.dfy`): `Option` for "null or a value". Also JavaScript
  truthiness of a string-or-null, where `null` and `''` are falsy.
- `Lists` (`lists.dfy`): `Filter` (the model of `Array.prototype.filter`) and
  `IsSubsequence`.
- `Text` (`text.dfy`): ASCII `toLowerCase` and `includes`.
- `GroceryList` (`grocery_list.dfy`): `Item` and the pure list transforms both
  versions share. These are the id of a new entry, check (`map`), delete
  (`filter`), `find`, and the search filter. The module also holds the choice of
  what `<main>` shows and the footer count.
- `ApiRequest` (`api_request.dfy`): the request record `(verb, url, body)`, the
  network outcome `Ok | NotOk | Threw(message)`, and `apiRequest` as the method
  `Send`.
- `LocalApp` (`local_app.dfy`) and `SyncedApp` (`synced_app.dfy`): each
  component as a class. The five state variables are fields. Each handler is a
  method that overwrites them in the source's order. The synced handlers take
  the network's answer as a parameter and return the request they issued.

The main facts proved:

- If ids are strictly increasing, add, check and delete keep them strictly
  increasing, so they stay unique.
- Checking twice restores the list.
- Delete results and search results are order-preserving subsequences.
- An empty search shows everything, and the search ignores case.
- In the synced version, the list a handler leaves behind does not depend on
  the network's answer. A failed request only sets `fetchError`. Over any run
  of mutations, an error that is showing stays showing.

Ids are not the largest id + 1, and empty text and unknown ids are not errors. In detail:

- A new id is the **last** entry's id + 1 (1 for an empty list), not the
  largest id + 1. The two agree while ids are increasing (`NextIdIsFresh`).
  Deleting the last entry and adding again reuses its id
  (`DeleteLastThenAddReusesId`). On a loaded list whose ids are not increasing,
  the new id can already be taken (`NextIdCanCollide`).
- Neither version rejects empty text in `addItem`. Only `handleSubmit` skips an
  empty input.
- Checking or deleting an absent id is not an error:
  - The local version, and delete in the synced version, leave the list as it
    is. The synced delete still sends its `DELETE`.
  - The synced check stops before its request. The reason: `find` yields
    `undefined`, and reading `.checked` from it throws. `HandleCheck` returns
    `None` in that case.
- The startup load fails with a different message in each version: "Did not
  receive expected data." in `src/App.js` and "Please reload the app." in
  `src/sample-one/App.js`.

## Model

| member | source | states |
|---|---|---|
| `Optional.Truthy` | src/sample-one/App.js:105 | JavaScript truthiness of a string-or-null: `null` and `''` are falsy, every other string is truthy (also the test `if (result)` at lines 54, 71 and 84) |
| `Lists.Filter` | src/App.js:60 | the result keeps every element that satisfies the predicate with its multiplicity and drops every other, in the original order (a subsequence); it is no longer than the input and is the whole input when every element passes |
| `Text.Lower` | src/App.js:89 | lower-casing keeps the length and maps each character to its lower-case form (ASCII letters shift by 32, everything else is kept) |
| `Text.LowerIdempotent` | src/App.js:89 | lower-casing an already lower-cased text changes nothing |
| `Text.Includes` | src/App.js:89 | `t.includes(q)` holds exactly when `q` occurs in `t` at some position |
| `Text.IncludesEmpty` | src/App.js:89 | every text includes the empty string |
| `GroceryList.NextId` | src/App.js:43 | the new id is the last entry's id + 1, or 1 for an empty list; while ids increase it is above every id in the list |
| `GroceryList.IncreasingIdsAreUnique` | src/App.js:43 | strictly increasing ids are pairwise distinct |
| `GroceryList.NextIdIsFresh` | src/App.js:43 | while ids increase, last id + 1 equals largest id + 1 and exceeds every id in the list |
| `GroceryList.AddKeepsIdsIncreasing` | src/App.js:41-48 | appending `{id: NextId, item, checked: false}` keeps ids strictly increasing and unique |
| `GroceryList.NextIdCanCollide` | src/App.js:43 | on the non-increasing list [3, 2] the new id is 3, already taken, and differs from largest id + 1 |
| `GroceryList.AddScenarios` | src/App.js:41-48 | adding "Bread" to the empty list gives `{id: 1, item: "Bread", checked: false}`; after ids 1 and 2 the new id is 3 |
| `GroceryList.Toggled` | src/App.js:52-56 | same length, ids and texts at every position; `checked` flips exactly where the id matches |
| `GroceryList.ToggleKeepsIdsIncreasing` | src/App.js:53-55 | checking keeps strictly increasing ids strictly increasing |
| `GroceryList.ToggleAbsentIsIdentity` | src/App.js:53-55 | checking an id no entry has leaves the list unchanged |
| `GroceryList.ToggleTwice` | src/App.js:53-55 | checking the same id twice restores the original list |
| `GroceryList.Find` | src/sample-one/App.js:68 | `find` yields an entry exactly when some entry has the id, and then it is the first such entry |
| `GroceryList.FindAfterToggle` | src/sample-one/App.js:60-68 | after checking `id`, `find` yields the old first match with `checked` flipped (the PATCH body), or nothing if there was none |
| `GroceryList.Removed` | src/App.js:59-61 | the result keeps every entry whose id differs, with its multiplicity, and no other, in order (a subsequence); no entry has the id; an absent id leaves the list unchanged |
| `GroceryList.SubsequenceKeepsIdsIncreasing` | src/App.js:60 | a subsequence of a list with strictly increasing ids has strictly increasing ids |
| `GroceryList.DeleteKeepsIdsIncreasing` | src/App.js:59-61 | deleting keeps strictly increasing ids strictly increasing |
| `GroceryList.DeleteLastThenAddReusesId` | src/App.js:43 | deleting id 2 from ids [1, 2] and adding hands out id 2 again |
| `GroceryList.Searched` | src/App.js:88-90 | the shown entries are every entry (with its multiplicity) whose lower-cased text includes the lower-cased search, and no other, in list order (a subsequence), never more than the list |
| `GroceryList.EmptySearchShowsAll` | src/App.js:88-90 | an empty search shows every entry, in order |
| `GroceryList.SearchIgnoresCase` | src/App.js:89 | two searches that lower-case alike show the same entries |
| `GroceryList.SearchOfLowered` | src/App.js:89 | a search and its lower-cased form show the same entries |
| `GroceryList.MilkSearchScenario` | src/App.js:88-90 | "MILK" and "milk" show the same entries, and both show the entry "Milk" |
| `GroceryList.SearchKeepsIdsIncreasing` | src/App.js:88-90 | the shown entries of a list with increasing ids have increasing ids |
| `GroceryList.ViewChoice` | src/sample-one/App.js:103-115 | shows the loading text exactly while loading; otherwise shows "Error: " + message exactly when `fetchError` is truthy; otherwise shows the search result, a subsequence of the list |
| `GroceryList.FooterLength` | src/sample-one/App.js:117 | the footer number is the full list length, at least the number of entries any search shows |
| `GroceryList.FooterCountsAllItems` | src/sample-one/App.js:117 | the footer shows the full list length, never less than the number of shown entries |
| `ApiRequest.Send` | src/sample-one/apiRequest.js:1-11 | an ok response returns `errMsg` (null by default); a non-ok response returns "Please reload the app."; a thrown fetch returns the error's message; it always returns |
| `LocalApp.App.constructor` | src/App.js:11-15 | starts with an empty list, empty input and search, no error, loading |
| `LocalApp.App.FetchItems` | src/App.js:17-32 | ok: list := loaded data and error := null; not ok: error := "Did not receive expected data."; thrown: error := its message; the list is kept on failure; loading ends in every case |
| `LocalApp.App.AddItem` | src/App.js:41-50 | appends `{id: NextId, item, checked: false}`, empties the input, changes nothing else, keeps ids increasing |
| `LocalApp.App.HandleCheck` | src/App.js:52-57 | the list becomes its checked-toggled form; nothing else changes; ids stay increasing |
| `LocalApp.App.HandleDelete` | src/App.js:59-62 | the list becomes the entries with other ids; nothing else changes; ids stay increasing |
| `LocalApp.App.HandleSubmit` | src/App.js:64-70 | an empty input changes nothing; otherwise adds the input's text and empties the input |
| `LocalApp.App.SetNewItem` | src/App.js:12 | sets the input text only |
| `LocalApp.App.SetSearch` | src/App.js:13 | sets the search text only |
| `SyncedApp.ErrorAfter` | src/sample-one/App.js:53-56 | a successful request keeps the previous error; a non-ok one sets the reload message; a thrown one sets its message when that message is truthy |
| `SyncedApp.ErrorNeverCleared` | src/sample-one/App.js:54-56 | once an error is showing, no run of mutations hides it, whatever the responses |
| `SyncedApp.SuccessesKeepError` | src/sample-one/App.js:54-56 | a run of mutations whose requests all succeed leaves `fetchError` as it was |
| `SyncedApp.FailureShowsError` | src/sample-one/App.js:54-56 | a non-ok response anywhere in a run of mutations leaves an error showing at the end |
| `SyncedApp.App.constructor` | src/sample-one/App.js:12-16 | starts with an empty list, empty input and search, no error, loading |
| `SyncedApp.App.FetchItems` | src/sample-one/App.js:19-35 | ok: list := data and error := null; not ok: error := "Please reload the app."; thrown: error := its message; the list is kept on failure; loading ends in every case |
| `SyncedApp.App.AddItem` | src/sample-one/App.js:38-57 | the entry is appended and the input emptied whatever the network answers; exactly one POST to `API_URL` with the new entry; the error is updated only by that request's result; ids stay increasing |
| `SyncedApp.App.HandleCheck` | src/sample-one/App.js:59-74 | the list is toggled first; with the id present, exactly one PATCH to `API_URL/id` whose body is the entry's new `checked`, then the error is updated by its result; with the id absent, no request and the error is kept |
| `SyncedApp.App.HandleDelete` | src/sample-one/App.js:76-87 | the entries with the id are removed first, keeping the order of the rest; exactly one DELETE to `API_URL/id`; the error is updated only by its result |
| `SyncedApp.App.HandleSubmit` | src/sample-one/App.js:89-95 | an empty input sends nothing and changes nothing; otherwise acts as `AddItem` on the input's text |
| `SyncedApp.App.SetNewItem` | src/sample-one/App.js:13 | sets the input text only |
| `SyncedApp.App.SetSearch` | src/sample-one/App.js:14 | sets the search text only |

## Left out

- JSX rendering and the display components (`AddItem`, `Footer`, `Header`, `SearchItem`, `Content`). The browser-side `required` check on the input belongs to them. So does the footer's "item"/"items" wording.
- `fetch`, headers, `JSON.stringify` and `response.json()`. An outcome value passed to each handler stands in for the network. A request is the record (verb, url, body). A body that is not JSON counts as a thrown error.
- URLs are `Collection` (`API_URL`) or `Member(id)` (`` `${API_URL}/${id}` ``). The decimal rendering of the id into the URL is not modelled.
- `async`/`await` interleaving and React's batching and stale closures. Every handler is one atomic, sequential transition. `handleSubmit` does not await `addItem`. The model runs the whole of `addItem` inside `HandleSubmit`.
- The `useEffect` lifecycle and the commented-out `setTimeout` delay. `FetchItems` is a method the startup calls once. All commented-out code is left out too.
- `e.preventDefault()` in `handleSubmit`: a browser event detail with no effect on the state.
- Unicode case mapping. `Text.Lower` lower-cases the 26 ASCII letters only.
- JavaScript numbers are doubles. Ids are unbounded integers, so precision loss past 2^53 is not modelled.
- Loaded data is assumed to be an array of well-formed items. Malformed server data and the `items?.length` guard against a non-array are not modelled.
- `SyncedApp.App.HandleCheck`: the TypeError thrown for an absent id is modelled as "no request is sent", not as a rejected promise.
