# Item Management System — a Dafny model of its item store and client list logic

The application lets users keep a list of personal items (title, description, priority,
status). Its server exposes five item routes guarded by a bearer-token middleware; its browser
client fetches the caller's items, narrows them locally by a search box and two selectors, and
validates its forms before sending them. This project models two parts of it:

- **The item router** (`backend/routes/items.js`), as the class `ItemRoutes.ItemStore`: the
  collection is a `map<ItemId, Item>` field, and each route handler is a method that takes the
  caller's id (the id the authentication middleware attaches) and returns an HTTP status with a
  JSON payload. Create refuses a falsy title with 400; list returns exactly the caller's items,
  newest first; get, update and delete answer 404 for a missing id before 403 for another
  user's item; update touches the title only when the new one is truthy and the description
  whenever one is supplied; delete is a hard removal. Each mutating method states the whole new
  map, that 404/403 leave the store unchanged, and that items of other users are neither
  changed, added nor returned. The store keeps the invariant that no stored title is empty.
- **The client** (`frontend/script.js`): the filter state (`allItems`, `currentFilter`, the
  list last displayed) as the class `ItemFilter.FilterState` with `applyFilters` and its
  setters; `escapeHtml`/`unescapeHtml` as functions with a proved round trip; the ordered form
  guards of login, registration and the add/edit item forms as functions over strings.

The JavaScript string primitives those rely on are in `JsString`: `trim()` strips exactly the
ECMAScript whitespace and line-terminator code points, `length` counts UTF-16 code units, and
`includes()` is substring occurrence. The functions `JsString.Trim`, `JsString.Lower` and `JsString.Includes` stand
for these JavaScript built-ins, not for functions of the application; what they compute is
stated by the `JsString` lemmas in the table below.

The create and update routes read only `title` and `description` from the request body, so a
priority or status sent by the client is not stored by these routes; the title check is
JavaScript truthiness, so a whitespace-only title is accepted by the server (the client trims
before checking, so it never sends one).

Files: `wrappers.dfy` (Option), `js_string.dfy`, `item_routes.dfy`, `item_filter.dfy`,
`html_escape.dfy`, `form_checks.dfy`.

## Model

| member | source | states |
|---|---|---|
| `ItemRoutes.ItemStore.Create` | backend/routes/items.js:8-27 | A falsy (absent or empty) title gives 400 "Title is required" and no change; otherwise 201 and exactly one new entry under an id never issued before (so a deleted id stays deleted), owned by the caller, with the description or `''`; the no-empty-title invariant is kept and no other user's item is touched |
| `ItemRoutes.ItemStore.List` | backend/routes/items.js:30-37 | Status 200 and a listing that holds every item of the caller, only items of the caller as stored, each id once, ordered by `createdAt` descending; no other user's item is returned |
| `ItemRoutes.ItemStore.Get` | backend/routes/items.js:40-57 | 404 when the id is absent, else 403 when another user owns it, else 200 with the stored item; no other user's item is ever returned and the store is not changed |
| `ItemRoutes.ItemStore.Update` | backend/routes/items.js:60-83 | 404 / 403 in that order with the store unchanged; for the owner the entry becomes its patch and nothing else changes; the returned item is the new one and no title becomes empty |
| `ItemRoutes.ItemStore.Delete` | backend/routes/items.js:86-104 | 404 / 403 in that order with the store unchanged; for the owner exactly that id is removed, every other entry is kept, and the prior record is returned with "Item deleted successfully" |
| `ItemRoutes.Guard` | backend/routes/items.js:44-97 | The handler may proceed iff the item exists and the caller owns it; 404 iff the item is absent; 403 iff it exists and is owned by someone else — the check shared by get (44-51), update (66-73) and delete (90-97) |
| `ItemRoutes.Patch` | backend/routes/items.js:75-76 | Owner and creation time never change; the title changes only to a truthy new title; the description changes whenever one is supplied, including `''` |
| `ItemRoutes.PatchKeepsTitle` | backend/routes/items.js:75 | A non-empty title stays non-empty under any update, and is untouched when no title is supplied |
| `ItemRoutes.InsertNewestFirst` | backend/routes/items.js:32 | Ordered insertion adds exactly the one document and keeps every other: the result's multiset is the input's plus `d` |
| `ItemRoutes.InsertKeepsNewestFirst` | backend/routes/items.js:32 | Inserting into a newest-first listing leaves it newest first |
| `ItemRoutes.InsertKeepsDistinctIds` | backend/routes/items.js:32 | Inserting a document with a new id keeps ids unique |
| `ItemFilter.FilterState.ApplyFilters` | frontend/script.js:13-37 | The three successive filter passes yield exactly the items of `allItems` that pass all three stages, in order; `allItems` is only read |
| `ItemFilter.FilterState.KeepWhere` | frontend/script.js:28 | The loop computes `Array.prototype.filter` |
| `ItemFilter.SelectIsSubsequence` | frontend/script.js:19-33 | Filtering yields an order-preserving subsequence |
| `ItemFilter.SelectMembership` | frontend/script.js:19-33 | An item is kept iff it occurs in the input and passes the test |
| `ItemFilter.SelectTwice` | frontend/script.js:19-33 | Two successive filters equal one filter by the conjunction |
| `ItemFilter.SelectAll` | frontend/script.js:17-34 | A stage that is switched off keeps its input unchanged |
| `ItemFilter.FilterViewIsSubsequence` | frontend/script.js:14-34 | The displayed list is an order-preserving subsequence of `allItems` |
| `ItemFilter.FilterViewMembership` | frontend/script.js:17-34 | Shown iff in `allItems`, matching the lower-cased untrimmed query in lower-cased title, description or truthy priority when the trimmed query is not blank, and equal to the selected priority and status unless 'all' |
| `ItemFilter.FilterViewShowsAll` | frontend/script.js:17-32 | A blank or whitespace-only search with both selectors at 'all' shows `allItems` unchanged |
| `ItemFilter.FilterViewSelectorsExact` | frontend/script.js:27-34 | With a priority (status) selected, every shown item has exactly that priority (status) |
| `ItemFilter.SearchIsNotTrimmed` | frontend/script.js:17-18 | Trimming only decides whether a search is active: " milk" is active but does not find the title "milk" |
| `ItemFilter.FilterState.SearchItems` | frontend/script.js:39-42 | Only the search field of the filter changes; the display is the filtered view |
| `ItemFilter.FilterState.FilterByPriority` | frontend/script.js:44-47 | Only the priority field changes; the display is the filtered view |
| `ItemFilter.FilterState.FilterByStatus` | frontend/script.js:49-52 | Only the status field changes; the display is the filtered view |
| `ItemFilter.FilterState.ResetFilters` | frontend/script.js:54-62 | The filter becomes search '' / priority 'all' / status 'all' and all of `allItems` is shown, which agrees with the filtered view |
| `ItemFilter.FilterState.Load` | frontend/script.js:283-284 | A fetched list replaces `allItems` and is shown unfiltered; the filter is kept |
| `ItemFilter.FilterState.constructor` | frontend/script.js:5-10 | No items and the default filter |
| `HtmlEscape.EscapeChar` | frontend/script.js:486-492 | Each replacement is non-empty, contains no raw markup character, and has `&` only at its start, where an entity begins |
| `HtmlEscape.Escape` | frontend/script.js:485-494 | The output contains none of `<`, `>`, `"`, `'` and is at least as long as the input |
| `HtmlEscape.EscapeAmpersandsBeginEntities` | frontend/script.js:485-494 | Every `&` in escaped text begins one of the five entities |
| `HtmlEscape.EscapePlainUnchanged` | frontend/script.js:493 | Text without any of the five special characters is returned unchanged |
| `HtmlEscape.Unescape` | frontend/script.js:496-505 | Unescaping never lengthens text, and text without any `&` comes back unchanged |
| `HtmlEscape.UnescapeEscapedChar` | frontend/script.js:497-504 | The unescaping scan turns each entity back into its character and continues after it |
| `HtmlEscape.UnescapeEscape` | frontend/script.js:485-505 | `unescapeHtml(escapeHtml(s)) == s` for every string |
| `HtmlEscape.EscapeInjective` | frontend/script.js:485-494 | Different texts never escape to the same markup |
| `FormChecks.CheckLogin` | frontend/script.js:145-153 | Sent iff trimmed email and password are both non-empty; the request carries the trimmed values; otherwise "Please enter email and password" |
| `FormChecks.CheckRegister` | frontend/script.js:191-214 | The first failing check decides the message: any blank field, else password differs from confirmation, else fewer than 6 UTF-16 code units; sent iff all pass, with the trimmed values |
| `FormChecks.CheckItemForm` | frontend/script.js:348-356 | Sent iff the trimmed title is non-empty, with trimmed title and description; otherwise the title alert |
| `FormChecks.SentRegistrationIsClean` | frontend/script.js:191-214 | A sent registration has non-blank trimmed fields, matching passwords, and a password of at least 6 code units (3 characters) |
| `FormChecks.RegisterStable` | frontend/script.js:191-214 | Re-checking a sent registration sends the same request |
| `FormChecks.LoginStable` | frontend/script.js:145-153 | Re-checking sent credentials sends the same request |
| `FormChecks.ItemFormRejectsBlankTitle` | frontend/script.js:348-416 | The add form (348-356) and the edit form (408-416) refuse exactly the titles made of whitespace only |
| `FormChecks.SentItemFormPassesServer` | frontend/script.js:408-428 | A form the client sends passes the server's title check, and an edit replaces both title and description |
| `JsString.TrimIsSlice` | frontend/script.js:191-194 | `trim()` returns a contiguous slice whose dropped prefix and suffix are whitespace and which neither starts nor ends with whitespace |
| `JsString.TrimEmptyIffAllWhitespace` | frontend/script.js:17 | `s.trim()` is empty iff `s` is whitespace only |
| `JsString.TrimIdempotent` | frontend/script.js:191-194 | Trimming twice equals trimming once |
| `JsString.IncludesIffOccurs` | frontend/script.js:20-22 | `includes` holds iff the needle occurs at some index, in both directions |
| `JsString.LowerIdempotent` | frontend/script.js:18-22 | Lower-casing a lower-cased string changes nothing |
| `JsString.Utf16Length` | frontend/script.js:210 | `length` counts between one and two code units per character |

## Left out

- The 500 responses of every handler (store failures, an id that is not a valid ObjectId): the model's store never fails and ids are already well-formed.
- Request bodies whose `title` or `description` is neither absent nor a string (null, numbers, objects): fields are modelled as absent or a string.
- Item ids: the database's ObjectId generation is modelled by a counter that yields an id no stored item has.
- `createdAt` is a parameter of create, since the clock is outside the model; `updatedAt` and other schema timestamps are not modelled.
- The `Item` schema (defaults for priority and status, its validators), the authentication middleware, the auth routes, token issuing and password hashing are not part of this model; the caller's id is a plain parameter.
- ItemRoutes.ItemStore.List: entries with equal `createdAt` may come back in any order from the database; the contract leaves their order open, and the model's insertion happens to put the later-inserted one first.
- JsString.Lower: maps only `A`–`Z`; the full Unicode case mapping of `toLowerCase` is not modelled.
- Server bootstrapping (`backend/server.js`, `backend/config/database.js`): routing, CORS, JSON parsing, the health route and the database connection.
- Browser side effects: `fetch` and its responses, `displayItems` HTML templating, `switchPage`, the edit modal, `localStorage`, `alert`/`confirm`, `console`, logout and the 401 handling; the submit handlers are modelled up to the decision to send a request.
- Concurrency: requests racing on the server and stale fetch responses on the client.
