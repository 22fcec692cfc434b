# Favourites: a Dafny model

This project models the "favourites" feature of a book-catalog web application. Users list, add and remove favourite books and attach a free-text comment to each.

- **Server side.** The router `backend/routes/favorites.js` has four handler bodies: GET `/`, POST `/`, DELETE `/:bookId` and PATCH `/:bookId/comment`. Module `FavoritesRoutes` (`favorites_routes.dfy`) models them as operations on in-memory snapshots of the `users` and `books` collections.
  - A stored favourite is either a bare book id (the legacy shape) or `{bookId, comment}`: `Entry = Legacy(id) | Structured(bookId, comment)`.
  - GET is a pure `map`/`filter`/`find` pipeline, so it is the function `ListFavorites`.
  - POST, DELETE and PATCH find an index, then change the user's favourites in place: a push, a splice, an index assignment. Each is a method. It takes the users snapshot, the caller's username and the request fields, and returns a `Reply` and the new users snapshot.
  - What each write does to the caller's favourites list is given by the functions `Added`, `Removed` and `Recommented`. Module `FavoritesRoutesLemmas` (`favorites_routes_lemmas.dfy`) proves the list-level properties about them: order, idempotence, uniqueness of book ids, round trips, and tolerance of the legacy shape.
- **Client side.** The favourites slice `frontend/src/store/favoritesSlice.js` is modelled by module `FavoritesSlice` (`favorites_slice.dfy`).
  - The slice state `{items, status}` becomes the class `FavoritesState`.
  - There is one method per reducer case, plus `Dispatch`, the reducer itself: an action with no case leaves the state alone.
  - The `Run*` methods model one thunk round: pending, then fulfilled or rejected, depending on how the request ended.
  - Module `FavoritesSliceLemmas` (`favorites_slice_lemmas.dfy`) proves properties of the filter and patch operations the cases use.

Request bodies are JSON. For this feature a body field is `Value = Undefined | Null | Str(s)`. The code treats these three differently:
- POST defaults only an *undefined* comment to `''`.
- PATCH rejects only an *undefined* comment: `null` and `''` are accepted and stored.
- GET shows any falsy stored comment as `''`.

Path parameters are always strings, so "missing" means the empty string there.

Three behaviours of the code are easy to misread; the model follows the code:
- The client's remove case filters out *every* cached item with the id, while the server splices out only the first match.
- PATCH accepts a `null` comment.
- GET also shows `''` for a structured entry whose comment is falsy, not only for legacy entries.

## Model

| member | source | states |
|---|---|---|
| FavoritesRoutes.EntryId | backend/routes/favorites.js:22 | a bare id is its own book id; a structured entry's book id is its `bookId` (the `typeof fav === 'string'` test, repeated at lines 37, 54, 73 and 78) |
| FavoritesRoutes.UserIndex | backend/routes/favorites.js:18 | the position of the first user record with the caller's username, or -1 exactly when there is none |
| FavoritesRoutes.EntryIndex | backend/routes/favorites.js:36-38 | the first favourite whose id (bare string or `bookId`) equals the given id; -1 exactly when no favourite has it |
| FavoritesRoutes.Truthy | backend/routes/favorites.js:32 | a body value is falsy exactly when it is undefined, `null` or the empty string (the `!bookId` test) |
| FavoritesRoutes.BookLookup | backend/routes/favorites.js:24 | the first book of the catalog with that id, and none exactly when the catalog has no such book |
| FavoritesRoutes.ShownComment | backend/routes/favorites.js:23 | a non-empty shown comment is the entry's stored string comment; a stored string comment is shown as it is; so a bare id, an absent or `null` comment shows `''` |
| FavoritesRoutes.ResolveEntry | backend/routes/favorites.js:22-25 | an entry yields a view exactly when the catalog has its book; the view carries the fields of the first catalog book with the entry's id, the entry's id, and comment `''` for a bare id or a falsy stored comment, the stored string otherwise |
| FavoritesRoutes.ListView | backend/routes/favorites.js:21-26 | never longer than the favourites, and every listed view is a book of the catalog plus a comment |
| FavoritesRoutes.ListFavorites | backend/routes/favorites.js:16-28 | UserNotFound exactly when no record has the username; otherwise Ok with the list of the first such record |
| FavoritesRoutes.Added | backend/routes/favorites.js:36-42 | if the book is already a favourite, in either shape, the list is unchanged; otherwise `{bookId, comment}` is appended at the end |
| FavoritesRoutes.Removed | backend/routes/favorites.js:53-57 | with no favourite for the book the list is unchanged; otherwise it is one shorter, the first match spliced out |
| FavoritesRoutes.Recommented | backend/routes/favorites.js:76-80 | same length; position k becomes `Structured(sameId, comment)`; every other position is unchanged |
| FavoritesRoutes.AddFavorite | backend/routes/favorites.js:30-44 | BadRequest with the snapshot unchanged when `bookId` is falsy (checked before the user lookup); UserNotFound with the snapshot unchanged when the caller is absent; otherwise Ok, and only the caller's favourites change, to `Added(favs, bookId, comment or '')` |
| FavoritesRoutes.RemoveFavorite | backend/routes/favorites.js:47-61 | BadRequest for an empty id and UserNotFound for an absent caller, both with the snapshot unchanged; otherwise Ok, and only the caller's favourites change, to `Removed(favs, bookId)` |
| FavoritesRoutes.UpdateComment | backend/routes/favorites.js:64-83 | BadRequest for an empty id or an undefined comment; UserNotFound for an absent caller; FavoriteNotFound when no favourite has the id; the snapshot is unchanged in all four. Otherwise Ok with the new comment, and only the caller's favourites change, at the first match only |
| FavoritesRoutesLemmas.ListViewAppend | backend/routes/favorites.js:21-26 | listing is computed entry by entry, so the views keep the favourites' order |
| FavoritesRoutesLemmas.ListViewMembership | backend/routes/favorites.js:21-26 | a view is listed if and only if some favourite resolves to it |
| FavoritesRoutesLemmas.ListViewAllResolved | backend/routes/favorites.js:21-26 | when every favourite's book exists, nothing is dropped and the k-th view belongs to the k-th favourite |
| FavoritesRoutesLemmas.ListViewWithoutId | backend/routes/favorites.js:21-26 | no view is listed for a book id that no favourite names |
| FavoritesRoutesLemmas.ListViewNormalized | backend/routes/favorites.js:22-23 | a list of bare ids shows the same as the same list rewritten to `{bookId, comment: ''}` |
| FavoritesRoutesLemmas.LegacyTolerance | backend/routes/favorites.js:53-57 | rewriting bare ids to the structured shape changes neither the ids, nor the position lookup finds, nor what remove leaves |
| FavoritesRoutesLemmas.LegacyToleranceUpdate | backend/routes/favorites.js:76-80 | rewriting bare ids to `{bookId, comment: ''}` before a comment update gives the same list as rewriting them after it; the updated entry is structured either way |
| FavoritesRoutesLemmas.AddedShape | backend/routes/favorites.js:36-42 | after an add the book is a favourite, the old list is a prefix of the new one, and at most one entry was added |
| FavoritesRoutesLemmas.AddKeepsExistingComment | backend/routes/favorites.js:36-42 | adding a book that is already a favourite, in either shape, leaves the list, and so the stored comment, unchanged |
| FavoritesRoutesLemmas.AddIdempotent | backend/routes/favorites.js:36-42 | a second add of the same book, with any comment, changes nothing: the first comment is kept |
| FavoritesRoutesLemmas.AddPreservesUnique | backend/routes/favorites.js:36-42 | add keeps the book ids of a user's favourites distinct |
| FavoritesRoutesLemmas.RemovedShape | backend/routes/favorites.js:53-59 | remove deletes exactly the first matching entry and keeps the rest in order; with no match it changes nothing |
| FavoritesRoutesLemmas.RemovedIdAbsent | backend/routes/favorites.js:53-59 | with distinct ids, the book is no longer a favourite after a remove |
| FavoritesRoutesLemmas.RemovePreservesUnique | backend/routes/favorites.js:53-59 | remove keeps the book ids distinct |
| FavoritesRoutesLemmas.RemoveIdempotent | backend/routes/favorites.js:53-59 | with distinct ids, removing twice is removing once |
| FavoritesRoutesLemmas.AddThenRemoveRestores | backend/routes/favorites.js:36-59 | adding a book that was not a favourite and then removing it gives back the original list |
| FavoritesRoutesLemmas.RecommentedShape | backend/routes/favorites.js:76-80 | a comment update keeps the length and the ids; the matched position becomes `Structured(sameId, comment)`, which migrates a bare id; every other position is unchanged |
| FavoritesRoutesLemmas.RecommentPreservesUnique | backend/routes/favorites.js:76-80 | a comment update keeps the book ids distinct |
| FavoritesRoutesLemmas.AddThenListShows | backend/routes/favorites.js:21-43 | a fresh book added with comment `s` is then listed with the book's fields and comment `s` |
| FavoritesRoutesLemmas.RemoveThenListHides | backend/routes/favorites.js:21-59 | with distinct ids, a removed book is no longer listed |
| FavoritesRoutesLemmas.UpdateThenListShows | backend/routes/favorites.js:21-82 | after a comment update to `s` the list shows that book with comment `s` |
| FavoritesSlice.FetchSettled | frontend/src/store/favoritesSlice.js:3-8 | the list thunk fulfils with the received list exactly when a body was received, without looking at the response status; otherwise it rejects |
| FavoritesSlice.AddSettled | frontend/src/store/favoritesSlice.js:10-20 | the add thunk fulfils with the book id exactly when any response arrived, ok or not |
| FavoritesSlice.RemoveSettled | frontend/src/store/favoritesSlice.js:23-34 | the remove thunk fulfils with the book id exactly when the response is ok; otherwise it rejects |
| FavoritesSlice.UpdateSettled | frontend/src/store/favoritesSlice.js:36-49 | the update thunk fulfils with `{bookId, comment}` exactly when the response is ok; otherwise it rejects |
| FavoritesSlice.WithoutId | frontend/src/store/favoritesSlice.js:68 | the kept items are exactly the cached items whose id differs from the removed id |
| FavoritesSlice.ItemIndex | frontend/src/store/favoritesSlice.js:72 | the first cached item with the id, or -1 exactly when there is none |
| FavoritesSlice.Patched | frontend/src/store/favoritesSlice.js:72-75 | same length; only the first item with the id changes, and only its comment |
| FavoritesSlice.FavoritesState.constructor | frontend/src/store/favoritesSlice.js:53 | the initial state is no items and status idle |
| FavoritesSlice.FavoritesState.OnFetchPending | frontend/src/store/favoritesSlice.js:57 | status becomes loading; items unchanged |
| FavoritesSlice.FavoritesState.OnFetchFulfilled | frontend/src/store/favoritesSlice.js:58-61 | status becomes succeeded; items are replaced wholesale by the payload |
| FavoritesSlice.FavoritesState.OnFetchRejected | frontend/src/store/favoritesSlice.js:62 | status becomes failed; items unchanged |
| FavoritesSlice.FavoritesState.OnAddFulfilled | frontend/src/store/favoritesSlice.js:63-65 | the whole state is unchanged |
| FavoritesSlice.FavoritesState.OnRemoveFulfilled | frontend/src/store/favoritesSlice.js:66-69 | items become the old items without that id; status unchanged |
| FavoritesSlice.FavoritesState.OnUpdateCommentFulfilled | frontend/src/store/favoritesSlice.js:70-76 | the first matching item gets the comment, nothing else changes, no-op without a match; status unchanged |
| FavoritesSlice.FavoritesState.Dispatch | frontend/src/store/favoritesSlice.js:55-77 | only the three fetch actions touch status; each handled action has its case's effect; every other action (write pending and rejected, add fulfilled) leaves items unchanged |
| FavoritesSlice.FavoritesState.RunFetch | frontend/src/store/favoritesSlice.js:57-62 | a list round ends succeeded with the payload as items, or failed with items unchanged |
| FavoritesSlice.FavoritesState.RunAdd | frontend/src/store/favoritesSlice.js:10-20 | an add round never changes the state, whatever the response |
| FavoritesSlice.FavoritesState.RunRemove | frontend/src/store/favoritesSlice.js:23-34 | a remove round never changes status; it removes the id from items only on an ok response |
| FavoritesSlice.FavoritesState.RunUpdateComment | frontend/src/store/favoritesSlice.js:36-49 | an update round never changes status; it patches items only on an ok response |
| FavoritesSliceLemmas.WithoutIdAppend | frontend/src/store/favoritesSlice.js:68 | the filter works piece by piece, so the remaining items keep their order |
| FavoritesSliceLemmas.WithoutIdNoMatch | frontend/src/store/favoritesSlice.js:68 | with no item carrying the id, a removal leaves the items as they are |
| FavoritesSliceLemmas.WithoutIdIdempotent | frontend/src/store/favoritesSlice.js:68 | removing the same id twice is removing it once |
| FavoritesSliceLemmas.WithoutIdIgnoresComment | frontend/src/store/favoritesSlice.js:68-74 | changing the comment of an item that the removal drops does not change the removal's result |
| FavoritesSliceLemmas.UpdateThenRemove | frontend/src/store/favoritesSlice.js:66-76 | a comment update followed by a removal of the same id equals the removal alone |
| FavoritesSliceLemmas.PatchedNoMatch | frontend/src/store/favoritesSlice.js:72-75 | a comment update for an id no item has is a no-op |
| FavoritesSliceLemmas.PatchedIdempotent | frontend/src/store/favoritesSlice.js:72-75 | the same comment update applied twice is applied once |

## Left out

- The rate limiter and the router wiring (backend/routes/favorites.js:1-14). They are external libraries, and the limiter depends on wall-clock windows.
- `authenticateToken`: external middleware. The resolved username is an input to every operation.
- `readJSON` / `writeJSON`: file I/O. The collections are snapshots passed in and returned. When a handler does not call `writeJSON`, the model returns the same snapshot. Whether the file is rewritten is not itself part of the model.
- POST's push, DELETE's splice and PATCH's index assignment on `user.favorites` (backend/routes/favorites.js:40, 57, 77) are modelled as sequence updates of the users snapshot. The in-place mutation through `user`, which aliases `users[ui]`, is not modelled as such, and neither is the library `find`/`findIndex` scan, which is a recursive function here.
- The last-write-wins race between concurrent requests: concurrency. Each operation is a single sequential step.
- HTTP status codes and message strings: only the `Reply` variant and payload are modelled.
- Request bodies holding numbers, booleans or objects, for example a numeric `bookId` or `comment`. `Value` holds only absent, `null` and strings.
- Stored favourites of any other shape, and user records without a `favorites` array. For example, a `null` entry makes the handler throw, and so does a missing `favorites` array at the `map` and `findIndex` calls (backend/routes/favorites.js:21, 36, 53, 72).
- Book fields beyond id, title and author. Also the case of a catalog record that has its own `comment` field, which the spread in `{...book, comment}` would overwrite.
- FavoritesSlice.FetchSettled: the list thunk fulfils with whatever JSON the server sends. For the 404 a missing user gets (backend/routes/favorites.js:19) that is the object `{message}`, not a list; the same holds for any JSON error body, and the slice would then store it as `items` with status succeeded. The model's payload is always a list of items, so it does not capture that case.
- The `fetch` calls, URLs and tokens inside the thunks: network I/O. Only how each request ended (`HttpOutcome`, `FetchOutcome`) is an input.
- The client cache's comments are strings only (`Item.comment`, `UpdateFulfilled.comment`). The server accepts and echoes a `null` comment, which `updateComment` would store as it is (frontend/src/store/favoritesSlice.js:48, 74); no reducer case depends on the comment's type, so no state change is lost, but a `null` comment is not representable in the cache.
- The in-place mutation of cached item objects (Immer drafts). Updating a cached item is modelled as a sequence update, so aliasing between item objects is not captured.
- Interleavings of several in-flight thunks. The `Run*` methods dispatch a thunk's pending and settling actions one right after the other.
- `frontend/src/components/Favorites.jsx`: rendering, navigation and effect hooks; it holds no favourites logic beyond the order in which it dispatches actions.
