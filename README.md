# Movie search and watch list: a Dafny model

This project models the logic of a small React movie-search application,
which has three parts.

- **The watched list (App component).** This is an ordered list of entries
  keyed by `imdbID`. Adding a movie is an upsert: a new id is appended, and a
  known id has every entry with that id replaced in place. Removing filters the
  id out. The details panel needs two lookups from the list: whether the
  selected id is watched, and the rating stored for it. Clicking a movie
  toggles the selection, and closing the panel clears it.
- **The search hook (`useMovies`).** It holds three pieces of state: the
  results, a loading flag and an error message. A query shorter than three
  characters (JavaScript `length`, counted in UTF-16 code units) issues no
  request. It empties the results and the error, and it leaves the loading
  flag as it was. Any change of the query aborts the previous request; a
  longer query then issues a new one. That request's reply is classified as an
  abort, an error (HTTP not ok, "not found", or another thrown error), or a
  success. The `finally` block always clears the loading flag.
- **The persisted state (`useLocalStorageState`).** At mount, the value is read
  from a string store under a key and parsed. It falls back to the initial
  value when the key is missing or the parsed value is falsy. After every
  change the serialised value is written back under the key.

Modules:

- `WatchedList` (`watched_list.dfy`): the list updaters and lookups, as pure
  functions on sequences, with their lemmas.
- `LocalStorage` (`local_storage.dfy`): `Load` and `Persist`, plus the
  `PersistentState` class whose `value` and `store` fields change in place.
- `MovieApp` (`app.dfy`): the `App` class with the field `selectedID` and the
  handlers. `watched` is a `PersistentState` stored under the key `"watched"`.
- `MovieSearch` (`movie_search.dfy`): the `Search` class, a state machine over
  `movies`, `isLoading` and `errorMsg`. Each request it issues has an abort
  flag.
- `Options` (`option.dfy`): the `Option` type, standing for `null`/`undefined`.

The model follows the code where it departs from the intended design of a
cancellable search:

- An aborted request still runs its `finally` block. So it clears the loading
  flag even while a newer request is pending (`AbortedReplyClearsLoading`).
- Nothing catches a parse error of the stored entry: mounting fails instead of
  falling back to the default (`Mount` returns `null`).
- An error leaves the previous results in place.

Out of reach of any stale reply are the results and the error message. The
invariant `Search.Valid` says every request except the current one is
aborted, and `Search.Settle` proves that a request other than the current one
changes neither.

The network, the clock and the browser do not appear:

- Each request's reply is a parameter of `Search.Settle`.
- `JSON.stringify` and `JSON.parse` are the function parameters `serialize`
  and `parse` of the persisted state.
- `localStorage` is a `map<string, string>`.

## Model

| member | source | states |
|---|---|---|
| WatchedList.IsWatched | src/App.js:231 | true exactly when some entry of the list has the given id |
| WatchedList.Ids | src/App.js:231 | the ids of the list, one per entry, in list order |
| WatchedList.Find | src/App.js:32-34 | no result exactly when the id is not watched; otherwise the first entry with that id |
| WatchedList.WatchedUserRating | src/App.js:233-235 | undefined exactly when the id is not watched; otherwise the rating of the first entry with that id |
| WatchedList.ReplaceMatching | src/App.js:37-41 | same length; each entry with the movie's id becomes the movie, every other entry is untouched |
| WatchedList.AddWatched | src/App.js:30-43 | an absent id is appended at the end; a present id keeps length and order, replacing each matching entry and leaving the others |
| WatchedList.RemoveWatched | src/App.js:48-51 | no entry with the id remains; the result is a subsequence of the list, in order; every entry with another id is kept as often as it occurred |
| WatchedList.RemoveIsTheFilter | src/App.js:48-51 | any list satisfying those three properties equals the result of the remove, so the remove keeps exactly the other entries in their original order |
| WatchedList.RemoveAbsentIsIdentity | src/App.js:48-51 | removing an id that is not watched leaves the list unchanged |
| WatchedList.AddPreservesUniqueIds | src/App.js:30-43 | unique ids before an add stay unique after it |
| WatchedList.RemovePreservesUniqueIds | src/App.js:48-51 | unique ids before a remove stay unique after it |
| WatchedList.IsWatchedAfterAdd | src/App.js:30-43 | after an add, an id is watched iff it is the added id or was watched before |
| WatchedList.IsWatchedAfterRemove | src/App.js:48-51 | after removing x, an id is watched iff it differs from x and was watched before |
| WatchedList.NewWatchedMovie | src/App.js:251-260 | the entry handleAdd builds carries the selected id, the given rating and decision count, and the title, year and poster of the details |
| WatchedList.AddedSelectionIsWatched | src/App.js:250-261 | after adding the entry built by handleAdd, the selected id is watched |
| WatchedList.UserRatingAfterAdd | src/App.js:233-235 | after an add, the rating shown for the added id is the added movie's rating, even when the id was listed before |
| WatchedList.AddIsIdempotent | src/App.js:30-43 | adding the same movie twice gives the same list as adding it once |
| MovieApp.App.constructor | src/App.js:16-20 | no movie is selected, and the watched list is the given persisted state under "watched" with the empty list as default |
| MovieApp.App.HandleClickMovie | src/App.js:22-24 | clicking the selected id clears the selection; clicking any other id selects it |
| MovieApp.App.HandleCloseMovie | src/App.js:26-28 | the selection becomes null |
| MovieApp.App.HandleAddWatched | src/App.js:30-46 | the list becomes the upsert of the movie, the store holds the serialised new list under "watched", and unique ids stay unique |
| MovieApp.App.HandleRemoveWatched | src/App.js:48-52 | the list becomes the filtered list and is persisted; the removed id is no longer watched, and unique ids stay unique |
| MovieApp.App.HandleAdd | src/App.js:250-262 | the entry for the selected id is upserted and the serialised new list is written under "watched", every other key kept; afterwards the selected id is watched and its shown rating is the rating just given |
| MovieApp.MountApp | src/App.js:20 | "watched" is loaded with the empty list as default, and the mount fails exactly when the stored entry does not parse; otherwise the fresh state uses the given serialiser and the store holds the loaded list, serialised, under "watched" |
| LocalStorage.Load | src/useLocalStorageState.js:6-10 | a missing key or a falsy parsed value gives the initial state; a truthy parsed value is used; a parse error is not caught and fails the load |
| LocalStorage.Persist | src/useLocalStorageState.js:15-17 | the key holds the serialised value; the other keys keep their entries and no other key is added |
| LocalStorage.ReloadAfterPersist | src/useLocalStorageState.js:8-16 | when parse inverts serialise, loading after a write returns the written value |
| LocalStorage.PersistKeepsOtherKeys | src/useLocalStorageState.js:16 | writing one key does not change what any other key loads |
| LocalStorage.PersistSameValueIsNoop | src/useLocalStorageState.js:15-17 | writing the value the store already holds leaves the store as it was |
| LocalStorage.PersistentState.constructor | src/useLocalStorageState.js:6-17 | the state has the loaded value, and the first run of the effect has written it under the key |
| LocalStorage.PersistentState.SetValue | src/useLocalStorageState.js:15-17 | the value is replaced; the store is the old store with the new serialised value under the key, so store and value agree again |
| LocalStorage.Mount | src/useLocalStorageState.js:5-19 | yields no state exactly when the load fails; otherwise the loaded value, with the store agreeing with it |
| MovieSearch.SearchUrl | src/useMovies.js:17-18 | the URL is the endpoint with the API key, followed by the query text |
| MovieSearch.SearchUrlInjective | src/useMovies.js:17-18 | different queries give different URL strings |
| MovieSearch.Utf16Length | src/useMovies.js:40 | the JavaScript length of a string: between its number of characters and twice that |
| MovieSearch.Utf16LengthOfBmp | src/useMovies.js:40 | for a string without characters beyond U+FFFF, the JavaScript length is the number of characters |
| MovieSearch.EmojiQueryIsSearched | src/useMovies.js:40 | an emoji followed by one letter has length 3, so it is searched |
| MovieSearch.AbortRequest | src/useMovies.js:47 | the cleanup `controller.abort()`: the current request, if any, becomes aborted and every other request is unchanged |
| MovieSearch.Classify | src/useMovies.js:22-35 | an abort is ignored; not ok gives "Something went wrong with fetching movies"; Response "False" gives "Movie not found"; another thrown error gives its message; any other reply gives data.Search |
| MovieSearch.FailureMessagesDiffer | src/useMovies.js:22-27 | an HTTP failure and a "not found" reply are reported with different messages |
| MovieSearch.Search.constructor | src/useMovies.js:5-7 | no results, not loading, no error, no request issued |
| MovieSearch.Search.SetQuery | src/useMovies.js:9-48 | an unchanged query changes nothing; otherwise the previous request is aborted; a query whose UTF-16 length is below 3 empties results and error and keeps the loading flag; a longer query keeps the results, sets loading, clears the error and issues one request for its URL |
| MovieSearch.Search.Settle | src/useMovies.js:12-39 | loading ends whatever the reply; an abort or error keeps the results; an error sets its message; a success sets the results and clears the error; a request other than the current one changes neither results nor error |
| MovieSearch.StaleReplyIsIgnored | src/useMovies.js:40-47 | typing "i", "in", "inc", "ince" issues two requests, and the late reply to "inc" does not replace the results of "ince" |
| MovieSearch.AbortedReplyClearsLoading | src/useMovies.js:31-38 | the aborted reply to a superseded query clears the loading flag while the newer request is still pending |
| MovieSearch.ShortQueryKeepsLoading | src/useMovies.js:40-44 | shortening the query below three characters empties the results but leaves the loading flag on |

## Left out

- Components and JSX: `NavBar`, `Logo`, `Search`, `NumResults`, `Main`, `Box`, `MovieList`, `Movie`, the `MovieDetails` markup, `WatchedSummary` and `WatchedMovieList`/`WatchedMovie`. They only render.
- URL parsing by `fetch`: the request URL is modelled as the template string. Percent-encoding, and a `#` or `&` inside the query, can make two different query strings send the same request.
- The network: `fetch`, `res.json()`, `AbortController` and the details lookup in `MovieDetails`. Each search reply is an input of `Search.Settle`. An abort is a flag on the request.
- Floating point: `average`, `toFixed`, `Number(...)` for `imdbRating` and `runtime`, and `isTop`. For this reason the `WatchedMovie` entry has no `imdbRating` or `runtime` field.
- MovieApp.App.HandleAdd: it assumes the details include a `Runtime` string. When the details request stored an error object instead, `runtime.split` throws and nothing is added; the model always adds.
- DOM side effects: the `document.title` effects and the `useKey` shortcuts. The `useKey` hook is not part of this model.
- The rating-click counter written to the store under "count": a debug side effect. Its value enters an entry only as the parameter `countRatingDecisions`.
- `console.log` calls in the catch block.
- The JSON format and `localStorage` itself. Serialisation and parsing are the parameters `serialize` and `parse`.
- React scheduling and effect-cleanup timing. Each re-render, and each request completion, is one sequential method call. A completion that raced with an abort always takes the abort path.
- A change of the hook's `key`: App always passes "watched", so the key is a constant of the state.
- App's own `query` state: it only feeds `useMovies`, whose changes `Search.SetQuery` models.
- LocalStorage.Load: a missing key goes straight to the initial state. The code instead parses the `null` that `getItem` returns, which is falsy and gives the same result.
- LocalStorage.ReloadAfterPersist: it assumes every value serialises to a truthy JSON value. This holds for the arrays the app stores. Writing a falsy value and reading it back, which would give the initial state, is not covered.
- LocalStorage.PersistentState.SetValue: React skips the effect when the new value is the old one; the model writes anyway. `PersistSameValueIsNoop` shows the store then does not change.
- MovieSearch.Classify: a reply whose `Response` is not "False" but which has no `Search` field is not modelled. `data.Search` is always a list.
