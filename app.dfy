/**
 * The App component's own state: the selected movie id and the watched list,
 * which lives in a `useLocalStorageState([], "watched")` hook, with the event
 * handlers that change them.
 */
module MovieApp {
  import opened Options
  import opened WatchedList
  import LocalStorage

  /** The store key of the watched list. */
  const WatchedKey := "watched"

  class App {
    /** `selectedID`: the movie whose details are open, `null` when none is. */
    var selectedID: Option<string>
    /** `[watched, setWatched]`. */
    const watched: LocalStorage.PersistentState<seq<WatchedMovie>>

    ghost predicate Valid()
      reads this, watched
    {
      watched.Valid() && watched.key == WatchedKey && watched.initialState == []
    }

    constructor (watched: LocalStorage.PersistentState<seq<WatchedMovie>>)
      requires watched.Valid() && watched.key == WatchedKey && watched.initialState == []
      ensures Valid()
      ensures selectedID == None && this.watched == watched
    {
      selectedID := None;
      this.watched := watched;
    }

    /** Clicking the open movie closes it; clicking any other movie opens that one. */
    method HandleClickMovie(imdbID: string)
      modifies this
      ensures selectedID == if old(selectedID) == Some(imdbID) then None else Some(imdbID)
    {
      if selectedID != Some(imdbID) {
        selectedID := Some(imdbID);
      } else {
        selectedID := None;
      }
    }

    method HandleCloseMovie()
      modifies this
      ensures selectedID == None
    {
      selectedID := None;
    }

    /** Upsert `movie` into the watched list and persist the new list. */
    method HandleAddWatched(movie: WatchedMovie)
      requires Valid()
      modifies watched
      ensures Valid()
      ensures watched.value == AddWatched(old(watched.value), movie)
      ensures watched.store == LocalStorage.Persist(old(watched.store), WatchedKey, watched.value, watched.serialize)
      ensures UniqueIds(old(watched.value)) ==> UniqueIds(watched.value)
    {
      if UniqueIds(watched.value) {
        AddPreservesUniqueIds(watched.value, movie);
      }
      watched.SetValue(AddWatched(watched.value, movie));
    }

    /** Drop every entry with id `movieid` and persist the new list. */
    method HandleRemoveWatched(movieid: string)
      requires Valid()
      modifies watched
      ensures Valid()
      ensures watched.value == RemoveWatched(old(watched.value), movieid)
      ensures watched.store == LocalStorage.Persist(old(watched.store), WatchedKey, watched.value, watched.serialize)
      ensures !IsWatched(watched.value, movieid)
      ensures UniqueIds(old(watched.value)) ==> UniqueIds(watched.value)
    {
      if UniqueIds(watched.value) {
        RemovePreservesUniqueIds(watched.value, movieid);
      }
      watched.SetValue(RemoveWatched(watched.value, movieid));
    }

    /**
     * The details panel's "+ Add to list" button, shown only while a movie is
     * selected: add an entry for the selected id.
     */
    method HandleAdd(details: MovieDetails, userRating: UserRating, countRatingDecisions: nat)
      requires Valid() && selectedID.Some?
      modifies watched
      ensures Valid()
      ensures watched.value
           == AddWatched(old(watched.value),
                         NewWatchedMovie(selectedID.value, details, userRating, countRatingDecisions))
      ensures watched.store == LocalStorage.Persist(old(watched.store), WatchedKey, watched.value, watched.serialize)
      ensures IsWatched(watched.value, selectedID.value)
      ensures WatchedUserRating(watched.value, selectedID.value) == Some(userRating)
    {
      var entry := NewWatchedMovie(selectedID.value, details, userRating, countRatingDecisions);
      AddedSelectionIsWatched(watched.value, selectedID.value, details, userRating, countRatingDecisions);
      UserRatingAfterAdd(watched.value, entry);
      HandleAddWatched(entry);
    }
  }

  /**
   * Mounting App: the watched list is loaded from the store under "watched",
   * defaulting to the empty list; a stored entry that does not parse makes the
   * mount fail.
   */
  method MountApp(serialize: seq<WatchedMovie> -> string,
                  parse: string -> LocalStorage.Parsed<seq<WatchedMovie>>,
                  store: map<string, string>)
    returns (app: App?)
    ensures app == null <==> LocalStorage.Load(store, WatchedKey, [], parse).ParseFailed?
    ensures app != null ==>
      && fresh(app) && fresh(app.watched) && app.Valid() && app.selectedID == None
      && app.watched.serialize == serialize
      && app.watched.value == LocalStorage.Load(store, WatchedKey, [], parse).value
      && app.watched.store == LocalStorage.Persist(store, WatchedKey, app.watched.value, serialize)
  {
    var state := LocalStorage.Mount([], WatchedKey, serialize, parse, store);
    if state == null {
      app := null;
    } else {
      app := new App(state);
    }
  }
}
