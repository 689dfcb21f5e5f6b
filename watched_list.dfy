/**
 * The list of watched movies kept by the App component: an ordered sequence of
 * entries keyed by `imdbID`, with the pure updaters passed to `setWatched`
 * (upsert and filter) and the lookups the details panel derives from it.
 */
module WatchedList {
  import opened Options

  /** The star rating picked in the details panel; `""` until a star is clicked. */
  datatype UserRating = Unrated | Stars(stars: int)

  /**
   * One watched entry, as built by `handleAdd`. The numeric `imdbRating` and
   * `runtime` fields (JavaScript `Number` conversions) are not modelled.
   */
  datatype WatchedMovie = WatchedMovie(
    imdbID: string,
    title: string,
    year: string,
    poster: string,
    userRating: UserRating,
    countRatingDecisions: nat)

  /** The fields of the detail lookup that `handleAdd` copies into an entry. */
  datatype MovieDetails = MovieDetails(title: string, year: string, poster: string)

  /** No two entries share an `imdbID`. */
  predicate UniqueIds(w: seq<WatchedMovie>) {
    forall i, j :: 0 <= i < j < |w| ==> w[i].imdbID != w[j].imdbID
  }

  /** Index `i` holds the first entry of `w` whose id is `id`. */
  predicate FirstMatch(w: seq<WatchedMovie>, id: string, i: int) {
    0 <= i < |w| && w[i].imdbID == id && forall j :: 0 <= j < i ==> w[j].imdbID != id
  }

  /** `r` keeps some of the elements of `w`, in their order in `w`. */
  predicate IsSubsequence<T(==)>(r: seq<T>, w: seq<T>)
    decreases |w|
  {
    r == [] ||
    (w != [] && ((r[0] == w[0] && IsSubsequence(r[1..], w[1..])) || IsSubsequence(r, w[1..])))
  }

  /** `watched.map((movie) => movie.imdbID)` */
  function Ids(w: seq<WatchedMovie>): (r: seq<string>)
    ensures |r| == |w|
    ensures forall i :: 0 <= i < |w| ==> r[i] == w[i].imdbID
  {
    if w == [] then [] else [w[0].imdbID] + Ids(w[1..])
  }

  /** `isWatched`: the selected id occurs among the ids of the list. */
  function IsWatched(w: seq<WatchedMovie>, id: string): (r: bool)
    ensures r <==> exists i :: 0 <= i < |w| && w[i].imdbID == id
  {
    var ids := Ids(w);
    assert forall i :: 0 <= i < |w| ==> ids[i] == w[i].imdbID;
    id in ids
  }

  /** `watched.find((movie) => movie.imdbID === id)`: the first entry with that id. */
  function Find(w: seq<WatchedMovie>, id: string): (r: Option<WatchedMovie>)
    ensures r.None? <==> !IsWatched(w, id)
    ensures r.Some? ==> exists i :: FirstMatch(w, id, i) && w[i] == r.value
  {
    if w == [] then None
    else if w[0].imdbID == id then
      assert FirstMatch(w, id, 0);
      Some(w[0])
    else
      var r := Find(w[1..], id);
      assert r.Some? ==> exists i :: FirstMatch(w, id, i) && w[i] == r.value by {
        if r.Some? {
          var i :| FirstMatch(w[1..], id, i) && w[1..][i] == r.value;
          assert FirstMatch(w, id, i + 1);
        }
      }
      assert r.None? ==> !IsWatched(w, id) by {
        if r.None? {
          forall i | 0 <= i < |w| ensures w[i].imdbID != id {
            if i > 0 { assert w[i] == w[1..][i - 1]; }
          }
        }
      }
      r
  }

  /** `watchedUserRating`: the rating of the first entry with that id, or `undefined`. */
  function WatchedUserRating(w: seq<WatchedMovie>, id: string): (r: Option<UserRating>)
    ensures r.None? <==> !IsWatched(w, id)
    ensures r.Some? ==> exists i :: FirstMatch(w, id, i) && r.value == w[i].userRating
  {
    match Find(w, id)
    case None => None
    case Some(m) => Some(m.userRating)
  }

  /** The `map` branch of `handleAddWatched`: every entry with the movie's id becomes the movie. */
  function ReplaceMatching(w: seq<WatchedMovie>, movie: WatchedMovie): (r: seq<WatchedMovie>)
    ensures |r| == |w|
    ensures forall i :: 0 <= i < |w| ==> r[i] == (if w[i].imdbID == movie.imdbID then movie else w[i])
  {
    if w == [] then []
    else [if w[0].imdbID == movie.imdbID then movie else w[0]] + ReplaceMatching(w[1..], movie)
  }

  /** The updater of `handleAddWatched`: append a new id, replace an existing one in place. */
  function AddWatched(w: seq<WatchedMovie>, movie: WatchedMovie): (r: seq<WatchedMovie>)
    ensures !IsWatched(w, movie.imdbID) ==> r == w + [movie]
    ensures IsWatched(w, movie.imdbID) ==>
      |r| == |w| &&
      forall i :: 0 <= i < |w| ==> r[i] == (if w[i].imdbID == movie.imdbID then movie else w[i])
  {
    if Find(w, movie.imdbID).None? then w + [movie] else ReplaceMatching(w, movie)
  }

  /** The updater of `handleRemoveWatched`: `watched.filter((m) => m.imdbID !== id)`. */
  function RemoveWatched(w: seq<WatchedMovie>, id: string): (r: seq<WatchedMovie>)
    ensures forall i :: 0 <= i < |r| ==> r[i].imdbID != id
    ensures IsSubsequence(r, w)
    ensures forall m: WatchedMovie :: m.imdbID != id ==> multiset(r)[m] == multiset(w)[m]
  {
    if w == [] then []
    else
      assert w == [w[0]] + w[1..];
      var rest := RemoveWatched(w[1..], id);
      if w[0].imdbID == id then rest
      else
        var r := [w[0]] + rest;
        assert r[1..] == rest;
        r
  }

  /** The entry `handleAdd` builds: its id is the selected id. */
  function NewWatchedMovie(selectedID: string, details: MovieDetails, userRating: UserRating,
                           countRatingDecisions: nat): (m: WatchedMovie)
    ensures m.imdbID == selectedID && m.userRating == userRating
    ensures m.title == details.title && m.year == details.year && m.poster == details.poster
    ensures m.countRatingDecisions == countRatingDecisions
  {
    WatchedMovie(selectedID, details.title, details.year, details.poster,
                 userRating, countRatingDecisions)
  }

  // ---------------------------------------------------------------------------
  // Properties of the updaters and lookups

  lemma AddPreservesUniqueIds(w: seq<WatchedMovie>, movie: WatchedMovie)
    requires UniqueIds(w)
    ensures UniqueIds(AddWatched(w, movie))
  {
    var r := AddWatched(w, movie);
    if IsWatched(w, movie.imdbID) {
      assert forall i :: 0 <= i < |w| ==> r[i].imdbID == w[i].imdbID;
    }
  }

  lemma {:induction false} RemovePreservesUniqueIds(w: seq<WatchedMovie>, id: string)
    requires UniqueIds(w)
    ensures UniqueIds(RemoveWatched(w, id))
  {
    if w != [] {
      UniqueIdsTail(w);
      RemovePreservesUniqueIds(w[1..], id);
      var rest := RemoveWatched(w[1..], id);
      if w[0].imdbID != id {
        forall j | 0 <= j < |rest| ensures rest[j].imdbID != w[0].imdbID {
          KeptEntryIsListed(w[1..], id, rest[j]);
        }
        UniqueIdsCons(w[0], rest);
      }
    }
  }

  /** The tail of a list with unique ids has unique ids, none equal to the head's. */
  lemma UniqueIdsTail(w: seq<WatchedMovie>)
    requires w != [] && UniqueIds(w)
    ensures UniqueIds(w[1..])
    ensures forall e :: e in w[1..] ==> e.imdbID != w[0].imdbID
  {
    forall i, j | 0 <= i < j < |w[1..]| ensures w[1..][i].imdbID != w[1..][j].imdbID {
      assert w[1..][i] == w[i + 1] && w[1..][j] == w[j + 1];
    }
  }

  lemma UniqueIdsCons(x: WatchedMovie, s: seq<WatchedMovie>)
    requires UniqueIds(s)
    requires forall j :: 0 <= j < |s| ==> s[j].imdbID != x.imdbID
    ensures UniqueIds([x] + s)
  {
    var r := [x] + s;
    forall i, j | 0 <= i < j < |r| ensures r[i].imdbID != r[j].imdbID {
      assert r[j] == s[j - 1];
      if i > 0 { assert r[i] == s[i - 1]; }
    }
  }

  /** Every entry the remove keeps comes from the list. */
  lemma KeptEntryIsListed(w: seq<WatchedMovie>, id: string, e: WatchedMovie)
    requires e in RemoveWatched(w, id)
    ensures e in w
  {
    var r := RemoveWatched(w, id);
    var k :| 0 <= k < |r| && r[k] == e;
    assert e.imdbID != id;
    assert multiset(r)[e] > 0;
  }

  /** Removing an id that is not in the list leaves the list as it was. */
  lemma {:induction false} RemoveAbsentIsIdentity(w: seq<WatchedMovie>, id: string)
    requires !IsWatched(w, id)
    ensures RemoveWatched(w, id) == w
  {
    if w != [] {
      assert w[0].imdbID != id;
      assert !IsWatched(w[1..], id) by {
        forall i | 0 <= i < |w[1..]| ensures w[1..][i].imdbID != id {
          assert w[1..][i] == w[i + 1];
        }
      }
      RemoveAbsentIsIdentity(w[1..], id);
      assert w == [w[0]] + w[1..];
    }
  }

  /** Every element of a subsequence occurs at least as often in the whole. */
  lemma {:induction false} SubsequenceMultiset<T>(r: seq<T>, w: seq<T>)
    requires IsSubsequence(r, w)
    ensures multiset(r) <= multiset(w)
  {
    if r != [] {
      assert w == [w[0]] + w[1..];
      if r[0] == w[0] && IsSubsequence(r[1..], w[1..]) {
        SubsequenceMultiset(r[1..], w[1..]);
        assert r == [r[0]] + r[1..];
      } else {
        SubsequenceMultiset(r, w[1..]);
      }
    }
  }

  /**
   * The three properties in `RemoveWatched`'s contract determine its result:
   * any list that keeps, in order, exactly the entries whose id differs from
   * `id` is the filtered list.
   */
  lemma {:induction false} RemoveIsTheFilter(w: seq<WatchedMovie>, id: string, r: seq<WatchedMovie>)
    requires forall i :: 0 <= i < |r| ==> r[i].imdbID != id
    requires IsSubsequence(r, w)
    requires forall m: WatchedMovie :: m.imdbID != id ==> multiset(r)[m] == multiset(w)[m]
    ensures r == RemoveWatched(w, id)
  {
    if w == [] {
    } else {
      assert w == [w[0]] + w[1..];
      if w[0].imdbID == id {
        // r[0] cannot be w[0], so r is a subsequence of w[1..]
        assert IsSubsequence(r, w[1..]);
        forall i | 0 <= i < |r| ensures r[i].imdbID != id { }
        RemoveIsTheFilter(w[1..], id, r);
      } else {
        assert multiset(r)[w[0]] == multiset(w)[w[0]];
        if r == [] || !(r[0] == w[0] && IsSubsequence(r[1..], w[1..])) {
          assert r != [] by { assert w[0] in multiset(r); }
          assert IsSubsequence(r, w[1..]);
          SubsequenceMultiset(r, w[1..]);
          assert false;
        }
        assert r == [r[0]] + r[1..];
        forall m: WatchedMovie | m.imdbID != id ensures multiset(r[1..])[m] == multiset(w[1..])[m] { }
        forall i | 0 <= i < |r[1..]| ensures r[1..][i].imdbID != id {
          assert r[1..][i] == r[i + 1];
        }
        RemoveIsTheFilter(w[1..], id, r[1..]);
      }
    }
  }

  /** After an add, exactly the old ids and the added one are watched. */
  lemma IsWatchedAfterAdd(w: seq<WatchedMovie>, movie: WatchedMovie, x: string)
    ensures IsWatched(AddWatched(w, movie), x) <==> x == movie.imdbID || IsWatched(w, x)
  {
    var r := AddWatched(w, movie);
    if IsWatched(w, movie.imdbID) {
      assert forall i :: 0 <= i < |w| ==> r[i].imdbID == w[i].imdbID;
    } else {
      assert r[|w|] == movie;
      assert forall i :: 0 <= i < |w| ==> r[i] == w[i];
    }
  }

  /** After removing `id`, exactly the old ids other than `id` are watched. */
  lemma IsWatchedAfterRemove(w: seq<WatchedMovie>, id: string, x: string)
    ensures IsWatched(RemoveWatched(w, id), x) <==> x != id && IsWatched(w, x)
  {
    var r := RemoveWatched(w, id);
    if x != id && IsWatched(w, x) {
      var i :| 0 <= i < |w| && w[i].imdbID == x;
      assert w[i] in multiset(w);
      assert w[i] in multiset(r);
    }
    if IsWatched(r, x) {
      var i :| 0 <= i < |r| && r[i].imdbID == x;
      assert r[i] in multiset(r);
      assert r[i] in multiset(w);
    }
  }

  /** The entry built by `handleAdd` makes the selected movie watched. */
  lemma AddedSelectionIsWatched(w: seq<WatchedMovie>, selectedID: string, details: MovieDetails,
                                userRating: UserRating, count: nat)
    ensures IsWatched(AddWatched(w, NewWatchedMovie(selectedID, details, userRating, count)), selectedID)
  {
    IsWatchedAfterAdd(w, NewWatchedMovie(selectedID, details, userRating, count), selectedID);
  }

  lemma FirstMatchIsUnique(w: seq<WatchedMovie>, id: string, i: int, j: int)
    requires FirstMatch(w, id, i) && FirstMatch(w, id, j)
    ensures i == j
  {
  }

  /** After an add, the rating shown for the added id is the added movie's rating. */
  lemma UserRatingAfterAdd(w: seq<WatchedMovie>, movie: WatchedMovie)
    ensures WatchedUserRating(AddWatched(w, movie), movie.imdbID) == Some(movie.userRating)
  {
    var r := AddWatched(w, movie);
    IsWatchedAfterAdd(w, movie, movie.imdbID);
    var found := Find(r, movie.imdbID);
    assert found.Some?;
    var i: int :| FirstMatch(r, movie.imdbID, i) && r[i] == found.value;
    if !IsWatched(w, movie.imdbID) {
      assert r == w + [movie];
      assert FirstMatch(r, movie.imdbID, |w|);
      FirstMatchIsUnique(r, movie.imdbID, i, |w|);
    }
  }

  /** Adding the same movie twice gives the same list as adding it once. */
  lemma AddIsIdempotent(w: seq<WatchedMovie>, movie: WatchedMovie)
    ensures AddWatched(AddWatched(w, movie), movie) == AddWatched(w, movie)
  {
    var r := AddWatched(w, movie);
    IsWatchedAfterAdd(w, movie, movie.imdbID);
    var r2 := AddWatched(r, movie);
    assert |r2| == |r|;
    forall i | 0 <= i < |r| ensures r2[i] == r[i] {
      if !IsWatched(w, movie.imdbID) && i < |w| {
        assert r[i] == w[i];
      }
    }
  }
}
