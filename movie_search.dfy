/**
 * The `useMovies(query)` hook: the search results, the loading flag and the
 * error message, driven by changes of the query and by the completion of the
 * search requests it issues. Each request carries an abort flag, set by the
 * effect's cleanup when the query changes again.
 *
 * Events are sequential method calls: `SetQuery` is a re-render with a new
 * query (cleanup of the previous effect, then the effect body up to the first
 * `await`), `Settle` is the rest of `fetchMovies` for one request, from its
 * reply to the `finally` block.
 */
module MovieSearch {
  import opened Options

  const ApiKey := "a48a37b8"
  const SearchEndpoint := "http://www.omdbapi.com/?apikey=" + ApiKey + "&s="
  /** Queries shorter than this, in UTF-16 code units, issue no request. */
  const MinQueryLength := 3
  const NotOkMessage := "Something went wrong with fetching movies"
  const NotFoundMessage := "Movie not found"

  /** One entry of `data.Search`, passed through untouched. */
  datatype SearchResult = SearchResult(imdbID: string, title: string, year: string, poster: string)

  /** How a search request can end, as seen by `fetchMovies`. */
  datatype Reply =
    | FetchRejected(message: string)    // `fetch` rejects for a reason other than the abort
    | HttpNotOk                         // `res.ok` is false
    | JsonRejected(message: string)     // `res.json()` rejects
    | Payload(response: string, search: seq<SearchResult>)  // `data.Response`, `data.Search`

  /** What `fetchMovies` does with a reply: ignore it, report an error, or show results. */
  datatype Outcome = Aborted | Failed(message: string) | Found(search: seq<SearchResult>)

  /** A request issued by the effect; `settled` once its `finally` block has run. */
  datatype Request = Request(url: string, aborted: bool, settled: bool)

  /**
   * JavaScript's `length` of a string: its number of UTF-16 code units, two
   * for a character outside the Basic Multilingual Plane.
   */
  function Utf16Length(s: string): (n: nat)
    ensures |s| <= n <= 2 * |s|
  {
    if s == [] then 0
    else (if s[0] as int >= 0x1_0000 then 2 else 1) + Utf16Length(s[1..])
  }

  /** A string of Basic Multilingual Plane characters has one code unit per character. */
  lemma {:induction false} Utf16LengthOfBmp(s: string)
    requires forall i :: 0 <= i < |s| ==> s[i] as int < 0x1_0000
    ensures Utf16Length(s) == |s|
  {
    if s != [] {
      assert s[0] as int < 0x1_0000;
      forall i | 0 <= i < |s[1..]| ensures s[1..][i] as int < 0x1_0000 {
        assert s[1..][i] == s[i + 1];
      }
      Utf16LengthOfBmp(s[1..]);
    }
  }

  /** An emoji counts twice: "😀a" is long enough to be searched. */
  lemma EmojiQueryIsSearched()
    ensures Utf16Length("\U{1F600}a") == 3 >= MinQueryLength
  {
    assert "\U{1F600}a"[1..] == "a";
    assert "a"[1..] == "";
  }

  /** The URL of the search request for a query; the query text is not encoded. */
  function SearchUrl(query: string): (url: string)
    ensures |url| == |SearchEndpoint| + |query|
    ensures url[..|SearchEndpoint|] == SearchEndpoint && url[|SearchEndpoint|..] == query
  {
    SearchEndpoint + query
  }

  /** Different queries give different URL strings. */
  lemma SearchUrlInjective(q1: string, q2: string)
    requires SearchUrl(q1) == SearchUrl(q2)
    ensures q1 == q2
  {
    assert q1 == SearchUrl(q1)[|SearchEndpoint|..];
  }

  /**
   * The `try`/`catch` of `fetchMovies`: an aborted request raises `AbortError`,
   * which the catch ignores; any other thrown error becomes the message.
   */
  function Classify(reply: Reply, aborted: bool): (o: Outcome)
    ensures o.Aborted? <==> aborted
    ensures o.Found? <==> !aborted && reply.Payload? && reply.response != "False"
    ensures o.Found? ==> o.search == reply.search
    ensures !aborted && reply.HttpNotOk? ==> o == Failed(NotOkMessage)
    ensures !aborted && reply.Payload? && reply.response == "False" ==> o == Failed(NotFoundMessage)
    ensures !aborted && (reply.FetchRejected? || reply.JsonRejected?) ==> o == Failed(reply.message)
  {
    if aborted then Aborted
    else
      match reply
      case FetchRejected(message) => Failed(message)
      case HttpNotOk => Failed(NotOkMessage)
      case JsonRejected(message) => Failed(message)
      case Payload(response, search) =>
        if response == "False" then Failed(NotFoundMessage) else Found(search)
  }

  /** The two kinds of failed search are reported with different messages. */
  lemma FailureMessagesDiffer(search: seq<SearchResult>)
    ensures Classify(HttpNotOk, false) != Classify(Payload("False", search), false)
  {
  }

  /** The requests after `controller.abort()` of the request at `active`, if any. */
  function AbortRequest(requests: seq<Request>, active: Option<nat>): (r: seq<Request>)
    requires active.Some? ==> active.value < |requests|
    ensures |r| == |requests|
    ensures forall i :: 0 <= i < |r| ==>
      r[i] == if active == Some(i) then requests[i].(aborted := true) else requests[i]
  {
    if active.Some? then requests[active.value := requests[active.value].(aborted := true)]
    else requests
  }

  class Search {
    var query: string
    var movies: seq<SearchResult>
    var isLoading: bool
    var errorMsg: string
    /** Every request issued so far, indexed by issue order. */
    var requests: seq<Request>
    /** The request whose abort is the cleanup of the current effect run. */
    var active: Option<nat>

    /**
     * A long query has exactly one request that is not aborted, the last one,
     * issued for that query; a short query has none.
     */
    ghost predicate Valid()
      reads this
    {
      && (active.Some? <==> Utf16Length(query) >= MinQueryLength)
      && (active.Some? ==>
            && active.value + 1 == |requests|
            && requests[active.value].url == SearchUrl(query)
            && !requests[active.value].aborted)
      && forall i :: 0 <= i < |requests| && active != Some(i) ==> requests[i].aborted
    }

    /** The first render: `useState([])`, `useState(false)`, `useState("")`, query `""`. */
    constructor ()
      ensures Valid()
      ensures query == "" && movies == [] && !isLoading && errorMsg == ""
      ensures requests == [] && active == None
    {
      query, movies, isLoading, errorMsg := "", [], false, "";
      requests, active := [], None;
    }

    /**
     * A render with query `q`. The effect depends on the query only, so an
     * unchanged query does nothing. Otherwise the previous request is aborted;
     * a short query empties the results and the error and leaves the loading
     * flag alone; a long one issues a new request, sets the loading flag and
     * clears the error.
     */
    method SetQuery(q: string)
      requires Valid()
      modifies this
      ensures Valid()
      ensures q == old(query) ==> unchanged(this)
      ensures q != old(query) ==> query == q
      ensures q != old(query) && Utf16Length(q) < MinQueryLength ==>
        && movies == [] && errorMsg == "" && isLoading == old(isLoading)
        && requests == AbortRequest(old(requests), old(active)) && active == None
      ensures q != old(query) && Utf16Length(q) >= MinQueryLength ==>
        && movies == old(movies) && isLoading && errorMsg == ""
        && requests == AbortRequest(old(requests), old(active)) + [Request(SearchUrl(q), false, false)]
        && active == Some(|requests| - 1)
      ensures q != old(query) && old(active).Some? ==> requests[old(active).value].aborted
    {
      if q == query {
        return;
      }
      // cleanup of the previous effect run: `controller.abort()`
      requests := AbortRequest(requests, active);
      query := q;
      if Utf16Length(q) < MinQueryLength {
        movies, errorMsg := [], "";
        active := None;
      } else {
        // `fetchMovies()` up to its first `await`
        isLoading, errorMsg := true, "";
        requests := requests + [Request(SearchUrl(q), false, false)];
        active := Some(|requests| - 1);
      }
    }

    /**
     * Request `id` completes with `reply`. An aborted request changes neither
     * the results nor the error, yet its `finally` still clears the loading
     * flag, also while a newer request is pending.
     */
    method Settle(id: nat, reply: Reply)
      requires Valid() && id < |requests| && !requests[id].settled
      modifies this
      ensures Valid()
      ensures query == old(query) && active == old(active)
      ensures requests == old(requests)[id := old(requests)[id].(settled := true)]
      ensures !isLoading
      ensures match Classify(reply, old(requests)[id].aborted)
        case Aborted => movies == old(movies) && errorMsg == old(errorMsg)
        case Failed(message) => movies == old(movies) && errorMsg == message
        case Found(search) => movies == search && errorMsg == ""
      ensures old(active) != Some(id) ==> movies == old(movies) && errorMsg == old(errorMsg)
    {
      match Classify(reply, requests[id].aborted) {
        case Aborted =>
        case Failed(message) =>
          errorMsg := message;
        case Found(search) =>
          movies, errorMsg := search, "";
      }
      // finally
      isLoading := false;
      requests := requests[id := requests[id].(settled := true)];
    }
  }

  /**
   * Typing "i", "in", "inc", "ince": only the last two issue requests, and the
   * reply to "inc", arriving after the reply to "ince", is not shown.
   */
  method StaleReplyIsIgnored(staleReply: Reply, results: seq<SearchResult>)
    returns (movies: seq<SearchResult>, isLoading: bool, errorMsg: string, issued: nat)
    ensures movies == results && !isLoading && errorMsg == "" && issued == 2
  {
    var s := new Search();
    s.SetQuery("i");
    s.SetQuery("in");
    s.SetQuery("inc");
    s.SetQuery("ince");
    s.Settle(1, Payload("True", results));
    s.Settle(0, staleReply);
    movies, isLoading, errorMsg, issued := s.movies, s.isLoading, s.errorMsg, |s.requests|;
  }

  /**
   * Searching "inception" and then "interstellar": when the aborted first
   * request settles, the loading flag is cleared although the second request
   * is still pending.
   */
  method AbortedReplyClearsLoading(staleReply: Reply)
    returns (isLoading: bool, pending: bool)
    ensures !isLoading && pending
  {
    var s := new Search();
    s.SetQuery("inception");
    s.SetQuery("interstellar");
    s.Settle(0, staleReply);
    isLoading := s.isLoading;
    pending := !s.requests[1].settled;
  }

  /**
   * Searching "inception" and then shortening the query to "in": the results
   * are emptied, but the loading flag set for the aborted request stays on
   * until that request settles.
   */
  method ShortQueryKeepsLoading() returns (movies: seq<SearchResult>, isLoading: bool)
    ensures movies == [] && isLoading
  {
    var s := new Search();
    s.SetQuery("inception");
    s.SetQuery("in");
    movies, isLoading := s.movies, s.isLoading;
  }
}
