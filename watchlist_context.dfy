/**
 * The per-user watchlist provider: a map from user id to that user's movies
 * and the id of the user currently signed in. The context's `WatchlistItem`
 * shape is not defined anywhere in the source; it is taken to be `Movie`.
 */
module WatchlistContext {
  import opened Wrappers
  import opened AppActions
  import MovieLists

  /** What `prevWatchlists[currentUserId].filter(...)` throws when the user has no list yet. */
  datatype Error = ListMissing(userId: string)

  /** JavaScript truthiness of `currentUserId`: `null` and the empty string both count as "no user". */
  predicate IsSet(userId: Option<string>) {
    userId.Some? && userId.value != ""
  }

  /** The list stored for `userId`, with `undefined` read as the empty list. */
  function ListOf(lists: map<string, seq<Movie>>, userId: string): seq<Movie> {
    if userId in lists then lists[userId] else []
  }

  /** The updater of `addToWatchlist`: append to the user's list, creating it if absent. */
  function AddUpdater(prev: map<string, seq<Movie>>, userId: string, movie: Movie): (r: map<string, seq<Movie>>)
    ensures r.Keys == prev.Keys + {userId}
    ensures userId in prev ==> r[userId] == prev[userId] + [movie]
    ensures userId !in prev ==> r[userId] == [movie]
    ensures forall u :: u in prev && u != userId ==> r[u] == prev[u]
  {
    prev[userId := ListOf(prev, userId) + [movie]]
  }

  /**
   * The updater of `removeFromWatchlist`: drop every entry with `movieId` from
   * the user's list; it throws when that user has no list in the map.
   */
  function RemoveUpdater(prev: map<string, seq<Movie>>, userId: string, movieId: int): (r: Result<map<string, seq<Movie>>, Error>)
    ensures r.Err? <==> userId !in prev
    ensures r.Ok? ==> r.value.Keys == prev.Keys
    ensures r.Ok? ==> forall m :: m in r.value[userId] <==> m in prev[userId] && m.id != movieId
    ensures r.Ok? ==> forall u :: u in prev && u != userId ==> r.value[u] == prev[u]
  {
    if userId in prev then Ok(prev[userId := MovieLists.WithoutId(prev[userId], movieId)])
    else Err(ListMissing(userId))
  }

  /** Removal keeps the other movies of the user's list in their original order. */
  lemma RemoveKeepsOrder(prev: map<string, seq<Movie>>, userId: string, movieId: int, before: seq<Movie>, after: seq<Movie>)
    requires userId in prev && prev[userId] == before + after
    ensures RemoveUpdater(prev, userId, movieId).Ok?
    ensures RemoveUpdater(prev, userId, movieId).value[userId]
         == MovieLists.WithoutId(before, movieId) + MovieLists.WithoutId(after, movieId)
  {
    MovieLists.WithoutIdConcat(before, after, movieId);
  }

  class WatchlistProvider {
    var watchlists: map<string, seq<Movie>>
    var currentUserId: Option<string>

    /** Both state cells start empty: no lists, no user. */
    constructor ()
      ensures watchlists == map[] && currentUserId == None
    {
      watchlists := map[];
      currentUserId := None;
    }

    /** The `watchlist` value the provider exposes: the current user's list, or empty. */
    function Watchlist(): (r: seq<Movie>)
      reads this
      ensures !IsSet(currentUserId) ==> r == []
      ensures IsSet(currentUserId) && currentUserId.value in watchlists ==> r == watchlists[currentUserId.value]
      ensures IsSet(currentUserId) && currentUserId.value !in watchlists ==> r == []
    {
      if IsSet(currentUserId) then ListOf(watchlists, currentUserId.value) else []
    }

    /** Switches the current user; no list is touched. */
    method SetWatchlistForUser(userId: string)
      modifies this
      ensures currentUserId == Some(userId)
      ensures watchlists == old(watchlists)
    {
      currentUserId := Some(userId);
    }

    /** Appends `movie` to the current user's list; without a user nothing changes. */
    method AddToWatchlist(movie: Movie)
      modifies this
      ensures currentUserId == old(currentUserId)
      ensures IsSet(currentUserId) ==> watchlists == AddUpdater(old(watchlists), currentUserId.value, movie)
      ensures !IsSet(currentUserId) ==> watchlists == old(watchlists)
      ensures Watchlist() == if IsSet(currentUserId) then old(Watchlist()) + [movie] else old(Watchlist())
    {
      if IsSet(currentUserId) {
        watchlists := AddUpdater(watchlists, currentUserId.value, movie);
      }
    }

    /**
     * Removes every entry with `movieId` from the current user's list; without
     * a user nothing changes. When the user has no list the updater throws,
     * reported as `Err`, and the state is left as it was.
     */
    method RemoveFromWatchlist(movieId: int) returns (outcome: Result<(), Error>)
      modifies this
      ensures currentUserId == old(currentUserId)
      ensures outcome.Err? <==> IsSet(currentUserId) && currentUserId.value !in old(watchlists)
      ensures outcome.Err? || !IsSet(currentUserId) ==> watchlists == old(watchlists)
      ensures outcome.Ok? && IsSet(currentUserId) ==>
        RemoveUpdater(old(watchlists), currentUserId.value, movieId) == Ok(watchlists)
      ensures outcome.Ok? ==> Watchlist() == MovieLists.WithoutId(old(Watchlist()), movieId)
    {
      if IsSet(currentUserId) {
        var r := RemoveUpdater(watchlists, currentUserId.value, movieId);
        match r
        case Ok(next) =>
          watchlists := next;
          outcome := Ok(());
        case Err(e) =>
          outcome := Err(e);
      } else {
        MovieLists.WithoutIdAbsent([], movieId);
        outcome := Ok(());
      }
    }
  }
}
