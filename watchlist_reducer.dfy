/** The Redux reducer of the persisted `watchlist` slice. */
module WatchlistReducer {
  import opened Wrappers
  import opened AppActions
  import MovieLists

  /** What redux-persist hands to REHYDRATE: the stored slice, each field possibly absent. */
  datatype RehydratePayload = RehydratePayload(watchlist: Option<seq<Movie>>, persist: Option<Persist>)

  /** The actions the reducer receives; `OtherAction` stands for every other action type. */
  datatype Action =
    | AddToWatchlist(movie: Movie)
    | RemoveFromWatchlist(movieId: int)
    | Rehydrate(payload: Option<RehydratePayload>)
    | OtherAction(actionType: string)

  /** The state before anything was dispatched or restored. */
  function InitialState(): WatchlistState {
    WatchlistState([], Persist(-1, false))
  }

  lemma InitialStateIsEmpty()
    ensures InitialState().watchlist == []
    ensures InitialState().persist.version == -1 && !InitialState().persist.rehydrated
  {
  }

  /** The list after spreading the payload over the state: the payload's list wins when present. */
  function RehydratedList(state: WatchlistState, payload: Option<RehydratePayload>): seq<Movie> {
    if payload.Some? && payload.value.watchlist.Some? then payload.value.watchlist.value
    else state.watchlist
  }

  function Reduce(state: WatchlistState, action: Action): (r: WatchlistState)
    // ADD appends at the end and keeps every earlier entry where it was
    ensures action.AddToWatchlist? ==>
      && |r.watchlist| == |state.watchlist| + 1
      && r.watchlist[..|state.watchlist|] == state.watchlist
      && r.watchlist[|state.watchlist|] == action.movie
      && r.persist == state.persist
    // REMOVE keeps exactly the movies with another id
    ensures action.RemoveFromWatchlist? ==>
      && (forall m :: m in r.watchlist <==> m in state.watchlist && m.id != action.movieId)
      && r.persist == state.persist
    // REHYDRATE marks the slice restored and keeps the old version, whatever the payload says
    ensures action.Rehydrate? ==>
      r.persist == Persist(state.persist.version, true)
    ensures action.OtherAction? ==> r == state
  {
    match action
    case AddToWatchlist(movie) =>
      state.(watchlist := state.watchlist + [movie])
    case RemoveFromWatchlist(id) =>
      state.(watchlist := MovieLists.WithoutId(state.watchlist, id))
    case Rehydrate(payload) =>
      WatchlistState(RehydratedList(state, payload), state.persist.(rehydrated := true))
    case OtherAction(_) =>
      state
  }

  /** ADD does not reject a movie already in the list: it then occurs once more. */
  lemma AddKeepsDuplicates(state: WatchlistState, m: Movie)
    ensures multiset(Reduce(state, AddToWatchlist(m)).watchlist)[m] == multiset(state.watchlist)[m] + 1
  {
    assert Reduce(state, AddToWatchlist(m)).watchlist == state.watchlist + [m];
  }

  /** After REMOVE with id `k` no entry with id `k` is left. */
  lemma RemoveLeavesNoMatch(state: WatchlistState, k: int)
    ensures forall i :: 0 <= i < |Reduce(state, RemoveFromWatchlist(k)).watchlist| ==>
      Reduce(state, RemoveFromWatchlist(k)).watchlist[i].id != k
  {
    MovieLists.WithoutIdRemovesAll(state.watchlist, k);
  }

  /**
   * REMOVE keeps every occurrence of every other movie, and splitting the old
   * list anywhere splits the new one at the same place, so the survivors keep
   * their relative order.
   */
  lemma RemoveKeepsOthersInOrder(state: WatchlistState, k: int, before: seq<Movie>, after: seq<Movie>, m: Movie)
    requires state.watchlist == before + after
    ensures Reduce(state, RemoveFromWatchlist(k)).watchlist ==
      Reduce(state.(watchlist := before), RemoveFromWatchlist(k)).watchlist
      + Reduce(state.(watchlist := after), RemoveFromWatchlist(k)).watchlist
    ensures m.id != k ==>
      multiset(Reduce(state, RemoveFromWatchlist(k)).watchlist)[m] == multiset(state.watchlist)[m]
  {
    MovieLists.WithoutIdConcat(before, after, k);
    MovieLists.WithoutIdCounts(state.watchlist, k, m);
  }

  /** Removing an id that is not in the list returns the state unchanged. */
  lemma RemoveAbsentIsIdentity(state: WatchlistState, k: int)
    requires forall m :: m in state.watchlist ==> m.id != k
    ensures Reduce(state, RemoveFromWatchlist(k)) == state
  {
    MovieLists.WithoutIdAbsent(state.watchlist, k);
  }

  /** Removing the same id twice is the same as removing it once. */
  lemma RemoveTwice(state: WatchlistState, k: int)
    ensures Reduce(Reduce(state, RemoveFromWatchlist(k)), RemoveFromWatchlist(k))
         == Reduce(state, RemoveFromWatchlist(k))
  {
    MovieLists.WithoutIdIdempotent(state.watchlist, k);
  }

  /** REHYDRATE takes the payload's list when it carries one and keeps the old list otherwise. */
  lemma RehydrateList(state: WatchlistState, payload: Option<RehydratePayload>)
    ensures payload.Some? && payload.value.watchlist.Some? ==>
      Reduce(state, Rehydrate(payload)).watchlist == payload.value.watchlist.value
    ensures payload.None? || payload.value.watchlist.None? ==>
      Reduce(state, Rehydrate(payload)).watchlist == state.watchlist
  {
  }

  /** The state after dispatching `actions` in order. */
  function ReduceAll(state: WatchlistState, actions: seq<Action>): WatchlistState
    decreases |actions|
  {
    if actions == [] then state else ReduceAll(Reduce(state, actions[0]), actions[1..])
  }

  /**
   * No action ever changes `_persist.version`, and once the slice is marked
   * rehydrated it stays so.
   */
  lemma {:induction false} PersistInvariant(state: WatchlistState, actions: seq<Action>)
    ensures ReduceAll(state, actions).persist.version == state.persist.version
    ensures state.persist.rehydrated ==> ReduceAll(state, actions).persist.rehydrated
    decreases |actions|
  {
    if actions != [] {
      PersistInvariant(Reduce(state, actions[0]), actions[1..]);
    }
  }
}
