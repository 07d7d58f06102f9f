# RoleTheCredits: the state transitions behind the movie-connection game

RoleTheCredits is a React Native game: starting from movie A the player hops
between movies and actors until reaching movie B, and may keep a per-user
watchlist and a history of finished games. This project models, in Dafny, the
pure state transitions under those screens and proves their properties:

- the Redux reducer of the persisted watchlist (`WatchlistReducer`): ADD
  appends, REMOVE filters by movie id, REHYDRATE merges the restored slice and
  marks it rehydrated, every other action is ignored;
- the Redux reducer of the persisted completed connections
  (`CompletedConnectionsReducer`): an append-only list plus a REHYDRATE that
  spreads the payload over the state only when a payload is present;
- the game screen's progress rule (`GameScreen`): the opening progress value
  and the `navigateToNode` updater, the only move-count and win rule in the code;
- the per-user watchlist provider (`WatchlistContext`): a class with the two
  React state cells (`watchlists`, `currentUserId`) as fields, the add and
  remove updaters as functions, and the derived `watchlist` view;
- the actor screen's filmography shaping (`ActorMoviesScreen`): release-year
  extraction, the comparator, and the in-place sort, modelled as an insertion
  sort on an `array`, driven by the program's own comparator, that is proved to be a permutation ordered newest first
  with undated movies last;
- the completed-connections provider (`CompletedConnectionsContext`): an
  append-only list updater, shown to agree with the reducer's ADD case.

Shared pieces: `AppActions` holds the record shapes of
`src/actions/AppActions.ts` (the reducers import them from `../types`, which
does not export them); `MovieLists.WithoutId` is the
`filter((movie) => movie.id !== id)` used by both the reducer and the
provider; `StringOrder` models `localeCompare` on year strings as plain
lexicographic order; `Wrappers` has `Option` and `Result`.

Modelling choices:

- JavaScript truthiness is written out. `if (currentUserId)` is false for
  `null` and for the empty string (`WatchlistContext.IsSet`);
  `release_date ? … : 'N/A'` treats a missing and an empty date alike.
- Thrown errors become `Result.Err`. `prevWatchlists[currentUserId].filter`
  throws when the current user has no list yet, and the provider's
  `RemoveFromWatchlist` then reports `Err` and leaves its state unchanged.
- A REHYDRATE payload is a record whose fields may be absent (`Option`).
  Spreading it overrides exactly the fields that are present.
- Ids, move counts and `_persist.version` are JavaScript numbers. They are
  modelled as unbounded `int`, since no operation here comes near 2^53.
- The context's `WatchlistItem` type is not exported by `src/types.ts`. It is
  modelled as `Movie`, since only its `id` is used.

The game screen's rule, as the code has it:

- the path starts empty and `moves == |path|` (`GameScreen.Reachable`);
- `isConnected` is recomputed on every move and can become false again
  (`GameScreen.ConnectionIsNotSticky`);
- moves are always accepted;
- equal seed ids do not start connected (`GameScreen.SameMovieStartsUnconnected`);
- the win test compares ids only, not node kinds (`GameScreen.KindIsNotCompared`);
- the `side` tag of `AppActions.PathNode` is carried and displayed, never compared.

## Model

| member | source | states |
|---|---|---|
| MovieLists.WithoutId | src/store/watchlistReducer.ts:35 | a movie is kept iff it was in the list and its id differs from the removed id; the list never grows |
| MovieLists.WithoutIdRemovesAll | src/store/watchlistReducer.ts:35 | no entry with the removed id is left at any position |
| MovieLists.WithoutIdConcat | src/store/watchlistReducer.ts:35 | filtering a concatenation is concatenating the filtered parts, so survivors keep their relative order |
| MovieLists.WithoutIdCounts | src/store/watchlistReducer.ts:35 | each movie with another id keeps its number of occurrences; movies with the removed id have none |
| MovieLists.WithoutIdAbsent | src/store/watchlistReducer.ts:35 | removing an id no entry carries returns the list unchanged |
| MovieLists.WithoutIdIdempotent | src/store/watchlistReducer.ts:35 | removing the same id twice equals removing it once |
| WatchlistReducer.InitialStateIsEmpty | src/store/watchlistReducer.ts:5-11 | the initial slice has an empty watchlist, version -1 and rehydrated false |
| WatchlistReducer.Reduce | src/store/watchlistReducer.ts:22-46 | ADD grows the list by one, keeps every earlier entry in place and puts the payload last; REMOVE keeps exactly the movies with another id; neither touches `_persist`; REHYDRATE ends rehydrated with the prior version; any other action returns the state unchanged |
| WatchlistReducer.AddKeepsDuplicates | src/store/watchlistReducer.ts:27-31 | adding a movie already present adds one more occurrence (no deduplication) |
| WatchlistReducer.RemoveLeavesNoMatch | src/store/watchlistReducer.ts:32-36 | after REMOVE with id k no entry has id k |
| WatchlistReducer.RemoveKeepsOthersInOrder | src/store/watchlistReducer.ts:35 | REMOVE splits over any split of the list (relative order kept) and keeps every occurrence of movies with another id |
| WatchlistReducer.RemoveAbsentIsIdentity | src/store/watchlistReducer.ts:35 | REMOVE of an absent id returns the whole state unchanged |
| WatchlistReducer.RemoveTwice | src/store/watchlistReducer.ts:35 | REMOVE of the same id twice equals REMOVE once |
| WatchlistReducer.RehydrateList | src/store/watchlistReducer.ts:37-42 | REHYDRATE takes the payload's list when it carries one, and keeps the old list when there is no payload or no list in it |
| WatchlistReducer.PersistInvariant | src/store/watchlistReducer.ts:26-45 | over any sequence of actions `_persist.version` never changes and rehydrated, once true, stays true |
| CompletedConnectionsReducer.InitialStateIsEmpty | src/store/completedConnectionsReducer.ts:10-16 | the initial slice has no connections, version -1 and rehydrated false |
| CompletedConnectionsReducer.Reduce | src/store/completedConnectionsReducer.ts:27-42 | ADD grows the list by one, keeps earlier entries in place, puts the payload last and keeps `_persist`; REHYDRATE without payload and any other action return the state unchanged |
| CompletedConnectionsReducer.RehydrateOverridesPresentFields | src/store/completedConnectionsReducer.ts:37-38 | REHYDRATE with a payload overrides each field the payload carries (including `_persist`) and keeps each field it lacks |
| CompletedConnectionsReducer.AppendOnly | src/store/completedConnectionsReducer.ts:31-41 | over any action sequence without REHYDRATE the old list stays a prefix, the length grows by exactly the number of ADDs, and `_persist` is unchanged |
| GameScreen.InitialProgressShape | src/screens/GameScreen.tsx:35-42 | the opening progress has an empty path, 0 moves, is not connected, and starts at movie A as a movie node aiming at movie B |
| GameScreen.NavigateToNode | src/screens/GameScreen.tsx:46-59 | a move appends the node, adds one move, makes the node current, sets connected iff its id is the target's, keeps start and target, and preserves the reachable-state invariant |
| GameScreen.PlayEffect | src/screens/GameScreen.tsx:46-59 | a run of moves appends exactly the visited nodes, adds one move per node, never changes start or target, and preserves the invariant |
| GameScreen.Reachable | src/screens/GameScreen.tsx:35-59 | from the opening state the path is the visited nodes, moves equals the path length, and after a move the current node is the last visited, connected iff it has movie B's id |
| GameScreen.KindIsNotCompared | src/screens/GameScreen.tsx:49 | an actor node with the target movie's id counts as connected |
| GameScreen.ConnectionIsNotSticky | src/screens/GameScreen.tsx:49-56 | a move from a connected state to a node with another id is accepted and clears `isConnected` |
| GameScreen.SameMovieStartsUnconnected | src/screens/GameScreen.tsx:35-42 | two movies with the same id still start unconnected, although the current node already has the target's id |
| WatchlistContext.AddUpdater | src/context/WatchlistContext.tsx:35-38 | the user's list gets the movie appended (created when absent), the user becomes a key, and every other user's list is unchanged |
| WatchlistContext.RemoveUpdater | src/context/WatchlistContext.tsx:46-49 | fails iff the user has no list; otherwise the keys are unchanged, the user's list keeps exactly the movies with another id, and other users' lists are untouched |
| WatchlistContext.RemoveKeepsOrder | src/context/WatchlistContext.tsx:48 | removal filters each part of any split of the user's list, so the survivors keep their order |
| WatchlistContext.WatchlistProvider.constructor | src/context/WatchlistContext.tsx:16-17 | the provider starts with no lists and no current user |
| WatchlistContext.WatchlistProvider.Watchlist | src/context/WatchlistContext.tsx:58 | the visible list is the current user's list, or empty when no user is set or the user has no entry |
| WatchlistContext.WatchlistProvider.SetWatchlistForUser | src/context/WatchlistContext.tsx:29-31 | sets the current user and leaves every list untouched |
| WatchlistContext.WatchlistProvider.AddToWatchlist | src/context/WatchlistContext.tsx:33-42 | with a user set, applies the add updater and the visible list gains the movie at the end; with none, nothing changes |
| WatchlistContext.WatchlistProvider.RemoveFromWatchlist | src/context/WatchlistContext.tsx:44-53 | reports an error, changing nothing, iff a user is set who has no list; with no user nothing changes; otherwise applies the remove updater and the visible list is filtered by id |
| CompletedConnectionsContext.InitialConnectionsIsEmpty | src/context/CompletedConnectionsContext.tsx:18 | the list starts empty |
| CompletedConnectionsContext.AddCompletedConnection | src/context/CompletedConnectionsContext.tsx:20-22 | the length grows by one, earlier entries stay in place, the new connection is last |
| CompletedConnectionsContext.AddTwiceKeepsBoth | src/context/CompletedConnectionsContext.tsx:21 | adding the same connection twice leaves two more copies of it |
| CompletedConnectionsContext.AgreesWithReducer | src/context/CompletedConnectionsContext.tsx:21 | the updater yields the same list as the reducer's ADD case |
| StringOrder.LexCompare | src/screens/ActorMoviesScreen.tsx:45 | the three-way comparison is 0 iff the strings are equal, non-positive iff the first is lexicographically at or before the second, non-negative iff the reverse |
| ActorMoviesScreen.BeforeDash | src/screens/ActorMoviesScreen.tsx:36 | the result is the longest dash-free prefix of the date: a prefix, without '-', followed by '-' or the end |
| ActorMoviesScreen.ReleaseYear | src/screens/ActorMoviesScreen.tsx:36 | "N/A" when the date is missing or empty, otherwise the text before the first '-' |
| ActorMoviesScreen.MapCredits | src/screens/ActorMoviesScreen.tsx:32-37 | one record per credit in the same order, carrying id, title and poster through and the extracted release year |
| ActorMoviesScreen.CompareAsWrittenInconsistent | src/screens/ActorMoviesScreen.tsx:42-46 | as written, two undated entries each compare as belonging after the other |
| ActorMoviesScreen.ComparatorsAgreeOnDated | src/screens/ActorMoviesScreen.tsx:42-46 | the fixed comparator agrees with the written one whenever at least one entry is dated |
| ActorMoviesScreen.CompareFixedConsistent | src/screens/ActorMoviesScreen.tsx:42-46 | the fixed comparator is antisymmetric: swapping its arguments flips its sign |
| ActorMoviesScreen.CompareFixedMatchesOrder | src/screens/ActorMoviesScreen.tsx:42-46 | the fixed comparator orders a first (or as equal) exactly when a is dated and no older than b, or b is undated |
| ActorMoviesScreen.SortedDatedFirst | src/screens/ActorMoviesScreen.tsx:43-44 | in a sorted list every dated movie comes before every "N/A" movie |
| ActorMoviesScreen.SortedNewestFirst | src/screens/ActorMoviesScreen.tsx:41-45 | in a sorted list the years of dated movies never increase, under string comparison |
| ActorMoviesScreen.CompareAsWrittenAfter | src/screens/ActorMoviesScreen.tsx:42-46 | when the written comparator puts a after b, b before a is in order |
| ActorMoviesScreen.CompareAsWrittenBefore | src/screens/ActorMoviesScreen.tsx:42-46 | when the written comparator returns zero or less for a and b, a before b is in order |
| ActorMoviesScreen.SortFilmography | src/screens/ActorMoviesScreen.tsx:42-46 | sorting with the written comparator leaves the array newest first with undated last, and a permutation of its old contents |
| ActorMoviesScreen.InsertEntry | src/screens/ActorMoviesScreen.tsx:42-46 | one insertion step under the written comparator extends the ordered prefix by one entry, leaves later entries alone and permutes the array |
| ActorMoviesScreen.ShapeFilmography | src/screens/ActorMoviesScreen.tsx:32-46 | the shaped list has one entry per credit, holds exactly the mapped records, and is sorted |

## Findings

| source | as written | input that shows it | evidently intended | confidence | as-written member | corrected member |
|---|---|---|---|---|---|---|
| src/screens/ActorMoviesScreen.tsx:43 | the comparator tests `a.releaseYear === 'N/A'` first and returns 1, so two undated entries compare as 1 in both orders. The ECMAScript `Array.prototype.sort` then leaves the result implementation-defined | two entries whose `releaseYear` is both `'N/A'` | return 0 when both entries are undated, so that the comparator is consistent | not executed; an inconsistent comparator leaves the whole order of `sort` implementation-defined | ActorMoviesScreen.CompareAsWrittenInconsistent | ActorMoviesScreen.CompareFixedConsistent |

The sort in the model is an insertion sort that compares with the written
comparator, `CompareAsWritten`. For that sort the ordering (dated first,
newest first) is proved. Wherever at least one entry is dated, `CompareFixed`
equals the written comparator (`ComparatorsAgreeOnDated`).

## Left out

- Rendering, styles and navigation are left out: every JSX tree, `StyleSheet`
  and `navigation.navigate` call, and the win alert. They are presentation.
- The TMDB fetches around the filmography (`axios.get`, the loading flag, error
  logging) are I/O. The model starts from the already-fetched `cast` array.
- Firebase auth, and the `auth().currentUser` effect that calls
  `setWatchlistForUser`, are calls into a foreign SDK. The model's callers
  invoke `SetWatchlistForUser` themselves. The provider's `userId` prop is never
  read by the source, so it is not modelled.
- redux-persist (`persistReducer`, `persistStore`, storage, store wiring) is
  library code that is not shown. Only each reducer's own REHYDRATE case is
  modelled. `ReduceAll` is a plain fold that stands in for dispatching actions
  one after another.
- The reducers' default parameter `state = initialState` is not a separate
  operation. A caller passes `InitialState()` for the first call.
- `OtherAction` stands for any action type other than the ones the reducer
  handles. The model does not check that its tag string differs from those types.
- React's batching and closure capture are left out. The provider's methods act
  on the current field values, whereas the source's updaters capture
  `currentUserId` from the last render.
- SortFilmography: does not state the order among "N/A" movies, because the
  source's comparator gives them no consistent order. The modelled insertion
  sort is one possible sort under the written comparator, not the JavaScript
  engine's own algorithm. With an inconsistent comparator, ECMAScript does not
  fix the result of `sort`. The ordering is therefore proved for this
  insertion sort only.
- `localeCompare` locale rules are left out. Year strings are compared by plain
  lexicographic order of characters.
- Random movie selection (`Math.random`) is left out, being nondeterministic,
  floating-point and network-bound. So are in-app-purchase status, the
  subscription gate and the `slice(0, 10)` truncations inside the fetches.
- The `console.warn` calls on the no-user paths of add and remove are logging
  only. They are not modelled; those paths leave the state unchanged.
