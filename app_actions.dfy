/**
 * The record shapes the store and the screens share: movies, actors, path
 * nodes, the persisted slices of the Redux state and a finished game.
 * The string-literal tags `type: 'movie'` and `type?: 'actor'` carry no
 * information and are not represented.
 */
module AppActions {
  import opened Wrappers

  datatype Actor = Actor(id: int, name: string, profilePath: string)

  datatype Movie = Movie(
    id: int,
    title: string,
    actors: seq<Actor>,
    releaseYear: Option<string>,
    posterPath: string)

  /** The `'movie' | 'actor'` tag of a path node. */
  datatype NodeKind = MovieNode | ActorNode

  /** Which seed movie a node was reached from. */
  datatype Side = A | B

  datatype PathNode = PathNode(
    id: int,
    title: string,
    kind: NodeKind,
    side: Side,
    connectedTo: Option<seq<int>>)

  /** The `_persist` bookkeeping record that redux-persist keeps in each persisted slice. */
  datatype Persist = Persist(version: int, rehydrated: bool)

  datatype WatchlistState = WatchlistState(watchlist: seq<Movie>, persist: Persist)

  datatype CompletedConnection = CompletedConnection(movieA: Movie, movieB: Movie, moves: int)

  datatype CompletedConnectionsState = CompletedConnectionsState(
    completedConnections: seq<CompletedConnection>,
    persist: Persist)
}
