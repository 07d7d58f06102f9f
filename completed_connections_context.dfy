/** The React-state list of finished games kept by the completed-connections provider. */
module CompletedConnectionsContext {
  import opened AppActions
  import CompletedConnectionsReducer

  /** The provider's state before any game is recorded. */
  function InitialConnections(): seq<CompletedConnection> {
    []
  }

  lemma InitialConnectionsIsEmpty()
    ensures |InitialConnections()| == 0
  {
  }

  /** The updater `(prev) => [...prev, connection]`. */
  function AddCompletedConnection(prev: seq<CompletedConnection>, connection: CompletedConnection): (r: seq<CompletedConnection>)
    ensures |r| == |prev| + 1
    ensures r[..|prev|] == prev
    ensures r[|prev|] == connection
  {
    prev + [connection]
  }

  /** No deduplication: adding one connection twice leaves two more copies of it. */
  lemma AddTwiceKeepsBoth(prev: seq<CompletedConnection>, c: CompletedConnection)
    ensures multiset(AddCompletedConnection(AddCompletedConnection(prev, c), c))[c] == multiset(prev)[c] + 2
  {
    assert AddCompletedConnection(AddCompletedConnection(prev, c), c) == prev + [c] + [c];
  }

  /** The updater does to the list what the reducer's ADD case does to its slice. */
  lemma AgreesWithReducer(state: CompletedConnectionsState, c: CompletedConnection)
    ensures CompletedConnectionsReducer.Reduce(state, CompletedConnectionsReducer.AddCompletedConnection(c)).completedConnections
         == AddCompletedConnection(state.completedConnections, c)
  {
  }
}
