/** The Redux reducer of the persisted `completedConnections` slice. */
module CompletedConnectionsReducer {
  import opened Wrappers
  import opened AppActions

  /** What redux-persist hands to REHYDRATE: the stored slice, each field possibly absent. */
  datatype RehydratePayload = RehydratePayload(
    completedConnections: Option<seq<CompletedConnection>>,
    persist: Option<Persist>)

  /** The actions the reducer receives; `OtherAction` stands for every other action type. */
  datatype Action =
    | AddCompletedConnection(connection: CompletedConnection)
    | Rehydrate(payload: Option<RehydratePayload>)
    | OtherAction(actionType: string)

  /** The state before anything was dispatched or restored. */
  function InitialState(): CompletedConnectionsState {
    CompletedConnectionsState([], Persist(-1, false))
  }

  lemma InitialStateIsEmpty()
    ensures InitialState().completedConnections == []
    ensures InitialState().persist.version == -1 && !InitialState().persist.rehydrated
  {
  }

  /** `{ ...state, ...payload }`: each field present in the payload overrides the state's. */
  function Spread(state: CompletedConnectionsState, payload: RehydratePayload): CompletedConnectionsState {
    CompletedConnectionsState(
      payload.completedConnections.GetOr(state.completedConnections),
      payload.persist.GetOr(state.persist))
  }

  function Reduce(state: CompletedConnectionsState, action: Action): (r: CompletedConnectionsState)
    // ADD appends at the end and keeps every earlier entry where it was
    ensures action.AddCompletedConnection? ==>
      && |r.completedConnections| == |state.completedConnections| + 1
      && r.completedConnections[..|state.completedConnections|] == state.completedConnections
      && r.completedConnections[|state.completedConnections|] == action.connection
      && r.persist == state.persist
    // REHYDRATE without a payload, and every other action, leave the state alone
    ensures action.Rehydrate? && action.payload.None? ==> r == state
    ensures action.OtherAction? ==> r == state
  {
    match action
    case AddCompletedConnection(c) =>
      state.(completedConnections := state.completedConnections + [c])
    case Rehydrate(payload) =>
      if payload.Some? then Spread(state, payload.value) else state
    case OtherAction(_) =>
      state
  }

  /** REHYDRATE with a payload overrides exactly the fields the payload carries. */
  lemma RehydrateOverridesPresentFields(state: CompletedConnectionsState, payload: RehydratePayload)
    ensures payload.completedConnections.Some? ==>
      Reduce(state, Rehydrate(Some(payload))).completedConnections == payload.completedConnections.value
    ensures payload.completedConnections.None? ==>
      Reduce(state, Rehydrate(Some(payload))).completedConnections == state.completedConnections
    ensures payload.persist.Some? ==>
      Reduce(state, Rehydrate(Some(payload))).persist == payload.persist.value
    ensures payload.persist.None? ==>
      Reduce(state, Rehydrate(Some(payload))).persist == state.persist
  {
  }

  /** The state after dispatching `actions` in order. */
  function ReduceAll(state: CompletedConnectionsState, actions: seq<Action>): CompletedConnectionsState
    decreases |actions|
  {
    if actions == [] then state else ReduceAll(Reduce(state, actions[0]), actions[1..])
  }

  /** The number of ADD actions in `actions`. */
  function CountAdds(actions: seq<Action>): nat
    decreases |actions|
  {
    if actions == [] then 0
    else (if actions[0].AddCompletedConnection? then 1 else 0) + CountAdds(actions[1..])
  }

  /** True when no action of the sequence is a REHYDRATE. */
  predicate NoRehydrate(actions: seq<Action>) {
    forall i :: 0 <= i < |actions| ==> !actions[i].Rehydrate?
  }

  /**
   * Only REHYDRATE can remove a connection: after any run of other actions the
   * old list is still a prefix and the list grew by one per ADD.
   */
  lemma {:induction false} AppendOnly(state: CompletedConnectionsState, actions: seq<Action>)
    requires NoRehydrate(actions)
    ensures |ReduceAll(state, actions).completedConnections| == |state.completedConnections| + CountAdds(actions)
    ensures ReduceAll(state, actions).completedConnections[..|state.completedConnections|] == state.completedConnections
    ensures ReduceAll(state, actions).persist == state.persist
    decreases |actions|
  {
    if actions != [] {
      var next := Reduce(state, actions[0]);
      assert NoRehydrate(actions[1..]) by {
        forall i | 0 <= i < |actions[1..]| ensures !actions[1..][i].Rehydrate? {
          assert actions[1..][i] == actions[i + 1];
        }
      }
      AppendOnly(next, actions[1..]);
      var n := |state.completedConnections|;
      var final := ReduceAll(state, actions).completedConnections;
      assert next.completedConnections[..n] == state.completedConnections;
      assert final[..|next.completedConnections|][..n] == final[..n];
    }
  }
}
