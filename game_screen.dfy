/**
 * The move and win rule of the game screen: a player's progress from movie A
 * towards movie B, one navigated node at a time.
 */
module GameScreen {
  import opened Wrappers
  import opened AppActions

  /** The screen's own node record; unlike `AppActions.PathNode` it has no side. */
  datatype PathNode = Node(id: int, title: string, kind: NodeKind, connectedTo: Option<seq<int>>)

  datatype UserProgress = UserProgress(
    path: seq<PathNode>,
    startNode: PathNode,
    targetNode: PathNode,
    currentNode: PathNode,
    moves: int,
    isConnected: bool)

  /** The movie node built from one of the two movies the screen is opened with. */
  function MovieNodeOf(m: Movie): PathNode {
    Node(m.id, m.title, MovieNode, None)
  }

  /** Progress when the screen opens: at movie A, aiming for movie B, no moves yet. */
  function InitialProgress(movieA: Movie, movieB: Movie): UserProgress {
    UserProgress([], MovieNodeOf(movieA), MovieNodeOf(movieB), MovieNodeOf(movieA), 0, false)
  }

  /**
   * What holds of every progress value the screen can reach: one move per
   * path entry, the current node is the last one navigated to (the start
   * before any move), and the player is connected exactly when that last node
   * carries the target's id.
   */
  predicate Consistent(p: UserProgress) {
    && p.moves == |p.path|
    && (p.path == [] ==> p.currentNode == p.startNode && !p.isConnected)
    && (p.path != [] ==>
          p.currentNode == p.path[|p.path| - 1]
          && (p.isConnected <==> p.currentNode.id == p.targetNode.id))
  }

  lemma InitialProgressShape(movieA: Movie, movieB: Movie)
    ensures InitialProgress(movieA, movieB).path == []
    ensures InitialProgress(movieA, movieB).moves == 0
    ensures !InitialProgress(movieA, movieB).isConnected
    ensures InitialProgress(movieA, movieB).currentNode == InitialProgress(movieA, movieB).startNode
    ensures InitialProgress(movieA, movieB).startNode == Node(movieA.id, movieA.title, MovieNode, None)
    ensures InitialProgress(movieA, movieB).targetNode == Node(movieB.id, movieB.title, MovieNode, None)
    ensures Consistent(InitialProgress(movieA, movieB))
  {
  }

  /** The updater passed to `setProgress` when the player navigates to `newNode`. */
  function NavigateToNode(prev: UserProgress, newNode: PathNode): (r: UserProgress)
    ensures r.path == prev.path + [newNode]
    ensures r.moves == prev.moves + 1
    ensures r.currentNode == r.path[|r.path| - 1]
    ensures r.isConnected <==> newNode.id == prev.targetNode.id
    ensures r.startNode == prev.startNode && r.targetNode == prev.targetNode
    ensures Consistent(prev) ==> Consistent(r)
  {
    prev.(path := prev.path + [newNode],
          currentNode := newNode,
          moves := prev.moves + 1,
          isConnected := newNode.id == prev.targetNode.id)
  }

  /** Progress after navigating to each node of `nodes` in turn. */
  function Play(p: UserProgress, nodes: seq<PathNode>): UserProgress
    decreases |nodes|
  {
    if nodes == [] then p else Play(NavigateToNode(p, nodes[0]), nodes[1..])
  }

  /**
   * A run of moves appends exactly the visited nodes, counts one move per
   * node, never touches the start and the target, and keeps `Consistent`.
   */
  lemma {:induction false} PlayEffect(p: UserProgress, nodes: seq<PathNode>)
    ensures Play(p, nodes).path == p.path + nodes
    ensures Play(p, nodes).moves == p.moves + |nodes|
    ensures Play(p, nodes).startNode == p.startNode
    ensures Play(p, nodes).targetNode == p.targetNode
    ensures Consistent(p) ==> Consistent(Play(p, nodes))
    decreases |nodes|
  {
    if nodes != [] {
      var next := NavigateToNode(p, nodes[0]);
      PlayEffect(next, nodes[1..]);
      assert p.path + [nodes[0]] + nodes[1..] == p.path + nodes;
    }
  }

  /**
   * Every state reached from the opening one satisfies `moves == |path|`; after
   * at least one move the current node is the last one visited, and the player
   * is connected iff that node has movie B's id.
   */
  lemma Reachable(movieA: Movie, movieB: Movie, nodes: seq<PathNode>)
    ensures Play(InitialProgress(movieA, movieB), nodes).path == nodes
    ensures Play(InitialProgress(movieA, movieB), nodes).moves == |nodes|
    ensures nodes != [] ==>
      Play(InitialProgress(movieA, movieB), nodes).currentNode == nodes[|nodes| - 1]
    ensures nodes != [] ==>
      (Play(InitialProgress(movieA, movieB), nodes).isConnected <==> nodes[|nodes| - 1].id == movieB.id)
  {
    PlayEffect(InitialProgress(movieA, movieB), nodes);
  }

  /** The win test compares ids only: an actor node with movie B's id also connects. */
  lemma KindIsNotCompared(prev: UserProgress, title: string, links: Option<seq<int>>)
    requires prev.targetNode.kind == MovieNode
    ensures NavigateToNode(prev, Node(prev.targetNode.id, title, ActorNode, links)).isConnected
  {
  }

  /**
   * Connecting is not terminal: a move is always accepted, and moving on to a
   * node with another id clears `isConnected` again.
   */
  lemma ConnectionIsNotSticky(prev: UserProgress, newNode: PathNode)
    requires prev.isConnected
    requires newNode.id != prev.targetNode.id
    ensures !NavigateToNode(prev, newNode).isConnected
    ensures NavigateToNode(prev, newNode).moves == prev.moves + 1
  {
  }

  /** Opening the screen on two movies with one id does not count as connected. */
  lemma SameMovieStartsUnconnected(movieA: Movie, movieB: Movie)
    requires movieA.id == movieB.id
    ensures !InitialProgress(movieA, movieB).isConnected
    ensures InitialProgress(movieA, movieB).currentNode.id == InitialProgress(movieA, movieB).targetNode.id
  {
  }
}
