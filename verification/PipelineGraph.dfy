/**
 * Pipeline schemas and the cycle check over their connection graph: Kahn's
 * algorithm with an in-degree map, an adjacency map and a queue, in the order
 * Go would run it for any map iteration order.
 */
module PipelineGraph {

  const INITIAL := "$initial"

  datatype PipelineStep = PipelineStep(id: string, service: string, target: string)

  datatype Connection = Connection(fromStep: string, fromPort: string, toStep: string, toPort: string)

  datatype Schema = Schema(
    id: string,
    version: int,
    steps: seq<PipelineStep>,
    connections: seq<Connection>,
    deleted: bool)

  type Edge = (string, string)

  function StepIds(steps: seq<PipelineStep>): set<string> {
    set i | 0 <= i < |steps| :: steps[i].id
  }

  predicate DistinctIds(steps: seq<PipelineStep>) {
    forall i, j | 0 <= i < j < |steps| :: steps[i].id != steps[j].id
  }

  /** Connections from the task payload, or naming unknown steps, are no edges. */
  predicate IsEdge(c: Connection, nodes: set<string>) {
    c.fromStep != INITIAL && c.fromStep != "" && c.toStep != "" && c.fromStep in nodes && c.toStep in nodes
  }

  function Edges(connections: seq<Connection>, nodes: set<string>): set<Edge> {
    if connections == [] then {}
    else
      var c := connections[|connections| - 1];
      Edges(connections[..|connections| - 1], nodes) + (if IsEdge(c, nodes) then {(c.fromStep, c.toStep)} else {})
  }

  lemma {:induction false} EdgeIsConnection(connections: seq<Connection>, nodes: set<string>, a: string, b: string)
    ensures (a, b) in Edges(connections, nodes) <==>
            exists c :: c in connections && IsEdge(c, nodes) && c.fromStep == a && c.toStep == b
  {
    if connections != [] {
      var front, last := connections[..|connections| - 1], connections[|connections| - 1];
      assert connections == front + [last];
      EdgeIsConnection(front, nodes, a, b);
    }
  }

  function SchemaEdges(schema: Schema): set<Edge> {
    Edges(schema.connections, StepIds(schema.steps))
  }

  // ------------------------------------------------------------ directed cycles

  predicate IsPath(edges: set<Edge>, path: seq<string>) {
    forall i | 0 <= i < |path| - 1 :: (path[i], path[i + 1]) in edges
  }

  predicate IsCycle(edges: set<Edge>, path: seq<string>) {
    |path| >= 2 && IsPath(edges, path) && path[0] == path[|path| - 1]
  }

  ghost predicate HasCycle(edges: set<Edge>) {
    exists path :: IsCycle(edges, path)
  }

  predicate Distinct(s: seq<string>) {
    forall i, j | 0 <= i < j < |s| :: s[i] != s[j]
  }

  lemma {:induction false} Pigeonhole(s: seq<string>, u: set<string>)
    requires Distinct(s) && forall x | x in s :: x in u
    ensures |s| <= |u|
  {
    if s != [] {
      var last := s[|s| - 1];
      Pigeonhole(s[..|s| - 1], u - {last});
    }
  }

  ghost predicate HasPredecessorIn(edges: set<Edge>, u: set<string>, y: string) {
    exists x :: x in u && (x, y) in edges
  }

  /** A non-empty set in which every node has a predecessor of its own holds arbitrarily long walks. */
  lemma {:induction false} LongWalk(edges: set<Edge>, u: set<string>, start: string, n: nat) returns (path: seq<string>)
    requires start in u && forall y | y in u :: HasPredecessorIn(edges, u, y)
    ensures |path| == n + 1 && IsPath(edges, path) && forall i | 0 <= i < |path| :: path[i] in u
  {
    if n == 0 {
      path := [start];
    } else {
      var rest := LongWalk(edges, u, start, n - 1);
      assert HasPredecessorIn(edges, u, rest[0]);
      var x :| x in u && (x, rest[0]) in edges;
      path := [x] + rest;
    }
  }

  lemma PredecessorsEverywhereMakeCycle(edges: set<Edge>, u: set<string>)
    requires u != {} && forall y | y in u :: HasPredecessorIn(edges, u, y)
    ensures HasCycle(edges)
  {
    var start :| start in u;
    var path := LongWalk(edges, u, start, |u|);
    if Distinct(path) {
      Pigeonhole(path, u);
    }
    var i, j :| 0 <= i < j < |path| && path[i] == path[j];
    SubpathIsPath(edges, path, i, j + 1);
    assert IsCycle(edges, path[i..j + 1]);
  }

  lemma SubpathIsPath(edges: set<Edge>, path: seq<string>, i: nat, j: nat)
    requires IsPath(edges, path) && i <= j <= |path|
    ensures IsPath(edges, path[i..j])
  {
    var part := path[i..j];
    forall k | 0 <= k < |part| - 1 ensures (part[k], part[k + 1]) in edges {
      assert (path[i + k], path[i + k + 1]) in edges;
    }
  }

  /** Along a path, a rank that every edge increases has increased. */
  lemma {:induction false} RankIncreases(edges: set<Edge>, rank: map<string, int>, path: seq<string>, k: nat)
    requires IsPath(edges, path) && 0 < k < |path|
    requires forall e | e in edges :: e.0 in rank && e.1 in rank && rank[e.0] < rank[e.1]
    ensures path[0] in rank && path[k] in rank && rank[path[0]] < rank[path[k]]
  {
    assert (path[k - 1], path[k]) in edges;
    if k > 1 {
      RankIncreases(edges, rank, path, k - 1);
    }
  }

  lemma RankedIsAcyclic(edges: set<Edge>, rank: map<string, int>)
    requires forall e | e in edges :: e.0 in rank && e.1 in rank && rank[e.0] < rank[e.1]
    ensures !HasCycle(edges)
  {
    forall path | IsCycle(edges, path) ensures false {
      RankIncreases(edges, rank, path, |path| - 1);
    }
  }

  // ------------------------------------------------------- remaining in-degree

  /** Edges into `m` whose source is not yet removed. */
  function Incoming(edges: set<Edge>, m: string, removed: set<string>): set<Edge> {
    set e | e in edges && e.1 == m && e.0 !in removed
  }

  lemma RemoveSource(edges: set<Edge>, m: string, removed: set<string>, n: string)
    requires n !in removed
    ensures (n, m) in edges ==> |Incoming(edges, m, removed + {n})| == |Incoming(edges, m, removed)| - 1
    ensures (n, m) !in edges ==> |Incoming(edges, m, removed + {n})| == |Incoming(edges, m, removed)|
  {
    assert Incoming(edges, m, removed + {n}) == Incoming(edges, m, removed) - {(n, m)};
    assert (n, m) in edges ==> (n, m) in Incoming(edges, m, removed);
  }

  lemma AddEdge(edges: set<Edge>, m: string, e: Edge)
    requires e !in edges
    ensures |Incoming(edges + {e}, m, {})| == |Incoming(edges, m, {})| + (if e.1 == m then 1 else 0)
  {
    assert Incoming(edges + {e}, m, {}) == Incoming(edges, m, {}) + (if e.1 == m then {e} else {});
  }

  lemma NoneIncoming(edges: set<Edge>, m: string, removed: set<string>)
    ensures |Incoming(edges, m, removed)| == 0 <==> forall x | (x, m) in edges :: x in removed
  {
    if |Incoming(edges, m, removed)| == 0 {
      forall x | (x, m) in edges ensures x in removed {
        assert (x, m) in Incoming(edges, m, removed) || x in removed;
      }
    } else {
      var e :| e in Incoming(edges, m, removed);
      assert (e.0, m) in edges && e.0 !in removed;
    }
  }

  // -------------------------------------------------------------- the algorithm

  /** The adjacency list of each node holds its successors, each once. */
  ghost predicate AdjacencyOk(adj: map<string, seq<string>>, edges: set<Edge>, nodes: set<string>) {
    && adj.Keys == nodes
    && (forall n | n in nodes :: Distinct(adj[n]))
    && (forall n, m | n in nodes :: m in adj[n] <==> (n, m) in edges)
  }

  ghost predicate DegreesOk(inDegree: map<string, int>, edges: set<Edge>, nodes: set<string>, removed: set<string>) {
    inDegree.Keys == nodes && forall m | m in nodes :: inDegree[m] == |Incoming(edges, m, removed)|
  }

  ghost predicate EdgesWithin(edges: set<Edge>, nodes: set<string>) {
    forall e | e in edges :: e.0 in nodes && e.1 in nodes
  }

  method InitialDegrees(steps: seq<PipelineStep>) returns (adj: map<string, seq<string>>, inDegree: map<string, int>)
    ensures adj == map n | n in StepIds(steps) :: []
    ensures inDegree == map n | n in StepIds(steps) :: 0
  {
    inDegree := map[];
    adj := map[];
    for i := 0 to |steps|
      invariant inDegree.Keys == adj.Keys == StepIds(steps[..i])
      invariant forall n | n in adj :: inDegree[n] == 0 && adj[n] == []
    {
      StepIdsSnoc(steps, i);
      inDegree := inDegree[steps[i].id := 0];
      adj := adj[steps[i].id := []];
    }
    assert steps[..|steps|] == steps;
  }

  /** Adds one unseen edge to both maps. */
  lemma AddEdgeKeepsGraph(
    adj: map<string, seq<string>>, inDegree: map<string, int>, seen: set<Edge>, nodes: set<string>, a: string, b: string)
    requires AdjacencyOk(adj, seen, nodes) && DegreesOk(inDegree, seen, nodes, {})
    requires a in nodes && b in nodes && (a, b) !in seen
    ensures AdjacencyOk(adj[a := adj[a] + [b]], seen + {(a, b)}, nodes)
    ensures DegreesOk(inDegree[b := inDegree[b] + 1], seen + {(a, b)}, nodes, {})
  {
    var adj' := adj[a := adj[a] + [b]];
    assert b !in adj[a];
    forall n, m | n in nodes ensures m in adj'[n] <==> (n, m) in seen + {(a, b)} {
      assert m in adj[n] <==> (n, m) in seen;
    }
    forall m | m in nodes
      ensures inDegree[b := inDegree[b] + 1][m] == |Incoming(seen + {(a, b)}, m, {})|
    {
      AddEdge(seen, m, (a, b));
    }
  }

  lemma EmptyGraphOk(nodes: set<string>)
    ensures AdjacencyOk(map n | n in nodes :: [], {}, nodes)
    ensures DegreesOk(map n | n in nodes :: 0, {}, nodes, {})
  {
    forall m ensures Incoming({}, m, {}) == {} {
    }
  }

  lemma EdgesSnoc(connections: seq<Connection>, nodes: set<string>, i: nat)
    requires i < |connections|
    ensures var c := connections[i];
            Edges(connections[..i + 1], nodes) ==
            Edges(connections[..i], nodes) + (if IsEdge(c, nodes) then {(c.fromStep, c.toStep)} else {})
  {
    assert connections[..i + 1][..i] == connections[..i];
  }

  lemma EdgesWhole(connections: seq<Connection>, nodes: set<string>)
    ensures Edges(connections[..|connections|], nodes) == Edges(connections, nodes)
  {
    assert connections[..|connections|] == connections;
  }

  /** Both maps describe the edges of the connections up to an index. */
  ghost predicate GraphUpTo(connections: seq<Connection>, nodes: set<string>, i: nat, adj: map<string, seq<string>>, inDegree: map<string, int>)
    requires i <= |connections|
  {
    AdjacencyOk(adj, Edges(connections[..i], nodes), nodes) && DegreesOk(inDegree, Edges(connections[..i], nodes), nodes, {})
  }

  /** Adds the edge of one connection, unless it is none or was seen before. */
  method AddConnection(
    connections: seq<Connection>, i: nat, nodes: set<string>,
    adj0: map<string, seq<string>>, inDegree0: map<string, int>, seen0: set<Edge>)
    returns (adj: map<string, seq<string>>, inDegree: map<string, int>, seen: set<Edge>)
    requires i < |connections| && seen0 == Edges(connections[..i], nodes)
    requires GraphUpTo(connections, nodes, i, adj0, inDegree0)
    ensures seen == Edges(connections[..i + 1], nodes)
    ensures GraphUpTo(connections, nodes, i + 1, adj, inDegree)
  {
    adj, inDegree, seen := adj0, inDegree0, seen0;
    var a, b := connections[i].fromStep, connections[i].toStep;
    EdgesSnoc(connections, nodes, i);
    if IsEdge(connections[i], nodes) && (a, b) !in seen {
      AddEdgeKeepsGraph(adj, inDegree, seen, nodes, a, b);
      seen := seen + {(a, b)};
      adj := adj[a := adj[a] + [b]];
      inDegree := inDegree[b := inDegree[b] + 1];
    }
  }

  method AddConnections(
    connections: seq<Connection>, nodes: set<string>, adj0: map<string, seq<string>>, inDegree0: map<string, int>)
    returns (adj: map<string, seq<string>>, inDegree: map<string, int>)
    requires AdjacencyOk(adj0, {}, nodes) && DegreesOk(inDegree0, {}, nodes, {})
    ensures AdjacencyOk(adj, Edges(connections, nodes), nodes)
    ensures DegreesOk(inDegree, Edges(connections, nodes), nodes, {})
  {
    adj, inDegree := adj0, inDegree0;
    var seen: set<Edge> := {};
    for i := 0 to |connections|
      invariant seen == Edges(connections[..i], nodes)
      invariant GraphUpTo(connections, nodes, i, adj, inDegree)
    {
      adj, inDegree, seen := AddConnection(connections, i, nodes, adj, inDegree, seen);
    }
    EdgesWhole(connections, nodes);
  }

  method BuildGraph(schema: Schema) returns (adj: map<string, seq<string>>, inDegree: map<string, int>)
    ensures AdjacencyOk(adj, SchemaEdges(schema), StepIds(schema.steps))
    ensures DegreesOk(inDegree, SchemaEdges(schema), StepIds(schema.steps), {})
  {
    adj, inDegree := InitialDegrees(schema.steps);
    EmptyGraphOk(StepIds(schema.steps));
    adj, inDegree := AddConnections(schema.connections, StepIds(schema.steps), adj, inDegree);
  }

  lemma StepIdsSnoc(steps: seq<PipelineStep>, i: nat)
    requires i < |steps|
    ensures StepIds(steps[..i + 1]) == StepIds(steps[..i]) + {steps[i].id}
  {
    assert forall k | 0 <= k < i :: steps[..i + 1][k] == steps[..i][k];
    assert steps[..i + 1][i] == steps[i];
    forall id | id in StepIds(steps[..i]) ensures id in StepIds(steps[..i + 1]) {
      var k :| 0 <= k < i && steps[..i][k].id == id;
      assert steps[..i + 1][k].id == id;
    }
  }

  /** What the main loop keeps: exactly the ready nodes are queued, and nothing removed waits for a node that is not. */
  ghost predicate QueueOk(edges: set<Edge>, nodes: set<string>, removed: set<string>, queue: seq<string>) {
    && Distinct(queue)
    && (forall e | e in edges && e.1 in removed :: e.0 in removed)
    && (forall x | x in queue :: x in nodes && x !in removed)
    && (forall x | x in nodes && x !in removed :: |Incoming(edges, x, removed)| == 0 <==> x in queue)
  }

  ghost predicate RankOk(edges: set<Edge>, removed: set<string>, rank: map<string, int>) {
    && rank.Keys == removed
    && (forall n | n in rank :: rank[n] < |removed|)
    && forall e | e in edges && e.0 in removed && e.1 in removed :: rank[e.0] < rank[e.1]
  }

  /** Decrements every successor once; those that reach zero join the queue. */
  method ReleaseSuccessors(succ: seq<string>, inDegree: map<string, int>, queue: seq<string>)
    returns (inDegree': map<string, int>, queue': seq<string>)
    requires Distinct(succ) && forall m | m in succ :: m in inDegree
    requires Distinct(queue) && forall m | m in succ :: m !in queue
    ensures inDegree' == map m | m in inDegree :: if m in succ then inDegree[m] - 1 else inDegree[m]
    ensures Distinct(queue')
    ensures forall x :: x in queue' <==> x in queue || (x in succ && inDegree'[x] == 0)
  {
    inDegree', queue' := inDegree, queue;
    for i := 0 to |succ|
      invariant inDegree' == map m | m in inDegree :: if m in succ[..i] then inDegree[m] - 1 else inDegree[m]
      invariant Distinct(queue')
      invariant forall x :: x in queue' <==> x in queue || (x in succ[..i] && inDegree'[x] == 0)
    {
      var m := succ[i];
      assert succ[..i + 1] == succ[..i] + [m];
      assert m !in succ[..i];
      inDegree' := inDegree'[m := inDegree'[m] - 1];
      if inDegree'[m] == 0 {
        queue' := queue' + [m];
      }
    }
    assert succ[..|succ|] == succ;
  }

  /** Removes one ready node: its successors lose an edge and may become ready. */
  method RemoveNode(
    ghost edges: set<Edge>, ghost nodes: set<string>, adj: map<string, seq<string>>,
    inDegree: map<string, int>, ghost removed: set<string>, queue: seq<string>)
    returns (inDegree': map<string, int>, queue': seq<string>)
    requires EdgesWithin(edges, nodes) && AdjacencyOk(adj, edges, nodes) && DegreesOk(inDegree, edges, nodes, removed)
    requires QueueOk(edges, nodes, removed, queue) && queue != []
    ensures DegreesOk(inDegree', edges, nodes, removed + {queue[0]})
    ensures QueueOk(edges, nodes, removed + {queue[0]}, queue')
    ensures (queue[0], queue[0]) !in edges
  {
    var n := queue[0];
    assert n in nodes && n !in removed;
    NoneIncoming(edges, n, removed);
    forall m | m in adj[n] ensures m in nodes && m !in queue[1..] {
      assert (n, m) in edges;
      NoneIncoming(edges, m, removed);
    }
    inDegree', queue' := ReleaseSuccessors(adj[n], inDegree, queue[1..]);
    forall m | m in nodes ensures inDegree'[m] == |Incoming(edges, m, removed + {n})| {
      RemoveSource(edges, m, removed, n);
      assert m in adj[n] <==> (n, m) in edges;
    }
    ReadyAfterRemoval(edges, nodes, removed, queue, queue', inDegree', adj[n]);
  }

  lemma ReadyAfterRemoval(
    edges: set<Edge>, nodes: set<string>, removed: set<string>, queue: seq<string>, queue': seq<string>,
    inDegree': map<string, int>, succ: seq<string>)
    requires QueueOk(edges, nodes, removed, queue) && queue != [] && Distinct(queue')
    requires EdgesWithin(edges, nodes) && forall m :: m in succ <==> (queue[0], m) in edges
    requires DegreesOk(inDegree', edges, nodes, removed + {queue[0]})
    requires forall x :: x in queue' <==> x in queue[1..] || (x in succ && x in nodes && inDegree'[x] == 0)
    ensures QueueOk(edges, nodes, removed + {queue[0]}, queue')
  {
    var n := queue[0];
    NoneIncoming(edges, n, removed);
    assert n !in removed;
    forall x | x in queue' ensures x in nodes && x !in removed + {n} {
      assert x in succ ==> (n, x) in edges;
    }
    forall x | x in nodes && x !in removed + {n}
      ensures |Incoming(edges, x, removed + {n})| == 0 <==> x in queue'
    {
      RemoveSource(edges, x, removed, n);
      assert x in queue <==> x in queue[1..];
    }
  }

  /** Kahn's main loop: removes ready nodes until none is left, ranking them as it goes. */
  method Drain(
    ghost edges: set<Edge>, ghost nodes: set<string>, adj: map<string, seq<string>>,
    inDegree: map<string, int>, queue: seq<string>)
    returns (visited: nat, ghost removed: set<string>, ghost rank: map<string, int>)
    requires EdgesWithin(edges, nodes) && AdjacencyOk(adj, edges, nodes) && DegreesOk(inDegree, edges, nodes, {})
    requires QueueOk(edges, nodes, {}, queue)
    ensures removed <= nodes && visited == |removed|
    ensures QueueOk(edges, nodes, removed, []) && RankOk(edges, removed, rank)
  {
    visited, removed, rank := 0, {}, map[];
    var degrees, ready := inDegree, queue;
    while ready != []
      invariant DegreesOk(degrees, edges, nodes, removed)
      invariant QueueOk(edges, nodes, removed, ready)
      invariant RankOk(edges, removed, rank)
      invariant removed <= nodes && visited == |removed|
      decreases nodes - removed
    {
      ghost var n := ready[0];
      assert n in nodes && n !in removed;
      degrees, ready := RemoveNode(edges, nodes, adj, degrees, removed, ready);
      ghost var removed' := removed + {n};
      RankNext(edges, removed, rank, n);
      rank := rank[n := visited];
      removed := removed';
      visited := visited + 1;
    }
  }

  lemma RankNext(edges: set<Edge>, removed: set<string>, rank: map<string, int>, n: string)
    requires RankOk(edges, removed, rank) && n !in removed
    requires forall e | e in edges && e.1 in removed + {n} :: e.0 in removed + {n}
    requires forall e | e in edges && e.1 in removed :: e.0 in removed
    requires (n, n) !in edges
    ensures RankOk(edges, removed + {n}, rank[n := |removed|])
  {
  }

  /** True exactly when the connection graph has a directed cycle, or step IDs repeat. */
  method PipelineHasCycle(schema: Schema) returns (cyclic: bool)
    ensures cyclic <==> HasCycle(SchemaEdges(schema)) || !DistinctIds(schema.steps)
  {
    ghost var edges, nodes := SchemaEdges(schema), StepIds(schema.steps);
    EdgesAreWithin(schema.connections, nodes);
    var adj, inDegree := BuildGraph(schema);
    var queue := CollectReady(inDegree);
    var visited, removed, rank := Drain(edges, nodes, adj, inDegree, queue);
    CountSteps(schema.steps);
    if removed == nodes {
      RankedIsAcyclic(edges, rank);
    } else {
      StuckMeansCycle(edges, nodes, removed);
      SubsetCard(removed, nodes);
    }
    return visited < |schema.steps|;
  }

  lemma {:induction false} EdgesAreWithin(connections: seq<Connection>, nodes: set<string>)
    ensures EdgesWithin(Edges(connections, nodes), nodes)
  {
    if connections != [] {
      EdgesAreWithin(connections[..|connections| - 1], nodes);
    }
  }

  /** Nodes of in-degree zero, in any map order. */
  method CollectReady(inDegree: map<string, int>) returns (queue: seq<string>)
    ensures Distinct(queue)
    ensures forall x :: x in queue <==> x in inDegree && inDegree[x] == 0
  {
    queue := [];
    var todo := inDegree.Keys;
    while todo != {}
      invariant todo <= inDegree.Keys && Distinct(queue)
      invariant forall x :: x in queue <==> x in inDegree && x !in todo && inDegree[x] == 0
      decreases |todo|
    {
      var id :| id in todo;
      if inDegree[id] == 0 {
        queue := queue + [id];
      }
      todo := todo - {id};
    }
  }

  lemma StuckMeansCycle(edges: set<Edge>, nodes: set<string>, removed: set<string>)
    requires EdgesWithin(edges, nodes) && removed < nodes && QueueOk(edges, nodes, removed, [])
    ensures HasCycle(edges)
  {
    var stuck := nodes - removed;
    var last :| last in nodes && last !in removed;
    assert last in stuck;
    forall y | y in stuck ensures HasPredecessorIn(edges, stuck, y) {
      NoneIncoming(edges, y, removed);
      var x :| (x, y) in edges && x !in removed;
      assert x in stuck;
    }
    PredecessorsEverywhereMakeCycle(edges, stuck);
  }

  lemma SubsetCard(a: set<string>, b: set<string>)
    requires a < b
    ensures |a| < |b|
  {
    assert |b| == |a| + |b - a|;
  }

  lemma {:induction false} CountSteps(steps: seq<PipelineStep>)
    ensures |StepIds(steps)| <= |steps|
    ensures |StepIds(steps)| == |steps| <==> DistinctIds(steps)
  {
    if steps != [] {
      var front, last := steps[..|steps| - 1], steps[|steps| - 1];
      CountSteps(front);
      StepIdsSnoc(steps, |steps| - 1);
      assert steps[..|steps|] == steps;
      DistinctSnoc(front, last);
      assert steps == front + [last];
    }
  }

  lemma DistinctSnoc(front: seq<PipelineStep>, last: PipelineStep)
    ensures DistinctIds(front + [last]) <==> DistinctIds(front) && last.id !in StepIds(front)
  {
    var steps := front + [last];
    assert forall k | 0 <= k < |front| :: front[k].id in StepIds(front) && steps[k] == front[k];
    if last.id in StepIds(front) {
      var k :| 0 <= k < |front| && front[k].id == last.id;
      assert steps[k].id == steps[|front|].id;
    }
  }

  /** A schema without any connection whose step IDs repeat is reported cyclic all the same. */
  lemma RepeatedIdsAreReported(step: PipelineStep)
    ensures var schema := Schema("p", 1, [step, step], [], false);
            !HasCycle(SchemaEdges(schema)) && !DistinctIds(schema.steps)
  {
    var schema := Schema("p", 1, [step, step], [], false);
    assert schema.steps[0].id == schema.steps[1].id;
    RankedIsAcyclic(SchemaEdges(schema), map[]);
  }

  // ------------------------------------------------- forward schemas are acyclic

  /** Every edge goes from an earlier to a later step of the list. */
  predicate Forward(schema: Schema) {
    forall i, j | 0 <= i < |schema.steps| && 0 <= j < |schema.steps|
                  && (schema.steps[i].id, schema.steps[j].id) in SchemaEdges(schema) :: i < j
  }

  lemma ForwardIsAcyclic(schema: Schema)
    requires DistinctIds(schema.steps) && Forward(schema)
    ensures !HasCycle(SchemaEdges(schema))
  {
    var rank := map id | id in StepIds(schema.steps) :: PositionOf(schema.steps, id);
    EdgesAreWithin(schema.connections, StepIds(schema.steps));
    RankedIsAcyclic(SchemaEdges(schema), rank);
  }

  function PositionOf(steps: seq<PipelineStep>, id: string): (p: int)
    requires id in StepIds(steps)
    ensures 0 <= p < |steps| && steps[p].id == id
  {
    if steps[|steps| - 1].id == id then |steps| - 1
    else
      StepIdsSnoc(steps, |steps| - 1);
      assert steps[..|steps|] == steps;
      PositionOf(steps[..|steps| - 1], id)
  }
}
