/** Turning a workflow definition into an execution graph, and layering it with Kahn's algorithm. */
module ExecutionGraph {
  import opened Options
  import opened FiniteSets
  import opened Digraph

  /** The parts of a node definition that validation looks at. */
  datatype WorkflowNode = WorkflowNode(
    id: string, nodeType: string, hasModelId: bool, hasConditions: bool, hasLoopConfig: bool, hasExpression: bool)

  /** branchId is None for an edge whose branchId is missing or empty: the source treats both as unlabelled. */
  datatype WorkflowEdge = WorkflowEdge(id: string, source: string, target: string, branchId: Option<string>)

  datatype FailureStrategy = FailFast | Continue

  datatype Workflow = Workflow(
    nodes: seq<WorkflowNode>, edges: seq<WorkflowEdge>, failureStrategy: FailureStrategy, maxParallelism: int)

  datatype GraphNode = GraphNode(dependencies: seq<string>, dependents: seq<string>)

  /** `order` lists the keys of the node map in insertion order. */
  datatype Graph = Graph(
    nodes: map<string, GraphNode>, order: seq<string>, entryNodes: seq<string>, exitNodes: seq<string>)

  ghost function NodeIds(nodes: seq<WorkflowNode>): set<string> {
    set n | n in nodes :: n.id
  }

  /** The dependency pairs of the edges that join two known nodes. */
  ghost function EdgePairs(edges: seq<WorkflowEdge>, ids: set<string>): Edges {
    set e | e in edges && e.source in ids && e.target in ids :: (e.source, e.target)
  }

  ghost function Dependencies(w: Workflow): Edges {
    EdgePairs(w.edges, NodeIds(w.nodes))
  }

  ghost predicate Distinct<T>(s: seq<T>) {
    forall i, j :: 0 <= i < j < |s| ==> s[i] != s[j]
  }

  /** The adjacency lists hold exactly the pairs of the relation, each once and in both directions. */
  ghost predicate Adjacent(nodes: map<string, GraphNode>, edges: Edges) {
    && (forall v :: v in nodes ==> Distinct(nodes[v].dependencies) && Distinct(nodes[v].dependents))
    && (forall u, v :: v in nodes ==> (u in nodes[v].dependencies <==> (u, v) in edges))
    && (forall u, v :: u in nodes ==> (v in nodes[u].dependents <==> (u, v) in edges))
  }

  /** g is the execution graph of a relation over the given vertices. */
  ghost predicate Represents(g: Graph, vertices: set<string>, edges: Edges) {
    && g.nodes.Keys == vertices
    && Within(edges, vertices)
    && Adjacent(g.nodes, edges)
    && Distinct(g.order) && (forall v :: v in g.order <==> v in vertices)
    && Distinct(g.entryNodes)
    && (forall v :: v in g.entryNodes <==> v in vertices && g.nodes[v].dependencies == [])
    && Distinct(g.exitNodes)
    && (forall v :: v in g.exitNodes <==> v in vertices && g.nodes[v].dependents == [])
  }

  method Resolve(w: Workflow) returns (g: Graph)
    ensures Represents(g, NodeIds(w.nodes), Dependencies(w))
  {
    var nodes, order := BuildNodes(w.nodes);
    ghost var ids := NodeIds(w.nodes);
    for i := 0 to |w.edges|
      invariant nodes.Keys == ids
      invariant Adjacent(nodes, EdgePairs(w.edges[..i], ids))
    {
      assert w.edges[..i + 1] == w.edges[..i] + [w.edges[i]];
      nodes := ConnectNodes(nodes, w.edges[i], w.edges[..i]);
    }
    assert w.edges[..|w.edges|] == w.edges;
    var entryNodes := SelectNodes(nodes, order, (node: GraphNode) => node.dependencies == []);
    var exitNodes := SelectNodes(nodes, order, (node: GraphNode) => node.dependents == []);
    g := Graph(nodes, order, entryNodes, exitNodes);
  }

  method BuildNodes(definitions: seq<WorkflowNode>) returns (nodes: map<string, GraphNode>, order: seq<string>)
    ensures nodes.Keys == NodeIds(definitions)
    ensures forall v :: v in nodes ==> nodes[v] == GraphNode([], [])
    ensures Distinct(order) && (forall v :: v in order <==> v in nodes)
  {
    nodes, order := map[], [];
    for i := 0 to |definitions|
      invariant nodes.Keys == NodeIds(definitions[..i])
      invariant forall v :: v in nodes ==> nodes[v] == GraphNode([], [])
      invariant Distinct(order) && (forall v :: v in order <==> v in nodes)
    {
      var id := definitions[i].id;
      if id !in nodes { order := order + [id]; }
      nodes := nodes[id := GraphNode([], [])];
      assert definitions[..i + 1] == definitions[..i] + [definitions[i]];
    }
    assert definitions[..|definitions|] == definitions;
  }

  /** Records one edge on both of its ends, unless an end is unknown or the pair is already there. */
  method ConnectNodes(nodes0: map<string, GraphNode>, edge: WorkflowEdge, ghost earlier: seq<WorkflowEdge>)
    returns (nodes: map<string, GraphNode>)
    requires Adjacent(nodes0, EdgePairs(earlier, nodes0.Keys))
    ensures nodes.Keys == nodes0.Keys
    ensures Adjacent(nodes, EdgePairs(earlier + [edge], nodes.Keys))
  {
    nodes := nodes0;
    var source, target := edge.source, edge.target;
    ghost var before := EdgePairs(earlier, nodes0.Keys);
    ghost var after := EdgePairs(earlier + [edge], nodes0.Keys);
    if source in nodes && target in nodes {
      assert after == before + {(source, target)};
      var node := nodes[target];
      if source !in node.dependencies {
        nodes := nodes[target := node.(dependencies := node.dependencies + [source])];
      }
      forall v | v in nodes
        ensures Distinct(nodes[v].dependencies)
        ensures forall u :: u in nodes[v].dependencies <==> (u, v) in after
      {}
      node := nodes[source];
      if target !in node.dependents {
        nodes := nodes[source := node.(dependents := node.dependents + [target])];
      }
    } else {
      assert after == before;
    }
  }

  method SelectNodes(nodes: map<string, GraphNode>, order: seq<string>, keep: GraphNode -> bool)
    returns (selected: seq<string>)
    requires forall v :: v in order ==> v in nodes
    requires Distinct(order)
    ensures Distinct(selected)
    ensures forall v :: v in selected <==> v in order && keep(nodes[v])
  {
    selected := [];
    for i := 0 to |order|
      invariant Distinct(selected)
      invariant forall v :: v in selected <==> v in order[..i] && keep(nodes[v])
    {
      assert order[..i + 1] == order[..i] + [order[i]];
      assert order[i] !in order[..i];
      if keep(nodes[order[i]]) { selected := selected + [order[i]]; }
    }
    assert order[..|order|] == order;
  }

  // ----- layering -----

  ghost function SetOf(s: seq<string>): set<string> {
    set x | x in s
  }

  /** The nodes whose dependencies are all completed. */
  ghost function Enabled(nodes: map<string, GraphNode>, completed: set<string>): set<string> {
    set v | v in nodes && forall u :: u in nodes[v].dependencies ==> u in completed
  }

  /** What the first k rounds complete: a round completes every node whose dependencies earlier rounds completed. */
  ghost function Done(nodes: map<string, GraphNode>, k: nat): set<string> {
    if k == 0 then {} else Enabled(nodes, Done(nodes, k - 1))
  }

  lemma {:induction false} DoneStaysPut(nodes: map<string, GraphNode>, j: nat, k: nat)
    requires j <= k && Done(nodes, j) == Done(nodes, j + 1)
    ensures Done(nodes, k) == Done(nodes, j)
    decreases k
  {
    if j == k {
    } else {
      DoneStaysPut(nodes, j, k - 1);
    }
  }

  /** The first k rounds complete exactly the vertices with no chain of k edges into them. */
  lemma {:induction false} DoneMeansShortChains(g: Graph, vertices: set<string>, edges: Edges, k: nat, v: string)
    requires Represents(g, vertices, edges) && v in vertices
    ensures v in Done(g.nodes, k) <==> !ChainInto(edges, v, k)
    decreases k
  {
    if k == 0 {
      ChainZero(edges, v);
    } else if ChainInto(edges, v, k) {
      var u := ChainSplit(edges, v, k - 1);
      DoneMeansShortChains(g, vertices, edges, k - 1, u);
      assert u in g.nodes[v].dependencies;
    } else {
      forall u | u in g.nodes[v].dependencies ensures u in Done(g.nodes, k - 1) {
        assert (u, v) in edges;
        if ChainInto(edges, u, k - 1) { ChainExtend(edges, u, v, k - 1); }
        DoneMeansShortChains(g, vertices, edges, k - 1, u);
      }
    }
  }

  /** The round that starts with `completed`: no repetitions, and exactly the nodes it adds. */
  ghost predicate IsRound(nodes: map<string, GraphNode>, completed: set<string>, level: seq<string>) {
    Distinct(level) && SetOf(level) == Enabled(nodes, completed) - completed
  }

  /** Layer k of the layering: no repetitions, and exactly the vertices whose longest chain has k edges. */
  ghost predicate IsLayer(vertices: set<string>, edges: Edges, k: nat, layer: seq<string>) {
    Distinct(layer) && forall v :: v in layer <==> v in vertices && LongestChain(edges, v, k)
  }

  lemma RoundIsLayer(g: Graph, vertices: set<string>, edges: Edges, k: nat, level: seq<string>)
    requires Represents(g, vertices, edges) && IsNumberedRound(g.nodes, k, level)
    ensures IsLayer(vertices, edges, k, level)
  {
    forall v ensures v in level <==> v in vertices && LongestChain(edges, v, k) {
      assert v in level <==> v in SetOf(level);
      if v in vertices {
        DoneMeansShortChains(g, vertices, edges, k, v);
        DoneMeansShortChains(g, vertices, edges, k + 1, v);
      }
    }
  }

  /** Kahn's algorithm: layers of nodes that can run in parallel. */
  method TopologicalSort(g: Graph, ghost vertices: set<string>, ghost edges: Edges) returns (result: seq<seq<string>>)
    requires Represents(g, vertices, edges)
    ensures forall k :: 0 <= k < |result| ==> IsLayer(vertices, edges, k, result[k]) && result[k] != []
    ensures forall v, k: nat :: v in vertices && LongestChain(edges, v, k) ==> k < |result|
    ensures Acyclic(edges) <==> forall v :: v in vertices ==> exists k :: 0 <= k < |result| && v in result[k]
  {
    AdjacentIsMirrored(g.nodes, edges);
    result := KahnLayers(g);
    forall k | 0 <= k < |result| ensures IsLayer(vertices, edges, k, result[k]) {
      RoundIsLayer(g, vertices, edges, k, result[k]);
    }
    LayersAreComplete(g, vertices, edges, result);
  }

  /** In a layering nothing is left out unless it hangs behind a cycle. */
  lemma LayersAreComplete(g: Graph, vertices: set<string>, edges: Edges, layers: seq<seq<string>>)
    requires Represents(g, vertices, edges)
    requires forall k :: 0 <= k < |layers| ==> IsLayer(vertices, edges, k, layers[k])
    requires Done(g.nodes, |layers|) == Done(g.nodes, |layers| + 1)
    ensures forall v, k: nat :: v in vertices && LongestChain(edges, v, k) ==> k < |layers|
    ensures Acyclic(edges) <==> forall v :: v in vertices ==> exists k :: 0 <= k < |layers| && v in layers[k]
  {
    var n := |layers|;
    forall v, k: nat | v in vertices && LongestChain(edges, v, k) ensures k < n {
      if n <= k { NoLayerBeyond(g, vertices, edges, n, k, v); }
    }
    if Acyclic(edges) {
      AcyclicEmitsAll(vertices, edges, layers);
    }
    if forall v :: v in vertices ==> exists k :: 0 <= k < n && v in layers[k] {
      EmittingAllIsAcyclic(vertices, edges, layers);
    }
  }

  lemma AcyclicEmitsAll(vertices: set<string>, edges: Edges, layers: seq<seq<string>>)
    requires Within(edges, vertices) && Acyclic(edges)
    requires forall k :: 0 <= k < |layers| ==> IsLayer(vertices, edges, k, layers[k])
    requires forall v, k: nat :: v in vertices && LongestChain(edges, v, k) ==> k < |layers|
    ensures forall v :: v in vertices ==> exists k :: 0 <= k < |layers| && v in layers[k]
  {
    forall v | v in vertices ensures exists k :: 0 <= k < |layers| && v in layers[k] {
      AcyclicBoundsChains(edges, vertices, v, |vertices| + 1);
      var k := Height(edges, v, |vertices|);
      assert v in layers[k];
    }
  }

  lemma EmittingAllIsAcyclic(vertices: set<string>, edges: Edges, layers: seq<seq<string>>)
    requires Within(edges, vertices)
    requires forall k :: 0 <= k < |layers| ==> IsLayer(vertices, edges, k, layers[k])
    requires forall v :: v in vertices ==> exists k :: 0 <= k < |layers| && v in layers[k]
    ensures Acyclic(edges)
  {
    forall p ensures !IsClosedWalk(edges, p) {
      if IsClosedWalk(edges, p) {
        assert (p[0], p[1]) in edges;
        var k :| 0 <= k < |layers| && p[0] in layers[k];
        CycleHasLongChains(edges, p, 0, k + 1);
      }
    }
  }

  lemma NoLayerBeyond(g: Graph, vertices: set<string>, edges: Edges, n: nat, k: nat, v: string)
    requires Represents(g, vertices, edges) && v in vertices && n <= k
    requires Done(g.nodes, n) == Done(g.nodes, n + 1)
    ensures !LongestChain(edges, v, k)
  {
    DoneStaysPut(g.nodes, n, k);
    DoneStaysPut(g.nodes, n, k + 1);
    DoneMeansShortChains(g, vertices, edges, k, v);
    DoneMeansShortChains(g, vertices, edges, k + 1, v);
  }

  /** The dependencies of v that have not been processed. */
  ghost function Waiting(nodes: map<string, GraphNode>, processed: set<string>, v: string): set<string>
    requires v in nodes
  {
    set u | u in nodes[v].dependencies && u !in processed
  }

  /** The in-degree of every node is the number of its dependencies still waiting. */
  ghost predicate DegreesCount(nodes: map<string, GraphNode>, inDegree: map<string, int>, processed: set<string>) {
    inDegree.Keys == nodes.Keys && forall v :: v in nodes ==> inDegree[v] == |Waiting(nodes, processed, v)|
  }

  lemma {:induction false} DistinctCount(s: seq<string>)
    requires Distinct(s)
    ensures |SetOf(s)| == |s|
  {
    if s == [] {
    } else {
      var front := s[..|s| - 1];
      DistinctCount(front);
      assert SetOf(s) == SetOf(front) + {s[|s| - 1]};
    }
  }

  lemma NothingWaiting(nodes: map<string, GraphNode>, processed: set<string>, v: string)
    requires v in nodes
    ensures |Waiting(nodes, processed, v)| == 0 <==> v in Enabled(nodes, processed)
  {
    var waiting := Waiting(nodes, processed, v);
    if |waiting| == 0 {
      forall u | u in nodes[v].dependencies ensures u in processed {
        assert u !in waiting;
      }
    } else {
      var u :| u in waiting;
    }
  }

  /** Each list of dependents is the other side of the lists of dependencies. */
  ghost predicate Mirrored(nodes: map<string, GraphNode>) {
    && (forall v :: v in nodes ==> Distinct(nodes[v].dependencies) && Distinct(nodes[v].dependents))
    && (forall u, v :: u in nodes && v in nodes[u].dependents ==> v in nodes && u in nodes[v].dependencies)
    && (forall u, v :: v in nodes && u in nodes[v].dependencies ==> u in nodes && v in nodes[u].dependents)
  }

  lemma AdjacentIsMirrored(nodes: map<string, GraphNode>, edges: Edges)
    requires Adjacent(nodes, edges) && Within(edges, nodes.Keys)
    ensures Mirrored(nodes)
  {
    forall u, v | u in nodes && v in nodes[u].dependents ensures v in nodes && u in nodes[v].dependencies {
      assert (u, v) in edges;
    }
    forall u, v | v in nodes && u in nodes[v].dependencies ensures u in nodes && v in nodes[u].dependents {
      assert (u, v) in edges;
    }
  }

  /** Processing a node shrinks what its dependents wait for by one, and nothing else. */
  lemma DegreesAfter(nodes: map<string, GraphNode>, processed: set<string>, u: string,
      before: map<string, int>, after: map<string, int>)
    requires Mirrored(nodes)
    requires u in nodes && u !in processed
    requires DegreesCount(nodes, before, processed)
    requires after.Keys == before.Keys
    requires forall v :: v in before ==> after[v] == before[v] - if v in nodes[u].dependents then 1 else 0
    ensures DegreesCount(nodes, after, processed + {u})
  {
    forall v | v in nodes ensures after[v] == |Waiting(nodes, processed + {u}, v)| {
      WaitingShrinks(nodes, processed, u, v);
    }
  }

  lemma WaitingShrinks(nodes: map<string, GraphNode>, processed: set<string>, u: string, v: string)
    requires v in nodes && u !in processed
    ensures |Waiting(nodes, processed + {u}, v)|
      == |Waiting(nodes, processed, v)| - if u in nodes[v].dependencies then 1 else 0
  {
    if u in nodes[v].dependencies {
      assert Waiting(nodes, processed, v) == Waiting(nodes, processed + {u}, v) + {u};
    } else {
      assert Waiting(nodes, processed, v) == Waiting(nodes, processed + {u}, v);
    }
  }

  ghost predicate IsNumberedRound(nodes: map<string, GraphNode>, k: nat, level: seq<string>) {
    IsRound(nodes, Done(nodes, k), level)
  }

  ghost predicate RoundsSoFar(nodes: map<string, GraphNode>, layers: seq<seq<string>>) {
    forall k :: 0 <= k < |layers| ==> IsNumberedRound(nodes, k, layers[k]) && layers[k] != []
  }

  ghost predicate HasEntries(g: Graph) {
    Distinct(g.entryNodes) && forall v :: v in g.entryNodes <==> v in g.nodes && g.nodes[v].dependencies == []
  }

  method KahnLayers(g: Graph) returns (result: seq<seq<string>>)
    requires Mirrored(g.nodes) && HasEntries(g)
    ensures RoundsSoFar(g.nodes, result)
    ensures Done(g.nodes, |result|) == Done(g.nodes, |result| + 1)
  {
    result := [];
    var inDegree: map<string, int> := map v | v in g.nodes :: |g.nodes[v].dependencies|;
    var visited: set<string> := {};
    var currentLevel := g.entryNodes;
    FirstLevel(g, inDegree);
    while |currentLevel| > 0
      invariant visited == Done(g.nodes, |result|)
      invariant LevelState(g.nodes, visited, inDegree, currentLevel)
      invariant RoundsSoFar(g.nodes, result)
      decreases |g.nodes.Keys - visited|
    {
      RoundEnds(g.nodes, result, visited, inDegree, currentLevel);
      result := result + [currentLevel];
      visited, inDegree, currentLevel := NextLevel(g.nodes, visited, inDegree, currentLevel);
    }
    LastRound(g.nodes, result, visited, inDegree);
  }

  /** What holds between rounds. */
  ghost predicate LevelState(nodes: map<string, GraphNode>, visited: set<string>, inDegree: map<string, int>,
      level: seq<string>)
  {
    && visited <= Enabled(nodes, visited)
    && IsRound(nodes, visited, level)
    && DegreesCount(nodes, inDegree, visited)
  }

  lemma RoundEnds(nodes: map<string, GraphNode>, layers: seq<seq<string>>, completed: set<string>,
      inDegree: map<string, int>, level: seq<string>)
    requires RoundsSoFar(nodes, layers) && completed == Done(nodes, |layers|)
    requires LevelState(nodes, completed, inDegree, level) && level != []
    ensures RoundsSoFar(nodes, layers + [level])
    ensures Enabled(nodes, completed) == Done(nodes, |layers + [level]|)
    ensures |nodes.Keys - Enabled(nodes, completed)| < |nodes.Keys - completed|
  {
    RoundShrinksTheRest(nodes, completed, level);
    DoneNext(nodes, |layers|);
    assert IsNumberedRound(nodes, |layers|, level);
    RoundsExtend(nodes, layers, level);
  }

  lemma RoundsExtend(nodes: map<string, GraphNode>, layers: seq<seq<string>>, level: seq<string>)
    requires RoundsSoFar(nodes, layers) && IsNumberedRound(nodes, |layers|, level) && level != []
    ensures RoundsSoFar(nodes, layers + [level])
  {
  }

  lemma DoneNext(nodes: map<string, GraphNode>, k: nat)
    ensures Done(nodes, k + 1) == Enabled(nodes, Done(nodes, k))
  {
  }

  lemma RoundShrinksTheRest(nodes: map<string, GraphNode>, completed: set<string>, level: seq<string>)
    requires IsRound(nodes, completed, level) && level != []
    requires completed <= Enabled(nodes, completed)
    ensures |nodes.Keys - Enabled(nodes, completed)| < |nodes.Keys - completed|
  {
    assert level[0] in SetOf(level);
    ProperSubsetIsSmaller(nodes.Keys - Enabled(nodes, completed), nodes.Keys - completed);
  }

  lemma LastRound(nodes: map<string, GraphNode>, layers: seq<seq<string>>, completed: set<string>,
      inDegree: map<string, int>)
    requires LevelState(nodes, completed, inDegree, []) && completed == Done(nodes, |layers|)
    ensures Done(nodes, |layers|) == Done(nodes, |layers| + 1)
  {
    assert SetOf([]) == {};
  }

  lemma FirstLevel(g: Graph, inDegree: map<string, int>)
    requires HasEntries(g)
    requires forall v :: v in g.nodes ==> Distinct(g.nodes[v].dependencies)
    requires inDegree.Keys == g.nodes.Keys
    requires forall v :: v in g.nodes ==> inDegree[v] == |g.nodes[v].dependencies|
    ensures LevelState(g.nodes, {}, inDegree, g.entryNodes)
  {
    forall v | v in g.nodes
      ensures inDegree[v] == |Waiting(g.nodes, {}, v)|
      ensures v in g.entryNodes <==> v in Enabled(g.nodes, {})
    {
      DistinctCount(g.nodes[v].dependencies);
      assert Waiting(g.nodes, {}, v) == SetOf(g.nodes[v].dependencies);
      NothingWaiting(g.nodes, {}, v);
    }
  }

  /** Which nodes a round has queued: those that wait for nothing and were not emitted before. */
  ghost predicate Queued(level: seq<string>, inDegree: map<string, int>, emitted: set<string>) {
    Distinct(level) && forall v :: v in level <==> v in inDegree && v !in emitted && inDegree[v] == 0
  }

  /** One round: every node of the current level is visited and its dependents lose a dependency. */
  method NextLevel(nodes: map<string, GraphNode>, visited0: set<string>, inDegree0: map<string, int>,
      currentLevel: seq<string>)
    returns (visited: set<string>, inDegree: map<string, int>, nextLevel: seq<string>)
    requires Mirrored(nodes)
    requires LevelState(nodes, visited0, inDegree0, currentLevel)
    ensures visited == Enabled(nodes, visited0)
    ensures LevelState(nodes, visited, inDegree, nextLevel)
  {
    visited, inDegree, nextLevel := visited0, inDegree0, [];
    RoundStarts(nodes, visited0, inDegree0, currentLevel);
    for i := 0 to |currentLevel|
      invariant visited == visited0 + SetOf(currentLevel[..i])
      invariant DegreesCount(nodes, inDegree, visited)
      invariant Queued(nextLevel, inDegree, Enabled(nodes, visited0))
    {
      LevelElement(currentLevel, i);
      assert SetOf(currentLevel[..i]) + {currentLevel[i]} <= SetOf(currentLevel);
      visited, inDegree, nextLevel := VisitNode(nodes, visited0, visited, inDegree, nextLevel, currentLevel[i]);
    }
    assert currentLevel[..|currentLevel|] == currentLevel;
    QueuedIsNextRound(nodes, visited, inDegree, nextLevel);
  }

  lemma RoundStarts(nodes: map<string, GraphNode>, visited: set<string>, inDegree: map<string, int>, level: seq<string>)
    requires LevelState(nodes, visited, inDegree, level)
    ensures Queued([], inDegree, Enabled(nodes, visited))
    ensures visited + SetOf(level) == Enabled(nodes, visited)
    ensures forall v :: v in level ==> v in nodes && v !in visited
  {
    forall v | v in nodes && inDegree[v] == 0 ensures v in Enabled(nodes, visited) {
      NothingWaiting(nodes, visited, v);
    }
    forall v | v in level ensures v in SetOf(level) {}
  }

  lemma QueuedIsNextRound(nodes: map<string, GraphNode>, visited: set<string>, inDegree: map<string, int>,
      level: seq<string>)
    requires DegreesCount(nodes, inDegree, visited)
    requires Queued(level, inDegree, visited)
    ensures IsRound(nodes, visited, level)
  {
    forall v ensures v in SetOf(level) <==> v in Enabled(nodes, visited) - visited {
      if v in nodes { NothingWaiting(nodes, visited, v); }
    }
  }

  method VisitNode(nodes: map<string, GraphNode>, ghost completed: set<string>, visited0: set<string>,
      inDegree0: map<string, int>, nextLevel0: seq<string>, node: string)
    returns (visited: set<string>, inDegree: map<string, int>, nextLevel: seq<string>)
    requires Mirrored(nodes)
    requires node in nodes && node !in completed && node !in visited0
    requires visited0 + {node} <= Enabled(nodes, completed)
    requires DegreesCount(nodes, inDegree0, visited0)
    requires Queued(nextLevel0, inDegree0, Enabled(nodes, completed))
    ensures visited == visited0 + {node}
    ensures DegreesCount(nodes, inDegree, visited)
    ensures Queued(nextLevel, inDegree, Enabled(nodes, completed))
  {
    visited := visited0 + {node};
    DependentsComeLater(nodes, completed, visited0, inDegree0, node);
    inDegree, nextLevel :=
      ReleaseDependents(nodes[node].dependents, visited, inDegree0, nextLevel0, Enabled(nodes, completed));
    DegreesAfter(nodes, visited0, node, inDegree0, inDegree);
  }

  lemma LevelElement(level: seq<string>, i: nat)
    requires Distinct(level) && i < |level|
    ensures level[i] in SetOf(level) && level[i] !in SetOf(level[..i])
    ensures SetOf(level[..i + 1]) == SetOf(level[..i]) + {level[i]}
    ensures SetOf(level[..i]) <= SetOf(level)
  {
    assert level[..i + 1] == level[..i] + [level[i]];
  }

  /** The dependents of a node that was not completed still wait for it, so they are in later rounds. */
  lemma DependentsComeLater(nodes: map<string, GraphNode>, completed: set<string>, processed: set<string>,
      inDegree: map<string, int>, node: string)
    requires Mirrored(nodes)
    requires node in nodes && node !in completed && node !in processed
    requires DegreesCount(nodes, inDegree, processed)
    ensures forall v :: v in nodes[node].dependents ==>
      v in inDegree && v !in Enabled(nodes, completed) && inDegree[v] > 0
  {
    forall v | v in nodes[node].dependents
      ensures v in inDegree && v !in Enabled(nodes, completed) && inDegree[v] > 0
    {
      assert node in Waiting(nodes, processed, v);
    }
  }

  method ReleaseDependents(dependents: seq<string>, visited: set<string>, inDegree0: map<string, int>,
      nextLevel0: seq<string>, ghost emitted: set<string>)
    returns (inDegree: map<string, int>, nextLevel: seq<string>)
    requires Distinct(dependents)
    requires forall v :: v in dependents ==> v in inDegree0 && v !in emitted && inDegree0[v] > 0
    requires visited <= emitted
    requires Queued(nextLevel0, inDegree0, emitted)
    ensures inDegree.Keys == inDegree0.Keys
    ensures forall v :: v in inDegree0 ==> inDegree[v] == inDegree0[v] - if v in dependents then 1 else 0
    ensures Queued(nextLevel, inDegree, emitted)
  {
    inDegree, nextLevel := inDegree0, nextLevel0;
    for j := 0 to |dependents|
      invariant inDegree.Keys == inDegree0.Keys
      invariant forall v :: v in inDegree0 ==> inDegree[v] == inDegree0[v] - if v in dependents[..j] then 1 else 0
      invariant Queued(nextLevel, inDegree, emitted)
    {
      var dependentId := dependents[j];
      assert dependents[..j + 1] == dependents[..j] + [dependentId];
      assert dependentId !in dependents[..j] && dependentId in dependents;
      var degree := inDegree[dependentId];
      inDegree := inDegree[dependentId := degree - 1];
      if degree - 1 == 0 && dependentId !in visited {
        nextLevel := nextLevel + [dependentId];
      }
    }
    assert dependents[..|dependents|] == dependents;
  }

  // ----- parallel nodes -----

  /** The nodes that are not completed and whose dependencies all are. */
  method GetParallelNodes(g: Graph, completed: set<string>) returns (result: seq<string>)
    requires forall v :: v in g.order ==> v in g.nodes
    ensures forall v :: v in result <==>
      v in g.order && v !in completed && forall u :: u in g.nodes[v].dependencies ==> u in completed
    ensures Distinct(g.order) ==> Distinct(result)
  {
    result := [];
    for i := 0 to |g.order|
      invariant forall v :: v in result <==>
        v in g.order[..i] && v !in completed && forall u :: u in g.nodes[v].dependencies ==> u in completed
      invariant Distinct(g.order) ==> Distinct(result)
    {
      var nodeId := g.order[i];
      assert g.order[..i + 1] == g.order[..i] + [nodeId];
      if nodeId !in completed && forall u :: u in g.nodes[nodeId].dependencies ==> u in completed {
        result := result + [nodeId];
      }
    }
    assert g.order[..|g.order|] == g.order;
  }

  /** Everything in the first k layers. */
  ghost function Emitted(layers: seq<seq<string>>, k: nat): set<string>
    requires k <= |layers|
  {
    set i, v | 0 <= i < k && v in layers[i] :: v
  }

  /** Feeding the completed layers back into GetParallelNodes yields the next layer of the sort, and nothing
      once all layers are done. */
  lemma ParallelNodesAreTheNextLayer(g: Graph, vertices: set<string>, edges: Edges, layers: seq<seq<string>>, k: nat,
      parallel: seq<string>)
    requires Represents(g, vertices, edges)
    requires forall i :: 0 <= i < |layers| ==> IsLayer(vertices, edges, i, layers[i])
    requires forall v, i: nat :: v in vertices && LongestChain(edges, v, i) ==> i < |layers|
    requires k <= |layers|
    requires forall v :: v in parallel <==>
      v in g.order && v !in Emitted(layers, k) &&
      forall u :: u in g.nodes[v].dependencies ==> u in Emitted(layers, k)
    ensures SetOf(parallel) == if k < |layers| then SetOf(layers[k]) else {}
  {
    forall v | v in vertices ensures v in Emitted(layers, k) <==> !ChainInto(edges, v, k) {
      EmittedMeansShortChains(vertices, edges, layers, k, v);
    }
    forall v ensures v in parallel <==> k < |layers| && v in layers[k] {
      if v in vertices {
        if ChainInto(edges, v, k + 1) {
          var u := ChainSplit(edges, v, k);
          assert u in g.nodes[v].dependencies && u !in Emitted(layers, k);
        } else {
          forall u | u in g.nodes[v].dependencies ensures u in Emitted(layers, k) {
            assert (u, v) in edges;
            if ChainInto(edges, u, k) { ChainExtend(edges, u, v, k); }
          }
        }
        assert v in parallel <==> LongestChain(edges, v, k);
      }
    }
    assert forall v :: v in SetOf(parallel) <==> v in parallel;
  }

  lemma EmittedMeansShortChains(vertices: set<string>, edges: Edges, layers: seq<seq<string>>, k: nat, v: string)
    requires forall i :: 0 <= i < |layers| ==> IsLayer(vertices, edges, i, layers[i])
    requires k <= |layers| && v in vertices
    ensures v in Emitted(layers, k) <==> !ChainInto(edges, v, k)
  {
    if v in Emitted(layers, k) {
      var i :| 0 <= i < k && v in layers[i];
      if ChainInto(edges, v, k) { ChainShorter(edges, v, k, i + 1); }
    }
    if !ChainInto(edges, v, k) {
      ChainZero(edges, v);
      var i := Height(edges, v, k - 1);
      if i >= k { ChainShorter(edges, v, i, k); }
      assert v in layers[i];
    }
  }
}
